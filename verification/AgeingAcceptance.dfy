/** Which packets `age_dns_response` of dns_packet.cpp accepts: exactly when, and when in any case. */
module AgeingAcceptance {
  import opened Bytes
  import opened DnsName
  import opened DnsQuestion
  import opened DnsAgeing
  import opened DnsResponse
  import opened ResponseMeaning

  /** Where the `k`-th record starts, by the bytes in place. */
  ghost function Start(p: Packet, k: nat): (at: nat)
    requires QuestionOf(p).Ok?
  {
    Layout(p, QuestionOf(p).value.end, k).1
  }

  /** A reply with at most 4096 records, each of them inside the packet, which they fill. */
  ghost predicate Fillable(p: Packet)
    requires QuestionOf(p).Ok?
  {
    && |p| >= 12 && QuestionOf(p).value.flags / 0x8000 % 2 == 1 && Word(p, 6) + Word(p, 8) + Word(p, 10) <= 4096
    && |RecordLayout(p).0| == RecordCount(p) && RecordLayout(p).1 == |p|
    && (forall k :: 0 <= k < |RecordLayout(p).0| ==> RecordLayout(p).0[k].Next() <= |p|)
  }

  /** Each owner name can be read once the TTLs in front of it are lowered. */
  ghost predicate NamesReadLowered(p: Packet, elapsed: nat)
    requires QuestionOf(p).Ok?
  {
    var slots := RecordLayout(p).0;
    && AllInside(slots, |p|)
    && forall k :: 0 <= k < |slots| ==> NameAt(Rewrite(p, slots[..k], Lower(elapsed)), Start(p, k)).Ok?
  }

  // ---- One round ----

  lemma SlotExactly(x: Packet, at: nat)
    ensures SlotAt(x, at).Ok? <==>
              && NameAt(x, at).Ok? && NameEnd(x, at) + 10 <= |x|
              && NameEnd(x, at) + 10 + Word(x, NameEnd(x, at) + 8) <= |x|
  {
    hide NameText;
    hide NameEnd;
    hide Word;
  }

  /** Bytes behind the cursor are the same, so the two packets have the same record there, if it is inside. */
  lemma SameRoom(p: Packet, x: Packet, at: nat)
    requires |p| == |x| && Agree(p, x, at, |p|)
    ensures NameEnd(x, at) == NameEnd(p, at)
    ensures NameEnd(p, at) + 10 <= |p| ==> Word(x, NameEnd(x, at) + 8) == Word(p, NameEnd(p, at) + 8)
  {
    hide NameEnd;
    hide Word;
    EndIsLocal(p, x, at);
    if NameEnd(p, at) + 10 <= |p| {
      SameWord(p, x, NameEnd(p, at) + 8);
    }
  }

  /** The first `n` rounds succeed: their records are inside, and their names can be read once lowered. */
  ghost predicate RoundsSucceed(p: Packet, from: nat, n: nat, elapsed: nat)
  {
    var slots := Layout(p, from, n).0;
    && |slots| == n && AllInside(slots, |p|)
    && forall k :: 0 <= k < n ==>
         slots[k].Next() <= |p| && NameAt(Rewrite(p, slots[..k], Lower(elapsed)), Layout(p, from, k).1).Ok?
  }

  /** One more round. */
  lemma RoundExactly(p: Packet, from: nat, n: nat, elapsed: nat)
    requires from <= |p| && Aged(p, from, n, elapsed).Ok?
    ensures var (slots, at) := Layout(p, from, n);
            && |slots| == n && AllInside(slots, |p|)
            && (Aged(p, from, n + 1, elapsed).Ok? <==>
                  && NameAt(Rewrite(p, slots, Lower(elapsed)), at).Ok?
                  && |Layout(p, from, n + 1).0| == n + 1 && Layout(p, from, n + 1).0[n].Next() <= |p|)
  {
    hide NameAt;
    hide NameEnd;
    hide Word;
    hide Rewrite;
    hide RewriteSlot;
    AgedLaw(p, from, n, elapsed);
    var slots, at := Layout(p, from, n).0, Layout(p, from, n).1;
    var x := Rewrite(p, slots, Lower(elapsed));
    SlotExactly(x, at);
    SameRoom(p, x, at);
    hide SlotAt;
  }

  lemma RoundsSnoc(p: Packet, from: nat, n: nat, elapsed: nat)
    requires |Layout(p, from, n).0| == n && AllInside(Layout(p, from, n).0, |p|)
    ensures RoundsSucceed(p, from, n + 1, elapsed) <==>
              && RoundsSucceed(p, from, n, elapsed)
              && |Layout(p, from, n + 1).0| == n + 1 && Layout(p, from, n + 1).0[n].Next() <= |p|
              && NameAt(Rewrite(p, Layout(p, from, n).0, Lower(elapsed)), Layout(p, from, n).1).Ok?
  {
    hide NameAt;
    hide Layout;
    hide Rewrite;
    var slots, more := Layout(p, from, n).0, Layout(p, from, n + 1).0;
    LayoutOrdered(p, from, n + 1);
    if |more| == n + 1 {
      LayoutPrefix(p, from, n, n + 1);
      assert forall k :: 0 <= k < n ==> more[k] == slots[k] && more[..k] == slots[..k];
    }
  }

  lemma {:induction false} AgedExactly(p: Packet, from: nat, n: nat, elapsed: nat)
    requires from <= |p|
    ensures Aged(p, from, n, elapsed).Ok? <==> RoundsSucceed(p, from, n, elapsed)
  {
    hide RoundsSucceed;
    hide Aged;
    hide Layout;
    hide Rewrite;
    hide NameAt;
    if n == 0 {
      NoRounds(p, from, elapsed);
    } else {
      AgedExactly(p, from, n - 1, elapsed);
      if Aged(p, from, n - 1, elapsed).Ok? {
        RoundExactly(p, from, n - 1, elapsed);
        RoundsSnoc(p, from, n - 1, elapsed);
      } else {
        AgedFails(p, from, n - 1, n, elapsed);
        if RoundsSucceed(p, from, n, elapsed) {
          FewerRounds(p, from, n, elapsed);
        }
      }
    }
  }

  lemma NoRounds(p: Packet, from: nat, elapsed: nat)
    ensures Aged(p, from, 0, elapsed).Ok? && RoundsSucceed(p, from, 0, elapsed)
  {
  }

  lemma FewerRounds(p: Packet, from: nat, n: nat, elapsed: nat)
    requires n > 0 && RoundsSucceed(p, from, n, elapsed)
    ensures RoundsSucceed(p, from, n - 1, elapsed)
  {
    hide Layout;
    hide Rewrite;
    hide NameAt;
    LayoutPrefix(p, from, n - 1, n);
    LayoutOrdered(p, from, n - 1);
    var slots, more := Layout(p, from, n - 1).0, Layout(p, from, n).0;
    assert forall k :: 0 <= k < n - 1 ==> slots[k] == more[k] && slots[..k] == more[..k];
  }

  // ---- The header ----

  /** Neither layout nor names look at the bytes of the ID. */
  lemma {:induction false} RewriteWithId(p: Packet, id: nat, slots: seq<Slot>, rule: TtlRule)
    requires |p| >= 12 && id < 0x1_0000 && AllInside(slots, |p|) && rule.Fits()
    requires forall k :: 0 <= k < |slots| ==> slots[k].at >= 12
    ensures Agree(Rewrite(p, slots, rule), Rewrite(WithId(p, id), slots, rule), 12, |p|)
  {
    hide Dword;
    if slots != [] {
      var rest, last := slots[..|slots| - 1], slots[|slots| - 1];
      RewriteWithId(p, id, rest, rule);
      SameRewrite(Rewrite(p, rest, rule), Rewrite(WithId(p, id), rest, rule), last, rule);
    }
  }

  lemma SameRewrite(x: Packet, y: Packet, s: Slot, rule: TtlRule)
    requires |x| == |y| && s.at >= 12 && s.at + 8 <= |x| && rule.Fits() && Agree(x, y, 12, |x|)
    ensures Agree(RewriteSlot(x, s, rule), RewriteSlot(y, s, rule), 12, |x|)
  {
    hide Dword;
    SameDword(x, y, s.at + 4);
  }

  /** Names behind the header do not depend on it. */
  lemma SameName(x: Packet, y: Packet, at: nat)
    requires |x| == |y| && at >= 12 && Agree(x, y, 12, |x|)
    ensures NameAt(x, at).Ok? <==> NameAt(y, at).Ok?
  {
    if NameAt(x, at).Ok? {
      EndInside(x, at, 0, "");
      NameAtIsLocal(x, y, at);
    }
    if NameAt(y, at).Ok? {
      EndInside(y, at, 0, "");
      NameAtIsLocal(y, x, at);
    }
  }

  lemma RoundsWithId(p: Packet, id: nat, from: nat, n: nat, elapsed: nat)
    requires 12 <= from <= |p| && id < 0x1_0000
    ensures RoundsSucceed(WithId(p, id), from, n, elapsed) <==> RoundsSucceed(p, from, n, elapsed)
  {
    hide Layout;
    hide Rewrite;
    hide NameAt;
    var q := WithId(p, id);
    LayoutLocal(p, q, from, n);
    LayoutOrdered(p, from, n);
    var slots := Layout(p, from, n).0;
    if |slots| == n {
      forall k | 0 <= k < n
        ensures NameAt(Rewrite(p, slots[..k], Lower(elapsed)), Layout(p, from, k).1).Ok?
           <==> NameAt(Rewrite(q, slots[..k], Lower(elapsed)), Layout(q, from, k).1).Ok?
      {
        LayoutLocal(p, q, from, k);
        LayoutOrdered(p, from, k);
        RewriteWithId(p, id, slots[..k], Lower(elapsed));
        SameName(Rewrite(p, slots[..k], Lower(elapsed)), Rewrite(q, slots[..k], Lower(elapsed)), Layout(p, from, k).1);
      }
    }
  }

  /**
   A packet is aged exactly when it is a reply whose records are inside it and fill it, and each owner name can be read with
   the TTLs in front of it lowered.
   */
  lemma AgedExactlyWhen(p: Packet, id: nat, elapsed: nat)
    requires id < 0x1_0000
    ensures AgedResponse(p, id, elapsed).Ok? <==> QuestionOf(p).Ok? && Fillable(p) && NamesReadLowered(p, elapsed)
    ensures QuestionOf(p).Ok? && AgedResponse(p, id, elapsed).Err? ==> AgedResponse(p, id, elapsed).code == "DNS_MALFORMED"
  {
    hide QuestionOf;
    hide Aged;
    hide Layout;
    hide Rewrite;
    hide NameAt;
    if QuestionOf(p).Ok? {
      QuestionShape(p);
      var from, n := QuestionOf(p).value.end, RecordCount(p);
      AgedExactly(WithId(p, id), from, n, elapsed);
      RoundsWithId(p, id, from, n, elapsed);
      LayoutLocal(p, WithId(p, id), from, n);
      if Aged(WithId(p, id), from, n, elapsed).Ok? {
        AgedLaw(WithId(p, id), from, n, elapsed);
      }
    }
  }

  // ---- Acceptance that can be seen beforehand ----

  /** Reading the name at `at`, with `hops` reads spent, looks at byte `i`. */
  ghost predicate Looks(p: Packet, at: nat, hops: nat, i: nat)
    requires hops <= 128
    decreases 128 - hops
  {
    hops < 128 &&
    match PieceAt(p, at)
    case Bad => false
    case Root => i == at
    case Pointer(target) => at <= i < at + 2 || Looks(p, target, hops + 1, i)
    case Label(_, next) => at <= i < next || Looks(p, next, hops + 1, i)
  }

  lemma SamePiece(p: Packet, q: Packet, at: nat)
    requires |p| == |q| && PieceAt(p, at) != Bad
    requires match PieceAt(p, at)
             case Bad => true
             case Root => q[at] == p[at]
             case Pointer(_) => q[at] == p[at] && q[at + 1] == p[at + 1]
             case Label(_, next) => forall i :: at <= i < next && i < |p| ==> q[i] == p[i]
    ensures PieceAt(q, at) == PieceAt(p, at)
  {
    if PieceAt(p, at).Label? {
      SameLabel(p, q, at + 1, at + 1 + p[at]);
    }
  }

  /** A name that can be read is read the same where the bytes it looks at are the same. */
  lemma {:induction false} LooksTell(p: Packet, q: Packet, at: nat, hops: nat, text: string)
    requires hops <= MAX_HOPS && |p| == |q| && NameText(p, at, hops, text).Ok?
    requires forall i :: 0 <= i < |p| && Looks(p, at, hops, i) ==> q[i] == p[i]
    ensures NameText(q, at, hops, text) == NameText(p, at, hops, text)
    decreases MAX_HOPS - hops
  {
    hide HostBytes;
    hide LabelText;
    NameStep(p, at, hops, text);
    PieceRoom(p, at);
    forall i | 0 <= i < |p| && (at == i || (PieceAt(p, at).Pointer? && i == at + 1) || (PieceAt(p, at).Label? && at <= i < PieceAt(p, at).next))
      ensures q[i] == p[i]
    {
      assert Looks(p, at, hops, i);
    }
    SamePiece(p, q, at);
    NameStep(q, at, hops, text);
    hide PieceAt;
    match PieceAt(p, at)
    case Bad =>
    case Root =>
    case Pointer(target) => LooksTell(p, q, target, hops + 1, text);
    case Label(part, next) => LooksTell(p, q, next, hops + 1, Dotted(text) + part);
  }

  lemma PieceRoom(p: Packet, at: nat)
    ensures PieceAt(p, at) != Bad ==> at < |p|
    ensures PieceAt(p, at).Pointer? ==> at + 1 < |p|
    ensures PieceAt(p, at).Label? ==> at < PieceAt(p, at).next <= |p|
  {
  }

  /** No owner name leads into the TTL of a record in front of it. */
  ghost predicate NamesAvoidTtls(p: Packet)
    requires QuestionOf(p).Ok?
  {
    var slots := RecordLayout(p).0;
    forall j, k, i :: 0 <= j < k < |slots| && 0 <= i < |p| && Looks(p, Start(p, k), 0, i) ==> !slots[j].Rewrites(i)
  }

  ghost predicate NamesRead(p: Packet)
    requires QuestionOf(p).Ok?
  {
    forall k :: 0 <= k < |RecordLayout(p).0| ==> NameAt(p, Start(p, k)).Ok?
  }

  /** A reply that can be read is aged by any time, as long as no owner name leads into a TTL in front of it. */
  lemma AgedWhereNamesAvoid(p: Packet, id: nat, elapsed: nat)
    requires id < 0x1_0000 && QuestionOf(p).Ok? && Fillable(p) && NamesRead(p) && NamesAvoidTtls(p)
    ensures AgedResponse(p, id, elapsed).Ok?
  {
    hide QuestionOf;
    hide Layout;
    hide Rewrite;
    hide AgedResponse;
    hide NameText;
    hide NameEnd;
    hide Looks;
    AgedExactlyWhen(p, id, elapsed);
    var slots := RecordLayout(p).0;
    LayoutOrdered(p, QuestionOf(p).value.end, RecordCount(p));
    forall k | 0 <= k < |slots|
      ensures NameAt(Rewrite(p, slots[..k], Lower(elapsed)), Start(p, k)).Ok?
    {
      var x := Rewrite(p, slots[..k], Lower(elapsed));
      forall i | 0 <= i < |p| && Looks(p, Start(p, k), 0, i)
        ensures x[i] == p[i]
      {
        assert forall j :: 0 <= j < |slots[..k]| ==> !slots[..k][j].Rewrites(i);
        RewriteKeepsByte(p, slots[..k], Lower(elapsed), i);
      }
      LooksTell(p, x, Start(p, k), 0, "");
    }
  }

  /** Lowering by nothing changes nothing. */
  lemma {:induction false} LoweredByNothing(p: Packet, slots: seq<Slot>)
    requires AllInside(slots, |p|)
    ensures Rewrite(p, slots, Lower(0)) == p
  {
    hide Dword;
    if slots != [] {
      LoweredByNothing(p, slots[..|slots| - 1]);
      SameTtl(p, slots[|slots| - 1]);
    }
  }

  lemma SameTtl(p: Packet, s: Slot)
    requires s.at + 8 <= |p|
    ensures RewriteSlot(p, s, Lower(0)) == p
  {
    var r := RewriteSlot(p, s, Lower(0));
    if s.kind != OPT {
      SameBytes(p, r, s.at + 4);
    }
    assert forall i :: 0 <= i < |p| ==> r[i] == p[i];
  }

  lemma AgedByNothing(p: Packet, id: nat)
    requires id < 0x1_0000 && QuestionOf(p).Ok? && Fillable(p) && NamesRead(p)
    ensures AgedResponse(p, id, 0).Ok?
  {
    hide QuestionOf;
    hide Layout;
    hide Rewrite;
    hide AgedResponse;
    hide NameAt;
    AgedExactlyWhen(p, id, 0);
    var slots := RecordLayout(p).0;
    LayoutOrdered(p, QuestionOf(p).value.end, RecordCount(p));
    forall k | 0 <= k < |slots|
      ensures NameAt(Rewrite(p, slots[..k], Lower(0)), Start(p, k)).Ok?
    {
      LoweredByNothing(p, slots[..k]);
    }
  }

  // ---- Responses ----

  /** An accepted, untruncated response is all that ageing asks for, but for names that lead into TTLs. */
  lemma ResponsesAreFillable(p: Packet, wanted: Question)
    requires ResponseOf(p, wanted).Ok? && !ResponseOf(p, wanted).value.truncated
    ensures QuestionOf(p).Ok? && Fillable(p) && NamesRead(p)
  {
    hide ResponseOf;
    hide QuestionOf;
    hide Layout;
    hide Records;
    hide NameAt;
    hide SoundRecords;
    AcceptedExactly(p, wanted);
    NotTruncated(p, wanted);
    QuestionShape(p);
    var from, n := QuestionOf(p).value.end, RecordCount(p);
    RecordsAndLayout(p, from, n);
    forall k | 0 <= k < n
      ensures RecordLayout(p).0[k].Next() <= |p| && NameAt(p, Start(p, k)).Ok?
    {
      RecordInLayout(p, from, n, k);
      RecordsPrefix(p, from, k + 1, n);
      RecordsPrefix(p, from, k, n);
      RecordsAndLayout(p, from, k);
      NameOfNext(p, from, k);
    }
  }

  lemma NotTruncated(p: Packet, wanted: Question)
    requires ResponseOf(p, wanted).Ok? && !ResponseOf(p, wanted).value.truncated
    ensures QuestionOf(p).Ok? && QuestionOf(p).value.flags / 0x200 % 2 != 1
  {
    hide QuestionOf;
    hide Scanned;
  }

  lemma NameOfNext(p: Packet, from: nat, k: nat)
    requires Records(p, from, k + 1).Ok?
    ensures Records(p, from, k).Ok? && NameAt(p, Records(p, from, k).value.1).Ok?
  {
    hide NameAt;
  }

  /**
   Whatever response is accepted and untruncated is handed on at once, and after any time unless an owner name leads into a
   TTL in front of it.
   */
  lemma ResponsesAge(p: Packet, wanted: Question, id: nat, elapsed: nat)
    requires ResponseOf(p, wanted).Ok? && !ResponseOf(p, wanted).value.truncated && id < 0x1_0000
    ensures QuestionOf(p).Ok?
    ensures elapsed == 0 || NamesAvoidTtls(p) ==> AgedResponse(p, id, elapsed).Ok?
  {
    hide QuestionOf;
    hide ResponseOf;
    hide AgedResponse;
    hide Fillable;
    hide NamesRead;
    hide NamesAvoidTtls;
    ResponsesAreFillable(p, wanted);
    if elapsed == 0 {
      AgedByNothing(p, id);
    } else if NamesAvoidTtls(p) {
      AgedWhereNamesAvoid(p, id, elapsed);
    }
  }

  /** The TTLs of an aged packet, in figures. */
  lemma LoweredTtls(p: Packet, id: nat, elapsed: nat)
    requires id < 0x1_0000 && AgedResponse(p, id, elapsed).Ok?
    ensures QuestionOf(p).Ok?
    ensures var r, slots := AgedResponse(p, id, elapsed).value, RecordLayout(p).0;
            && |r| == |p| && AllInside(slots, |p|)
            && forall k :: 0 <= k < |slots| && slots[k].kind != 41 ==>
                 var ttl := Dword(p, slots[k].at + 4);
                 Dword(r, slots[k].at + 4) == if ttl <= elapsed then 0 else ttl - elapsed
  {
    hide QuestionOf;
    hide Layout;
    hide Aged;
    hide Dword;
    AgeingLaw(p, id, elapsed);
  }
}
