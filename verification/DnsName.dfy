/**
 Domain names on the wire: the `name` reader of dns_packet.cpp, with labels,
 compression pointers (section 4.1.4 of RFC 1035) and its 128-hop limit.
 */
module DnsName {
  import opened Bytes

  const MAX_HOPS := 128

  const MAX_TEXT := 253

  /** A byte the reader accepts inside a label: printable ASCII other than the dot. */
  predicate HostByte(b: byte) { 32 < b < 127 && b != 46 }

  /** The character a label byte contributes to the text: lower case. */
  function FoldCase(b: byte): (c: char)
    requires HostByte(b)
  {
    if 65 <= b <= 90 then (b as int + 32) as char else b as char
  }

  ghost predicate HostBytes(p: Packet, from: nat, to: nat)
  {
    to <= |p| && forall i :: from <= i < to ==> HostByte(p[i])
  }

  ghost function LabelText(p: Packet, from: nat, to: nat): (s: string)
    requires from <= to && HostBytes(p, from, to)
    ensures |s| == to - from
  {
    if from == to then "" else LabelText(p, from, to - 1) + [FoldCase(p[to - 1])]
  }

  /** The text so far with one more label. */
  function Dotted(text: string): (s: string)
  {
    if text == "" then "" else text + "."
  }

  /** Where a compression pointer at `at` leads. */
  function Target(p: Packet, at: nat): (t: nat)
    requires at + 2 <= |p| && p[at] >= 192
  {
    (p[at] as int - 192) * 256 + p[at + 1]
  }

  /** What stands at one offset of a name. */
  datatype Piece = Bad | Root | Pointer(target: nat) | Label(text: string, next: nat)

  ghost function PieceAt(p: Packet, at: nat): (r: Piece)
  {
    if at >= |p| then Bad
    else if p[at] >= 192 then
      if at + 1 >= |p| || Target(p, at) >= at || Target(p, at) < 12 then Bad else Pointer(Target(p, at))
    else if p[at] >= 64 then Bad
    else if p[at] == 0 then Root
    else
      var next := at + 1 + p[at];
      if HostBytes(p, at + 1, next) then Label(LabelText(p, at + 1, next), next) else Bad
  }

  /** The text read from `at` on, when `hops` reads are already spent and `text` is already read. */
  ghost function NameText(p: Packet, at: nat, hops: nat, text: string): (r: Result<string>)
    requires hops <= MAX_HOPS
    ensures r.Err? ==> r.code == MALFORMED
    decreases MAX_HOPS - hops
  {
    if hops == MAX_HOPS then Err(MALFORMED)
    else
      match PieceAt(p, at)
      case Bad => Err(MALFORMED)
      case Root => Ok(text)
      case Pointer(target) => NameText(p, target, hops + 1, text)
      case Label(part, next) =>
        var longer := Dotted(text) + part;
        if |longer| > MAX_TEXT then Err(MALFORMED) else NameText(p, next, hops + 1, longer)
  }

  /** Where the bytes of the name at `at` stop; pointers are not followed. */
  ghost function NameEnd(p: Packet, at: nat): (e: nat)
    ensures e >= at
    ensures at < |p| ==> e > at
    decreases |p| - at
  {
    if at >= |p| then at
    else if p[at] >= 192 then at + 2
    else if p[at] == 0 then at + 1
    else NameEnd(p, at + 1 + p[at])
  }

  /** The name at `at`: its text and the offset that follows it. */
  ghost function NameAt(p: Packet, at: nat): (r: Result<(string, nat)>)
    ensures r.Err? ==> r.code == MALFORMED
  {
    var text :- NameText(p, at, 0, "");
    Ok((text, NameEnd(p, at)))
  }

  lemma NameStep(p: Packet, at: nat, hops: nat, text: string)
    requires hops <= MAX_HOPS
    ensures hops == MAX_HOPS || PieceAt(p, at).Bad? ==> NameText(p, at, hops, text) == Err(MALFORMED)
    ensures hops < MAX_HOPS && PieceAt(p, at).Root? ==> NameText(p, at, hops, text) == Ok(text)
    ensures hops < MAX_HOPS && PieceAt(p, at).Pointer? ==>
              NameText(p, at, hops, text) == NameText(p, PieceAt(p, at).target, hops + 1, text)
    ensures hops < MAX_HOPS && PieceAt(p, at).Label? ==>
              var longer := Dotted(text) + PieceAt(p, at).text;
              NameText(p, at, hops, text) ==
              if |longer| > MAX_TEXT then Err(MALFORMED) else NameText(p, PieceAt(p, at).next, hops + 1, longer)
  {
    hide PieceAt;
  }

  /** The reader itself: one cursor, one buffer, one hop counter. */
  method ReadName(p: Packet, offset: nat) returns (r: Result<(string, nat)>)
    ensures r == NameAt(p, offset)
  {
    hide NameText;
    hide NameEnd;
    hide HostBytes;
    hide LabelText;
    var text := "";
    var at: nat := offset;
    var end: nat := offset;
    var jumped := false;
    var hops: nat := 0;
    while true
      invariant hops <= MAX_HOPS
      invariant NameText(p, at, hops, text) == NameText(p, offset, 0, "")
      invariant if jumped then end == NameEnd(p, offset) else NameEnd(p, at) == NameEnd(p, offset)
      decreases MAX_HOPS - hops
    {
      NameStep(p, at, hops, text);
      EndOfPiece(p, at);
      if at >= |p| || hops == MAX_HOPS {
        return Err(MALFORMED);
      }
      hops := hops + 1;
      var length := p[at];
      if length >= 192 {
        if at + 1 >= |p| {
          return Err(MALFORMED);
        }
        var target := Target(p, at);
        if target >= at || target < 12 {
          return Err(MALFORMED);
        }
        if !jumped {
          end := at + 2;
        }
        jumped := true;
        at := target;
        continue;
      }
      if length >= 64 {
        return Err(MALFORMED);
      }
      if length == 0 {
        if !jumped {
          end := at + 1;
        }
        return Ok((text, end));
      }
      var part := ReadLabel(p, at);
      if part.Err? {
        return Err(MALFORMED);
      }
      text := Dotted(text) + part.value;
      at := at + 1 + length;
      if |text| > MAX_TEXT {
        return Err(MALFORMED);
      }
    }
  }

  /** The inner loop: the bytes of one label, case-folded. */
  method ReadLabel(p: Packet, at: nat) returns (r: Result<string>)
    requires at < |p| && 0 < p[at] < 64
    ensures r.Ok? <==> PieceAt(p, at).Label?
    ensures r.Ok? ==> r.value == PieceAt(p, at).text
  {
    var start, length := at + 1, p[at] as int;
    if length > |p| - start {
      return Err(MALFORMED);
    }
    var text := "";
    var i := start;
    while i < start + length
      invariant start <= i <= start + length <= |p|
      invariant HostBytes(p, start, i)
      invariant text == LabelText(p, start, i)
    {
      if !HostByte(p[i]) {
        return Err(MALFORMED);
      }
      text := text + [FoldCase(p[i])];
      i := i + 1;
    }
    return Ok(text);
  }

  // ---- Names read only their own bytes and earlier ones ----

  lemma {:induction false} SameLabel(p: Packet, q: Packet, from: nat, to: nat)
    requires from <= to && HostBytes(p, from, to) && Agree(p, q, from, to)
    ensures HostBytes(q, from, to) && LabelText(q, from, to) == LabelText(p, from, to)
  {
    if from < to {
      SameLabel(p, q, from, to - 1);
    }
  }

  /** With a pointer at `e`, no piece below `e` reaches past `e`: the pointer's first byte fits in no label. */
  lemma PieceBelowPointer(p: Packet, q: Packet, at: nat, e: nat)
    requires 12 <= at <= e && Agree(p, q, 12, e + 2) && p[e] >= 192
    requires PieceAt(p, at) != Bad
    ensures PieceAt(q, at) == PieceAt(p, at)
    ensures PieceAt(p, at).Label? ==> PieceAt(p, at).next <= e
  {
    if PieceAt(p, at).Label? {
      assert !HostByte(p[e]);
      SameLabel(p, q, at + 1, at + 1 + p[at]);
    }
  }

  /** Once a pointer stands at `e`, reading stays in `[12, e + 2)`: another packet with those bytes reads the same. */
  lemma {:induction false} ConfinedBelowPointer(p: Packet, q: Packet, at: nat, hops: nat, text: string, e: nat)
    requires hops <= MAX_HOPS && 12 <= at <= e
    requires Agree(p, q, 12, e + 2) && p[e] >= 192
    requires NameText(p, at, hops, text).Ok?
    ensures NameText(q, at, hops, text) == NameText(p, at, hops, text)
    decreases MAX_HOPS - hops
  {
    hide PieceAt;
    PieceBelowPointer(p, q, at, e);
    PieceBounds(p, at);
    match PieceAt(p, at)
    case Root =>
    case Pointer(target) => ConfinedBelowPointer(p, q, target, hops + 1, text, e);
    case Label(part, next) => ConfinedBelowPointer(p, q, next, hops + 1, Dotted(text) + part, e);
  }

  /** In a packet of the same size the end offset depends on the bytes in place only. */
  lemma {:induction false} EndIsLocal(p: Packet, q: Packet, at: nat)
    requires |p| == |q| && forall i :: at <= i < NameEnd(p, at) && i < |p| ==> p[i] == q[i]
    ensures NameEnd(q, at) == NameEnd(p, at)
    decreases |p| - at
  {
    if at < |p| && p[at] < 192 && p[at] != 0 {
      EndIsLocal(p, q, at + 1 + p[at]);
    }
  }

  /** A sound piece is a function of the bytes up to the end of its name, which its successor shares. */
  lemma PieceInPlace(p: Packet, q: Packet, at: nat)
    requires 12 <= at && PieceAt(p, at) != Bad
    requires Agree(p, q, 12, NameEnd(p, at))
    ensures PieceAt(q, at) == PieceAt(p, at)
    ensures PieceAt(p, at).Root? ==> NameEnd(p, at) == NameEnd(q, at) == at + 1
    ensures PieceAt(p, at).Pointer? ==> NameEnd(p, at) == NameEnd(q, at) == at + 2 && p[at] >= 192
    ensures PieceAt(p, at).Label? ==>
              var next := PieceAt(p, at).next;
              NameEnd(p, at) == NameEnd(p, next) && NameEnd(q, at) == NameEnd(q, next)
  {
    hide HostBytes;
    hide LabelText;
    match PieceAt(p, at)
    case Bad =>
    case Root =>
    case Pointer(_) =>
    case Label(_, _) => SameLabel(p, q, at + 1, at + 1 + p[at]);
  }

  /** A name that reads well is a function of the bytes from the header up to its own end. */
  lemma {:induction false} NameIsLocal(p: Packet, q: Packet, at: nat, hops: nat, text: string)
    requires hops <= MAX_HOPS && 12 <= at
    requires NameText(p, at, hops, text).Ok?
    requires Agree(p, q, 12, NameEnd(p, at))
    ensures NameText(q, at, hops, text) == NameText(p, at, hops, text)
    ensures NameEnd(q, at) == NameEnd(p, at)
    decreases MAX_HOPS - hops
  {
    hide PieceAt;
    hide NameEnd;
    PieceInPlace(p, q, at);
    PieceBounds(p, at);
    if PieceAt(p, at).Pointer? {
      ConfinedBelowPointer(p, q, at, hops, text, at);
    } else if PieceAt(p, at).Label? {
      var Label(part, next) := PieceAt(p, at);
      NameIsLocal(p, q, next, hops + 1, Dotted(text) + part);
    }
  }

  /** The same for the text and the end offset together. */
  lemma NameAtIsLocal(p: Packet, q: Packet, at: nat)
    requires 12 <= at && NameAt(p, at).Ok?
    requires Agree(p, q, 12, NameAt(p, at).value.1)
    ensures NameAt(q, at) == NameAt(p, at)
  {
    NameIsLocal(p, q, at, 0, "");
  }

  /** A name that reads well ends inside the packet. */
  lemma {:induction false} EndInside(p: Packet, at: nat, hops: nat, text: string)
    requires hops <= MAX_HOPS && NameText(p, at, hops, text).Ok?
    ensures NameEnd(p, at) <= |p|
    decreases MAX_HOPS - hops
  {
    hide PieceAt;
    hide NameEnd;
    EndOfPiece(p, at);
    match PieceAt(p, at)
    case Label(part, next) => EndInside(p, next, hops + 1, Dotted(text) + part);
    case _ =>
  }

  /** How the piece at an offset tells where its name ends. */
  lemma EndOfPiece(p: Packet, at: nat)
    ensures match PieceAt(p, at)
            case Bad => true
            case Root => NameEnd(p, at) == at + 1 <= |p|
            case Pointer(_) => NameEnd(p, at) == at + 2 <= |p|
            case Label(_, next) => NameEnd(p, at) == NameEnd(p, next)
  {
    hide HostBytes;
    hide LabelText;
    hide Target;
  }

  // ---- Names without compression ----

  /** The name at `at` is a run of labels closed by a zero byte. */
  ghost predicate Plain(p: Packet, at: nat)
    decreases |p| - at
  {
    at < |p| && (p[at] == 0 || (p[at] < 64 && Plain(p, at + 1 + p[at])))
  }

  /** The number of labels of a plain name. */
  ghost function Labels(p: Packet, at: nat): (n: nat)
    requires Plain(p, at)
    decreases |p| - at
  {
    if p[at] == 0 then 0 else 1 + Labels(p, at + 1 + p[at])
  }

  lemma PieceBounds(p: Packet, at: nat)
    ensures match PieceAt(p, at)
            case Bad => true
            case Root => at < |p| && p[at] == 0
            case Pointer(target) => 12 <= target < at
            case Label(_, next) => at < next
  {
    hide HostBytes;
    hide LabelText;
  }

  /** Below the first pointer of the packet no zero byte can be met, so the read never ends well. */
  lemma {:induction false} NoWayOut(p: Packet, at: nat, hops: nat, text: string, e: nat)
    requires hops <= MAX_HOPS && 12 <= at <= e && e + 2 <= |p| && p[e] >= 192
    requires forall i :: 12 <= i < e ==> p[i] != 0
    ensures NameText(p, at, hops, text).Err?
    decreases MAX_HOPS - hops
  {
    hide PieceAt;
    if hops < MAX_HOPS && PieceAt(p, at) != Bad {
      PieceBelowPointer(p, p, at, e);
      PieceBounds(p, at);
      match PieceAt(p, at)
      case Pointer(target) => NoWayOut(p, target, hops + 1, text, e);
      case Label(part, next) =>
        if |Dotted(text) + part| <= MAX_TEXT {
          NoWayOut(p, next, hops + 1, Dotted(text) + part, e);
        }
    }
  }

  lemma {:induction false} FirstNameIsPlainFrom(p: Packet, at: nat, hops: nat, text: string)
    requires hops <= MAX_HOPS && 12 <= at
    requires at <= |p| && forall i :: 12 <= i < at ==> p[i] != 0
    requires NameText(p, at, hops, text).Ok?
    ensures Plain(p, at)
    decreases MAX_HOPS - hops
  {
    match PieceAt(p, at)
    case Root =>
    case Pointer(_) => NoWayOut(p, at, hops, text, at);
    case Label(part, next) => FirstNameIsPlainFrom(p, next, hops + 1, Dotted(text) + part);
  }

  /** The name right after the header can use no pointer: pointers may not leave `[12, ...)`, and nothing there ends it. */
  lemma FirstNameIsPlain(p: Packet)
    requires NameText(p, 12, 0, "").Ok?
    ensures Plain(p, 12)
  {
    FirstNameIsPlainFrom(p, 12, 0, "");
  }

  /** A plain name spends one hop for each label and one for the closing zero. */
  lemma {:induction false} PlainHops(p: Packet, at: nat, hops: nat, text: string)
    requires hops <= MAX_HOPS && Plain(p, at) && NameText(p, at, hops, text).Ok?
    ensures hops + Labels(p, at) < MAX_HOPS
    decreases MAX_HOPS - hops
  {
    if PieceAt(p, at).Label? {
      var Label(part, next) := PieceAt(p, at);
      PlainHops(p, next, hops + 1, Dotted(text) + part);
    }
  }

  /** Any other budget that covers its labels reads the same text from a plain name. */
  lemma {:induction false} PlainBudget(p: Packet, at: nat, hops: nat, other: nat, text: string)
    requires hops <= MAX_HOPS && Plain(p, at) && NameText(p, at, hops, text).Ok?
    requires other + Labels(p, at) < MAX_HOPS
    ensures NameText(p, at, other, text) == NameText(p, at, hops, text)
    decreases MAX_HOPS - hops
  {
    if PieceAt(p, at).Label? {
      var Label(part, next) := PieceAt(p, at);
      PlainBudget(p, next, hops + 1, other + 1, Dotted(text) + part);
    }
  }

  /** The wire length of a plain name follows from its text. */
  lemma {:induction false} PlainLength(p: Packet, at: nat, hops: nat, text: string)
    requires hops <= MAX_HOPS && Plain(p, at) && |text| <= MAX_TEXT
    requires NameText(p, at, hops, text).Ok?
    ensures var t := NameText(p, at, hops, text).value;
            && |t| <= MAX_TEXT
            && NameEnd(p, at) - at == (if text != "" then |t| - |text| + 1 else if t != "" then |t| + 2 else 1)
    decreases MAX_HOPS - hops
  {
    if PieceAt(p, at).Label? {
      var Label(part, next) := PieceAt(p, at);
      PlainLength(p, next, hops + 1, Dotted(text) + part);
    }
  }

  /** Plainness and the number of labels are in the bytes in place. */
  lemma {:induction false} PlainIsLocal(p: Packet, q: Packet, at: nat)
    requires Plain(p, at) && Agree(p, q, at, NameEnd(p, at))
    ensures Plain(q, at) && Labels(q, at) == Labels(p, at) && NameEnd(q, at) == NameEnd(p, at)
    decreases |p| - at
  {
    if p[at] != 0 {
      PlainIsLocal(p, q, at + 1 + p[at]);
    }
  }

  /** A pointer of two bytes, 49152 and the offset it leads to, reads what stands there, and ends behind itself. */
  lemma PointerReads(p: Packet, at: nat, target: nat)
    requires 12 <= target < at && at + 2 <= |p| && target < 0x4000
    requires p[at] as int * 256 + p[at + 1] == 0xc000 + target
    ensures NameAt(p, at).Ok? <==> NameText(p, target, 1, "").Ok?
    ensures NameAt(p, at).Ok? ==> NameAt(p, at).value == (NameText(p, target, 1, "").value, at + 2)
  {
    assert PieceAt(p, at) == Pointer(target);
  }
}
