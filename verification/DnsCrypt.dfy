/** Padding and sizes of DNSCrypt messages: dnscrypt.cpp. Encryption is a parameter that adds a tag of 16 bytes. */
module DnsCrypt {
  import opened Bytes
  import opened DnsName
  import opened DnsQuestion
  import opened DnsAgeing
  import opened DnsResponse
  import opened DnsReply
  import opened DnsQuery
  import opened HostName

  const TAG_SIZE := 16
  const OVERHEAD := 8 + 32 + 12 + TAG_SIZE
  const MAX_QUERY := 4000
  const MAX_WIRE := 4096
  const BLOCK := 64
  const MARK: byte := 0x80
  const RESOLVER_MAGIC: Packet := [114, 54, 102, 110, 118, 87, 106, 56]

  // ---- Sizes ----

  function Most(a: nat, b: nat): (m: nat) { if a < b then b else a }

  /** The size a query of `n` bytes is padded to so that `minimum` bytes go out at least. */
  function PaddedSize(n: nat, minimum: nat): (r: Result<nat>)
  {
    if n < 12 || n > MAX_QUERY || minimum > MAX_WIRE then Err("DNSCRYPT_SIZE")
    else
      var needed := Most(n + 1, if minimum > OVERHEAD then minimum - OVERHEAD else 1);
      var padded := (needed + 63) / BLOCK * BLOCK;
      if padded + OVERHEAD > MAX_WIRE then Err("DNSCRYPT_SIZE") else Ok(padded)
  }

  /**
   Exactly which queries can be padded, and how far: to the least multiple of 64 that leaves room for the mark and
   reaches the size asked for.
   */
  lemma QuerySizing(n: nat, minimum: nat)
    ensures PaddedSize(n, minimum).Ok? <==> 12 <= n <= 3967 && minimum <= 4036
    ensures PaddedSize(n, minimum).Ok? ==>
              var size := PaddedSize(n, minimum).value;
              && size % 64 == 0 && n < size && minimum <= size + 68 <= 4096
              && (size - 64 <= n || size - 64 + 68 < minimum)
  {
    if 12 <= n <= MAX_QUERY && minimum <= MAX_WIRE {
      var needed := Most(n + 1, if minimum > OVERHEAD then minimum - OVERHEAD else 1);
      RoundedUp(needed);
    }
  }

  lemma RoundedUp(n: nat)
    ensures var r := (n + 63) / 64 * 64;
            r % 64 == 0 && n <= r < n + 64 && (n <= 3968 ==> r <= 3968) && (n > 3968 ==> r >= 4032)
  {
    var q := (n + 63) / 64;
    assert q * 64 % 64 == 0;
    assert n <= 3968 ==> q <= 62;
    assert n > 3968 ==> q >= 63;
  }

  /** The least padding to a whole block, and the most there may be; the difference is taken modulo 2 ^ 64. */
  function LeastPadding(n: nat): (p: nat) { 64 - n % 64 }

  function MostPadding(n: nat): (p: nat)
  {
    var room := (MAX_WIRE - OVERHEAD - n) % 0x1_0000_0000_0000_0000;
    if room < 256 then room else 256
  }

  /** The size of a TCP query on the wire, by a random choice among those in bounds. */
  function TcpTarget(n: nat, random: nat -> nat): (r: Result<nat>)
  {
    if LeastPadding(n) > MostPadding(n) then Err("DNSCRYPT_SIZE")
    else
      var choices := 1 + (MostPadding(n) - LeastPadding(n)) / 64;
      Ok(OVERHEAD + n + LeastPadding(n) + random(choices) * 64)
  }

  /**
   For a query the protocol allows, whatever is chosen: there is a choice exactly when the query can be padded at all,
   and then it goes out in just the size chosen, with 1 to 256 bytes of padding.
   */
  lemma TcpSizing(n: nat, random: nat -> nat)
    requires 12 <= n <= MAX_QUERY && forall k :: k > 0 ==> random(k) < k
    ensures TcpTarget(n, random).Ok? <==> n <= 3967
    ensures TcpTarget(n, random).Ok? ==>
              var target := TcpTarget(n, random).value;
              && PaddedSize(n, target) == Ok(target - OVERHEAD)
              && 1 <= target - OVERHEAD - n <= 256
  {
    assert (MAX_WIRE - OVERHEAD - n) % 0x1_0000_0000_0000_0000 == MAX_WIRE - OVERHEAD - n;
    if LeastPadding(n) <= MostPadding(n) {
      var choices := 1 + (MostPadding(n) - LeastPadding(n)) / 64;
      var c := random(choices);
      assert c < choices;
      ExactBlocks(n, c);
    }
  }

  lemma ExactBlocks(n: nat, c: nat)
    requires 12 <= n <= 3967 && LeastPadding(n) + c * 64 <= 256 && n + LeastPadding(n) + c * 64 + OVERHEAD <= MAX_WIRE
    ensures PaddedSize(n, OVERHEAD + n + LeastPadding(n) + c * 64) == Ok(n + LeastPadding(n) + c * 64)
  {
    var size := n + LeastPadding(n) + c * 64;
    var blocks := n / 64 + 1 + c;
    assert size == blocks * 64;
    assert (size + 63) / 64 == blocks;
  }

  // ---- Padding ----

  /** A message behind which the padding fills up to `size`. */
  function Padded(message: Packet, size: nat): (r: Packet)
    requires |message| < size
    ensures |r| == size
  {
    message + [MARK] + Zeros(size - |message| - 1)
  }

  /** The message in front of the mark and the zeros. */
  function Unpadded(plain: Packet): (r: Result<Packet>)
  {
    if plain == [] then Err("DNSCRYPT_PADDING")
    else
      var last := |plain| - 1;
      if plain[last] == 0 then Unpadded(plain[..last])
      else if plain[last] != MARK then Err("DNSCRYPT_PADDING")
      else if last < 12 then Err(MALFORMED) else Ok(plain[..last])
  }

  /** Unpadding undoes padding, and takes nothing else: it yields a message just when it is that message padded. */
  lemma {:induction false} UnpaddedIsPadded(plain: Packet, message: Packet)
    ensures Unpadded(plain) == Ok(message) <==> |message| >= 12 && |message| < |plain| && plain == Padded(message, |plain|)
  {
    if plain != [] {
      var last := |plain| - 1;
      if plain[last] == 0 {
        UnpaddedIsPadded(plain[..last], message);
        if |message| < last {
          assert Padded(message, |plain|) == Padded(message, last) + [0];
          assert plain == plain[..last] + [0];
        }
      } else if |message| < last {
        assert Padded(message, |plain|)[last] == 0;
      } else if |message| == last {
        assert plain == plain[..last] + [plain[last]];
        assert Padded(message, |plain|) == message + [MARK];
      }
    }
  }

  method Unpad(plain: Packet) returns (r: Result<Packet>)
    ensures r == Unpadded(plain)
  {
    var end := |plain|;
    assert plain[..end] == plain;
    while end > 0 && plain[end - 1] == 0
      invariant 0 <= end <= |plain|
      invariant Unpadded(plain[..end]) == Unpadded(plain)
    {
      assert plain[..end][..end - 1] == plain[..end - 1];
      end := end - 1;
    }
    if end == 0 || plain[end - 1] != MARK {
      return Err("DNSCRYPT_PADDING");
    }
    assert plain[..end][..end - 1] == plain[..end - 1];
    if end - 1 < 12 {
      return Err(MALFORMED);
    }
    return Ok(plain[..end - 1]);
  }

  // ---- Messages ----

  /**
   A query on the wire: the client magic, the client key, the nonce and the sealed, padded message. Deriving the client
   key or the shared key may fail, and so may sealing; the shared key stands for the sealing done with it.
   */
  method BuildQuery(request: Packet, magic: Packet, clientKey: Option<Packet>, nonce: Packet,
                    shared: Option<Packet -> Option<Packet>>, minimum: nat)
    returns (r: Result<Packet>)
    requires |magic| == 8 && |nonce| == 12 && (clientKey.Some? ==> |clientKey.value| == 32)
    requires shared.Some? ==> forall p :: shared.value(p).Some? ==> |shared.value(p).value| == |p| + TAG_SIZE
    ensures !(12 <= |request| <= 3967 && minimum <= 4036) ==> r == Err("DNSCRYPT_SIZE")
    ensures 12 <= |request| <= 3967 && minimum <= 4036 ==>
              PaddedSize(|request|, minimum).Ok?
              && r == if clientKey.None? then Err("CRYPTO_INIT")
                      else if shared.None? then Err("DNSCRYPT_KEY")
                      else
                        var message := Padded(request, PaddedSize(|request|, minimum).value);
                        match shared.value(message)
                        case None => Err("DNSCRYPT_CRYPTO")
                        case Some(box) => Ok(magic + clientKey.value + nonce + box)
    ensures r.Ok? ==> (|r.value| - 68) % 64 == 0 && minimum <= |r.value| <= 4096
  {
    hide Padded;
    QuerySizing(|request|, minimum);
    if |request| < 12 || |request| > MAX_QUERY || minimum > MAX_WIRE {
      return Err("DNSCRYPT_SIZE");
    }
    var needed := Most(|request| + 1, if minimum > OVERHEAD then minimum - OVERHEAD else 1);
    var size := (needed + 63) / BLOCK * BLOCK;
    if size + OVERHEAD > MAX_WIRE {
      return Err("DNSCRYPT_SIZE");
    }
    var padded := PadQuery(request, size);
    if clientKey.None? {
      return Err("CRYPTO_INIT");
    }
    if shared.None? {
      return Err("DNSCRYPT_KEY");
    }
    var result := magic + clientKey.value + nonce;
    match shared.value(padded) {
      case None => return Err("DNSCRYPT_CRYPTO");
      case Some(box) => return Ok(result + box);
    }
  }

  /** The message with its mark in a buffer of zeros. */
  method PadQuery(request: Packet, size: nat) returns (r: Packet)
    requires |request| < size
    ensures r == Padded(request, size) && |r| == size
  {
    var padded := new byte[size](_ => 0);
    forall i | 0 <= i < |request| {
      padded[i] := request[i];
    }
    padded[|request|] := MARK;
    return padded[..];
  }

  /** The first 32 bytes of a response: the resolver magic, then the nonce, which starts with the one of the query. */
  const HEADER := 32

  ghost function Opened(response: Packet, nonce: Packet, system: nat, open: (Packet, Packet) -> Option<Packet>): (r: Result<Packet>)
    requires |nonce| == 12
  {
    if |response| < HEADER + TAG_SIZE + 1 || response[..8] != RESOLVER_MAGIC then Err("DNSCRYPT_RESPONSE")
    else if response[8..20] != nonce then Err("DNSCRYPT_NONCE")
    else if system != 1 && system != 2 then Err("DNSCRYPT_CERT")
    else
      match open(response[HEADER..], response[8..HEADER])
      case None => Err("DNSCRYPT_AUTH")
      case Some(plain) => Unpadded(plain)
  }

  method OpenResponse(response: Packet, nonce: Packet, system: nat, open: (Packet, Packet) -> Option<Packet>)
    returns (r: Result<Packet>)
    requires |nonce| == 12
    ensures r == Opened(response, nonce, system, open)
  {
    if |response| < HEADER + TAG_SIZE + 1 || response[..8] != RESOLVER_MAGIC {
      return Err("DNSCRYPT_RESPONSE");
    }
    if response[8..20] != nonce {
      return Err("DNSCRYPT_NONCE");
    }
    if system != 1 && system != 2 {
      return Err("DNSCRYPT_CERT");
    }
    match open(response[HEADER..], response[8..HEADER]) {
      case None => return Err("DNSCRYPT_AUTH");
      case Some(plain) => r := Unpad(plain);
    }
  }

  /**
   What is opened, exactly: at least 49 bytes under the magic of a resolver - "r6fnvWj8" - that repeat the nonce of the query,
   with an encryption system of 1 or 2, whose box opens under the nonce of 24 bytes to the message padded.
   */
  lemma OpenedExactly(response: Packet, nonce: Packet, system: nat, open: (Packet, Packet) -> Option<Packet>, message: Packet)
    requires |nonce| == 12
    ensures Opened(response, nonce, system, open) == Ok(message) <==>
              && |response| >= 49 && response[..8] == [0x72, 0x36, 0x66, 0x6e, 0x76, 0x57, 0x6a, 0x38] && response[8..20] == nonce
              && system in {1, 2}
              && var plain := open(response[32..], response[8..32]);
                 plain.Some? && 12 <= |message| < |plain.value| && plain.value[..|message|] == message
                 && plain.value[|message|] == 0x80 && forall i :: |message| < i < |plain.value| ==> plain.value[i] == 0
  {
    hide Unpadded;
    if |response| >= 49 {
      var plain := open(response[32..], response[8..32]);
      if plain.Some? {
        UnpaddedIsPadded(plain.value, message);
        if |message| < |plain.value| {
          PaddedExactly(plain.value, message);
        }
      }
    }
  }

  lemma PaddedExactly(plain: Packet, message: Packet)
    requires |message| < |plain|
    ensures plain == Padded(message, |plain|) <==>
              && plain[..|message|] == message && plain[|message|] == 0x80
              && forall i :: |message| < i < |plain| ==> plain[i] == 0
  {
    var z := Padded(message, |plain|);
    assert z[..|message|] == message && z[|message|] == 0x80;
    if plain[..|message|] == message && plain[|message|] == 0x80 && forall i :: |message| < i < |plain| ==> plain[i] == 0 {
      assert forall i :: 0 <= i < |message| ==> plain[i] == plain[..|message|][i];
    }
  }

  /** A response under another nonce is refused before anything is opened. */
  lemma ForeignNonce(response: Packet, nonce: Packet, system: nat, open: (Packet, Packet) -> Option<Packet>)
    requires |nonce| == 12 && |response| >= 49 && response[..8] == [0x72, 0x36, 0x66, 0x6e, 0x76, 0x57, 0x6a, 0x38]
    requires response[8..20] != nonce
    ensures Opened(response, nonce, system, open) == Err("DNSCRYPT_NONCE")
  {
  }

  /** A message the resolver padded, sealed and sent under the nonce of the query is opened as that message. */
  lemma ResponseRoundTrip(message: Packet, size: nat, nonce: Packet, rest: Packet, system: nat,
                          seal: (Packet, Packet) -> Packet, open: (Packet, Packet) -> Option<Packet>)
    requires 12 <= |message| < size && |nonce| == 12 && |rest| == 12 && (system == 1 || system == 2)
    requires forall p, n :: |seal(p, n)| == |p| + TAG_SIZE && open(seal(p, n), n) == Some(p)
    ensures Opened(RESOLVER_MAGIC + nonce + rest + seal(Padded(message, size), nonce + rest), nonce, system, open) == Ok(message)
  {
    hide Padded;
    var box := seal(Padded(message, size), nonce + rest);
    var response := RESOLVER_MAGIC + nonce + rest + box;
    assert response[..8] == RESOLVER_MAGIC;
    assert response[8..20] == nonce;
    assert response[8..HEADER] == nonce + rest;
    assert response[HEADER..] == box;
    assert open(seal(Padded(message, size), nonce + rest), nonce + rest) == Some(Padded(message, size));
    UnpaddedIsPadded(Padded(message, size), message);
  }

  // ---- The padded certificate request ----

  const TARGET := 512
  const OPT_OVERHEAD := 15

  /** The OPT record of a certificate request: payload size 1232 and the padding option of section 3 of RFC 7830. */
  function PaddingRecord(padding: nat): (r: Packet)
    requires padding < 0xfffc
    ensures |r| == OPT_OVERHEAD + padding
  {
    [0, 0, 41, 4, 208, 0, 0, 0, 0] + WordBytes(padding + 4) + [0, 12] + WordBytes(padding) + Zeros(padding)
  }

  /** The request with one additional record counted, and the record that fills it up. */
  function PaddedRequest(request: Packet): (r: Packet)
    requires 12 <= |request| <= TARGET - OPT_OVERHEAD
    ensures |r| == TARGET
  {
    request[..10] + [0, 1] + request[12..] + PaddingRecord(TARGET - OPT_OVERHEAD - |request|)
  }

  method PadCertificateRequest(request: Packet) returns (r: Result<Packet>)
    requires |request| >= 12
    ensures r == if |request| <= TARGET - OPT_OVERHEAD then Ok(PaddedRequest(request)) else Err("DNSCRYPT_SIZE")
  {
    if |request| + OPT_OVERHEAD > TARGET {
      return Err("DNSCRYPT_SIZE");
    }
    var padding := TARGET - |request| - OPT_OVERHEAD;
    var result := request[10 := 0][11 := 1];
    assert result == request[..10] + [0, 1] + request[12..];
    var fields: Packet :=
      [0, 0, 41, 4, 208, 0, 0, 0, 0, (padding + 4) / 256, (padding + 4) % 256, 0, 12, padding / 256, padding % 256];
    assert fields + Zeros(padding) == PaddingRecord(padding);
    result := result + fields;
    result := result + Zeros(padding);
    assert result == request[..10] + [0, 1] + request[12..] + PaddingRecord(padding);
    return Ok(result);
  }

  lemma PaddingRecordReads(r: Packet, at: nat, padding: nat)
    requires padding < 0xfffc && at + OPT_OVERHEAD + padding <= |r|
    requires r[at..at + OPT_OVERHEAD + padding] == PaddingRecord(padding)
    ensures RecordAt(r, at).Ok?
    ensures var record := RecordAt(r, at).value;
            record.slot == Slot(at + 1, OPT, padding + 4) && record.owner == "" && record.klass == 1232
    ensures r[at + 7] == 0
  {
    hide NameAt;
    hide Zeros;
    var o := PaddingRecord(padding);
    assert forall i :: 0 <= i < OPT_OVERHEAD ==> r[at + i] == o[i];
    RootReads(r, at);
  }

  /**
   The padded certificate request for any provider name is always 512 bytes long. It still asks its question, and it
   has one additional record, an OPT record with payload size 1232, up to its end.
   */
  lemma CertificateRequestParses(provider: string, id: nat)
    requires id < 0x1_0000 && QueryOf(provider, 16, id).Ok?
    ensures var request := QueryOf(provider, 16, id).value;
            && 12 <= |request| <= TARGET - OPT_OVERHEAD
            && var r := PaddedRequest(request);
               && |r| == 512 && QuestionOf(r) == QuestionOf(request) && QuestionOf(r).Ok?
               && EdnsOf(r, QuestionOf(r).value) == Ok(Edns(true, false, 1232))
  {
    hide DnsNameOf;
    hide QueryOf;
    hide QuestionOf;
    hide PaddedRequest;
    hide EdnsOf;
    QueryRoundTrip(provider, 16, id);
    var request := QueryOf(provider, 16, id).value;
    QuestionShape(request);
    NoRecords(provider, id);
    PaddedParses(request);
  }

  lemma NoRecords(provider: string, id: nat)
    requires id < 0x1_0000 && QueryOf(provider, 16, id).Ok?
    ensures var request := QueryOf(provider, 16, id).value;
            |request| >= 12 && request[6..10] == [0, 0, 0, 0]
  {
    hide DnsNameOf;
    hide EncodedName;
  }

  lemma PaddedParses(request: Packet)
    requires QuestionOf(request).Ok? && 12 <= QuestionOf(request).value.end == |request| <= TARGET - OPT_OVERHEAD
    requires request[6..10] == [0, 0, 0, 0]
    ensures var r := PaddedRequest(request);
            && QuestionOf(r) == QuestionOf(request)
            && EdnsOf(r, QuestionOf(r).value) == Ok(Edns(true, false, 1232))
  {
    hide NameAt;
    hide PaddingRecord;
    hide EdnsOf;
    var padding := TARGET - OPT_OVERHEAD - |request|;
    var r := PaddedRequest(request);
    assert r[|request|..] == PaddingRecord(padding);
    QuestionIsLocal(request, r);
    assert r[6] == 0 && r[7] == 0 && r[8] == 0 && r[9] == 0 && r[10] == 0 && r[11] == 1;
    OneRecord(r, QuestionOf(r).value, padding);
  }

  lemma OneRecord(r: Packet, q: Question, padding: nat)
    requires padding < 0xfffc && 12 <= q.end && |r| == q.end + OPT_OVERHEAD + padding
    requires r[q.end..] == PaddingRecord(padding)
    requires r[6] == 0 && r[7] == 0 && r[8] == 0 && r[9] == 0 && r[10] == 0 && r[11] == 1
    ensures EdnsOf(r, q) == Ok(Edns(true, false, 1232))
  {
    hide PaddingRecord;
    hide RecordAt;
    hide NameAt;
    assert r[q.end..q.end + OPT_OVERHEAD + padding] == PaddingRecord(padding);
    PaddingRecordReads(r, q.end, padding);
    assert EdnsScanned(r, q.end, 0, CountsOf(r)) == Ok((NO_EDNS, q.end));
    assert RecordCount(r) == 1;
  }
}
