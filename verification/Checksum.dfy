/** The Internet checksum of sections 1 and 2 of RFC 1071: `checksum_add` and `checksum_finish` in windivert_interception.cpp. */
module Checksum {
  import opened Bytes

  const UINT32 := 0x1_0000_0000

  /** The sum of the big-endian words; an odd last byte is the high half of one. */
  function Sum16(b: Packet): (n: nat)
    ensures n <= 0xffff * ((|b| + 1) / 2)
  {
    if |b| == 0 then 0
    else if |b| == 1 then b[0] as int * 256
    else b[0] as int * 256 + b[1] + Sum16(b[2..])
  }

  /** The sum with its carries added back in until it fits a word. */
  function Folded(n: nat): (f: nat)
    ensures f < 0x1_0000
    decreases n
  {
    if n < 0x1_0000 then n else Folded(n % 0x1_0000 + n / 0x1_0000)
  }

  /** The checksum for a sum: its complement, with zero written as all ones. */
  function Finished(sum: nat): (c: nat)
    ensures 0 < c < 0x1_0000
  {
    var c := 0xffff - Folded(sum);
    if c == 0 then 0xffff else c
  }

  /** Adds words to a 32-bit accumulator. */
  method ChecksumAdd(sum: nat, bytes: Packet) returns (r: nat)
    requires sum < UINT32
    ensures r == (sum + Sum16(bytes)) % UINT32
  {
    r := sum;
    var at: nat := 0;
    while |bytes| - at >= 2
      invariant at <= |bytes| && r < UINT32
      invariant (r + Sum16(bytes[at..])) % UINT32 == (sum + Sum16(bytes)) % UINT32
    {
      assert bytes[at..][2..] == bytes[at + 2..];
      Wraps(r + Word(bytes, at), Sum16(bytes[at + 2..]));
      r := (r + Word(bytes, at)) % UINT32;
      at := at + 2;
    }
    if at < |bytes| {
      r := (r + bytes[at] as int * 256) % UINT32;
    }
  }

  lemma Wraps(a: nat, b: nat)
    ensures (a % UINT32 + b) % UINT32 == (a + b) % UINT32
  {
  }

  method ChecksumFinish(sum: nat) returns (c: nat)
    ensures c == Finished(sum)
  {
    var s := sum;
    while s / 0x1_0000 != 0
      invariant Folded(s) == Folded(sum)
      decreases s
    {
      s := s % 0x1_0000 + s / 0x1_0000;
    }
    c := 0xffff - s;
    if c == 0 {
      c := 0xffff;
    }
  }

  // ---- What makes a checksum right ----

  /** Folding keeps the residue by 65535, and nothing but zero folds to zero. */
  lemma {:induction false} FoldKeepsResidue(n: nat)
    ensures Folded(n) % 0xffff == n % 0xffff
    ensures Folded(n) == 0 <==> n == 0
    decreases n
  {
    if n >= 0x1_0000 {
      FoldKeepsResidue(n % 0x1_0000 + n / 0x1_0000);
      FoldedOnce(n);
    }
  }

  lemma FoldedOnce(n: nat)
    ensures (n % 0x1_0000 + n / 0x1_0000) % 0xffff == n % 0xffff
  {
    var high, low := n / 0x1_0000, n % 0x1_0000;
    assert n == high * 0xffff + (high + low);
  }

  /** A positive sum folds to all ones exactly when 65535 divides it. */
  lemma FoldsToOnes(n: nat)
    requires n > 0
    ensures Folded(n) == 0xffff <==> n % 0xffff == 0
  {
    FoldKeepsResidue(n);
  }

  /** Added to its sum, the checksum makes the whole fold to all ones. */
  lemma FinishedIsRight(sum: nat)
    ensures Folded(sum + Finished(sum)) == 0xffff
  {
    var f, c := Folded(sum), Finished(sum);
    assert f + c == 0xffff || f + c == 2 * 0xffff;
    hide Folded;
    hide Finished;
    FoldKeepsResidue(sum);
    SameResidue(f, sum, c);
    FoldsToOnes(sum + c);
  }

  lemma SameResidue(a: nat, b: nat, c: nat)
    requires a % 0xffff == b % 0xffff && (a + c == 0xffff || a + c == 2 * 0xffff)
    ensures (b + c) % 0xffff == 0
  {
  }

  /** Behind an even number of bytes a sum goes on. */
  lemma {:induction false} SumOfParts(a: Packet, b: Packet)
    requires |a| % 2 == 0
    ensures Sum16(a + b) == Sum16(a) + Sum16(b)
  {
    if a == [] {
      assert a + b == b;
    } else {
      SumOfParts(a[2..], b);
      assert (a + b)[2..] == a[2..] + b;
    }
  }

  /** Overwriting a word changes the sum by the difference. */
  lemma {:induction false} SumWithWord(p: Packet, at: nat, w: nat)
    requires at % 2 == 0 && at + 2 <= |p| && w < 0x1_0000
    ensures Sum16(PutWord(p, at, w)) + Word(p, at) == Sum16(p) + w
    decreases |p|
  {
    var r := PutWord(p, at, w);
    if at > 0 {
      SumWithWord(p[2..], at - 2, w);
      assert r[2..] == PutWord(p[2..], at - 2, w);
    } else {
      assert r[2..] == p[2..];
    }
  }

  /**
   Writing the checksum: with zero in the field, the finished sum of some words and of the block that holds the field,
   written there, makes both together fold to all ones.
   */
  lemma WrittenChecksum(before: nat, p: Packet, at: nat)
    requires at % 2 == 0 && at + 2 <= |p| && Word(p, at) == 0
    ensures Folded(before + Sum16(PutWord(p, at, Finished(before + Sum16(p))))) == 0xffff
  {
    var c := Finished(before + Sum16(p));
    SumWithWord(p, at, c);
    FinishedIsRight(before + Sum16(p));
  }
}
