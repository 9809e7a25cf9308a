/** The encoding of code points, pinned by what section 1 of RFC 3629 says of it: lengths, the shape of the bytes, and their order. */
module Utf8Order {
  import opened Bytes
  import opened Utf8

  /** Bytewise lexicographic order. */
  predicate Below(a: string, b: string)
    decreases |a|
  {
    a != [] && b != [] && (a[0] < b[0] || (a[0] == b[0] && Below(a[1..], b[1..])))
  }

  function LengthOf(cp: nat): (n: nat) { if cp < 128 then 1 else if cp < 2048 then 2 else if cp < 65536 then 3 else 4 }

  /** One byte below 128, or a leading byte that tells the length and continuation bytes behind it. */
  predicate WellShaped(s: string)
  {
    && 1 <= |s| <= 4
    && (|s| == 1 ==> s[0] as int < 128)
    && (|s| == 2 ==> 0xc2 <= s[0] as int <= 0xdf)
    && (|s| == 3 ==> 0xe0 <= s[0] as int <= 0xef)
    && (|s| == 4 ==> 0xf0 <= s[0] as int <= 0xf4)
    && forall i :: 1 <= i < |s| ==> 0x80 <= s[i] as int <= 0xbf
  }

  lemma EncodedShape(cp: nat)
    requires IsScalar(cp)
    ensures |Encoded(cp)| == LengthOf(cp) && WellShaped(Encoded(cp))
  {
  }

  /** Encodings are ordered as their code points are. */
  lemma EncodedKeepsOrder(a: nat, b: nat)
    requires IsScalar(a) && IsScalar(b) && a < b
    ensures Below(Encoded(a), Encoded(b))
  {
    EncodedShape(a);
    EncodedShape(b);
    var x, y := Encoded(a), Encoded(b);
    if LengthOf(a) == LengthOf(b) {
      match LengthOf(a)
      case 1 =>
      case 2 => TwoInOrder(a, b, x, y);
      case 3 => ThreeInOrder(a, b, x, y);
      case _ => FourInOrder(a, b, x, y);
    }
  }

  /** The high part decides, or it is equal and the low part decides. */
  lemma Split(a: nat, b: nat)
    requires a < b
    ensures a / 64 < b / 64 || (a / 64 == b / 64 && a % 64 < b % 64)
  {
  }

  lemma TwoInOrder(a: nat, b: nat, x: string, y: string)
    requires a < b && |x| == |y| == 2
    requires x[0] as int - a / 64 == y[0] as int - b / 64 && x[1] as int - a % 64 == y[1] as int - b % 64
    ensures Below(x, y)
  {
    Split(a, b);
    if x[0] == y[0] {
      assert x[1..][0] == x[1] && y[1..][0] == y[1];
    }
  }

  lemma ThreeInOrder(a: nat, b: nat, x: string, y: string)
    requires a < b && |x| == |y| == 3
    requires x[0] as int - a / 4096 == y[0] as int - b / 4096
    requires x[1] as int - a / 64 % 64 == y[1] as int - b / 64 % 64 && x[2] as int - a % 64 == y[2] as int - b % 64
    ensures Below(x, y)
  {
    Split(a, b);
    assert a / 64 / 64 == a / 4096 && b / 64 / 64 == b / 4096;
    if a / 64 < b / 64 {
      Split(a / 64, b / 64);
      if x[0] == y[0] {
        assert x[1..][0] == x[1] && y[1..][0] == y[1];
      }
    } else {
      assert x[..2] == y[..2];
      LastDecides(x[..2], x[2], y[2]);
      assert x == x[..2] + [x[2]] && y == y[..2] + [y[2]];
    }
  }

  lemma FourInOrder(a: nat, b: nat, x: string, y: string)
    requires a < b && |x| == |y| == 4
    requires x[0] as int - a / 262144 == y[0] as int - b / 262144
    requires x[1] as int - a / 4096 % 64 == y[1] as int - b / 4096 % 64
    requires x[2] as int - a / 64 % 64 == y[2] as int - b / 64 % 64 && x[3] as int - a % 64 == y[3] as int - b % 64
    ensures Below(x, y)
  {
    hide Below;
    Split(a, b);
    Quotients(a);
    Quotients(b);
    if a / 64 < b / 64 {
      ThreeInOrder(a / 64, b / 64, x[..3], y[..3]);
      BelowLonger(x[..3], y[..3], x[3..], y[3..]);
      assert x == x[..3] + x[3..] && y == y[..3] + y[3..];
    } else {
      assert x[..3] == y[..3];
      LastDecides(x[..3], x[3], y[3]);
      assert x == x[..3] + [x[3]] && y == y[..3] + [y[3]];
    }
  }

  lemma Quotients(a: nat)
    ensures a / 64 / 4096 == a / 262144 && a / 64 / 64 % 64 == a / 4096 % 64
  {
    assert a / 64 / 64 == a / 4096;
  }

  lemma {:induction false} BelowBehind(front: string, x: string, y: string)
    requires Below(x, y)
    ensures Below(front + x, front + y)
  {
    if front == "" {
      assert front + x == x && front + y == y;
    } else {
      BelowBehind(front[1..], x, y);
      assert (front + x)[1..] == front[1..] + x && (front + y)[1..] == front[1..] + y;
    }
  }

  lemma LastDecides(front: string, x: char, y: char)
    requires x < y
    ensures Below(front + [x], front + [y])
  {
    BelowBehind(front, [x], [y]);
  }

  lemma {:induction false} BelowLonger(a: string, b: string, x: string, y: string)
    requires Below(a, b)
    ensures Below(a + x, b + y)
    decreases |a|
  {
    if a[0] == b[0] {
      BelowLonger(a[1..], b[1..], x, y);
      assert (a + x)[1..] == a[1..] + x && (b + y)[1..] == b[1..] + y;
    }
  }
}
