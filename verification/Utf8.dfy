/**
 UTF-8 by section 3 of RFC 3629, and the conversions to and from wide strings: rules.cpp. A text is a string of bytes,
 one character a byte.
 */
module Utf8 {
  import opened Bytes

  const BAD_TEXT := "UTF8"
  const MAX_TEXT_SIZE := 4 * 1024 * 1024

  predicate IsSurrogate(cp: nat) { 0xd800 <= cp <= 0xdfff }

  predicate IsScalar(cp: nat) { cp <= 0x10ffff && !IsSurrogate(cp) }

  // ---- One code point ----

  function Byte(n: nat): (c: char)
    requires n < 256
    ensures c as int == n
  {
    n as char
  }

  function Encoded(cp: nat): (s: string)
    requires cp <= 0x10ffff
    ensures 1 <= |s| <= 4
  {
    if cp <= 0x7f then [Byte(cp)]
    else if cp <= 0x7ff then [Byte(0xc0 + cp / 64), Byte(0x80 + cp % 64)]
    else if cp <= 0xffff then [Byte(0xe0 + cp / 4096), Byte(0x80 + cp / 64 % 64), Byte(0x80 + cp % 64)]
    else [Byte(0xf0 + cp / 262144), Byte(0x80 + cp / 4096 % 64), Byte(0x80 + cp / 64 % 64), Byte(0x80 + cp % 64)]
  }

  /** How many bytes follow a leading byte. */
  function Extra(c: char): (r: Result<nat>)
    ensures r.Ok? ==> r.value <= 3
  {
    var b := c as int;
    if b < 0x80 then Ok(0)
    else if 0xc2 <= b < 0xe0 then Ok(1)
    else if 0xe0 <= b < 0xf0 then Ok(2)
    else if 0xf0 <= b < 0xf8 then Ok(3)
    else Err(BAD_TEXT)
  }

  /** The bits of the code point in the leading byte. */
  function Leading(c: char): (bits: nat)
  {
    var b := c as int;
    if b < 0x80 then b else if b < 0xe0 then b % 32 else if b < 0xf0 then b % 16 else b % 8
  }

  predicate IsContinuation(c: char) { 0x80 <= c as int < 0xc0 }

  /** The leading bits, followed by those of the next `n` bytes. */
  function Continued(s: string, n: nat): (r: Result<nat>)
    requires n < |s|
    ensures r.Err? ==> r.code == BAD_TEXT
  {
    if n == 0 then Ok(Leading(s[0]))
    else
      var high :- Continued(s, n - 1);
      if IsContinuation(s[n]) then Ok(high * 64 + s[n] as int % 64) else Err(BAD_TEXT)
  }

  /** The first code point of a text and how many bytes it takes. */
  function First(s: string): (r: Result<(nat, nat)>)
    requires s != ""
    ensures r.Ok? ==> 1 <= r.value.1 <= |s|
    ensures r.Err? ==> r.code == BAD_TEXT
  {
    var extra := Extra(s[0]);
    if extra.Err? || extra.value >= |s| then Err(BAD_TEXT)
    else
      var n := extra.value;
      var cp := Continued(s, n);
      if cp.Err? then Err(BAD_TEXT)
      else if (n == 2 && cp.value < 0x800) || (n == 3 && cp.value < 0x10000) || !IsScalar(cp.value) then Err(BAD_TEXT)
      else Ok((cp.value, n + 1))
  }

  /** A continuation byte with six bits, and the six bits of one. */
  lemma SixBits(c: char, bits: nat)
    requires c as int == 0x80 + bits && bits < 64
    ensures IsContinuation(c) && c as int % 64 == bits
  {
  }

  lemma ContinuedStep(s: string, n: nat, high: nat)
    requires 0 < n < |s| && Continued(s, n - 1) == Ok(high) && IsContinuation(s[n])
    ensures Continued(s, n) == Ok(high * 64 + s[n] as int % 64)
  {
  }

  lemma ReadsTwo(cp: nat, s: string)
    requires 0x80 <= cp <= 0x7ff && |s| >= 2 && s[0] as int == 0xc0 + cp / 64 && s[1] as int == 0x80 + cp % 64
    ensures First(s) == Ok((cp, 2))
  {
    SixBits(s[1], cp % 64);
    assert Continued(s, 0) == Ok(cp / 64);
    ContinuedStep(s, 1, cp / 64);
  }

  lemma ReadsThree(cp: nat, s: string)
    requires 0x800 <= cp <= 0xffff && IsScalar(cp) && |s| >= 3
    requires s[0] as int == 0xe0 + cp / 4096 && s[1] as int == 0x80 + cp / 64 % 64 && s[2] as int == 0x80 + cp % 64
    ensures First(s) == Ok((cp, 3))
  {
    hide Continued;
    SixBits(s[1], cp / 64 % 64);
    SixBits(s[2], cp % 64);
    StartsThree(cp, s);
    ContinuedStep(s, 1, cp / 4096);
    assert cp / 4096 * 64 + cp / 64 % 64 == cp / 64;
    ContinuedStep(s, 2, cp / 64);
  }

  lemma StartsThree(cp: nat, s: string)
    requires 0x800 <= cp <= 0xffff && |s| >= 3 && s[0] as int == 0xe0 + cp / 4096
    ensures Extra(s[0]) == Ok(2) && Continued(s, 0) == Ok(cp / 4096)
  {
  }

  lemma ReadsFour(cp: nat, s: string)
    requires 0x1_0000 <= cp <= 0x10ffff && |s| >= 4
    requires s[0] as int == 0xf0 + cp / 262144 && s[1] as int == 0x80 + cp / 4096 % 64
    requires s[2] as int == 0x80 + cp / 64 % 64 && s[3] as int == 0x80 + cp % 64
    ensures First(s) == Ok((cp, 4))
  {
    hide Continued;
    SixBits(s[1], cp / 4096 % 64);
    SixBits(s[2], cp / 64 % 64);
    SixBits(s[3], cp % 64);
    StartsFour(cp, s);
    ContinuedStep(s, 1, cp / 262144);
    assert cp / 262144 * 64 + cp / 4096 % 64 == cp / 4096;
    ContinuedStep(s, 2, cp / 4096);
    assert cp / 4096 * 64 + cp / 64 % 64 == cp / 64;
    ContinuedStep(s, 3, cp / 64);
  }

  lemma StartsFour(cp: nat, s: string)
    requires 0x1_0000 <= cp <= 0x10ffff && |s| >= 4 && s[0] as int == 0xf0 + cp / 262144
    ensures Extra(s[0]) == Ok(3) && Continued(s, 0) == Ok(cp / 262144)
  {
  }

  /** What is encoded is read, whatever follows. */
  lemma EncodedReads(cp: nat, rest: string)
    requires IsScalar(cp)
    ensures First(Encoded(cp) + rest) == Ok((cp, |Encoded(cp)|))
  {
    hide First;
    hide Continued;
    var e := Encoded(cp);
    var s := e + rest;
    assert s[0] == e[0];
    if cp <= 0x7f {
      ReadsOne(cp, s);
    } else if cp <= 0x7ff {
      assert s[1] == e[1];
      ReadsTwo(cp, s);
    } else if cp <= 0xffff {
      assert s[1] == e[1] && s[2] == e[2];
      ReadsThree(cp, s);
    } else {
      assert s[1] == e[1] && s[2] == e[2] && s[3] == e[3];
      ReadsFour(cp, s);
    }
  }

  lemma ReadsOne(cp: nat, s: string)
    requires cp <= 0x7f && |s| >= 1 && s[0] as int == cp
    ensures First(s) == Ok((cp, 1))
  {
  }

  /** What the code point of a text read well is made of. */
  lemma ContinuedParts(s: string, n: nat)
    requires 0 < n < |s| && Continued(s, n).Ok?
    ensures Continued(s, n - 1).Ok? && IsContinuation(s[n])
    ensures Continued(s, n).value == Continued(s, n - 1).value * 64 + (s[n] as int - 0x80)
  {
  }

  /** Only what is encoded is read: there is one spelling of a code point. */
  lemma ReadIsEncoded(s: string)
    requires s != "" && First(s).Ok?
    ensures IsScalar(First(s).value.0) && s[..First(s).value.1] == Encoded(First(s).value.0)
  {
    hide Continued;
    hide Encoded;
    var (cp, size) := First(s).value;
    LeadingOnly(s);
    if size == 2 {
      ContinuedParts(s, 1);
      SpelledTwo(s, cp);
    } else if size == 3 {
      ContinuedParts(s, 2);
      ContinuedParts(s, 1);
      SpelledThree(s, cp);
    } else if size == 4 {
      ContinuedParts(s, 3);
      ContinuedParts(s, 2);
      ContinuedParts(s, 1);
      SpelledFour(s, cp);
    } else {
      SpelledOne(s, cp);
    }
  }

  lemma LeadingOnly(s: string)
    requires s != ""
    ensures Continued(s, 0) == Ok(Leading(s[0]))
  {
  }

  lemma SpelledOne(s: string, cp: nat)
    requires |s| >= 1 && s[0] as int == cp < 0x80
    ensures s[..1] == Encoded(cp)
  {
  }

  lemma SpelledTwo(s: string, cp: nat)
    requires |s| >= 2 && 0xc2 <= s[0] as int < 0xe0 && IsContinuation(s[1])
    requires cp == s[0] as int % 32 * 64 + (s[1] as int - 0x80)
    ensures s[..2] == Encoded(cp)
  {
    assert cp / 64 == s[0] as int - 0xc0 && cp % 64 == s[1] as int - 0x80;
  }

  lemma SpelledThree(s: string, cp: nat)
    requires |s| >= 3 && 0xe0 <= s[0] as int < 0xf0 && IsContinuation(s[1]) && IsContinuation(s[2])
    requires cp == (s[0] as int % 16 * 64 + (s[1] as int - 0x80)) * 64 + (s[2] as int - 0x80) && cp >= 0x800
    ensures s[..3] == Encoded(cp)
  {
    var high := s[0] as int % 16 * 64 + (s[1] as int - 0x80);
    assert cp / 64 == high && cp % 64 == s[2] as int - 0x80;
    assert cp / 4096 == high / 64 == s[0] as int - 0xe0 && high % 64 == s[1] as int - 0x80;
  }

  lemma SpelledFour(s: string, cp: nat)
    requires |s| >= 4 && 0xf0 <= s[0] as int < 0xf8 && IsContinuation(s[1]) && IsContinuation(s[2]) && IsContinuation(s[3])
    requires cp == ((s[0] as int % 8 * 64 + (s[1] as int - 0x80)) * 64 + (s[2] as int - 0x80)) * 64 + (s[3] as int - 0x80)
    requires 0x1_0000 <= cp <= 0x10ffff
    ensures s[..4] == Encoded(cp)
  {
    var top := s[0] as int % 8 * 64 + (s[1] as int - 0x80);
    var high := top * 64 + (s[2] as int - 0x80);
    assert cp / 64 == high && cp % 64 == s[3] as int - 0x80;
    assert cp / 4096 == high / 64 == top && high % 64 == s[2] as int - 0x80;
    assert cp / 262144 == top / 64 == s[0] as int - 0xf0 && top % 64 == s[1] as int - 0x80;
  }

  // ---- Whole texts ----

  function Then<T>(first: seq<T>, rest: Result<seq<T>>): (r: Result<seq<T>>)
  {
    match rest
    case Ok(more) => Ok(first + more)
    case Err(code) => Err(code)
  }

  function Decoded(text: string): (r: Result<seq<nat>>)
    decreases |text|
  {
    if text == "" then Ok([])
    else
      var (cp, size) :- First(text);
      Then([cp], Decoded(text[size..]))
  }

  predicate AllScalars(cps: seq<nat>) { forall i :: 0 <= i < |cps| ==> IsScalar(cps[i]) }

  function EncodedAll(cps: seq<nat>): (s: string)
    requires AllScalars(cps)
  {
    if cps == [] then "" else Encoded(cps[0]) + EncodedAll(cps[1..])
  }

  /** UTF-8 is a bijection between sequences of scalar values and the texts that are accepted. */
  lemma {:induction false} DecodedIsEncoded(text: string)
    requires Decoded(text).Ok?
    ensures AllScalars(Decoded(text).value) && EncodedAll(Decoded(text).value) == text
    decreases |text|
  {
    hide First;
    if text != "" {
      var (cp, size) := First(text).value;
      DecodedIsEncoded(text[size..]);
      ReadIsEncoded(text);
      assert text == text[..size] + text[size..];
      assert Decoded(text).value[1..] == Decoded(text[size..]).value;
    }
  }

  lemma {:induction false} EncodedIsDecoded(cps: seq<nat>)
    requires AllScalars(cps)
    ensures Decoded(EncodedAll(cps)) == Ok(cps)
  {
    hide First;
    if cps != [] {
      EncodedIsDecoded(cps[1..]);
      var e, rest := Encoded(cps[0]), EncodedAll(cps[1..]);
      EncodedReads(cps[0], rest);
      assert (e + rest)[|e|..] == rest;
      assert [cps[0]] + cps[1..] == cps;
    }
  }

  /** Adding to what has been read already. */
  lemma ThenAgain<T>(a: seq<T>, b: seq<T>, r: Result<seq<T>>)
    ensures Then(a, Then(b, r)) == Then(a + b, r)
  {
    if r.Ok? {
      assert a + (b + r.value) == (a + b) + r.value;
    }
  }

  lemma ThenNothing<T>(r: Result<seq<T>>)
    ensures Then([], r) == r
  {
    if r.Ok? {
      assert [] + r.value == r.value;
    }
  }

  lemma ThenDone<T>(a: seq<T>)
    ensures Then(a, Ok([])) == Ok(a)
  {
    assert a + [] == a;
  }

  lemma DecodeStep(text: string, i: nat, out: seq<nat>)
    requires i < |text|
    ensures First(text[i..]).Err? ==> Then(out, Decoded(text[i..])) == Err(First(text[i..]).code)
    ensures First(text[i..]).Ok? ==>
              var (cp, size) := First(text[i..]).value;
              i + size <= |text| && Then(out + [cp], Decoded(text[i + size..])) == Then(out, Decoded(text[i..]))
  {
    hide First;
    if First(text[i..]).Ok? {
      var (cp, size) := First(text[i..]).value;
      assert text[i..][size..] == text[i + size..];
      ThenAgain(out, [cp], Decoded(text[i + size..]));
    }
  }

  method DecodeUtf8(text: string) returns (r: Result<seq<nat>>)
    ensures r == Decoded(text)
  {
    hide First;
    hide Then;
    var out: seq<nat>, i: nat := [], 0;
    ThenNothing(Decoded(text));
    assert text[0..] == text;
    while i < |text|
      invariant i <= |text|
      invariant Then(out, Decoded(text[i..])) == Decoded(text)
    {
      var next := DecodeOne(text[i..]);
      DecodeStep(text, i, out);
      if next.Err? {
        return Err(next.code);
      }
      var (cp, size) := next.value;
      out := out + [cp];
      i := i + size;
    }
    assert text[i..] == "";
    ThenDone(out);
    return Ok(out);
  }

  method DecodeOne(s: string) returns (r: Result<(nat, nat)>)
    requires s != ""
    ensures r == First(s)
  {
    var extra := Extra(s[0]);
    if extra.Err? || extra.value >= |s| {
      return Err(BAD_TEXT);
    }
    var cp := Leading(s[0]);
    var j: nat := 1;
    while j <= extra.value
      invariant 1 <= j <= extra.value + 1
      invariant Continued(s, j - 1) == Ok(cp)
    {
      if !IsContinuation(s[j]) {
        ContinuedFails(s, j, extra.value);
        return Err(BAD_TEXT);
      }
      cp := cp * 64 + s[j] as int % 64;
      j := j + 1;
    }
    if (extra.value == 2 && cp < 0x800) || (extra.value == 3 && cp < 0x10000) || !IsScalar(cp) {
      return Err(BAD_TEXT);
    }
    return Ok((cp, extra.value + 1));
  }

  lemma {:induction false} ContinuedFails(s: string, m: nat, n: nat)
    requires 0 < m <= n < |s| && !IsContinuation(s[m])
    ensures Continued(s, n).Err?
    decreases n
  {
    if m < n {
      ContinuedFails(s, m, n - 1);
    }
  }

  // ---- Wide strings of 16-bit units ----

  function Units(cp: nat): (w: seq<nat>)
    requires cp <= 0x10ffff
    ensures 1 <= |w| <= 2
  {
    if cp <= 0xffff then [cp] else [0xd800 + (cp - 0x10000) / 1024, 0xdc00 + (cp - 0x10000) % 1024]
  }

  function WideOf(cps: seq<nat>): (w: seq<nat>)
    requires AllScalars(cps)
  {
    if cps == [] then [] else Units(cps[0]) + WideOf(cps[1..])
  }

  function Widened(text: string): (r: Result<seq<nat>>)
  {
    if |text| > MAX_TEXT_SIZE then Err("INPUT_LIMIT")
    else
      var cps :- Decoded(text);
      DecodedIsEncoded(text);
      Ok(WideOf(cps))
  }

  /** The first code point of a wide string and how many units it takes. */
  function FirstWide(w: seq<nat>): (r: Result<(nat, nat)>)
    requires w != [] && forall i :: 0 <= i < |w| ==> w[i] < 0x1_0000
    ensures r.Ok? ==> IsScalar(r.value.0) && 1 <= r.value.1 <= |w|
  {
    if 0xd800 <= w[0] <= 0xdbff then
      if |w| < 2 || w[1] < 0xdc00 || w[1] > 0xdfff then Err(BAD_TEXT)
      else Ok((0x10000 + (w[0] - 0xd800) * 1024 + (w[1] - 0xdc00), 2))
    else if 0xdc00 <= w[0] <= 0xdfff then Err(BAD_TEXT)
    else Ok((w[0], 1))
  }

  function Spelled(w: seq<nat>): (r: Result<string>)
    requires forall i :: 0 <= i < |w| ==> w[i] < 0x1_0000
    decreases |w|
  {
    if w == [] then Ok("")
    else
      var (cp, size) :- FirstWide(w);
      Then(Encoded(cp), Spelled(w[size..]))
  }

  function Narrowed(w: seq<nat>): (r: Result<string>)
    requires forall i :: 0 <= i < |w| ==> w[i] < 0x1_0000
  {
    if |w| > MAX_TEXT_SIZE then Err("INPUT_LIMIT") else Spelled(w)
  }

  method Widen(text: string) returns (r: Result<seq<nat>>)
    ensures r == Widened(text)
  {
    hide First;
    hide Units;
    hide EncodedAll;
    if |text| > MAX_TEXT_SIZE {
      return Err("INPUT_LIMIT");
    }
    var decoded := DecodeUtf8(text);
    if decoded.Err? {
      return Err(decoded.code);
    }
    var cps := decoded.value;
    DecodedIsEncoded(text);
    var out: seq<nat>, i: nat := [], 0;
    assert cps[0..] == cps;
    while i < |cps|
      invariant i <= |cps|
      invariant out + WideOf(cps[i..]) == WideOf(cps)
    {
      assert cps[i..][1..] == cps[i + 1..];
      assert out + (Units(cps[i]) + WideOf(cps[i + 1..])) == (out + Units(cps[i])) + WideOf(cps[i + 1..]);
      out := out + Units(cps[i]);
      i := i + 1;
    }
    assert cps[i..] == [] && out + [] == out;
    return Ok(out);
  }

  lemma NarrowStep(w: seq<nat>, i: nat, out: string)
    requires i < |w| && forall i :: 0 <= i < |w| ==> w[i] < 0x1_0000
    ensures FirstWide(w[i..]).Err? ==> Then(out, Spelled(w[i..])) == Err(FirstWide(w[i..]).code)
    ensures FirstWide(w[i..]).Ok? ==>
              var (cp, size) := FirstWide(w[i..]).value;
              i + size <= |w| && Then(out + Encoded(cp), Spelled(w[i + size..])) == Then(out, Spelled(w[i..]))
  {
    hide FirstWide;
    hide Encoded;
    if FirstWide(w[i..]).Ok? {
      var (cp, size) := FirstWide(w[i..]).value;
      assert w[i..][size..] == w[i + size..];
      ThenAgain(out, Encoded(cp), Spelled(w[i + size..]));
    }
  }

  method Narrow(w: seq<nat>) returns (r: Result<string>)
    requires forall i :: 0 <= i < |w| ==> w[i] < 0x1_0000
    ensures r == Narrowed(w)
  {
    if |w| > MAX_TEXT_SIZE {
      return Err("INPUT_LIMIT");
    }
    hide FirstWide;
    hide Encoded;
    hide Then;
    var out: string, i: nat := "", 0;
    ThenNothing(Spelled(w));
    assert w[0..] == w;
    while i < |w|
      invariant i <= |w|
      invariant Then(out, Spelled(w[i..])) == Spelled(w)
    {
      var next := FirstWide(w[i..]);
      NarrowStep(w, i, out);
      if next.Err? {
        return Err(next.code);
      }
      var (cp, size) := next.value;
      out := out + Encoded(cp);
      i := i + size;
    }
    assert w[i..] == [];
    ThenDone(out);
    return Ok(out);
  }

  lemma UnitsRead(cp: nat, rest: seq<nat>)
    requires IsScalar(cp) && forall i :: 0 <= i < |rest| ==> rest[i] < 0x1_0000
    ensures (forall i :: 0 <= i < |Units(cp) + rest| ==> (Units(cp) + rest)[i] < 0x1_0000)
    ensures FirstWide(Units(cp) + rest) == Ok((cp, |Units(cp)|))
  {
  }

  lemma {:induction false} WideSpells(cps: seq<nat>)
    requires AllScalars(cps)
    ensures forall i :: 0 <= i < |WideOf(cps)| ==> WideOf(cps)[i] < 0x1_0000
    ensures Spelled(WideOf(cps)) == Ok(EncodedAll(cps)) && |WideOf(cps)| <= |EncodedAll(cps)|
  {
    hide FirstWide;
    if cps != [] {
      WideSpells(cps[1..]);
      var u, rest := Units(cps[0]), WideOf(cps[1..]);
      UnitsRead(cps[0], rest);
      assert (u + rest)[|u|..] == rest;
    }
  }

  /** Whatever text widens, narrows back to itself. */
  lemma WideRoundTrip(text: string)
    requires Widened(text).Ok?
    ensures forall i :: 0 <= i < |Widened(text).value| ==> Widened(text).value[i] < 0x1_0000
    ensures Narrowed(Widened(text).value) == Ok(text)
  {
    DecodedIsEncoded(text);
    WideSpells(Decoded(text).value);
  }

  lemma UnitsRebuilt(w: seq<nat>)
    requires w != [] && (forall i :: 0 <= i < |w| ==> w[i] < 0x1_0000) && FirstWide(w).Ok?
    ensures w[..FirstWide(w).value.1] == Units(FirstWide(w).value.0)
  {
  }

  lemma {:induction false} SpelledWidens(w: seq<nat>)
    requires (forall i :: 0 <= i < |w| ==> w[i] < 0x1_0000) && Spelled(w).Ok?
    ensures Decoded(Spelled(w).value).Ok? && AllScalars(Decoded(Spelled(w).value).value)
    ensures WideOf(Decoded(Spelled(w).value).value) == w
    decreases |w|
  {
    hide FirstWide;
    hide First;
    hide Encoded;
    hide Units;
    if w != [] {
      var (cp, size) := FirstWide(w).value;
      var e, rest := Encoded(cp), Spelled(w[size..]).value;
      SpelledWidens(w[size..]);
      UnitsRebuilt(w);
      EncodedReads(cp, rest);
      assert (e + rest)[|e|..] == rest;
      var cps := [cp] + Decoded(rest).value;
      assert cps[1..] == Decoded(rest).value;
      assert w == w[..size] + w[size..];
    }
  }

  /** Whatever wide string narrows, widens back to itself exactly when its text is within the limit of 4 MiB. */
  lemma NarrowRoundTrip(w: seq<nat>)
    requires (forall i :: 0 <= i < |w| ==> w[i] < 0x1_0000) && Narrowed(w).Ok?
    ensures Widened(Narrowed(w).value) == Ok(w) <==> |Narrowed(w).value| <= 4_194_304
  {
    if |Narrowed(w).value| <= 4_194_304 {
      SpelledWidens(w);
    }
  }

  /** Texts and wide strings of up to 4 MiB that are well-formed are converted; longer ones are not looked at. */
  lemma SizeLimits(text: string, w: seq<nat>)
    requires forall i :: 0 <= i < |w| ==> w[i] < 0x1_0000
    ensures |text| > 4_194_304 ==> Widened(text) == Err("INPUT_LIMIT")
    ensures |text| <= 4_194_304 ==> (Widened(text).Ok? <==> Decoded(text).Ok?) && (Widened(text).Err? ==> Widened(text).code == Decoded(text).code)
    ensures |w| > 4_194_304 ==> Narrowed(w) == Err("INPUT_LIMIT")
    ensures |w| <= 4_194_304 ==> Narrowed(w) == Spelled(w)
  {
    hide Decoded;
    hide Spelled;
  }
}
