/** What numeric character references mean, by the place value of their digits: section 4.1 of XML 1.0, as `decode_entity` in config.cpp reads them. */
module EntitySpelling {
  import opened Bytes
  import opened Utf8
  import opened XmlText

  const LOWER_DIGITS := "0123456789abcdef"
  const UPPER_DIGITS := "0123456789ABCDEF"

  /** The character is the digit, in either case. */
  predicate Shows(c: char, digit: nat)
    requires digit < 16
  {
    c == LOWER_DIGITS[digit] || c == UPPER_DIGITS[digit]
  }

  function Power(base: nat, n: nat): (r: nat) { if n == 0 then 1 else base * Power(base, n - 1) }

  /** Each digit counts for itself times the base to the power of the digits behind it. */
  function PlaceValue(digits: seq<nat>, base: nat): (value: nat)
  {
    if digits == [] then 0 else digits[0] * Power(base, |digits| - 1) + PlaceValue(digits[1..], base)
  }

  /** `text` is written with these digits. */
  predicate Writes(text: string, digits: seq<nat>, base: nat)
  {
    && |text| == |digits|
    && forall i :: 0 <= i < |digits| ==> digits[i] < base && digits[i] < 16 && Shows(text[i], digits[i])
  }

  function Base(hex: bool): (base: nat) { if hex then 16 else 10 }

  lemma DigitShown(c: char, hex: bool)
    ensures DigitOf(c, hex).Some? ==> DigitOf(c, hex).value < Base(hex) && Shows(c, DigitOf(c, hex).value)
    ensures forall d :: 0 <= d < Base(hex) && Shows(c, d) ==> DigitOf(c, hex) == Some(d)
  {
    if d: nat :| d < Base(hex) && Shows(c, d) {
      OneDigitShown(c, d, hex);
    }
    if DigitOf(c, hex).Some? {
      ShownByValue(c, hex);
    }
    forall d: nat | d < Base(hex) && Shows(c, d)
      ensures DigitOf(c, hex) == Some(d)
    {
      OneDigitShown(c, d, hex);
    }
  }

  lemma OneDigitShown(c: char, d: nat, hex: bool)
    requires d < Base(hex) && Shows(c, d)
    ensures DigitOf(c, hex) == Some(d)
  {
    if d < 10 {
      assert LOWER_DIGITS[d] as int == '0' as int + d && UPPER_DIGITS[d] as int == '0' as int + d;
    } else {
      assert LOWER_DIGITS[d] as int == 'a' as int + (d - 10) && UPPER_DIGITS[d] as int == 'A' as int + (d - 10);
    }
  }

  lemma ShownByValue(c: char, hex: bool)
    requires DigitOf(c, hex).Some?
    ensures Shows(c, DigitOf(c, hex).value)
  {
    var d := DigitOf(c, hex).value;
    if d < 10 {
      assert LOWER_DIGITS[d] as int == '0' as int + d;
    } else {
      assert LOWER_DIGITS[d] as int == 'a' as int + (d - 10) && UPPER_DIGITS[d] as int == 'A' as int + (d - 10);
    }
  }

  lemma {:induction false} PowerPositive(base: nat, n: nat)
    ensures base > 0 ==> Power(base, n) >= 1
  {
    if n > 0 {
      PowerPositive(base, n - 1);
      if base > 0 {
        Grows(base, Power(base, n - 1));
      }
    }
  }

  lemma Grows(a: nat, b: nat)
    ensures b >= 1 ==> a <= a * b
  {
    if b >= 1 {
      assert a * b == a + a * (b - 1);
    }
  }

  /** Reading on from a value: the value moves up by the digits still to come. */
  lemma {:induction false} NumberMeans(text: string, digits: seq<nat>, hex: bool, value: nat)
    requires Writes(text, digits, Base(hex))
    requires value * Power(Base(hex), |digits|) + PlaceValue(digits, Base(hex)) <= 0x10_ffff
    ensures NumberFrom(text, hex, value) == Ok(value * Power(Base(hex), |digits|) + PlaceValue(digits, Base(hex)))
    decreases |digits|
  {
    hide DigitOf;
    hide Shows;
    hide Power;
    hide PlaceValue;
    var base := Base(hex);
    NothingToCome(value, base);
    if digits != [] {
      DigitShown(text[0], hex);
      var d, rest := digits[0], digits[1..];
      var next := value * base + d;
      OneMoreDigit(value, d, rest, base);
      assert [d] + rest == digits;
      PowerPositive(base, |rest|);
      Grows(next, Power(base, |rest|));
      assert next <= 0x10_ffff;
      NumberMeans(text[1..], rest, hex, next);
      NoOverflow(value, d, base);
    }
  }

  /** A digit read on weighs what it weighs in front of the rest. */
  lemma OneMoreDigit(value: nat, d: nat, rest: seq<nat>, base: nat)
    ensures (value * base + d) * Power(base, |rest|) + PlaceValue(rest, base)
         == value * Power(base, |[d] + rest|) + PlaceValue([d] + rest, base)
  {
    assert ([d] + rest)[1..] == rest;
    Shifted(value, d, base, Power(base, |rest|));
  }

  lemma Shifted(value: nat, d: nat, base: nat, power: nat)
    ensures (value * base + d) * power == value * (base * power) + d * power
  {
  }

  lemma NoOverflow(value: nat, d: nat, base: nat)
    requires (base == 10 || base == 16) && value * base + d <= 0x10_ffff
    ensures value <= (0x10_ffff - d) / base
  {
    if base == 10 {
      assert value * 10 <= 0x10_ffff - d;
    } else {
      assert value * 16 <= 0x10_ffff - d;
    }
  }

  lemma NothingToCome(value: nat, base: nat)
    ensures value * Power(base, 0) + PlaceValue([], base) == value
  {
  }

  /** What is read without an error was written with digits, and is their place value. */
  lemma {:induction false} NumberWritten(text: string, hex: bool, value: nat) returns (digits: seq<nat>)
    requires NumberFrom(text, hex, value).Ok?
    ensures Writes(text, digits, Base(hex))
    ensures NumberFrom(text, hex, value).value == value * Power(Base(hex), |digits|) + PlaceValue(digits, Base(hex))
    decreases |text|
  {
    hide DigitOf;
    hide Shows;
    hide Power;
    NothingToCome(value, Base(hex));
    digits := [];
    if text != "" {
      DigitShown(text[0], hex);
      var d := DigitOf(text[0], hex).value;
      var rest := NumberWritten(text[1..], hex, value * Base(hex) + d);
      digits := [d] + rest;
      OneMoreDigit(value, d, rest, Base(hex));
    }
  }

  /** The text of a reference: a mark, an `x` of either case for base 16, and digits. */
  predicate Refers(entity: string, hex: bool, text: string)
  {
    if hex then entity == "#x" + text || entity == "#X" + text else entity == "#" + text
  }

  /**
   Every spelling of a scalar value but zero - decimal or hexadecimal, in either case, with any number of leading zeros - is
   decoded to the encoding of that value.
   */
  lemma EverySpellingDecodes(entity: string, hex: bool, text: string, digits: seq<nat>)
    requires Refers(entity, hex, text) && text != "" && Writes(text, digits, if hex then 16 else 10)
    requires 0 < PlaceValue(digits, if hex then 16 else 10) && IsScalar(PlaceValue(digits, if hex then 16 else 10))
    ensures EntityOf(entity) == Ok(Encoded(PlaceValue(digits, if hex then 16 else 10)))
  {
    hide NumberFrom;
    hide Encoded;
    hide PlaceValue;
    ScalarIsSmall(PlaceValue(digits, Base(hex)));
    NumberMeans(text, digits, hex, 0);
    NotNamed(entity, hex, text);
    if !hex {
      DecimalIsNoX(text[0], digits[0]);
    }
    assert (if hex then entity[2..] else entity[1..]) == text;
  }

  lemma ScalarIsSmall(value: nat)
    requires IsScalar(value)
    ensures value <= 0x10_ffff
  {
  }

  lemma NotNamed(entity: string, hex: bool, text: string)
    requires Refers(entity, hex, text) && text != ""
    ensures |entity| > 1 && entity[0] == '#' && (hex ==> |entity| > 2 && (entity[1] == 'x' || entity[1] == 'X'))
    ensures !hex ==> entity[1] == text[0]
  {
  }

  lemma DecimalIsNoX(c: char, d: nat)
    requires d < 10 && Shows(c, d)
    ensures c != 'x' && c != 'X'
  {
    OneDigitShown(c, d, false);
  }

  /** Whatever numeric reference is decoded spells the scalar value it is decoded to. */
  lemma DecodedIsSpelled(entity: string) returns (hex: bool, text: string, digits: seq<nat>)
    requires EntityOf(entity).Ok? && |entity| > 0 && entity[0] == '#'
    ensures Refers(entity, hex, text) && text != "" && Writes(text, digits, if hex then 16 else 10)
    ensures var value := PlaceValue(digits, if hex then 16 else 10);
            0 < value && IsScalar(value) && EntityOf(entity) == Ok(Encoded(value))
  {
    hide NumberFrom;
    hide Encoded;
    hide PlaceValue;
    hide Writes;
    hex := entity[1] == 'x' || entity[1] == 'X';
    text := if hex then entity[2..] else entity[1..];
    assert entity == (if hex then entity[..2] + text else entity[..1] + text);
    digits := NumberWritten(text, hex, 0);
  }

  /** Apart from numeric references there are just five names. */
  lemma FiveNames(entity: string)
    requires entity == "" || entity[0] != '#'
    ensures EntityOf(entity).Ok? <==> entity in {"amp", "lt", "gt", "quot", "apos"}
    ensures EntityOf("amp") == Ok("&") && EntityOf("lt") == Ok("<") && EntityOf("gt") == Ok(">")
    ensures EntityOf("quot") == Ok("\"") && EntityOf("apos") == Ok("'")
  {
    hide NumberFrom;
  }
}
