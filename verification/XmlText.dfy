/** Attribute values in XML: escaping, entities and quoted strings of config.cpp. */
module XmlText {
  import opened Bytes
  import opened Utf8

  const BAD_XML := "XML"

  // ---- Entities ----

  /** The value of a digit, if it is one in the base. */
  function DigitOf(c: char, hex: bool): (r: Option<nat>)
    ensures r.Some? ==> r.value < if hex then 16 else 10
  {
    if '0' <= c <= '9' then Some(c as int - '0' as int)
    else if hex && 'a' <= c <= 'f' then Some(10 + c as int - 'a' as int)
    else if hex && 'A' <= c <= 'F' then Some(10 + c as int - 'A' as int)
    else None
  }

  /** A number read on from `value`; too large is an error before it is reached. */
  function NumberFrom(digits: string, hex: bool, value: nat): (r: Result<nat>)
    ensures r.Err? ==> r.code == BAD_XML
  {
    if digits == "" then Ok(value)
    else
      var base := if hex then 16 else 10;
      match DigitOf(digits[0], hex)
      case None => Err(BAD_XML)
      case Some(d) =>
        if value > (0x10ffff - d) / base then Err(BAD_XML) else NumberFrom(digits[1..], hex, value * base + d)
  }

  function EntityOf(entity: string): (r: Result<string>)
    ensures r.Err? ==> r.code == BAD_XML
  {
    if entity == "amp" then Ok("&")
    else if entity == "lt" then Ok("<")
    else if entity == "gt" then Ok(">")
    else if entity == "quot" then Ok("\"")
    else if entity == "apos" then Ok("'")
    else if |entity| > 1 && entity[0] == '#' then
      var hex := entity[1] == 'x' || entity[1] == 'X';
      var digits := if hex then entity[2..] else entity[1..];
      if digits == "" then Err(BAD_XML)
      else
        var value :- NumberFrom(digits, hex, 0);
        if value == 0 || !IsScalar(value) then Err(BAD_XML) else Ok(Encoded(value))
    else Err(BAD_XML)
  }

  method DecodeEntity(entity: string) returns (r: Result<string>)
    ensures r == EntityOf(entity)
  {
    hide Encoded;
    if entity == "amp" { return Ok("&"); }
    if entity == "lt" { return Ok("<"); }
    if entity == "gt" { return Ok(">"); }
    if entity == "quot" { return Ok("\""); }
    if entity == "apos" { return Ok("'"); }
    if |entity| <= 1 || entity[0] != '#' {
      return Err(BAD_XML);
    }
    var hex := entity[1] == 'x' || entity[1] == 'X';
    var digits := if hex then entity[2..] else entity[1..];
    if digits == "" {
      return Err(BAD_XML);
    }
    var value := ReadNumber(digits, hex);
    if value.Err? || value.value == 0 || !IsScalar(value.value) {
      return Err(BAD_XML);
    }
    return Ok(Encoded(value.value));
  }

  method ReadNumber(digits: string, hex: bool) returns (r: Result<nat>)
    ensures r == NumberFrom(digits, hex, 0)
  {
    var base := if hex then 16 else 10;
    var value: nat, at: nat := 0, 0;
    assert digits[0..] == digits;
    while at < |digits|
      invariant at <= |digits|
      invariant NumberFrom(digits[at..], hex, value) == NumberFrom(digits, hex, 0)
    {
      assert digits[at..][1..] == digits[at + 1..];
      var digit := DigitOf(digits[at], hex);
      if digit.None? || value > (0x10ffff - digit.value) / base {
        return Err(BAD_XML);
      }
      value := value * base + digit.value;
      at := at + 1;
    }
    return Ok(value);
  }

  // ---- Escaping ----

  /** The bytes a character is written as; control characters but for tab and line ends have no spelling. */
  function EscapedChar(c: char): (r: Result<string>)
    ensures r.Ok? ==> r.value != ""
    ensures r.Err? ==> r.code == BAD_XML
  {
    if c == '&' then Ok("&amp;")
    else if c == '<' then Ok("&lt;")
    else if c == '>' then Ok("&gt;")
    else if c == '"' then Ok("&quot;")
    else if c == '\n' then Ok("&#10;")
    else if c == '\r' then Ok("&#13;")
    else if c == '\t' then Ok("&#9;")
    else if c as int < 32 then Err(BAD_XML)
    else Ok([c])
  }

  function EscapedFrom(value: string): (r: Result<string>)
  {
    if value == "" then Ok("")
    else
      var first :- EscapedChar(value[0]);
      Then(first, EscapedFrom(value[1..]))
  }

  function Escaped(value: string): (r: Result<string>)
  {
    if Widened(value).Err? then Err(Widened(value).code) else EscapedFrom(value)
  }

  lemma EscapeStep(value: string, i: nat, out: string)
    requires i < |value|
    ensures EscapedChar(value[i]).Err? ==> Then(out, EscapedFrom(value[i..])) == Err(BAD_XML)
    ensures EscapedChar(value[i]).Ok? ==>
              Then(out + EscapedChar(value[i]).value, EscapedFrom(value[i + 1..])) == Then(out, EscapedFrom(value[i..]))
  {
    hide EscapedChar;
    assert value[i..][1..] == value[i + 1..];
    if EscapedChar(value[i]).Ok? {
      ThenAgain(out, EscapedChar(value[i]).value, EscapedFrom(value[i + 1..]));
    }
  }

  method Escape(value: string) returns (r: Result<string>)
    ensures r == Escaped(value)
  {
    hide Widened;
    hide EscapedChar;
    hide Then;
    var wide := Widen(value);
    if wide.Err? {
      return Err(wide.code);
    }
    var out: string, i: nat := "", 0;
    ThenNothing(EscapedFrom(value));
    assert value[0..] == value;
    while i < |value|
      invariant i <= |value|
      invariant Then(out, EscapedFrom(value[i..])) == EscapedFrom(value)
    {
      EscapeStep(value, i, out);
      var escaped := EscapedChar(value[i]);
      if escaped.Err? {
        return Err(BAD_XML);
      }
      out := out + escaped.value;
      i := i + 1;
    }
    assert value[i..] == "";
    ThenDone(out);
    return Ok(out);
  }

  // ---- Quoted values ----

  /** The position of the first such character. */
  function Find(s: string, c: char): (r: Option<nat>)
    ensures r.Some? ==> r.value < |s| && s[r.value] == c && c !in s[..r.value]
    ensures r.None? ==> c !in s
  {
    if s == "" then None
    else if s[0] == c then Some(0)
    else
      match Find(s[1..], c)
      case None => None
      case Some(k) => assert s[..k + 1] == [s[0]] + s[1..][..k]; Some(k + 1)
  }

  predicate IsControl(c: char) { c as int < 32 && c != '\t' && c != '\r' && c != '\n' }

  /** A value put in front of what a longer one turns out to be. */
  function Longer(first: string, r: Result<(string, string)>): (s: Result<(string, string)>)
  {
    match r
    case Ok((value, rest)) => Ok((first + value, rest))
    case Err(code) => Err(code)
  }

  /** A quoted value behind its opening quote, and what follows the closing one. */
  function QuotedFrom(s: string, quote: char): (r: Result<(string, string)>)
    ensures r.Ok? ==> |r.value.1| < |s|
    ensures r.Err? ==> r.code == BAD_XML
    decreases |s|
  {
    if s == "" then Err(BAD_XML)
    else if s[0] == quote then Ok(("", s[1..]))
    else if s[0] == '&' then
      match Find(s[1..], ';')
      case None => Err(BAD_XML)
      case Some(k) =>
        var text :- EntityOf(s[1..k + 1]);
        Longer(text, QuotedFrom(s[k + 2..], quote))
    else if IsControl(s[0]) then Err(BAD_XML)
    else Longer([s[0]], QuotedFrom(s[1..], quote))
  }

  function Quoted(s: string): (r: Result<(string, string)>)
    ensures r.Ok? ==> |r.value.1| < |s|
    ensures r.Err? ==> r.code == BAD_XML
  {
    if s == "" || (s[0] != '"' && s[0] != '\'') then Err(BAD_XML) else QuotedFrom(s[1..], s[0])
  }

  // ---- Reading what was written ----

  lemma OneDigit(d: char, value: nat)
    requires '0' <= d <= '9' && value <= 1
    ensures NumberFrom([d], false, value) == Ok(value * 10 + (d as int - '0' as int))
  {
    assert [d][1..] == "";
  }

  lemma DecimalEntity(entity: string, digits: string, value: nat)
    requires entity == "#" + digits && digits != "" && '0' <= digits[0] <= '9'
    requires NumberFrom(digits, false, 0) == Ok(value) && 0 < value < 0x80
    ensures EntityOf(entity) == Ok([Byte(value)])
  {
    assert entity[1..] == digits && entity[1] == digits[0];
  }

  lemma TwoDigits(d: char)
    requires '0' <= d <= '9'
    ensures NumberFrom(['1', d], false, 0) == Ok(10 + (d as int - '0' as int))
  {
    assert ['1', d][1..] == [d];
    OneDigit(d, 1);
  }

  /** The name of the entity that stands for a character. */
  function EntityFor(c: char): (entity: string)
  {
    if c == '&' then "amp"
    else if c == '<' then "lt"
    else if c == '>' then "gt"
    else if c == '"' then "quot"
    else if c == '\n' then "#10"
    else if c == '\r' then "#13"
    else if c == '\t' then "#9"
    else ""
  }

  lemma EscapedByEntity(c: char)
    requires EscapedChar(c).Ok? && EntityFor(c) != ""
    ensures EscapedChar(c).value == "&" + EntityFor(c) + ";" && ';' !in EntityFor(c)
  {
  }

  lemma EntityMeans(c: char)
    requires EntityFor(c) != ""
    ensures EntityOf(EntityFor(c)) == Ok([c])
  {
    hide NumberFrom;
    hide EntityOf;
    if c == '\n' {
      TwoDigits('0');
      DecimalEntity("#10", "10", 10);
    } else if c == '\r' {
      TwoDigits('3');
      DecimalEntity("#13", "13", 13);
    } else if c == '\t' {
      OneDigit('9', 0);
      DecimalEntity("#9", "9", 9);
    } else {
      NamedMeans(c);
    }
  }

  lemma NamedMeans(c: char)
    requires c == '&' || c == '<' || c == '>' || c == '"'
    ensures EntityOf(EntityFor(c)) == Ok([c])
  {
    hide NumberFrom;
  }

  /** An entity with a name free of semicolons is read for what it means. */
  lemma EntityReads(entity: string, rest: string)
    requires ';' !in entity && EntityOf(entity).Ok?
    ensures QuotedFrom("&" + entity + ";" + rest, '"') == Longer(EntityOf(entity).value, QuotedFrom(rest, '"'))
  {
    hide EntityOf;
    hide Find;
    var s := "&" + entity + ";" + rest;
    var k := |entity|;
    assert s[1..][k] == ';' && s[1..][..k] == entity;
    assert s[1..k + 1] == entity && s[k + 2..] == rest;
    FirstAt(s[1..], entity, rest);
  }

  lemma {:induction false} FirstAt(s: string, front: string, rest: string)
    requires ';' !in front && s == front + ";" + rest
    ensures Find(s, ';') == Some(|front|)
  {
    if front != "" {
      assert s[0] == front[0];
      assert s[1..] == front[1..] + ";" + rest;
      FirstAt(s[1..], front[1..], rest);
    }
  }

  lemma CharReads(c: char, rest: string)
    requires EscapedChar(c).Ok?
    ensures QuotedFrom(EscapedChar(c).value + rest, '"') == Longer([c], QuotedFrom(rest, '"'))
  {
    hide EntityOf;
    if EntityFor(c) != "" {
      EscapedByEntity(c);
      EntityMeans(c);
      EntityReads(EntityFor(c), rest);
    } else {
      assert ([c] + rest)[1..] == rest;
    }
  }

  /** Whatever value can be escaped is read back, up to the closing quote. */
  lemma {:induction false} EscapedReads(value: string, rest: string)
    requires EscapedFrom(value).Ok?
    ensures QuotedFrom(EscapedFrom(value).value + "\"" + rest, '"') == Ok((value, rest))
  {
    hide EscapedChar;
    if value == "" {
      assert "" + "\"" + rest == "\"" + rest;
      assert ("\"" + rest)[1..] == rest;
    } else {
      var first, more := EscapedChar(value[0]).value, EscapedFrom(value[1..]).value;
      EscapedReads(value[1..], rest);
      CharReads(value[0], more + "\"" + rest);
      assert first + more + "\"" + rest == first + (more + "\"" + rest);
      assert [value[0]] + value[1..] == value;
    }
  }
}
