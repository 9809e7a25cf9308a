/** Attributes by position: fixed keys with values beside them, and looking them up. */
module XmlFields {
  import opened Bytes
  import opened Xml
  import opened XmlPrinting

  function Zipped(keys: seq<string>, values: seq<string>): (fields: seq<Field>)
    requires |keys| == |values|
    ensures |fields| == |keys|
  {
    if keys == [] then [] else [(keys[0], values[0])] + Zipped(keys[1..], values[1..])
  }

  /** Keys that may stand in one tag. */
  predicate KeysOk(keys: seq<string>)
  {
    (forall i :: 0 <= i < |keys| ==> IsName(keys[i])) && forall i, j :: 0 <= i < j < |keys| ==> keys[i] != keys[j]
  }

  lemma {:induction false} ZippedNames(keys: seq<string>, values: seq<string>, attrs: Attrs)
    requires |keys| == |values| && KeysOk(keys) && forall i :: 0 <= i < |keys| ==> keys[i] !in attrs
    ensures NamesOk(attrs, Zipped(keys, values))
    decreases |keys|
  {
    hide IsName;
    if keys != [] {
      ZippedNames(keys[1..], values[1..], attrs[keys[0] := values[0]]);
      assert Zipped(keys, values)[1..] == Zipped(keys[1..], values[1..]);
    }
  }

  /** What is known of a key that the rest of the fields does not have. */
  lemma {:induction false} ZippedKeeps(keys: seq<string>, values: seq<string>, attrs: Attrs, key: string)
    requires |keys| == |values| && key !in keys
    ensures var r := AttrsOf(attrs, Zipped(keys, values));
            (key in r <==> key in attrs) && (key in attrs ==> r[key] == attrs[key])
    decreases |keys|
  {
    if keys != [] {
      assert keys[0] in keys && forall k :: k in keys[1..] ==> k in keys;
      ZippedKeeps(keys[1..], values[1..], attrs[keys[0] := values[0]], key);
      assert Zipped(keys, values)[1..] == Zipped(keys[1..], values[1..]);
    }
  }

  /** Each key has the value beside it. */
  lemma {:induction false} ZippedAt(keys: seq<string>, values: seq<string>, attrs: Attrs, i: nat)
    requires |keys| == |values| && i < |keys| && forall j, k :: 0 <= j < k < |keys| ==> keys[j] != keys[k]
    ensures var r := AttrsOf(attrs, Zipped(keys, values));
            keys[i] in r && r[keys[i]] == values[i]
    decreases |keys|
  {
    assert Zipped(keys, values)[1..] == Zipped(keys[1..], values[1..]);
    var attrs' := attrs[keys[0] := values[0]];
    if i > 0 {
      ZippedAt(keys[1..], values[1..], attrs', i - 1);
    } else {
      ZippedKeeps(keys[1..], values[1..], attrs', keys[0]);
    }
  }

  /** No other keys are there. */
  lemma {:induction false} ZippedOnly(keys: seq<string>, values: seq<string>, attrs: Attrs, key: string)
    requires |keys| == |values| && key in AttrsOf(attrs, Zipped(keys, values))
    ensures key in attrs || key in keys
    decreases |keys|
  {
    if keys != [] {
      assert Zipped(keys, values)[1..] == Zipped(keys[1..], values[1..]);
      ZippedOnly(keys[1..], values[1..], attrs[keys[0] := values[0]], key);
      assert keys[0] in keys && forall k :: k in keys[1..] ==> k in keys;
    }
  }

  // ---- Telling the keys of the configuration apart ----

  /** Length, first and last character tell the keys of one element apart. */
  function Code(s: string): (n: nat)
    requires s != ""
  {
    |s| * 65536 + s[0] as int * 256 + s[|s| - 1] as int
  }

  /** Keys whose codes differ, differ. */
  lemma CodesTell(keys: seq<string>, codes: seq<nat>)
    requires |keys| == |codes| && (forall i :: 0 <= i < |keys| ==> keys[i] != "" && Code(keys[i]) == codes[i])
    requires forall i, j :: 0 <= i < j < |codes| ==> codes[i] != codes[j]
    ensures forall i, j :: 0 <= i < j < |keys| ==> keys[i] != keys[j]
  {
  }
}
