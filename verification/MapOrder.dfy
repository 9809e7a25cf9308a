/** The order in which `std::map` walks its keys: by character, as `std::string` compares. */
module MapOrder {

  predicate LexLe(a: string, b: string)
    decreases |a|
  {
    a == "" || (b != "" && (a[0] < b[0] || (a[0] == b[0] && LexLe(a[1..], b[1..]))))
  }

  lemma {:induction false} LexTotal(a: string, b: string)
    ensures LexLe(a, b) || LexLe(b, a)
    ensures LexLe(a, b) && LexLe(b, a) ==> a == b
    decreases |a|
  {
    if a != "" && b != "" && a[0] == b[0] {
      LexTotal(a[1..], b[1..]);
      assert a == [a[0]] + a[1..] && b == [b[0]] + b[1..];
    }
  }

  lemma {:induction false} LexTransitive(a: string, b: string, c: string)
    requires LexLe(a, b) && LexLe(b, c)
    ensures LexLe(a, c)
    decreases |a|
  {
    if a != "" && a[0] == b[0] == c[0] {
      LexTransitive(a[1..], b[1..], c[1..]);
    }
  }

  predicate IsLowest(keys: set<string>, k: string) { k in keys && forall j :: j in keys ==> LexLe(k, j) }

  lemma {:induction false} HasLowest(keys: set<string>)
    requires keys != {}
    ensures exists k :: IsLowest(keys, k)
    decreases |keys|
  {
    hide LexLe;
    var j :| j in keys;
    var rest := keys - {j};
    LexTotal(j, j);
    if rest == {} {
      assert keys == {j};
      assert IsLowest(keys, j);
    } else {
      HasLowest(rest);
      var k :| IsLowest(rest, k);
      LexTotal(j, k);
      if LexLe(j, k) {
        forall i | i in keys
          ensures LexLe(j, i)
        {
          if i != j {
            LexTransitive(j, k, i);
          }
        }
        assert IsLowest(keys, j);
      } else {
        assert IsLowest(keys, k);
      }
    }
  }

  ghost function Lowest(keys: set<string>): (k: string)
    requires keys != {}
    ensures IsLowest(keys, k)
  {
    HasLowest(keys);
    var k :| IsLowest(keys, k);
    k
  }

  lemma LowestIsUnique(keys: set<string>, k: string)
    requires IsLowest(keys, k)
    ensures Lowest(keys) == k
  {
    LexTotal(k, Lowest(keys));
  }

  ghost function SortedKeys(keys: set<string>): (r: seq<string>)
    ensures |r| == |keys| && forall k :: k in r <==> k in keys
  {
    if keys == {} then [] else [Lowest(keys)] + SortedKeys(keys - {Lowest(keys)})
  }

  lemma {:induction false} SortedAreDifferent(keys: set<string>)
    ensures forall i, j :: 0 <= i < j < |keys| ==> SortedKeys(keys)[i] != SortedKeys(keys)[j]
  {
    if keys != {} {
      SortedAreDifferent(keys - {Lowest(keys)});
      var rest := SortedKeys(keys - {Lowest(keys)});
      assert Lowest(keys) !in rest;
    }
  }
}
