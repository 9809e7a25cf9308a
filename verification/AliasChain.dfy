/** Following CNAME records from the question name: the last loop of `parse_response` in dns_packet.cpp. */
module AliasChain {
  import opened Bytes

  /** The name `k` aliases away from `name`, if the chain is that long. */
  ghost function Follow(aliases: map<string, string>, name: string, k: nat): (r: Option<string>)
  {
    if k == 0 then Some(name) else
    match Follow(aliases, name, k - 1)
    case None => None
    case Some(last) => if last in aliases then Some(aliases[last]) else None
  }

  /** Some number of aliases leads from `name` to `owner`. */
  ghost predicate Reachable(aliases: map<string, string>, name: string, owner: string)
  {
    exists k: nat :: Follow(aliases, name, k) == Some(owner)
  }

  /** The chain from `name` comes back to a name it has already visited. */
  ghost predicate Cyclic(aliases: map<string, string>, name: string)
  {
    exists j: nat, k: nat :: j < k && Follow(aliases, name, k).Some? && Follow(aliases, name, j) == Follow(aliases, name, k)
  }

  /** The first `k` names of the chain. */
  ghost function Visited(aliases: map<string, string>, name: string, k: nat): (s: set<string>)
  {
    if k == 0 then {}
    else if Follow(aliases, name, k - 1).None? then Visited(aliases, name, k - 1)
    else Visited(aliases, name, k - 1) + {Follow(aliases, name, k - 1).value}
  }

  lemma {:induction false} VisitedHas(aliases: map<string, string>, name: string, k: nat, j: nat)
    requires j < k && Follow(aliases, name, j).Some?
    ensures Follow(aliases, name, j).value in Visited(aliases, name, k)
  {
    if j < k - 1 {
      VisitedHas(aliases, name, k - 1, j);
    }
  }

  lemma {:induction false} VisitedIndex(aliases: map<string, string>, name: string, k: nat, owner: string) returns (j: nat)
    requires owner in Visited(aliases, name, k)
    ensures j < k && Follow(aliases, name, j) == Some(owner)
  {
    if owner in Visited(aliases, name, k - 1) {
      j := VisitedIndex(aliases, name, k - 1, owner);
    } else {
      j := k - 1;
    }
  }

  /** A chain that goes on beyond `k` names has been all through aliases. */
  lemma {:induction false} ChainStays(aliases: map<string, string>, name: string, j: nat, k: nat)
    requires j <= k && Follow(aliases, name, k).Some?
    ensures Follow(aliases, name, j).Some?
    ensures j < k ==> Follow(aliases, name, j).value in aliases
    decreases k
  {
    if j < k {
      ChainStays(aliases, name, j, k - 1);
    }
  }

  /** Once the chain stops it stays stopped. */
  lemma {:induction false} ChainEnds(aliases: map<string, string>, name: string, j: nat, k: nat)
    requires Follow(aliases, name, j).Some? && Follow(aliases, name, j).value !in aliases && j < k
    ensures Follow(aliases, name, k) == None
    decreases k
  {
    if j + 1 < k {
      ChainEnds(aliases, name, j, k - 1);
    }
  }

  /** `k` different names that all carry an alias are at most as many as the aliases. */
  lemma {:induction false} VisitedCount(aliases: map<string, string>, name: string, k: nat)
    requires Follow(aliases, name, k).Some?
    requires forall i: nat, j: nat :: i < j < k ==> Follow(aliases, name, i) != Follow(aliases, name, j)
    ensures |Visited(aliases, name, k)| == k && Visited(aliases, name, k) <= aliases.Keys
  {
    if k > 0 {
      ChainStays(aliases, name, k - 1, k);
      VisitedCount(aliases, name, k - 1);
      var last := Follow(aliases, name, k - 1).value;
      if last in Visited(aliases, name, k - 1) {
        var j := VisitedIndex(aliases, name, k - 1, last);
        assert Follow(aliases, name, j) == Follow(aliases, name, k - 1);
      }
    }
  }

  lemma SubsetIsWhole(s: set<string>, t: set<string>)
    requires s <= t && |s| >= |t|
    ensures s == t
  {
    if s != t {
      var x :| x in t && x !in s;
      SubsetSmaller(s, t - {x});
    }
  }

  lemma {:induction false} SubsetSmaller(s: set<string>, t: set<string>)
    requires s <= t
    ensures |s| <= |t|
  {
    if s != {} {
      var x :| x in s;
      SubsetSmaller(s - {x}, t - {x});
    }
  }

  /** After one different name for every alias there is no alias left to follow. */
  lemma ChainIsBounded(aliases: map<string, string>, name: string, k: nat)
    requires k >= |aliases| && Follow(aliases, name, k).Some?
    requires forall i: nat, j: nat :: i < j <= k ==> Follow(aliases, name, i) != Follow(aliases, name, j)
    ensures k == |aliases| && Follow(aliases, name, k).value !in aliases
  {
    VisitedCount(aliases, name, k);
    SubsetSmaller(Visited(aliases, name, k), aliases.Keys);
    SubsetIsWhole(Visited(aliases, name, k), aliases.Keys);
    var last := Follow(aliases, name, k).value;
    if last in aliases {
      var j := VisitedIndex(aliases, name, k, last);
      assert Follow(aliases, name, j) == Follow(aliases, name, k);
    }
  }

  /**
   The alias loop. It fails exactly on a cyclic chain, and otherwise returns exactly the reachable names: its bound
   of one step more than there are aliases never cuts an acyclic chain short.
   */
  method Chase(aliases: map<string, string>, name: string) returns (r: Result<set<string>>)
    ensures r.Err? <==> Cyclic(aliases, name)
    ensures r.Err? ==> r.code == MALFORMED
    ensures r.Ok? ==> forall owner :: owner in r.value <==> Reachable(aliases, name, owner)
  {
    var reachable := {name};
    var current := name;
    var i: nat := 0;
    assert Visited(aliases, name, 1) == {name};
    while i <= |aliases|
      invariant i <= |aliases| + 1
      invariant Follow(aliases, name, i) == Some(current)
      invariant reachable == Visited(aliases, name, i + 1)
      invariant forall j: nat, k: nat :: j < k <= i ==> Follow(aliases, name, j) != Follow(aliases, name, k)
    {
      if current !in aliases {
        break;
      }
      current := aliases[current];
      assert Follow(aliases, name, i + 1) == Some(current);
      if current in reachable {
        ghost var j := VisitedIndex(aliases, name, i + 1, current);
        assert Cyclic(aliases, name);
        return Err(MALFORMED);
      }
      forall j: nat | j < i + 1
        ensures Follow(aliases, name, j) != Some(current)
      {
        if Follow(aliases, name, j) == Some(current) {
          VisitedHas(aliases, name, i + 1, j);
        }
      }
      reachable := reachable + {current};
      i := i + 1;
    }
    if i >= |aliases| {
      ChainIsBounded(aliases, name, i);
    }
    ChaseDone(aliases, name, i);
    return Ok(reachable);
  }

  lemma ChaseDone(aliases: map<string, string>, name: string, i: nat)
    requires Follow(aliases, name, i).Some? && Follow(aliases, name, i).value !in aliases
    requires forall j: nat, k: nat :: j < k <= i ==> Follow(aliases, name, j) != Follow(aliases, name, k)
    ensures !Cyclic(aliases, name)
    ensures forall owner :: owner in Visited(aliases, name, i + 1) <==> Reachable(aliases, name, owner)
  {
    forall k: nat | i < k
      ensures Follow(aliases, name, k) == None
    {
      ChainEnds(aliases, name, i, k);
    }
    forall owner
      ensures owner in Visited(aliases, name, i + 1) <==> Reachable(aliases, name, owner)
    {
      if Reachable(aliases, name, owner) {
        var k: nat :| Follow(aliases, name, k) == Some(owner);
        VisitedHas(aliases, name, i + 1, k);
      } else if owner in Visited(aliases, name, i + 1) {
        var k := VisitedIndex(aliases, name, i + 1, owner);
      }
    }
  }
}
