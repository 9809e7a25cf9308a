/**
 The graph of fallback servers: the cycle check of `validate` in rules.cpp, and the expansion of a primary server
 into its fallback group in router.cpp.
 */
module FallbackGraph {

  /** Server IDs and, for each, the IDs it falls back to. */
  type Graph = map<nat, seq<nat>>

  ghost predicate Edge(g: Graph, a: nat, b: nat) { a in g && b in g[a] }

  /** Every fallback names a server. */
  ghost predicate Closed(g: Graph)
  {
    forall a, b :: Edge(g, a, b) ==> b in g
  }

  ghost predicate IsPath(g: Graph, path: seq<nat>)
  {
    path != [] && forall i :: 0 <= i < |path| - 1 ==> Edge(g, path[i], path[i + 1])
  }

  ghost predicate PathFromTo(g: Graph, path: seq<nat>, a: nat, b: nat)
  {
    IsPath(g, path) && path[0] == a && path[|path| - 1] == b
  }

  ghost predicate Reaches(g: Graph, a: nat, b: nat)
  {
    exists path :: PathFromTo(g, path, a, b)
  }

  /** Some server falls back, after one or more steps, to itself. */
  ghost predicate HasCycle(g: Graph)
  {
    exists path, a :: |path| >= 2 && PathFromTo(g, path, a, a)
  }

  /** `order` lists servers after everything they fall back to. */
  ghost predicate Finished(g: Graph, order: seq<nat>)
  {
    forall i :: 0 <= i < |order| ==> order[i] in g && forall b :: b in g[order[i]] ==> b in order[..i]
  }

  lemma PathSuffix(g: Graph, path: seq<nat>, j: nat)
    requires IsPath(g, path) && j < |path|
    ensures IsPath(g, path[j..])
  {
    var rest := path[j..];
    forall i | 0 <= i < |rest| - 1
      ensures Edge(g, rest[i], rest[i + 1])
    {
      assert Edge(g, path[j + i], path[j + i + 1]);
    }
  }

  /** The first position of a listed server. */
  ghost function Position(order: seq<nat>, x: nat): (k: nat)
    requires x in order
    ensures k < |order| && order[k] == x
  {
    if order[0] == x then 0 else 1 + Position(order[1..], x)
  }

  lemma {:induction false} PositionIsFirst(order: seq<nat>, x: nat, k: nat)
    requires k < |order| && order[k] == x
    ensures Position(order, x) <= k
  {
    if order[0] != x {
      PositionIsFirst(order[1..], x, k - 1);
    }
  }

  /** Following fallbacks moves towards the front of a finished order. */
  lemma {:induction false} PathDescends(g: Graph, order: seq<nat>, path: seq<nat>)
    requires Finished(g, order) && IsPath(g, path) && path[0] in order
    ensures path[|path| - 1] in order
    ensures |path| >= 2 ==> Position(order, path[|path| - 1]) < Position(order, path[0])
    decreases |path|
  {
    if |path| >= 2 {
      var k := Position(order, path[0]);
      assert Edge(g, path[0], path[1]);
      var j :| 0 <= j < k && order[j] == path[1];
      PositionIsFirst(order, path[1], j);
      PathSuffix(g, path, 1);
      PathDescends(g, order, path[1..]);
    }
  }

  lemma FinishedIsAcyclic(g: Graph, order: seq<nat>)
    requires Finished(g, order) && forall a :: a in g ==> a in order
    ensures !HasCycle(g)
  {
    if HasCycle(g) {
      var path, a :| |path| >= 2 && PathFromTo(g, path, a, a);
      assert Edge(g, path[0], path[1]);
      PathDescends(g, order, path);
    }
  }

  /** A server met again on the way to itself closes a cycle. */
  lemma StackCloses(g: Graph, stack: seq<nat>, id: nat)
    requires IsPath(g, stack + [id]) && id in stack
    ensures HasCycle(g)
  {
    var j :| 0 <= j < |stack| && stack[j] == id;
    var all := stack + [id];
    PathSuffix(g, all, j);
    assert PathFromTo(g, all[j..], id, id);
  }

  ghost function Elements(s: seq<nat>): (r: set<nat>)
  {
    set x | x in s
  }

  /** The recursive visit: grey servers are being visited, black ones are done; `stack` and `order` are for the proof. */
  method Visit(g: Graph, id: nat, visiting: set<nat>, visited: set<nat>, ghost stack: seq<nat>, ghost order: seq<nat>)
    returns (ok: bool, visited': set<nat>, ghost order': seq<nat>)
    requires Closed(g) && id in g
    requires visiting == Elements(stack) && visiting <= g.Keys && IsPath(g, stack + [id])
    requires visited == Elements(order) && Finished(g, order)
    ensures !ok ==> HasCycle(g)
    ensures ok ==> visited' == Elements(order') && Finished(g, order') && visited <= visited' && id in visited'
    decreases |g.Keys - visiting|
  {
    hide Finished;
    hide IsPath;
    hide HasCycle;
    visited', order' := visited, order;
    if id in visited {
      return true, visited, order;
    }
    if id in visiting {
      StackCloses(g, stack, id);
      return false, visited, order;
    }
    ghost var deeper := stack + [id];
    assert g.Keys - (visiting + {id}) < g.Keys - visiting by { assert id in g.Keys - visiting; }
    SmallerSet(g.Keys - (visiting + {id}), g.Keys - visiting);
    var i: nat := 0;
    while i < |g[id]|
      invariant i <= |g[id]|
      invariant visited' == Elements(order') && Finished(g, order') && visited <= visited'
      invariant forall k :: 0 <= k < i ==> g[id][k] in visited'
    {
      var fallback := g[id][i];
      assert Edge(g, id, fallback);
      PushStack(g, stack, id, fallback);
      ok, visited', order' := Visit(g, fallback, visiting + {id}, visited', deeper, order');
      if !ok {
        return;
      }
      i := i + 1;
    }
    FinishOne(g, order', id);
    visited' := visited' + {id};
    order' := order' + [id];
    ok := true;
  }

  lemma SmallerSet(s: set<nat>, t: set<nat>)
    requires s < t
    ensures |s| < |t|
  {
    var x :| x in t && x !in s;
    assert s <= t - {x};
    SubsetSize(s, t - {x});
  }

  lemma {:induction false} SubsetSize(s: set<nat>, t: set<nat>)
    requires s <= t
    ensures |s| <= |t|
  {
    if s != {} {
      var x :| x in s;
      SubsetSize(s - {x}, t - {x});
    }
  }

  lemma PushStack(g: Graph, stack: seq<nat>, id: nat, next: nat)
    requires IsPath(g, stack + [id]) && Edge(g, id, next)
    ensures IsPath(g, stack + [id] + [next]) && Elements(stack + [id]) == Elements(stack) + {id}
  {
    var short, more := stack + [id], stack + [id] + [next];
    forall i | 0 <= i < |more| - 1
      ensures Edge(g, more[i], more[i + 1])
    {
      if i < |short| - 1 {
        assert more[i] == short[i] && more[i + 1] == short[i + 1];
      }
    }
  }

  lemma FinishOne(g: Graph, order: seq<nat>, id: nat)
    requires Finished(g, order) && id in g && forall b :: b in g[id] ==> b in order
    ensures Finished(g, order + [id]) && Elements(order + [id]) == Elements(order) + {id}
  {
    var more := order + [id];
    forall i | 0 <= i < |more|
      ensures more[i] in g && forall b :: b in g[more[i]] ==> b in more[..i]
    {
      assert more[..i] == if i < |order| then order[..i] else order;
    }
  }

  /** The check of a whole configuration accepts exactly the graphs without a cycle. */
  method FindsNoCycle(g: Graph, ids: seq<nat>) returns (ok: bool)
    requires Closed(g) && Elements(ids) == g.Keys
    ensures ok <==> !HasCycle(g)
  {
    var visited: set<nat> := {};
    ghost var order: seq<nat> := [];
    var i: nat := 0;
    while i < |ids|
      invariant i <= |ids|
      invariant visited == Elements(order) && Finished(g, order)
      invariant forall k :: 0 <= k < i ==> ids[k] in visited
    {
      assert ids[i] in Elements(ids);
      ok, visited, order := Visit(g, ids[i], {}, visited, [], order);
      if !ok {
        return;
      }
      i := i + 1;
    }
    forall a | a in g
      ensures a in order
    {
      assert a in Elements(ids);
    }
    FinishedIsAcyclic(g, order);
    return true;
  }

  // ---- The fallback group of a server ----

  ghost predicate Distinct(s: seq<nat>)
  {
    forall i, j :: 0 <= i < j < |s| ==> s[i] != s[j]
  }

  /** The servers listed behind the first `from` ones have all their fallbacks listed too. */
  ghost predicate Expanded(g: Graph, from: nat, group: seq<nat>)
  {
    forall i :: from <= i < |group| ==> group[i] in g && forall b :: b in g[group[i]] && b in g ==> b in group
  }

  lemma ReachesSelf(g: Graph, a: nat)
    ensures Reaches(g, a, a)
  {
    assert PathFromTo(g, [a], a, a);
  }

  lemma ReachesVia(g: Graph, a: nat, b: nat, c: nat)
    requires Edge(g, a, b) && Reaches(g, b, c)
    ensures Reaches(g, a, c)
  {
    var path :| PathFromTo(g, path, b, c);
    var longer := [a] + path;
    forall i | 0 <= i < |longer| - 1
      ensures Edge(g, longer[i], longer[i + 1])
    {
      if i > 0 {
        assert longer[i] == path[i - 1] && longer[i + 1] == path[i];
      }
    }
    assert PathFromTo(g, longer, a, c);
  }

  /** `after` is the group `before` with servers reachable from `id` listed behind it. */
  ghost predicate Extends(g: Graph, id: nat, before: seq<nat>, after: seq<nat>)
  {
    && before <= after && Distinct(after) && Elements(after) <= g.Keys
    && forall i :: |before| <= i < |after| ==> Reaches(g, id, after[i])
  }

  /** The recursive append: a server not yet listed is listed, and then everything it falls back to. */
  method Append(g: Graph, id: nat, group: seq<nat>) returns (group': seq<nat>)
    requires id in g && Distinct(group) && Elements(group) <= g.Keys
    ensures Extends(g, id, group, group') && id in group'
    ensures id !in group ==> |group| < |group'| && group'[|group|] == id
    ensures Expanded(g, |group|, group')
    decreases |g.Keys - Elements(group)|
  {
    hide Extends;
    hide Expanded;
    hide Distinct;
    hide Elements;
    if id in group {
      NothingNew(g, id, group);
      return group;
    }
    group' := group + [id];
    OneNew(g, group, id);
    ghost var start := group';
    var i: nat := 0;
    while i < |g[id]|
      invariant i <= |g[id]|
      invariant Extends(g, id, group, group') && start <= group'
      invariant Expanded(g, |group| + 1, group')
      invariant forall k :: 0 <= k < i && g[id][k] in g ==> g[id][k] in group'
    {
      var fallback := g[id][i];
      if fallback in g {
        ghost var before := group';
        Fewer(g.Keys, start, before);
        ExtendsParts(g, id, group, before);
        group' := Append(g, fallback, group');
        ExtendsFurther(g, id, fallback, group, before, group');
        ExpandedGrows(g, |group| + 1, before, group');
      }
      i := i + 1;
    }
    LastExpanded(g, |group|, group');
  }

  lemma ExtendsParts(g: Graph, id: nat, before: seq<nat>, after: seq<nat>)
    requires Extends(g, id, before, after)
    ensures before <= after && Distinct(after) && Elements(after) <= g.Keys
  {
  }

  lemma ExtendsFurther(g: Graph, id: nat, fallback: nat, first: seq<nat>, second: seq<nat>, third: seq<nat>)
    requires Extends(g, id, first, second) && Extends(g, fallback, second, third) && Edge(g, id, fallback)
    ensures Extends(g, id, first, third) && second <= third
    ensures forall x :: x in second ==> x in third
  {
    forall i | |first| <= i < |third|
      ensures Reaches(g, id, third[i])
    {
      if i < |second| {
        assert third[i] == second[i];
      } else {
        ReachesVia(g, id, fallback, third[i]);
      }
    }
  }

  lemma NothingNew(g: Graph, id: nat, group: seq<nat>)
    requires Distinct(group) && Elements(group) <= g.Keys
    ensures Expanded(g, |group|, group) && Extends(g, id, group, group)
  {
  }

  lemma OneNew(g: Graph, group: seq<nat>, id: nat)
    requires Distinct(group) && Elements(group) <= g.Keys && id in g && id !in group
    ensures Extends(g, id, group, group + [id]) && Expanded(g, |group| + 1, group + [id])
    ensures |g.Keys - Elements(group + [id])| < |g.Keys - Elements(group)|
  {
    ReachesSelf(g, id);
    var more := group + [id];
    assert Elements(more) == Elements(group) + {id};
    assert id in g.Keys - Elements(group);
    SmallerSet(g.Keys - Elements(more), g.Keys - Elements(group));
  }

  lemma ExpandedGrows(g: Graph, from: nat, before: seq<nat>, after: seq<nat>)
    requires Expanded(g, from, before) && before <= after && Expanded(g, |before|, after)
    ensures Expanded(g, from, after)
  {
    forall i | from <= i < |after|
      ensures after[i] in g && forall b :: b in g[after[i]] && b in g ==> b in after
    {
      if i < |before| {
        assert after[i] == before[i];
      }
    }
  }

  lemma LastExpanded(g: Graph, from: nat, group: seq<nat>)
    requires from < |group| && group[from] in g && Expanded(g, from + 1, group)
    requires forall k :: 0 <= k < |g[group[from]]| && g[group[from]][k] in g ==> g[group[from]][k] in group
    ensures Expanded(g, from, group)
  {
  }

  lemma Fewer(keys: set<nat>, short: seq<nat>, long: seq<nat>)
    requires short <= long
    ensures |keys - Elements(long)| <= |keys - Elements(short)|
  {
    SubsetSize(keys - Elements(long), keys - Elements(short));
  }

  /** What an expanded group leads to is in the group. */
  lemma {:induction false} GroupHoldsPaths(g: Graph, group: seq<nat>, path: seq<nat>)
    requires Expanded(g, 0, group) && IsPath(g, path) && path[0] in group && path[|path| - 1] in g
    ensures path[|path| - 1] in group
    decreases |path|
  {
    if |path| >= 2 {
      assert Edge(g, path[0], path[1]);
      if |path| > 2 {
        assert Edge(g, path[1], path[2]);
      }
      PathSuffix(g, path, 1);
      GroupHoldsPaths(g, group, path[1..]);
    }
  }

  /**
   A primary server expands into the servers reachable from it, each exactly once, itself first. Fallbacks that name no
   server are passed over.
   */
  method FallbackGroup(g: Graph, primary: nat) returns (group: seq<nat>)
    requires primary in g
    ensures group != [] && group[0] == primary && Distinct(group)
    ensures forall id :: id in group <==> id in g && Reaches(g, primary, id)
  {
    group := Append(g, primary, []);
    assert forall id :: id in group ==> id in Elements(group);
    forall id | id in g && Reaches(g, primary, id)
      ensures id in group
    {
      var path :| PathFromTo(g, path, primary, id);
      GroupHoldsPaths(g, group, path);
    }
  }
}
