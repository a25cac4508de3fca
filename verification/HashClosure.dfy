/** Which hashes a set of hashes drags along: items and cache entries tie the hashes they mention
    together. */
module HashClosure {
  import opened Common

  /** Every group of hashes that meets the set lies inside it. */
  ghost predicate Closed(s: set<Digest>, groups: seq<set<Digest>>) {
    forall i :: 0 <= i < |groups| && groups[i] * s != {} ==> groups[i] <= s
  }

  /** The smallest set with the given hashes that is closed. */
  ghost predicate Least(r: set<Digest>, hashes: set<Digest>, groups: seq<set<Digest>>) {
    hashes <= r && Closed(r, groups) && forall t :: hashes <= t && Closed(t, groups) ==> r <= t
  }

  function Union(groups: seq<set<Digest>>): (u: set<Digest>)
    ensures forall i :: 0 <= i < |groups| ==> groups[i] <= u
  {
    if groups == [] then {} else Union(groups[..|groups| - 1]) + groups[|groups| - 1]
  }

  /** One pass over a list of groups, taking in each that meets the set. */
  method Pass(expanded: set<Digest>, groups: seq<set<Digest>>, ghost all: seq<set<Digest>>, ghost hashes: set<Digest>)
    returns (next: set<Digest>, changed: bool)
    requires forall g :: g in groups ==> g in all
    requires forall t :: hashes <= t && Closed(t, all) ==> expanded <= t
    ensures expanded <= next && (changed <==> next != expanded)
    ensures !changed ==> Closed(expanded, groups)
    ensures next <= expanded + Union(groups)
    ensures forall t :: hashes <= t && Closed(t, all) ==> next <= t
  {
    next, changed := expanded, false;
    var i := 0;
    while i < |groups|
      invariant 0 <= i <= |groups| && expanded <= next <= expanded + Union(groups) && (changed <==> next != expanded)
      invariant !changed ==> forall j :: 0 <= j < i && groups[j] * expanded != {} ==> groups[j] <= expanded
      invariant forall t :: hashes <= t && Closed(t, all) ==> next <= t
    {
      var references := groups[i];
      if references * next != {} && !(references <= next) {
        assert references in all;
        forall t | hashes <= t && Closed(t, all) ensures next + references <= t {
          var k :| 0 <= k < |all| && all[k] == references;
          assert references * next <= references * t;
        }
        next, changed := next + references, true;
      }
      i := i + 1;
    }
  }

  /** Passes over items and cache entries until nothing changes. */
  method ExpandHashReferences(hashes: set<Digest>, items: seq<set<Digest>>, cache: seq<set<Digest>>) returns (expanded: set<Digest>)
    ensures Least(expanded, hashes, items + cache)
  {
    ghost var all := items + cache;
    ghost var universe := hashes + Union(items) + Union(cache);
    expanded := hashes;
    var changed := true;
    while changed
      invariant hashes <= expanded <= universe
      invariant forall t :: hashes <= t && Closed(t, all) ==> expanded <= t
      invariant !changed ==> Closed(expanded, items) && Closed(expanded, cache)
      decreases |universe - expanded|, changed
    {
      ghost var before := expanded;
      var byItems, byCache;
      expanded, byItems := Pass(expanded, items, all, hashes);
      expanded, byCache := Pass(expanded, cache, all, hashes);
      changed := byItems || byCache;
      if changed {
        Fewer(universe - before, universe - expanded, before, expanded, universe);
      }
    }
    ClosedBoth(expanded, items, cache);
  }

  lemma Fewer(a: set<Digest>, b: set<Digest>, before: set<Digest>, after: set<Digest>, universe: set<Digest>)
    requires a == universe - before && b == universe - after && before < after <= universe
    ensures |b| < |a|
  {
    var x :| x in after && x !in before;
    assert b <= a - {x};
    Subset(b, a - {x});
  }

  lemma {:induction false} Subset(a: set<Digest>, b: set<Digest>)
    requires a <= b
    ensures |a| <= |b|
  {
    if a != {} {
      var x :| x in a;
      Subset(a - {x}, b - {x});
    }
  }

  lemma ClosedBoth(s: set<Digest>, items: seq<set<Digest>>, cache: seq<set<Digest>>)
    requires Closed(s, items) && Closed(s, cache)
    ensures Closed(s, items + cache)
  {
    var all := items + cache;
    forall i | 0 <= i < |all| && all[i] * s != {} ensures all[i] <= s {
      if i < |items| {
        assert all[i] == items[i];
      } else {
        assert all[i] == cache[i - |items|];
      }
    }
  }

  /** The result depends on which groups there are, not on their order or on how often they occur. */
  lemma LeastIsUnique(hashes: set<Digest>, groups: seq<set<Digest>>, r: set<Digest>, groups': seq<set<Digest>>, r': set<Digest>)
    requires Least(r, hashes, groups) && Least(r', hashes, groups') && forall g :: g in groups <==> g in groups'
    ensures r == r'
  {
    SameClosed(r, groups, groups');
    SameClosed(r', groups, groups');
    assert r <= r' && r' <= r;
  }

  lemma SameClosed(s: set<Digest>, groups: seq<set<Digest>>, groups': seq<set<Digest>>)
    requires forall g :: g in groups <==> g in groups'
    ensures Closed(s, groups) <==> Closed(s, groups')
  {
    if Closed(s, groups) {
      forall i | 0 <= i < |groups'| && groups'[i] * s != {} ensures groups'[i] <= s {
        assert groups'[i] in groups;
      }
    }
    if Closed(s, groups') {
      forall i | 0 <= i < |groups| && groups[i] * s != {} ensures groups[i] <= s {
        assert groups[i] in groups';
      }
    }
  }

  /** A hash is dragged along exactly when a chain of groups, each meeting the next, leads to it. */
  ghost predicate Chain(hashes: set<Digest>, groups: seq<set<Digest>>, path: seq<int>, d: Digest)
    decreases |path|
  {
    if path == [] then d in hashes
    else
      var i := path[|path| - 1];
      0 <= i < |groups| && d in groups[i] && exists e :: e in groups[i] && Chain(hashes, groups, path[..|path| - 1], e)
  }

  lemma {:induction false} ChainsStayInside(hashes: set<Digest>, groups: seq<set<Digest>>, path: seq<int>, d: Digest, t: set<Digest>)
    requires Chain(hashes, groups, path, d) && hashes <= t && Closed(t, groups)
    ensures d in t
    decreases |path|
  {
    if path != [] {
      var i := path[|path| - 1];
      var e :| e in groups[i] && Chain(hashes, groups, path[..|path| - 1], e);
      ChainsStayInside(hashes, groups, path[..|path| - 1], e, t);
      assert e in groups[i] * t;
    }
  }

  ghost predicate Reached(hashes: set<Digest>, groups: seq<set<Digest>>, d: Digest) {
    exists path :: Chain(hashes, groups, path, d)
  }

  lemma LeastIsReachable(hashes: set<Digest>, groups: seq<set<Digest>>, r: set<Digest>, d: Digest)
    requires Least(r, hashes, groups)
    ensures d in r <==> Reached(hashes, groups, d)
  {
    if Reached(hashes, groups, d) {
      var path :| Chain(hashes, groups, path, d);
      ChainsStayInside(hashes, groups, path, d, r);
    }
    var t := set x | x in r && Reached(hashes, groups, x);
    forall x | x in hashes ensures x in t {
      assert Chain(hashes, groups, [], x);
    }
    forall i | 0 <= i < |groups| && groups[i] * t != {} ensures groups[i] <= t {
      var e :| e in groups[i] * t;
      var path :| Chain(hashes, groups, path, e);
      assert e in groups[i] * r;
      forall x | x in groups[i] ensures x in t {
        assert (path + [i])[..|path|] == path;
        assert Chain(hashes, groups, path + [i], x);
      }
    }
    assert hashes <= t && Closed(t, groups);
    assert r <= t;
  }
}
