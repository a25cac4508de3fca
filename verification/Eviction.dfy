/** Which history items go when there are too many or they are too large. */
module Eviction {
  import opened Sequences

  datatype Item = Item(id: nat, seqNo: int, pinned: bool, size: int)

  // ---------------------------------------------------------------- the order of items

  function Insert(x: Item, xs: seq<Item>): (r: seq<Item>)
    ensures |r| == |xs| + 1
  {
    if xs == [] then [x]
    else if xs[|xs| - 1].seqNo <= x.seqNo then xs + [x]
    else Insert(x, xs[..|xs| - 1]) + [xs[|xs| - 1]]
  }

  /** Oldest first; items of equal age keep their order. */
  function Oldest(xs: seq<Item>): (r: seq<Item>)
    ensures |r| == |xs|
  {
    if xs == [] then [] else Insert(xs[|xs| - 1], Oldest(xs[..|xs| - 1]))
  }

  ghost predicate Ordered(xs: seq<Item>) {
    forall i, j :: 0 <= i < j < |xs| ==> xs[i].seqNo <= xs[j].seqNo
  }

  lemma {:induction false} InsertHas(x: Item, xs: seq<Item>)
    ensures multiset(Insert(x, xs)) == multiset(xs) + multiset{x}
  {
    if xs != [] && xs[|xs| - 1].seqNo > x.seqNo {
      InsertHas(x, xs[..|xs| - 1]);
      assert xs == xs[..|xs| - 1] + [xs[|xs| - 1]];
    }
  }

  lemma {:induction false} InsertSorts(x: Item, xs: seq<Item>)
    requires Ordered(xs)
    ensures Ordered(Insert(x, xs)) && forall y :: y in Insert(x, xs) <==> y in xs || y == x
  {
    if xs != [] && xs[|xs| - 1].seqNo > x.seqNo {
      var before, last := xs[..|xs| - 1], xs[|xs| - 1];
      InsertSorts(x, before);
      var rest := Insert(x, before);
      assert xs == before + [last];
      forall i | 0 <= i < |rest| ensures rest[i].seqNo <= last.seqNo {
        assert rest[i] in rest;
        assert rest[i] in before || rest[i] == x;
      }
    }
  }

  /** The same items, oldest first. */
  lemma {:induction false} OldestSorts(xs: seq<Item>)
    ensures Ordered(Oldest(xs)) && multiset(Oldest(xs)) == multiset(xs)
  {
    if xs != [] {
      OldestSorts(xs[..|xs| - 1]);
      InsertSorts(xs[|xs| - 1], Oldest(xs[..|xs| - 1]));
      InsertHas(xs[|xs| - 1], Oldest(xs[..|xs| - 1]));
      assert xs == xs[..|xs| - 1] + [xs[|xs| - 1]];
    }
  }

  ghost predicate DistinctIds(xs: seq<Item>) {
    forall i, j :: 0 <= i < j < |xs| ==> xs[i].id != xs[j].id
  }

  lemma {:induction false} InsertDistinct(x: Item, xs: seq<Item>)
    requires Ordered(xs) && DistinctIds(xs) && forall y :: y in xs ==> y.id != x.id
    ensures DistinctIds(Insert(x, xs))
  {
    if xs != [] && xs[|xs| - 1].seqNo > x.seqNo {
      var before, last := xs[..|xs| - 1], xs[|xs| - 1];
      InsertDistinct(x, before);
      InsertSorts(x, before);
      forall i | 0 <= i < |Insert(x, before)| ensures Insert(x, before)[i].id != last.id {
        assert Insert(x, before)[i] in before || Insert(x, before)[i] == x;
        assert last in xs;
      }
    }
  }

  lemma {:induction false} OldestDistinct(xs: seq<Item>)
    requires DistinctIds(xs)
    ensures DistinctIds(Oldest(xs))
  {
    if xs != [] {
      var before := xs[..|xs| - 1];
      OldestDistinct(before);
      OldestSorts(before);
      forall y | y in Oldest(before) ensures y.id != xs[|xs| - 1].id {
        assert y in multiset(Oldest(before));
        var i :| 0 <= i < |before| && before[i] == y;
        assert xs[i] == y;
      }
      InsertDistinct(xs[|xs| - 1], Oldest(before));
    }
  }

  // ---------------------------------------------------------------- what a plan must achieve

  function Free(x: Item): seq<Item> {
    if x.pinned then [] else [x]
  }

  function Unpinned(xs: seq<Item>): (r: seq<Item>)
    ensures forall y :: y in r ==> y in xs && !y.pinned
  {
    if xs == [] then [] else Free(xs[0]) + Unpinned(xs[1..])
  }

  function Total(xs: seq<Item>): int {
    if xs == [] then 0 else xs[0].size + Total(xs[1..])
  }

  function Ids(xs: seq<Item>): (r: seq<nat>)
    ensures |r| == |xs| && forall i :: 0 <= i < |xs| ==> r[i] == xs[i].id
  {
    seq(|xs|, i requires 0 <= i < |xs| => xs[i].id)
  }

  /** After the k oldest unpinned items are gone, both caps are met. */
  predicate Meets(xs: seq<Item>, maxItems: int, maxBytes: int, k: nat)
    requires k <= |Unpinned(Oldest(xs))|
  {
    |xs| - k <= maxItems && Total(xs) - Total(Unpinned(Oldest(xs))[..k]) <= maxBytes
  }

  function Kept(xs: seq<Item>, gone: set<nat>): seq<Item> {
    if xs == [] then [] else (if xs[0].id in gone then [] else [xs[0]]) + Kept(xs[1..], gone)
  }

  function IdSet(xs: seq<Item>): set<nat> {
    set i | 0 <= i < |xs| :: xs[i].id
  }

  lemma {:induction false} TotalAppend(xs: seq<Item>, ys: seq<Item>)
    ensures Total(xs + ys) == Total(xs) + Total(ys)
  {
    if xs == [] {
      assert xs + ys == ys;
    } else {
      TotalAppend(xs[1..], ys);
      assert (xs + ys)[1..] == xs[1..] + ys;
    }
  }

  lemma {:induction false} UnpinnedAppend(xs: seq<Item>, ys: seq<Item>)
    ensures Unpinned(xs + ys) == Unpinned(xs) + Unpinned(ys)
  {
    hide Free;
    if xs == [] {
      assert xs + ys == ys;
    } else {
      UnpinnedAppend(xs[1..], ys);
      assert (xs + ys)[1..] == xs[1..] + ys;
      assert Free(xs[0]) + (Unpinned(xs[1..]) + Unpinned(ys)) == Free(xs[0]) + Unpinned(xs[1..]) + Unpinned(ys);
    }
  }

  lemma {:induction false} KeptOfOthers(xs: seq<Item>, gone: set<nat>)
    requires forall y :: y in xs ==> y.id !in gone
    ensures Kept(xs, gone) == xs
  {
    if xs != [] {
      assert xs[0] in xs;
      KeptOfOthers(xs[1..], gone);
      assert xs == [xs[0]] + xs[1..];
    }
  }

  lemma {:induction false} KeptWithout(xs: seq<Item>, gone: set<nat>, id: nat)
    requires forall y :: y in xs ==> y.id != id
    ensures Kept(xs, gone + {id}) == Kept(xs, gone)
  {
    if xs != [] {
      assert xs[0] in xs;
      KeptWithout(xs[1..], gone, id);
    }
  }

  lemma Cons(x: Item, xs: seq<Item>)
    ensures Unpinned([x] + xs) == Free(x) + Unpinned(xs) && Total([x] + xs) == x.size + Total(xs)
    ensures Unpinned([]) == [] && Total([]) == 0
  {
    assert ([x] + xs)[1..] == xs;
  }

  /** What stays after the first k unpinned items went: the rest of them, and the bytes they leave. */
  lemma {:induction false} KeptAfter(xs: seq<Item>, k: nat)
    requires DistinctIds(xs) && k <= |Unpinned(xs)|
    ensures var rest := Kept(xs, IdSet(Unpinned(xs)[..k]));
            Unpinned(rest) == Unpinned(xs)[k..] && Total(rest) == Total(xs) - Total(Unpinned(xs)[..k])
    decreases |xs|
  {
    hide IdSet, Kept, Unpinned, Total, DistinctIds;
    Cons(Item(0, 0, false, 0), []);
    if k == 0 {
      NoIds();
      KeptOfOthers(xs, {});
      assert Unpinned(xs)[..0] == [];
    } else {
      KeptHead(xs, k);
      var rest := xs[1..];
      assert xs == [xs[0]] + rest;
      Cons(xs[0], rest);
      if xs[0].pinned {
        KeptAfter(rest, k);
        Cons(xs[0], Kept(rest, IdSet(Unpinned(rest)[..k])));
      } else {
        KeptAfter(rest, k - 1);
        assert Unpinned(xs)[..k] == [xs[0]] + Unpinned(rest)[..k - 1];
        Cons(xs[0], Unpinned(rest)[..k - 1]);
      }
    }
  }

  lemma NoIds()
    ensures IdSet([]) == {}
  {
  }

  lemma IdSetCons(x: Item, xs: seq<Item>)
    ensures IdSet([x] + xs) == IdSet(xs) + {x.id}
  {
    var all := [x] + xs;
    forall id | id in IdSet(xs) + {x.id} ensures id in IdSet(all) {
      if id == x.id {
        assert all[0].id == id;
      } else {
        var i :| 0 <= i < |xs| && xs[i].id == id;
        assert all[i + 1].id == id;
      }
    }
  }

  lemma KeptCons(x: Item, xs: seq<Item>, gone: set<nat>)
    ensures Kept([x] + xs, gone) == (if x.id in gone then [] else [x]) + Kept(xs, gone)
  {
    assert ([x] + xs)[1..] == xs;
  }

  lemma NotAmong(x: Item, xs: seq<Item>, k: nat)
    requires k <= |Unpinned(xs)| && forall y :: y in xs ==> y.id != x.id
    ensures x.id !in IdSet(Unpinned(xs)[..k])
  {
    forall i | 0 <= i < k ensures Unpinned(xs)[i].id != x.id {
      FreeMembers(xs, i);
    }
  }

  /** The oldest item either is pinned and stays, or goes first. */
  lemma KeptHead(xs: seq<Item>, k: nat)
    requires DistinctIds(xs) && 0 < k <= |Unpinned(xs)|
    ensures var rest := xs[1..];
            if xs[0].pinned then Unpinned(xs) == Unpinned(rest) && Kept(xs, IdSet(Unpinned(xs)[..k])) == [xs[0]] + Kept(rest, IdSet(Unpinned(rest)[..k]))
            else Unpinned(xs) == [xs[0]] + Unpinned(rest) && Kept(xs, IdSet(Unpinned(xs)[..k])) == Kept(rest, IdSet(Unpinned(rest)[..k - 1]))
    ensures DistinctIds(xs[1..])
  {
    var x, rest := xs[0], xs[1..];
    forall y | y in rest ensures y.id != x.id {
      var i :| 0 <= i < |rest| && rest[i] == y;
      assert xs[i + 1] == y;
    }
    hide IdSet, Kept, Unpinned;
    assert xs == [x] + rest;
    Cons(x, rest);
    if x.pinned {
      NotAmong(x, rest, k);
      KeptCons(x, rest, IdSet(Unpinned(rest)[..k]));
    } else {
      var gone := IdSet(Unpinned(rest)[..k - 1]);
      assert Unpinned(xs)[..k] == [x] + Unpinned(rest)[..k - 1];
      IdSetCons(x, Unpinned(rest)[..k - 1]);
      KeptCons(x, rest, gone + {x.id});
      KeptWithout(rest, gone, x.id);
    }
  }

  lemma TotalParts(a: seq<Item>, x: Item, c: seq<Item>)
    ensures Total(a + [x] + c) == Total(a + c) + x.size
  {
    hide Total;
    TotalAppend(a + [x], c);
    TotalAppend(a, [x]);
    TotalAppend(a, c);
    Cons(x, []);
    assert [x] + [] == [x];
  }

  lemma TotalWithout(xs: seq<Item>, k: nat)
    requires k < |xs|
    ensures Total(xs) == Total(Without(xs, k)) + xs[k].size
  {
    hide Total;
    PutTogether(xs, k);
    TotalOfParts(xs, xs[..k], xs[k], xs[k + 1..]);
  }

  lemma PutTogether(xs: seq<Item>, k: nat)
    requires k < |xs|
    ensures xs == xs[..k] + [xs[k]] + xs[k + 1..]
  {
  }

  lemma TotalOfParts(xs: seq<Item>, a: seq<Item>, x: Item, c: seq<Item>)
    requires xs == a + [x] + c
    ensures Total(xs) == Total(a + c) + x.size
  {
    TotalParts(a, x, c);
  }

  lemma {:induction false} TotalOfSame(xs: seq<Item>, ys: seq<Item>)
    requires multiset(xs) == multiset(ys)
    ensures Total(xs) == Total(ys)
    decreases |xs|
  {
    hide Total, Without;
    if xs == [] {
      assert |multiset(ys)| == 0;
    } else {
      var k := MatchFirst(xs, ys);
      TotalWithout(xs, 0);
      TotalWithout(ys, k);
      TotalOfSame(Without(xs, 0), Without(ys, k));
    }
  }

  // ---------------------------------------------------------------- the plan

  /** The two caps, one after the other: `n` items go for the count, and of what then remains the shortest
      run of oldest unpinned items for the size. Taking an item out takes out everything with its id. */
  ghost predicate InTwoStages(items: seq<Item>, maxItems: int, maxBytes: int, plan: seq<nat>, n: nat) {
    var candidates := Unpinned(Oldest(items));
    && n <= |candidates| && n <= |plan| && plan[..n] == Ids(candidates[..n])
    && (n > 0 ==> |items| - (n - 1) > maxItems) && (|items| - n <= maxItems || n == |candidates|)
    && (var remaining := Kept(Oldest(items), IdSet(candidates[..n]));
        var k := |plan| - n;
        && k <= |Unpinned(remaining)| && plan[n..] == Ids(Unpinned(remaining)[..k])
        && (forall i :: 0 <= i < k ==> Total(remaining) - Total(Unpinned(remaining)[..i]) > maxBytes)
        && (Total(remaining) - Total(Unpinned(remaining)[..k]) <= maxBytes || k == |Unpinned(remaining)|))
  }

  /** The plan is the shortest run of oldest unpinned items whose removal meets both caps, or all of them
      when nothing does. */
  ghost predicate Shortest(items: seq<Item>, maxItems: int, maxBytes: int, plan: seq<nat>) {
    var candidates := Unpinned(Oldest(items));
    && |plan| <= |candidates| && plan == Ids(candidates[..|plan|])
    && (forall k :: 0 <= k < |plan| ==> !Meets(items, maxItems, maxBytes, k))
    && (Meets(items, maxItems, maxBytes, |plan|) || |plan| == |candidates|)
  }

  /** First the count cap, then the size cap over what is left. Among items with ids of their own this is the
      shortest run that meets both caps. */
  method EvictionPlan(items: seq<Item>, maxItems: int, maxBytes: int) returns (plan: seq<nat>, ghost n: nat)
    ensures InTwoStages(items, maxItems, maxBytes, plan, n)
    ensures DistinctIds(items) ==> Shortest(items, maxItems, maxBytes, plan)
  {
    hide Unpinned, Oldest, Total, Kept, IdSet, DistinctIds, Ordered, Shortest;
    var ordered := Oldest(items);
    var candidates := Unpinned(ordered);
    var cut := CountCap(candidates, |ordered|, maxItems);
    var remaining := Kept(ordered, IdSet(candidates[..cut]));
    var more := SizeCap(remaining, Total(remaining), maxBytes);
    plan, n := Ids(candidates[..cut]) + Ids(more), cut;
    assert plan[..n] == Ids(candidates[..n]) && plan[n..] == Ids(more);
    forall i | 0 <= i < |more| ensures Total(remaining) - Total(Unpinned(remaining)[..i]) > maxBytes {
      assert more[..i] == Unpinned(remaining)[..i];
    }
    assert more[..|more|] == more;
    if DistinctIds(items) {
      StagesAreShortest(items, maxItems, maxBytes, plan, n);
    }
  }

  /** With ids of their own, what remains after the count cap is what the run leaves. */
  lemma StagesAreShortest(items: seq<Item>, maxItems: int, maxBytes: int, plan: seq<nat>, n: nat)
    requires DistinctIds(items) && InTwoStages(items, maxItems, maxBytes, plan, n)
    ensures Shortest(items, maxItems, maxBytes, plan)
  {
    hide Unpinned, Oldest, Total, Kept, IdSet, DistinctIds, Ordered;
    var ordered := Oldest(items);
    var candidates := Unpinned(ordered);
    OldestDistinct(items);
    OldestSorts(items);
    TotalOfSame(ordered, items);
    KeptAfter(ordered, n);
    var remaining := Kept(ordered, IdSet(candidates[..n]));
    var more := Unpinned(remaining)[..|plan| - n];
    assert more == candidates[n..n + |more|] by {
      assert candidates[n..][..|more|] == candidates[n..n + |more|];
    }
    assert plan == plan[..n] + plan[n..];
    forall k | 0 <= k <= |more| ensures Total(candidates[..n + k]) == Total(candidates[..n]) + Total(more[..k]) && more[..k] == Unpinned(remaining)[..k] {
      assert candidates[..n + k] == candidates[..n] + more[..k];
      TotalAppend(candidates[..n], more[..k]);
    }
    forall k | 0 <= k < n + |more| ensures !Meets(items, maxItems, maxBytes, k) {
      if k >= n {
        assert Total(candidates[..n + (k - n)]) == Total(candidates[..n]) + Total(more[..k - n]);
      }
    }
    assert more[..|more|] == more;
    assert candidates[..n + |more|] == candidates[..n] + more;
  }

  /** Ids that two items share break it: the second goes unnoticed with the first, and nothing more is
      planned for it although it counts. */
  lemma SharedIds()
    ensures var items := [Item(1, 0, false, 5), Item(1, 1, false, 5)];
            InTwoStages(items, 1, 0, [1], 1) && !Shortest(items, 1, 0, [1])
  {
    var a, b := Item(1, 0, false, 5), Item(1, 1, false, 5);
    var items := [a, b];
    PairInOrder(a, b);
    PairUnpinned(a, b);
    PairGone(a, b);
    hide Oldest, Unpinned, Kept, IdSet, Total;
    assert items[..1] == [a] && items[..0] == [] && [1][..1] == Ids([a]) && [1][1..] == Ids([]);
    assert Unpinned([])[..0] == [];
    assert !Meets(items, 1, 0, 1);
  }

  lemma PairInOrder(a: Item, b: Item)
    requires a.seqNo <= b.seqNo
    ensures Oldest([a, b]) == [a, b]
  {
    assert [a, b][..1] == [a] && [a][..0] == [];
    assert Oldest([a]) == Insert(a, Oldest([])) == [a];
    assert Insert(b, [a]) == [a] + [b];
  }

  lemma PairUnpinned(a: Item, b: Item)
    requires !a.pinned && !b.pinned
    ensures Unpinned([a, b]) == [a, b] && Total([a, b]) == a.size + b.size && Total([a]) == a.size && Unpinned([]) == [] && Total([]) == 0
  {
    hide Unpinned, Total;
    Cons(b, []);
    Cons(a, [b]);
    Cons(a, []);
    assert [a] + [b] == [a, b] && [b] + [] == [b] && [a] + [] == [a];
  }

  lemma PairGone(a: Item, b: Item)
    requires a.id == b.id
    ensures Kept([a, b], IdSet([a])) == []
  {
    assert [a][0].id in IdSet([a]);
    KeptCons(b, [], IdSet([a]));
    KeptCons(a, [b], IdSet([a]));
    assert [a] + [b] == [a, b] && [b] + [] == [b];
  }

  /** How many of the oldest unpinned items go for the count cap. */
  method CountCap(candidates: seq<Item>, count: nat, maxItems: int) returns (n: nat)
    ensures n <= |candidates| && (n > 0 ==> count - (n - 1) > maxItems) && (count - n <= maxItems || n == |candidates|)
  {
    n := 0;
    while n < |candidates|
      invariant n <= |candidates| && (n > 0 ==> count - (n - 1) > maxItems)
    {
      if count - n <= maxItems {
        return;
      }
      n := n + 1;
    }
  }

  /** Which of the remaining items go for the size cap; pinned ones are passed over. */
  method SizeCap(remaining: seq<Item>, sum: int, maxBytes: int) returns (more: seq<Item>)
    ensures |more| <= |Unpinned(remaining)| && more == Unpinned(remaining)[..|more|]
    ensures forall k :: 0 <= k < |more| ==> sum - Total(more[..k]) > maxBytes
    ensures sum - Total(more) <= maxBytes || |more| == |Unpinned(remaining)|
  {
    hide Unpinned;
    more := [];
    var total := sum;
    var i := 0;
    UnpinnedEnds(remaining, 0);
    while i < |remaining|
      invariant 0 <= i <= |remaining| && more == Unpinned(remaining[..i]) && total == sum - Total(more)
      invariant forall k :: 0 <= k < |more| ==> sum - Total(more[..k]) > maxBytes
    {
      UnpinnedEnds(remaining, i);
      if total <= maxBytes {
        return;
      }
      if !remaining[i].pinned {
        assert forall k :: 0 <= k < |more| ==> (more + [remaining[i]])[..k] == more[..k];
        assert (more + [remaining[i]])[..|more|] == more;
        TotalAppend(more, [remaining[i]]);
        more, total := more + [remaining[i]], total - remaining[i].size;
      }
      i := i + 1;
    }
    assert remaining[..i] == remaining;
  }

  lemma UnpinnedNext(a: seq<Item>, x: Item)
    ensures Unpinned(a + [x]) == Unpinned(a) + Free(x)
  {
    hide Unpinned, Free;
    UnpinnedAppend(a, [x]);
    Cons(x, []);
    assert [x] + [] == [x];
  }

  lemma UnpinnedEnds(xs: seq<Item>, i: nat)
    requires i <= |xs|
    ensures Unpinned(xs) == Unpinned(xs[..i]) + Unpinned(xs[i..]) && Unpinned(xs[..0]) == []
    ensures i < |xs| ==> Unpinned(xs[..i + 1]) == Unpinned(xs[..i]) + Free(xs[i])
  {
    hide Unpinned, Free;
    Cons(Item(0, 0, false, 0), []);
    UnpinnedAppend(xs[..i], xs[i..]);
    assert xs == xs[..i] + xs[i..] && xs[..0] == [];
    if i < |xs| {
      UnpinnedNext(xs[..i], xs[i]);
      assert xs[..i + 1] == xs[..i] + [xs[i]];
    }
  }

  /** An id goes only with an unpinned item that has it; so a pinned item with an id of its own never goes. */
  lemma PlanSparesPinned(items: seq<Item>, maxItems: int, maxBytes: int, plan: seq<nat>, n: nat, id: nat)
    requires InTwoStages(items, maxItems, maxBytes, plan, n) && id in plan
    ensures exists y :: y in items && !y.pinned && y.id == id
    ensures DistinctIds(items) ==> forall x :: x in items && x.id == id ==> !x.pinned
  {
    hide Oldest, Unpinned, Kept, IdSet, Total;
    var candidates := Unpinned(Oldest(items));
    var remaining := Kept(Oldest(items), IdSet(candidates[..n]));
    var i :| 0 <= i < |plan| && plan[i] == id;
    var y: Item;
    if i < n {
      assert plan[..n][i] == id;
      y := candidates[i];
      FreeMembers(Oldest(items), i);
    } else {
      assert plan[n..][i - n] == id;
      y := Unpinned(remaining)[i - n];
      FreeMembers(remaining, i - n);
      KeptAmong(Oldest(items), IdSet(candidates[..n]), y);
    }
    OldestSorts(items);
    assert y in multiset(Oldest(items));
    assert y in multiset(items);
  }

  lemma {:induction false} KeptAmong(xs: seq<Item>, gone: set<nat>, y: Item)
    requires y in Kept(xs, gone)
    ensures y in xs
  {
    if xs != [] && y != xs[0] {
      KeptAmong(xs[1..], gone, y);
    }
  }

  lemma FreeMembers(xs: seq<Item>, k: nat)
    requires k < |Unpinned(xs)|
    ensures Unpinned(xs)[k] in xs && !Unpinned(xs)[k].pinned
  {
    assert Unpinned(xs)[k] in Unpinned(xs);
  }
}
