/**
 The Pareto frontier of benchmark results: create_pointset sorts the results and keeps those that
 improve on the best x seen so far.
 */
module ParetoFront {
  import opened Bytes

  /** One result: the algorithm, its variant, and the values of two metrics. */
  datatype Point = Point(algo: string, name: string, x: real, y: real)

  /** The directions of the two metrics: whether higher values are better (their worst value is negative). */
  datatype Metrics = Metrics(xUp: bool, yUp: bool)

  predicate Better(up: bool, a: real, b: real) {
    if up then a > b else a < b
  }

  predicate AsGood(up: bool, a: real, b: real) {
    a == b || Better(up, a, b)
  }

  /** `p` is at least as good as `q` in both metrics. */
  predicate Covers(m: Metrics, p: Point, q: Point) {
    AsGood(m.xUp, p.x, q.x) && AsGood(m.yUp, p.y, q.y)
  }

  predicate Dominates(m: Metrics, p: Point, q: Point) {
    Covers(m, p, q) && (p.x != q.x || p.y != q.y)
  }

  /** Points with a zero coordinate are skipped. */
  predicate Eligible(p: Point) {
    p.x != 0.0 && p.y != 0.0
  }

  /** The order of the sort key: by y, then by x, better values first. */
  predicate Before(m: Metrics, p: Point, q: Point) {
    Better(m.yUp, p.y, q.y) || (p.y == q.y && AsGood(m.xUp, p.x, q.x))
  }

  predicate Sorted(m: Metrics, s: seq<Point>) {
    forall i, j :: 0 <= i < j < |s| ==> Before(m, s[i], s[j])
  }

  /** Stable insertion: behind everything that does not have to come after it. */
  function Inserted(m: Metrics, p: Point, s: seq<Point>): seq<Point> {
    if s == [] then [p]
    else if Before(m, p, s[0]) then [p] + s
    else [s[0]] + Inserted(m, p, s[1..])
  }

  /** list.sort with the key of create_pointset */
  function Sort(m: Metrics, s: seq<Point>): seq<Point> {
    if s == [] then [] else Inserted(m, s[0], Sort(m, s[1..]))
  }

  lemma {:induction false} InsertedHas(m: Metrics, p: Point, s: seq<Point>)
    ensures multiset(Inserted(m, p, s)) == multiset(s) + multiset{p}
    ensures forall q :: q in Inserted(m, p, s) ==> q == p || q in s
  {
    hide Before;
    if s != [] {
      assert s == [s[0]] + s[1..];
      InsertedHas(m, p, s[1..]);
    }
  }

  lemma BeforeOrder(m: Metrics, p: Point, q: Point, r: Point)
    ensures Before(m, p, q) || Before(m, q, p)
    ensures Before(m, p, q) && Before(m, q, r) ==> Before(m, p, r)
  {
  }

  lemma SortedCons(m: Metrics, p: Point, s: seq<Point>)
    requires Sorted(m, s) && forall q :: q in s ==> Before(m, p, q)
    ensures Sorted(m, [p] + s)
  {
    hide Before;
  }

  lemma {:induction false} InsertedIs(m: Metrics, p: Point, s: seq<Point>)
    requires Sorted(m, s)
    ensures Sorted(m, Inserted(m, p, s))
  {
    hide Before;
    if s != [] {
      forall q
        ensures Before(m, p, s[0]) || Before(m, s[0], p)
        ensures Before(m, p, s[0]) && Before(m, s[0], q) ==> Before(m, p, q)
      {
        BeforeOrder(m, p, s[0], q);
      }
      if Before(m, p, s[0]) {
        SortedCons(m, p, s);
      } else {
        InsertedIs(m, p, s[1..]);
        InsertedHas(m, p, s[1..]);
        SortedCons(m, s[0], Inserted(m, p, s[1..]));
      }
    } else {
      SortedCons(m, p, s);
      assert [p] + s == [p];
    }
  }

  /** The points with these values, in order. */
  ghost function At(s: seq<Point>, x: real, y: real): seq<Point> {
    if s == [] then [] else (if s[0].x == x && s[0].y == y then [s[0]] else []) + At(s[1..], x, y)
  }

  lemma {:induction false} InsertedAt(m: Metrics, p: Point, s: seq<Point>, x: real, y: real)
    ensures At(Inserted(m, p, s), x, y) == At([p] + s, x, y)
  {
    assert ([p] + s)[1..] == s;
    if s != [] && !Before(m, p, s[0]) {
      InsertedAt(m, p, s[1..], x, y);
      assert ([p] + s[1..])[1..] == s[1..];
    }
  }

  /** The order is stable: points with the same values stay in the order they were in. */
  lemma {:induction false} SortIsStable(m: Metrics, s: seq<Point>, x: real, y: real)
    ensures At(Sort(m, s), x, y) == At(s, x, y)
  {
    if s != [] {
      SortIsStable(m, s[1..], x, y);
      InsertedAt(m, s[0], Sort(m, s[1..]), x, y);
      assert ([s[0]] + Sort(m, s[1..]))[1..] == Sort(m, s[1..]);
    }
  }

  lemma {:induction false} SortIs(m: Metrics, s: seq<Point>)
    ensures Sorted(m, Sort(m, s)) && multiset(Sort(m, s)) == multiset(s)
  {
    hide Before, Inserted;
    if s != [] {
      SortIs(m, s[1..]);
      InsertedIs(m, s[0], Sort(m, s[1..]));
      InsertedHas(m, s[0], Sort(m, s[1..]));
      assert s == [s[0]] + s[1..];
    }
  }

  function EligibleOnes(s: seq<Point>): seq<Point> {
    if s == [] then [] else EligibleOnes(s[..|s| - 1]) + if Eligible(s[|s| - 1]) then [s[|s| - 1]] else []
  }

  /** The points that the scan keeps: those that are better in x than all kept before. */
  function Kept(m: Metrics, s: seq<Point>): seq<Point> {
    if s == [] then [] else
      var k, p := Kept(m, s[..|s| - 1]), s[|s| - 1];
      if Eligible(p) && (k == [] || Better(m.xUp, p.x, k[|k| - 1].x)) then k + [p] else k
  }

  /** No kept point is dominated. */
  ghost predicate Undominated(m: Metrics, kept: seq<Point>, all: seq<Point>) {
    forall p, q :: p in kept && q in all ==> !Dominates(m, q, p)
  }

  /** Every point is weakly dominated by a kept one. */
  ghost predicate Covered(m: Metrics, kept: seq<Point>, all: seq<Point>) {
    forall q :: q in all ==> exists p :: p in kept && Covers(m, p, q)
  }

  /** From one kept point to the next, x becomes strictly better and y strictly worse. */
  ghost predicate Monotone(m: Metrics, kept: seq<Point>) {
    forall i, j :: 0 <= i < j < |kept| ==> Better(m.xUp, kept[j].x, kept[i].x) && Better(m.yUp, kept[i].y, kept[j].y)
  }

  ghost predicate Within(kept: seq<Point>, all: seq<Point>) {
    forall p :: p in kept ==> p in all
  }

  /** `kept` is a Pareto frontier of `all`. */
  ghost predicate Frontier(m: Metrics, kept: seq<Point>, all: seq<Point>) {
    Within(kept, all) && Undominated(m, kept, all) && Covered(m, kept, all) && Monotone(m, kept)
  }

  lemma {:induction false} EligibleIs(s: seq<Point>)
    ensures forall p :: p in EligibleOnes(s) <==> p in s && p.x != 0.0 && p.y != 0.0
    ensures forall p :: p in EligibleOnes(s) ==> multiset(EligibleOnes(s))[p] == multiset(s)[p]
  {
    if s != [] {
      EligibleIs(s[..|s| - 1]);
      assert s == s[..|s| - 1] + [s[|s| - 1]];
    }
  }

  /** The last kept point has the best x so far. */
  ghost predicate LastBest(m: Metrics, kept: seq<Point>, all: seq<Point>) {
    (kept == [] <==> all == []) && forall q :: q in all ==> AsGood(m.xUp, kept[|kept| - 1].x, q.x)
  }

  /** The scan of a sorted list keeps a Pareto frontier of its eligible points. */
  lemma {:induction false} KeptIsFrontier(m: Metrics, s: seq<Point>)
    requires Sorted(m, s)
    ensures Frontier(m, Kept(m, s), EligibleOnes(s)) && LastBest(m, Kept(m, s), EligibleOnes(s))
  {
    hide Frontier, LastBest, Before, Better;
    if s == [] {
      EmptyFrontier(m);
    } else {
      var t, p := s[..|s| - 1], s[|s| - 1];
      SortedInit(m, s);
      KeptIsFrontier(m, t);
      EligibleIs(t);
      var k, all := Kept(m, t), EligibleOnes(t);
      assert all + [] == all;
      forall q | q in all
        ensures Before(m, q, p)
      {
        LastInOrder(m, s, q);
      }
      if Eligible(p) {
        NextScanned(m, k, all, p);
      }
    }
  }

  lemma SortedInit(m: Metrics, s: seq<Point>)
    requires Sorted(m, s) && s != []
    ensures Sorted(m, s[..|s| - 1])
  {
    hide Before;
  }

  lemma LastInOrder(m: Metrics, s: seq<Point>, q: Point)
    requires Sorted(m, s) && s != [] && q in s[..|s| - 1]
    ensures Before(m, q, s[|s| - 1])
  {
    hide Before;
  }

  lemma EmptyFrontier(m: Metrics)
    ensures Frontier(m, [], []) && LastBest(m, [], [])
  {
  }

  /** One more eligible point that comes last in the order. */
  lemma NextScanned(m: Metrics, kept: seq<Point>, all: seq<Point>, p: Point)
    requires Frontier(m, kept, all) && LastBest(m, kept, all) && forall q :: q in all ==> Before(m, q, p)
    ensures var kept' := if kept == [] || Better(m.xUp, p.x, kept[|kept| - 1].x) then kept + [p] else kept;
      Frontier(m, kept', all + [p]) && LastBest(m, kept', all + [p])
  {
    hide Before, Better, Covered, Undominated, Monotone;
    if kept == [] || Better(m.xUp, p.x, kept[|kept| - 1].x) {
      MoreCovered(m, kept, kept + [p], all, p);
      MoreUndominated(m, kept, kept + [p], all, p);
      MoreMonotone(m, kept, all, p);
      MoreBest(m, kept, all, p);
    } else {
      LastCovers(m, kept, all, p);
      MoreCovered(m, kept, kept, all, p);
      MoreUndominated(m, kept, kept, all, p);
    }
  }

  lemma MoreCovered(m: Metrics, kept: seq<Point>, kept': seq<Point>, all: seq<Point>, p: Point)
    requires Covered(m, kept, all) && kept <= kept' && (p in kept' || exists r :: r in kept' && Covers(m, r, p))
    ensures Covered(m, kept', all + [p])
  {
    assert Covers(m, p, p);
    forall q | q in all + [p]
      ensures exists r :: r in kept' && Covers(m, r, q)
    {
      if q in all {
        var r :| r in kept && Covers(m, r, q);
      }
    }
  }

  /** What comes last in the order dominates nothing before it; a point better in x is dominated by nothing before it. */
  lemma MoreUndominated(m: Metrics, kept: seq<Point>, kept': seq<Point>, all: seq<Point>, p: Point)
    requires Undominated(m, kept, all) && Within(kept, all) && LastBest(m, kept, all) && forall q :: q in all ==> Before(m, q, p)
    requires kept' == kept || (kept' == kept + [p] && (kept == [] || Better(m.xUp, p.x, kept[|kept| - 1].x)))
    ensures Undominated(m, kept', all + [p])
  {
    forall r, q | r in kept' && q in all + [p]
      ensures !Dominates(m, q, r)
    {
      if q !in all && r in kept {
        assert r in all && Before(m, r, p);
      } else if q in all && r !in kept {
        assert AsGood(m.xUp, kept[|kept| - 1].x, q.x);
      }
    }
  }

  lemma MoreMonotone(m: Metrics, kept: seq<Point>, all: seq<Point>, p: Point)
    requires Monotone(m, kept) && Within(kept, all) && forall q :: q in all ==> Before(m, q, p)
    requires kept == [] || Better(m.xUp, p.x, kept[|kept| - 1].x)
    ensures Monotone(m, kept + [p])
  {
    forall i | 0 <= i < |kept|
      ensures Better(m.xUp, p.x, kept[i].x) && Better(m.yUp, kept[i].y, p.y)
    {
      assert kept[i] in all && Before(m, kept[i], p);
    }
  }

  lemma MoreBest(m: Metrics, kept: seq<Point>, all: seq<Point>, p: Point)
    requires LastBest(m, kept, all) && (kept == [] || Better(m.xUp, p.x, kept[|kept| - 1].x))
    ensures LastBest(m, kept + [p], all + [p])
  {
  }

  lemma LastCovers(m: Metrics, kept: seq<Point>, all: seq<Point>, p: Point)
    requires kept != [] && Within(kept, all) && LastBest(m, kept, all) && forall q :: q in all ==> Before(m, q, p)
    requires !Better(m.xUp, p.x, kept[|kept| - 1].x)
    ensures kept[|kept| - 1] in kept && Covers(m, kept[|kept| - 1], p) && LastBest(m, kept, all + [p])
  {
    assert kept[|kept| - 1] in kept;
  }

  lemma {:induction false} KeptOfTwo(m: Metrics, p: Point, q: Point)
    requires Eligible(p) && !Better(m.xUp, q.x, p.x)
    ensures Kept(m, [p, q]) == [p]
  {
    assert [p, q][..1] == [p] && [p][..0] == [];
    assert Kept(m, [p]) == [p];
  }

  /** For one: where higher values of the first metric and lower values of the second are better. */
  lemma {:induction false} HigherAndLower(p: Point, q: Point)
    requires p.x == 2.0 && p.y == 1.0 && q.x == 1.0 && q.y == 2.0
    ensures var m := Metrics(true, false); Dominates(m, p, q) && Sorted(m, [p, q]) && Kept(m, [p, q]) == [p]
    ensures var m := Metrics(false, true); Dominates(m, q, p) && Sorted(m, [q, p]) && Kept(m, [q, p]) == [q]
  {
    KeptOfTwo(Metrics(true, false), p, q);
    KeptOfTwo(Metrics(false, true), q, p);
  }

  /**
   create_pointset: sorts the data in place; answers the kept x, y and names, and those of all
   eligible points.
   */
  method CreatePointset(m: Metrics, data: array<Point>)
      returns (xs: seq<real>, ys: seq<real>, ls: seq<string>, axs: seq<real>, ays: seq<real>, als: seq<string>,
               ghost kept: seq<Point>, ghost all: seq<Point>)
    modifies data
    ensures Sorted(m, data[..]) && multiset(data[..]) == multiset(old(data[..]))
    ensures forall x, y :: At(data[..], x, y) == At(old(data[..]), x, y)
    ensures all == EligibleOnes(data[..]) && Columns(all, axs, ays, als)
    ensures forall p :: p in all <==> p in data[..] && p.x != 0.0 && p.y != 0.0
    ensures Frontier(m, kept, all) && Columns(kept, xs, ys, ls)
  {
    hide *;
    SortInPlace(m, data);
    EligibleIs(data[..]);
    xs, ys, ls, axs, ays, als, kept, all := Scan(m, data[..]);
    KeptIsFrontier(m, data[..]);
  }

  /** list.sort */
  method SortInPlace(m: Metrics, data: array<Point>)
    modifies data
    ensures Sorted(m, data[..]) && multiset(data[..]) == multiset(old(data[..]))
    ensures forall x, y :: At(data[..], x, y) == At(old(data[..]), x, y)
  {
    hide *;
    var sorted := Sort(m, data[..]);
    forall x, y ensures At(sorted, x, y) == At(data[..], x, y) {
      SortIsStable(m, data[..], x, y);
    }
    SortIs(m, data[..]);
    SortLength(m, data[..]);
    forall i | 0 <= i < data.Length {
      data[i] := sorted[i];
    }
    assert data[..] == sorted;
  }

  /** The scan of the sorted data. */
  method Scan(m: Metrics, data: seq<Point>)
      returns (xs: seq<real>, ys: seq<real>, ls: seq<string>, axs: seq<real>, ays: seq<real>, als: seq<string>,
               ghost kept: seq<Point>, ghost all: seq<Point>)
    ensures all == EligibleOnes(data) && Columns(all, axs, ays, als)
    ensures kept == Kept(m, data) && Columns(kept, xs, ys, ls)
  {
    hide Better;
    xs, ys, ls, axs, ays, als := [], [], [], [], [], [];
    kept, all := [], [];
    var lastX: Option<real> := None;
    for i := 0 to |data|
      invariant kept == Kept(m, data[..i]) && all == EligibleOnes(data[..i])
      invariant Columns(kept, xs, ys, ls) && Columns(all, axs, ays, als)
      invariant lastX == if kept == [] then None else Some(kept[|kept| - 1].x)
    {
      var p := data[i];
      assert data[..i + 1][..i] == data[..i] && data[..i + 1][i] == p;
      assert EligibleOnes(data[..i]) + [] == EligibleOnes(data[..i]);
      if p.x == 0.0 || p.y == 0.0 {
        continue;
      }
      axs, ays, als := axs + [p.x], ays + [p.y], als + [p.name];
      all := all + [p];
      if lastX.None? || Better(m.xUp, p.x, lastX.value) {
        lastX := Some(p.x);
        xs, ys, ls := xs + [p.x], ys + [p.y], ls + [p.name];
        kept := kept + [p];
      }
    }
    assert data[..|data|] == data;
  }

  lemma SortLength(m: Metrics, s: seq<Point>)
    ensures |Sort(m, s)| == |s|
  {
    SortIs(m, s);
    assert |multiset(Sort(m, s))| == |multiset(s)|;
  }

  /** The x, y and name columns of some points. */
  ghost predicate Columns(s: seq<Point>, xs: seq<real>, ys: seq<real>, ls: seq<string>) {
    && |xs| == |ys| == |ls| == |s|
    && forall i :: 0 <= i < |s| ==> xs[i] == s[i].x && ys[i] == s[i].y && ls[i] == s[i].name
  }
}
