/** The particle table and the search that walks it: `query`, `sub_select` and `select` of the registry. */
module Search {
  import opened Wrappers
  import opened Loc
  import opened Selector

  datatype Particle = Particle(kind: Kind, owner: Point)

  /** One row per particle; on an installed table the root has one, too. */
  type Store = map<Point, Particle>

  datatype Stub = Stub(point: Point, kind: Kind)

  datatype SearchError = NoSuchParticle | Rejected(error: PushError)

  // ------------------------------------------------------------------ hierarchies

  /** Every ancestor of `p`, and `p` itself, has a row. */
  ghost predicate HasHierarchy(store: Store, p: Point) {
    forall n | 0 < n <= |p.segments| :: Point(p.route, p.segments[..n]) in store
  }

  ghost function HierarchyOf(store: Store, p: Point): (h: PointHierarchy)
    requires HasHierarchy(store, p)
    ensures Segments(h.segments) == p.segments
  {
    PointHierarchy(p.route,
                   seq(|p.segments|, i requires 0 <= i < |p.segments| =>
                     PointKindSeg(p.segments[i], store[Point(p.route, p.segments[..i + 1])].kind)))
  }

  lemma HierarchyStep(store: Store, p: Point, seg: PointSeg)
    requires HasHierarchy(store, p) && p.Below([seg]) in store
    ensures HasHierarchy(store, p.Below([seg]))
    ensures HierarchyOf(store, p.Below([seg])) ==
            HierarchyOf(store, p).Push(PointKindSeg(seg, store[p.Below([seg])].kind))
  {
    var child := p.Below([seg]);
    forall n | 0 < n <= |child.segments|
      ensures Point(child.route, child.segments[..n]) in store
    {
      if n <= |p.segments| {
        assert child.segments[..n] == p.segments[..n];
      } else {
        assert child.segments[..n] == child.segments;
      }
    }
    assert forall n | 0 <= n <= |p.segments| :: child.segments[..n] == p.segments[..n];
    assert child.segments[..|p.segments| + 1] == child.segments;
    assert HierarchyOf(store, child).segments ==
           HierarchyOf(store, p).Push(PointKindSeg(seg, store[child].kind)).segments;
  }

  /** `query` for a point hierarchy fails exactly when some ancestor has no row. */
  method Query(store: Store, point: Point) returns (r: Result<PointHierarchy, SearchError>)
    ensures r.Ok? <==> HasHierarchy(store, point)
    ensures r.Ok? ==> r.value == HierarchyOf(store, point)
    ensures r.Err? ==> r.error == NoSuchParticle
  {
    var path := PointHierarchy(point.route, []);
    var segments: seq<PointSeg> := [];
    for i := 0 to |point.segments|
      invariant segments == point.segments[..i]
      invariant HasHierarchy(store, Point(point.route, segments))
      invariant path == HierarchyOf(store, Point(point.route, segments))
    {
      ghost var above := Point(point.route, segments);
      segments := segments + [point.segments[i]];
      assert segments == point.segments[..i + 1];
      var here := Point(point.route, segments);
      if here !in store {
        return Err(NoSuchParticle);
      }
      HierarchyStep(store, above, point.segments[i]);
      path := path.Push(PointKindSeg(point.segments[i], store[here].kind));
    }
    assert segments == point.segments;
    r := Ok(path);
  }

  // ------------------------------------------------------------------ one level of the lookup

  predicate ColumnEquals(pattern: Pattern<string>, column: Option<string>) {
    pattern.Any? || column == Some(pattern.value)
  }

  /** The part of a hop that is pushed into the lookup of the children. Sub-kind and specific count here. */
  predicate HopAdmits(hop: Hop, segment: PointSeg, kind: Kind) {
    && (hop.segment.ExactPoint? ==> segment == hop.segment.exact.Seg())
    && (hop.kind.base.Exact? ==>
          && kind.base == hop.kind.base.value
          && (hop.kind.sub.Exact? && hop.kind.sub.value.Some? ==> kind.sub == hop.kind.sub.value))
    && (hop.kind.specific.PatternValue? ==>
          var want := hop.kind.specific.pattern;
          var have := kind.specific;
          && ColumnEquals(want.provider, if have.Some? then Some(have.value.provider) else None)
          && ColumnEquals(want.vendor, if have.Some? then Some(have.value.vendor) else None)
          && ColumnEquals(want.product, if have.Some? then Some(have.value.product) else None)
          && ColumnEquals(want.variant, if have.Some? then Some(have.value.variant) else None))
  }

  predicate Admits(hops: seq<Hop>, segment: PointSeg, kind: Kind) {
    hops != [] ==> HopAdmits(hops[0], segment, kind)
  }

  predicate IsChild(parent: Point, p: Point) {
    p.route == parent.route && |p.segments| == |parent.segments| + 1 && parent.segments < p.segments
  }

  function Last(p: Point): PointSeg
    requires p.segments != []
  {
    p.segments[|p.segments| - 1]
  }

  lemma ChildIsBelow(parent: Point, p: Point)
    requires IsChild(parent, p)
    ensures p == parent.Below([Last(p)])
  {
  }

  function PointsOf(stubs: seq<Stub>): set<Point> {
    set i | 0 <= i < |stubs| :: stubs[i].point
  }

  /** Each stub once, each carrying the kind of its row. */
  ghost predicate WellListed(store: Store, stubs: seq<Stub>) {
    && (forall i, j | 0 <= i < j < |stubs| :: stubs[i].point != stubs[j].point)
    && (forall i | 0 <= i < |stubs| :: stubs[i].point in store && stubs[i].kind == store[stubs[i].point].kind)
  }

  lemma WellListedConcat(store: Store, a: seq<Stub>, b: seq<Stub>)
    requires WellListed(store, a) && WellListed(store, b)
    requires PointsOf(a) !! PointsOf(b)
    ensures WellListed(store, a + b) && PointsOf(a + b) == PointsOf(a) + PointsOf(b)
  {
    var c := a + b;
    forall i, j | 0 <= i < j < |c|
      ensures c[i].point != c[j].point
    {
      if i < |a| <= j {
        assert c[i].point in PointsOf(a) && c[j].point in PointsOf(b);
      }
    }
    forall p | p in PointsOf(a) + PointsOf(b)
      ensures p in PointsOf(c)
    {
      if p in PointsOf(a) {
        var i :| 0 <= i < |a| && a[i].point == p;
        assert c[i].point == p;
      } else {
        var i :| 0 <= i < |b| && b[i].point == p;
        assert c[|a| + i].point == p;
      }
    }
  }

  ghost function Rows(store: Store, point: Point, hops: seq<Hop>): set<Point> {
    set p | p in store && IsChild(point, p) && Admits(hops, Last(p), store[p].kind)
  }

  /** The matching rows, each once, in whatever order the table yields them. */
  method FetchAll(store: Store, point: Point, hops: seq<Hop>) returns (stubs: seq<Stub>)
    ensures WellListed(store, stubs) && PointsOf(stubs) == Rows(store, point, hops)
  {
    stubs := [];
    var left := set p | p in store && IsChild(point, p) && Admits(hops, Last(p), store[p].kind);
    while left != {}
      invariant left <= Rows(store, point, hops)
      invariant WellListed(store, stubs)
      invariant PointsOf(stubs) == Rows(store, point, hops) - left
      decreases left
    {
      var p :| p in left;
      ghost var before := stubs;
      assert PointsOf([Stub(p, store[p].kind)]) == {p} by {
        assert [Stub(p, store[p].kind)][0].point == p;
      }
      WellListedConcat(store, stubs, [Stub(p, store[p].kind)]);
      stubs := stubs + [Stub(p, store[p].kind)];
      left := left - {p};
    }
  }

  // ------------------------------------------------------------------ what the descent reaches

  /** How the hops of a level become the hops of the next: only a plain `**` stays. */
  function Descend(hops: seq<Hop>): seq<Hop> {
    if hops == [] then [] else if hops[0].segment.Recursive? then hops else hops[1..]
  }

  function HopsAt(hops: seq<Hop>, depth: nat): seq<Hop> {
    if depth == 0 then hops else HopsAt(Descend(hops), depth - 1)
  }

  /** Every particle on the way down `tail` has a row that the lookup of its level admits. */
  ghost predicate Visits(store: Store, point: Point, hops: seq<Hop>, tail: seq<PointSeg>)
    decreases |tail|
  {
    && tail != []
    && var child := point.Below([tail[0]]);
    && child in store
    && Admits(hops, tail[0], store[child].kind)
    && (|tail| > 1 ==> hops != [] && Visits(store, child, Descend(hops), tail[1..]))
  }

  ghost predicate IsBelow(point: Point, p: Point) {
    p.route == point.route && point.segments < p.segments
  }

  function Tail(point: Point, p: Point): seq<PointSeg>
    requires point.segments <= p.segments
  {
    p.segments[|point.segments|..]
  }

  /** The search returns a visited particle if it has run out of hops or the whole pattern matches it. */
  ghost predicate Returned(store: Store, pattern: Selector, point: Point, hops: seq<Hop>, p: Point) {
    && IsBelow(point, p)
    && Visits(store, point, hops, Tail(point, p))
    && HasHierarchy(store, p)
    && (HopsAt(hops, |Tail(point, p)| - 1) == [] || pattern.Matches(HierarchyOf(store, p)))
  }

  ghost function ReturnedSet(store: Store, pattern: Selector, point: Point, hops: seq<Hop>): set<Point> {
    set p | p in store && Returned(store, pattern, point, hops, p)
  }

  /** A visited particle that the search wants to descend into but cannot name. */
  ghost predicate Blocked(store: Store, point: Point, hops: seq<Hop>, p: Point) {
    && IsBelow(point, p)
    && Visits(store, point, hops, Tail(point, p))
    && HopsAt(hops, |Tail(point, p)| - 1) != []
    && Point(p.route, p.segments[..|p.segments| - 1]).PushSegment(Last(p)).Err?
  }

  ghost function Descendants(store: Store, point: Point): set<Point> {
    set p | p in store && IsBelow(point, p)
  }

  lemma DescendantsShrink(store: Store, point: Point, child: Point)
    requires IsChild(point, child) && child in store
    ensures Descendants(store, child) < Descendants(store, point)
  {
    forall p | p in Descendants(store, child)
      ensures p in Descendants(store, point)
    {
      assert point.segments == child.segments[..|point.segments|] == p.segments[..|point.segments|];
    }
    assert child in Descendants(store, point) && child !in Descendants(store, child);
  }

  /** What lies below a visited child is decided by the child's own search. */
  lemma BelowChild(store: Store, pattern: Selector, point: Point, hops: seq<Hop>, child: Point, p: Point)
    requires child in Rows(store, point, hops) && hops != []
    requires IsBelow(child, p)
    ensures IsBelow(point, p)
    ensures Returned(store, pattern, point, hops, p) <==> Returned(store, pattern, child, Descend(hops), p)
    ensures Blocked(store, point, hops, p) <==> Blocked(store, child, Descend(hops), p)
  {
    ChildIsBelow(point, child);
    assert point.segments == child.segments[..|point.segments|] == p.segments[..|point.segments|];
    var tail := Tail(point, p);
    assert tail[0] == Last(child) by {
      assert p.segments[..|child.segments|] == child.segments;
    }
    assert tail[1..] == Tail(child, p);
  }

  /** The child of `point` on the way to a visited particle further down. */
  lemma VisitedThrough(store: Store, point: Point, hops: seq<Hop>, p: Point) returns (child: Point)
    requires IsBelow(point, p) && Visits(store, point, hops, Tail(point, p))
    ensures child in Rows(store, point, hops)
    ensures p == child || (IsBelow(child, p) && hops != [])
  {
    child := point.Below([Tail(point, p)[0]]);
    assert p.segments[..|child.segments|] == child.segments;
    if |p.segments| == |child.segments| {
      assert p.segments == child.segments;
    }
  }

  lemma ReturnedChild(store: Store, pattern: Selector, point: Point, hops: seq<Hop>, child: Point)
    requires HasHierarchy(store, point) && child in Rows(store, point, hops)
    ensures HasHierarchy(store, child)
    ensures Returned(store, pattern, point, hops, child) <==>
            hops == [] || pattern.Matches(HierarchyOf(store, child))
    ensures Blocked(store, point, hops, child) <==> hops != [] && point.PushSegment(Last(child)).Err?
  {
    ChildIsBelow(point, child);
    HierarchyStep(store, point, Last(child));
    assert Tail(point, child) == [Last(child)];
    assert child.segments[..|child.segments| - 1] == point.segments;
  }

  /** The particles strictly below one of the given rows that the search returns. */
  ghost function Deeper(store: Store, pattern: Selector, point: Point, hops: seq<Hop>, rows: set<Point>): set<Point> {
    set p | p in store && Returned(store, pattern, point, hops, p) && exists c :: c in rows && IsBelow(c, p)
  }

  lemma SameAncestor(point: Point, a: Point, b: Point, p: Point)
    requires IsChild(point, a) && IsChild(point, b) && IsBelow(a, p) && IsBelow(b, p)
    ensures a == b
  {
    assert a.segments == p.segments[..|a.segments|] == b.segments;
  }

  lemma DeeperGrows(store: Store, pattern: Selector, point: Point, hops: seq<Hop>, rows: set<Point>, child: Point)
    requires hops != [] && child in Rows(store, point, hops)
    requires rows <= Rows(store, point, hops) && child !in rows
    ensures Deeper(store, pattern, point, hops, rows + {child}) ==
            Deeper(store, pattern, point, hops, rows) + ReturnedSet(store, pattern, child, Descend(hops))
    ensures Deeper(store, pattern, point, hops, rows) !! ReturnedSet(store, pattern, child, Descend(hops))
  {
    forall p | p in store && IsBelow(child, p)
      ensures Returned(store, pattern, point, hops, p) <==> Returned(store, pattern, child, Descend(hops), p)
      ensures p !in Deeper(store, pattern, point, hops, rows)
    {
      BelowChild(store, pattern, point, hops, child, p);
      if c :| c in rows && IsBelow(c, p) {
        SameAncestor(point, c, child, p);
        assert false;
      }
    }
  }

  lemma ReturnedSplits(store: Store, pattern: Selector, point: Point, hops: seq<Hop>)
    requires HasHierarchy(store, point)
    ensures var rows := Rows(store, point, hops);
            var kept := set c | c in rows && Returned(store, pattern, point, hops, c);
            && ReturnedSet(store, pattern, point, hops) == kept + Deeper(store, pattern, point, hops, rows)
            && kept !! Deeper(store, pattern, point, hops, rows)
  {
    var rows := Rows(store, point, hops);
    forall p | p in ReturnedSet(store, pattern, point, hops) && p !in rows
      ensures p in Deeper(store, pattern, point, hops, rows)
    {
      var c := VisitedThrough(store, point, hops, p);
    }
  }

  /** Nothing at or below the given rows is blocked. */
  ghost predicate Clear(store: Store, point: Point, hops: seq<Hop>, rows: set<Point>) {
    forall c, p | c in rows && (p == c || IsBelow(c, p)) :: !Blocked(store, point, hops, p)
  }

  lemma ClearGrows(store: Store, point: Point, hops: seq<Hop>, rows: set<Point>, child: Point)
    requires hops != [] && child in Rows(store, point, hops)
    requires Clear(store, point, hops, rows)
    requires !Blocked(store, point, hops, child)
    requires forall p :: !Blocked(store, child, Descend(hops), p)
    ensures Clear(store, point, hops, rows + {child})
  {
    forall p | IsBelow(child, p)
      ensures !Blocked(store, point, hops, p)
    {
      BelowChild(store, Selector([]), point, hops, child, p);
    }
  }

  lemma ClearIsUnblocked(store: Store, point: Point, hops: seq<Hop>)
    requires Clear(store, point, hops, Rows(store, point, hops))
    ensures !exists p :: Blocked(store, point, hops, p)
  {
    if p :| Blocked(store, point, hops, p) {
      var c := VisitedThrough(store, point, hops, p);
    }
  }

  /** Where the loop over the matching rows stands before row `i`. */
  lemma PrefixPoints(store: Store, stubs: seq<Stub>, i: nat)
    requires WellListed(store, stubs) && i < |stubs|
    ensures PointsOf(stubs[..i + 1]) == PointsOf(stubs[..i]) + {stubs[i].point}
    ensures stubs[i].point in PointsOf(stubs) && stubs[i].point !in PointsOf(stubs[..i])
    ensures PointsOf(stubs[..i]) <= PointsOf(stubs)
  {
    assert stubs[..i + 1] == stubs[..i] + [stubs[i]];
    assert stubs[..i + 1][i] == stubs[i];
    assert forall j | 0 <= j < i :: stubs[..i + 1][j] == stubs[..i][j] == stubs[j];
  }

  // ------------------------------------------------------------------ the search itself

  /** The filter of a level: the rows that match the entire pattern. */
  method Retain(store: Store, pattern: Selector, hierarchy: PointHierarchy, stubs: seq<Stub>)
    returns (kept: seq<Stub>)
    requires WellListed(store, stubs)
    requires forall i | 0 <= i < |stubs| :: stubs[i].point.segments != []
    ensures WellListed(store, kept)
    ensures PointsOf(kept) ==
            set i | 0 <= i < |stubs| &&
                    pattern.Matches(hierarchy.Push(PointKindSeg(Last(stubs[i].point), stubs[i].kind))) :: stubs[i].point
  {
    kept := [];
    for i := 0 to |stubs|
      invariant WellListed(store, kept)
      invariant PointsOf(kept) ==
                set j | 0 <= j < i &&
                        pattern.Matches(hierarchy.Push(PointKindSeg(Last(stubs[j].point), stubs[j].kind))) ::
                  stubs[j].point
    {
      if pattern.Matches(hierarchy.Push(PointKindSeg(Last(stubs[i].point), stubs[i].kind))) {
        assert PointsOf([stubs[i]]) == {stubs[i].point} by {
          assert [stubs[i]][0].point == stubs[i].point;
        }
        assert PointsOf(kept) !! PointsOf([stubs[i]]);
        WellListedConcat(store, kept, [stubs[i]]);
        kept := kept + [stubs[i]];
      }
    }
  }

  /** `sub_select`: the carried hierarchy is always the true one of the carried point. */
  method SubSelect(store: Store, pattern: Selector, point: Point, hops: seq<Hop>, hierarchy: PointHierarchy)
    returns (r: Result<seq<Stub>, SearchError>)
    requires HasHierarchy(store, point) && hierarchy == HierarchyOf(store, point)
    ensures r.Err? <==> exists p :: Blocked(store, point, hops, p)
    ensures r.Ok? ==>
              WellListed(store, r.value) && PointsOf(r.value) == ReturnedSet(store, pattern, point, hops)
    decreases Descendants(store, point)
  {
    var matching := FetchAll(store, point, hops);
    ReturnedSplits(store, pattern, point, hops);
    if hops == [] {
      NothingDeeper(store, pattern, point);
      forall c | c in Rows(store, point, hops)
        ensures Returned(store, pattern, point, hops, c)
      {
        ReturnedChild(store, pattern, point, hops, c);
      }
      return Ok(matching);
    }
    var deeper: seq<Stub> := [];
    var next := if hops[0].segment.Recursive? then hops else hops[1..];
    for i := 0 to |matching|
      invariant WellListed(store, deeper)
      invariant PointsOf(deeper) == Deeper(store, pattern, point, hops, PointsOf(matching[..i]))
      invariant Clear(store, point, hops, PointsOf(matching[..i]))
    {
      var stub := matching[i];
      ghost var done := PointsOf(matching[..i]);
      PrefixPoints(store, matching, i);
      ChildIsBelow(point, stub.point);
      var last := Last(stub.point);
      ReturnedChild(store, pattern, point, hops, stub.point);
      var child := point.PushSegment(last);
      if child.Err? {
        assert Blocked(store, point, hops, stub.point);
        return Err(Rejected(child.error));
      }
      HierarchyStep(store, point, last);
      DescendantsShrink(store, point, child.value);
      var more := SubSelect(store, pattern, child.value, next, hierarchy.Push(PointKindSeg(last, stub.kind)));
      if more.Err? {
        ghost var p :| Blocked(store, child.value, next, p);
        BelowChild(store, pattern, point, hops, child.value, p);
        return more;
      }
      ClearGrows(store, point, hops, done, stub.point);
      DeeperGrows(store, pattern, point, hops, done, stub.point);
      WellListedConcat(store, deeper, more.value);
      deeper := deeper + more.value;
    }
    assert matching[..|matching|] == matching;
    ClearIsUnblocked(store, point, hops);
    MatchingHaveSegments(store, point, hops, matching);
    var kept := Retain(store, pattern, hierarchy, matching);
    KeptAreReturned(store, pattern, point, hops, matching, kept);
    WellListedConcat(store, kept, deeper);
    r := Ok(kept + deeper);
  }

  lemma NothingDeeper(store: Store, pattern: Selector, point: Point)
    ensures Deeper(store, pattern, point, [], Rows(store, point, [])) == {}
    ensures !exists p :: Blocked(store, point, [], p)
  {
    forall p, c | c in Rows(store, point, []) && IsBelow(c, p)
      ensures !Returned(store, pattern, point, [], p)
    {
    }
    forall p | IsBelow(point, p) && Visits(store, point, [], Tail(point, p))
      ensures HopsAt([], |Tail(point, p)| - 1) == []
    {
      NoHopsBelowNone(|Tail(point, p)| - 1);
    }
  }

  lemma {:induction false} NoHopsBelowNone(depth: nat)
    ensures HopsAt([], depth) == []
  {
    if depth > 0 {
      NoHopsBelowNone(depth - 1);
    }
  }

  lemma MatchingHaveSegments(store: Store, point: Point, hops: seq<Hop>, matching: seq<Stub>)
    requires PointsOf(matching) == Rows(store, point, hops)
    ensures forall i | 0 <= i < |matching| :: matching[i].point.segments != []
  {
    forall i | 0 <= i < |matching|
      ensures matching[i].point.segments != []
    {
      assert matching[i].point in PointsOf(matching);
    }
  }

  lemma KeptAreReturned(store: Store, pattern: Selector, point: Point, hops: seq<Hop>, matching: seq<Stub>,
                        kept: seq<Stub>)
    requires HasHierarchy(store, point) && hops != []
    requires WellListed(store, matching) && PointsOf(matching) == Rows(store, point, hops)
    requires forall i | 0 <= i < |matching| :: matching[i].point.segments != []
    requires PointsOf(kept) ==
             set i | 0 <= i < |matching| &&
                     pattern.Matches(
                       HierarchyOf(store, point).Push(PointKindSeg(Last(matching[i].point), matching[i].kind))) ::
               matching[i].point
    ensures PointsOf(kept) == set c | c in Rows(store, point, hops) && Returned(store, pattern, point, hops, c)
  {
    forall i | 0 <= i < |matching|
      ensures Returned(store, pattern, point, hops, matching[i].point) <==>
              pattern.Matches(HierarchyOf(store, point).Push(PointKindSeg(Last(matching[i].point), matching[i].kind)))
    {
      var c := matching[i].point;
      assert c in PointsOf(matching);
      ChildIsBelow(point, c);
      ReturnedChild(store, pattern, point, hops, c);
      HierarchyStep(store, point, Last(c));
    }
    forall c | c in Rows(store, point, hops) && Returned(store, pattern, point, hops, c)
      ensures c in PointsOf(kept)
    {
      assert c in PointsOf(matching);
      var i :| 0 <= i < |matching| && matching[i].point == c;
    }
  }

  // ------------------------------------------------------------------ select

  function QueryRootOf(pattern: Selector): Point {
    Point(This, AnchoredSegments(pattern.hops))
  }

  function PostRootHops(pattern: Selector): seq<Hop> {
    pattern.hops[Anchor(pattern.hops)..]
  }

  /** The particles (other than the root) that `select` lists. */
  ghost function Selected(store: Store, pattern: Selector): set<Point> {
    ReturnedSet(store, pattern, QueryRootOf(pattern), PostRootHops(pattern))
  }

  /** What `select` answers: the selected particles, each once, and last the root if the root rule accepts it. */
  ghost predicate Lists(store: Store, pattern: Selector, stubs: seq<Stub>) {
    if pattern.MatchesRoot() then
      && stubs != []
      && stubs[|stubs| - 1] == Stub(ROOT, ROOT_KIND)
      && WellListed(store, stubs[..|stubs| - 1])
      && PointsOf(stubs[..|stubs| - 1]) == Selected(store, pattern)
    else
      WellListed(store, stubs) && PointsOf(stubs) == Selected(store, pattern)
  }

  /** `select` fails only when the query root has no row or a particle to descend into cannot be named. */
  ghost predicate SelectFails(store: Store, pattern: Selector) {
    || !HasHierarchy(store, QueryRootOf(pattern))
    || exists p :: Blocked(store, QueryRootOf(pattern), PostRootHops(pattern), p)
  }

  method Select(store: Store, pattern: Selector) returns (r: Result<seq<Stub>, SearchError>)
    ensures r.Err? <==> SelectFails(store, pattern)
    ensures r.Ok? ==> Lists(store, pattern, r.value)
  {
    var point := QueryRoot(pattern);
    var hierarchy := Query(store, point);
    if hierarchy.Err? {
      return Err(hierarchy.error);
    }
    var hops := SubSelectHops(pattern);
    var found := SubSelect(store, pattern, point, hops, hierarchy.value);
    if found.Err? {
      ghost var p :| Blocked(store, point, hops, p);
      assert Blocked(store, QueryRootOf(pattern), PostRootHops(pattern), p);
      return Err(found.error);
    }
    var list := found.value;
    if pattern.MatchesRoot() {
      list := list + [Stub(ROOT, ROOT_KIND)];
      assert list[..|list| - 1] == found.value;
    }
    r := Ok(list);
  }

  lemma MeshCanBePushed(point: Point, segment: PointSeg)
    requires segment.IsMeshSeg()
    ensures point.PushSegment(segment).Ok?
  {
  }

  /** A table without file-system segments, whether or not it has a row for the root, never blocks the descent. */
  lemma MeshNeverBlocks(store: Store, point: Point, hops: seq<Hop>, p: Point)
    requires forall q | q in store :: q.segments == [] || Last(q).IsMeshSeg()
    ensures !Blocked(store, point, hops, p)
  {
    if IsBelow(point, p) && Visits(store, point, hops, Tail(point, p)) {
      VisitsClosedForm(store, point, hops, Tail(point, p));
      var tail := Tail(point, p);
      assert tail[..|tail|] == tail && point.segments + tail == p.segments;
      assert point.Below(tail[..|tail|]) == p;
      MeshCanBePushed(Point(p.route, p.segments[..|p.segments| - 1]), Last(p));
    }
  }

  // ------------------------------------------------------------------ a closed form for the search

  function Min(a: nat, b: nat): nat {
    if a <= b then a else b
  }

  /** The position of the first plain `**`, or the number of hops. */
  function StarIndex(hops: seq<Hop>): (n: nat)
    ensures n <= |hops|
    ensures n < |hops| ==> hops[n].segment.Recursive?
    ensures forall i | 0 <= i < n :: !hops[i].segment.Recursive?
  {
    if hops == [] || hops[0].segment.Recursive? then 0 else 1 + StarIndex(hops[1..])
  }

  /** At every level the search stands at the hop of that level, and never moves past the first plain `**`. */
  lemma {:induction false} HopsAtClosedForm(hops: seq<Hop>, depth: nat)
    ensures HopsAt(hops, depth) == hops[Min(depth, StarIndex(hops))..]
  {
    if depth > 0 {
      HopsAtClosedForm(Descend(hops), depth - 1);
    }
  }

  ghost predicate RowsExist(store: Store, point: Point, tail: seq<PointSeg>) {
    forall n | 0 < n <= |tail| :: point.Below(tail[..n]) in store
  }

  /** The rows on the way down `tail`. */
  ghost function RowsOf(store: Store, point: Point, tail: seq<PointSeg>): (segs: seq<PointKindSeg>)
    requires RowsExist(store, point, tail)
    ensures |segs| == |tail|
  {
    seq(|tail|, i requires 0 <= i < |tail| => PointKindSeg(tail[i], store[point.Below(tail[..i + 1])].kind))
  }

  /** The segment at depth `j` passes the lookup of the hop at which the search then stands. */
  ghost predicate AdmittedAt(hops: seq<Hop>, segs: seq<PointKindSeg>, j: nat)
    requires j < |segs|
  {
    var i := Min(j, StarIndex(hops));
    i < |hops| ==> HopAdmits(hops[i], segs[j].segment, segs[j].kind)
  }

  ghost predicate AdmittedAlong(hops: seq<Hop>, segs: seq<PointKindSeg>) {
    forall j | 0 <= j < |segs| :: AdmittedAt(hops, segs, j)
  }

  lemma AdmittedStep(hops: seq<Hop>, segs: seq<PointKindSeg>)
    requires segs != [] && hops != []
    ensures AdmittedAlong(hops, segs) <==>
            HopAdmits(hops[0], segs[0].segment, segs[0].kind) && AdmittedAlong(Descend(hops), segs[1..])
  {
    assert AdmittedAt(hops, segs, 0) <==> HopAdmits(hops[0], segs[0].segment, segs[0].kind);
    forall j | 0 < j < |segs|
      ensures AdmittedAt(hops, segs, j) <==> AdmittedAt(Descend(hops), segs[1..], j - 1)
    {
      assert segs[j] == segs[1..][j - 1];
    }
    assert forall j | 0 <= j < |segs| - 1 :: AdmittedAt(Descend(hops), segs[1..], j) <==> AdmittedAt(hops, segs, j + 1);
  }

  lemma RowsStep(store: Store, point: Point, tail: seq<PointSeg>)
    requires tail != []
    ensures var child := point.Below([tail[0]]);
            && (RowsExist(store, point, tail) <==> child in store && RowsExist(store, child, tail[1..]))
            && (RowsExist(store, point, tail) ==>
                  RowsOf(store, point, tail) ==
                  [PointKindSeg(tail[0], store[child].kind)] + RowsOf(store, child, tail[1..]))
  {
    var child, rest := point.Below([tail[0]]), tail[1..];
    forall n | 0 < n <= |tail|
      ensures point.Below(tail[..n]) == child.Below(rest[..n - 1])
    {
      assert [tail[0]] + rest[..n - 1] == tail[..n];
    }
    assert child.Below(rest[..0]) == child;
    assert forall n | 0 <= n <= |rest| :: child.Below(rest[..n]) == point.Below(tail[..n + 1]);
  }

  lemma {:induction false} VisitsClosedForm(store: Store, point: Point, hops: seq<Hop>, tail: seq<PointSeg>)
    ensures Visits(store, point, hops, tail) <==>
            && tail != []
            && RowsExist(store, point, tail)
            && AdmittedAlong(hops, RowsOf(store, point, tail))
            && (StarIndex(hops) == |hops| ==> |tail| <= |hops| + 1)
    decreases |tail|
  {
    if tail != [] {
      var child, rest := point.Below([tail[0]]), tail[1..];
      VisitsClosedForm(store, child, Descend(hops), rest);
      RowsStep(store, point, tail);
      if RowsExist(store, point, tail) && hops != [] {
        AdmittedStep(hops, RowsOf(store, point, tail));
      }
    }
  }

  /** Every level below the query root passes its lookup. */
  ghost predicate LookupPasses(pattern: Selector, h: PointHierarchy) {
    var q := Anchor(pattern.hops);
    q <= |h.segments| ==> AdmittedAlong(PostRootHops(pattern), h.segments[q..])
  }

  /** The level at which the search has run out of hops: it is listed without being matched. */
  predicate Exhausted(pattern: Selector, depth: nat) {
    StarIndex(pattern.hops) == |pattern.hops| && depth == |pattern.hops| + 1
  }

  /** What the search lists, in terms of the path of a particle alone. */
  ghost predicate Listed(store: Store, pattern: Selector, p: Point) {
    && p.route == This
    && HasHierarchy(store, p)
    && AnchoredSegments(pattern.hops) < p.segments
    && LookupPasses(pattern, HierarchyOf(store, p))
    && (StarIndex(pattern.hops) == |pattern.hops| ==> |p.segments| <= |pattern.hops| + 1)
    && (Exhausted(pattern, |p.segments|) || pattern.Matches(HierarchyOf(store, p)))
  }

  lemma {:induction false} StarIndexPostRoot(hops: seq<Hop>)
    ensures StarIndex(hops) == Anchor(hops) + StarIndex(hops[Anchor(hops)..])
  {
    if hops != [] && hops[0].IsAnchored() {
      StarIndexPostRoot(hops[1..]);
      assert hops[1..][Anchor(hops[1..])..] == hops[Anchor(hops)..];
    } else {
      assert hops[0..] == hops;
    }
  }

  lemma HierarchyRows(store: Store, root: Point, p: Point)
    requires IsBelow(root, p) && HasHierarchy(store, p)
    ensures HasHierarchy(store, root) && p in store && RowsExist(store, root, Tail(root, p))
    ensures RowsOf(store, root, Tail(root, p)) == HierarchyOf(store, p).segments[|root.segments|..]
  {
    var tail, q := Tail(root, p), |root.segments|;
    forall n | 0 <= n <= |tail|
      ensures root.Below(tail[..n]) == Point(p.route, p.segments[..q + n])
    {
      assert root.segments + tail[..n] == p.segments[..q + n];
    }
    assert forall n | 0 <= n <= q :: root.segments[..n] == p.segments[..n];
    assert p.segments[..|p.segments|] == p.segments;
    forall i | 0 <= i < |tail|
      ensures RowsOf(store, root, tail)[i] == HierarchyOf(store, p).segments[q..][i]
    {
      assert root.Below(tail[..i + 1]) == Point(p.route, p.segments[..q + (i + 1)]);
    }
  }

  /** A particle is reached exactly when its path passes the lookups and the hops last that long. */
  lemma ReachedClosedForm(store: Store, pattern: Selector, p: Point)
    requires IsBelow(QueryRootOf(pattern), p) && HasHierarchy(store, p)
    ensures Visits(store, QueryRootOf(pattern), PostRootHops(pattern), Tail(QueryRootOf(pattern), p)) <==>
            && LookupPasses(pattern, HierarchyOf(store, p))
            && (StarIndex(pattern.hops) == |pattern.hops| ==> |p.segments| <= |pattern.hops| + 1)
  {
    var root, hops := QueryRootOf(pattern), PostRootHops(pattern);
    VisitsClosedForm(store, root, hops, Tail(root, p));
    StarIndexPostRoot(pattern.hops);
    HierarchyRows(store, root, p);
  }

  lemma HopsRunOut(pattern: Selector, p: Point)
    requires IsBelow(QueryRootOf(pattern), p)
    requires StarIndex(pattern.hops) == |pattern.hops| ==> |p.segments| <= |pattern.hops| + 1
    ensures HopsAt(PostRootHops(pattern), |Tail(QueryRootOf(pattern), p)| - 1) == [] <==>
            Exhausted(pattern, |p.segments|)
  {
    var hops, depth := PostRootHops(pattern), |Tail(QueryRootOf(pattern), p)| - 1;
    HopsAtClosedForm(hops, depth);
    StarIndexPostRoot(pattern.hops);
    assert |hops[Min(depth, StarIndex(hops))..]| == |hops| - Min(depth, StarIndex(hops));
    assert |hops| == |pattern.hops| - Anchor(pattern.hops) && depth == |p.segments| - Anchor(pattern.hops) - 1;
  }

  /**
   * For every selector and every table: a particle is listed exactly when it lies below the query root, every level of
   * its path passes the lookup of its hop, and it either matches the whole pattern or sits on the one level at which
   * the hops have run out.
   */
  lemma SelectedClosedForm(store: Store, pattern: Selector, p: Point)
    ensures p in Selected(store, pattern) <==> Listed(store, pattern, p)
  {
    if IsBelow(QueryRootOf(pattern), p) && HasHierarchy(store, p) {
      assert p.segments[..|p.segments|] == p.segments;
      ReachedClosedForm(store, pattern, p);
      if Visits(store, QueryRootOf(pattern), PostRootHops(pattern), Tail(QueryRootOf(pattern), p)) {
        HopsRunOut(pattern, p);
      }
    }
  }
}
