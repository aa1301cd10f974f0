/** What the search lists, column by column, and where it cannot go on. */
module SearchLookup {
  import opened Wrappers
  import opened Loc
  import opened Selector
  import opened Search

  // ------------------------------------------------------------------ the columns

  /**
   * The row agrees with the hop in every column for which the hop names a value; a sub-kind counts below a base only.
   */
  ghost predicate Agrees(hop: Hop, row: PointKindSeg) {
    var columns := row.kind.specific;
    && (forall seg | hop.segment == ExactPoint(ExactSeg(seg)) :: row.segment == seg)
    && (forall version | hop.segment == ExactPoint(ExactVersion(version)) :: row.segment == Version(version))
    && (forall base | hop.kind.base == Exact(base) :: row.kind.base == base)
    && (forall sub | hop.kind.sub == Exact(Some(sub)) :: hop.kind.base.Any? || row.kind.sub == Some(sub))
    && (forall want | hop.kind.specific == PatternValue(want) ::
          && (want.provider.Any? || (columns.Some? && columns.value.provider == want.provider.value))
          && (want.vendor.Any? || (columns.Some? && columns.value.vendor == want.vendor.value))
          && (want.product.Any? || (columns.Some? && columns.value.product == want.product.value))
          && (want.variant.Any? || (columns.Some? && columns.value.variant == want.variant.value)))
  }

  lemma AdmitsIfAgrees(hop: Hop, row: PointKindSeg)
    ensures HopAdmits(hop, row.segment, row.kind) <==> Agrees(hop, row)
  {
  }

  /** One level of the lookup: the children of the point that agree with the first hop, or all of them without a hop. */
  lemma RowsByColumns(store: Store, point: Point, hops: seq<Hop>, p: Point)
    ensures p in Rows(store, point, hops) <==>
            && p in store
            && (exists seg :: p == Point(point.route, point.segments + [seg]))
            && (hops != [] ==> Agrees(hops[0], PointKindSeg(p.segments[|p.segments| - 1], store[p].kind)))
  {
    if IsChild(point, p) {
      ChildIsBelow(point, p);
    }
    if hops != [] && p in store && p.segments != [] {
      AdmitsIfAgrees(hops[0], PointKindSeg(Last(p), store[p].kind));
    }
  }

  /** The hop the search stands at on level `i`: from the first plain `**` on it is that one. */
  lemma LevelHop(hops: seq<Hop>, q: nat, star: nat, i: nat)
    requires q <= star <= |hops| && q <= i
    ensures Min(i - q, star - q) == Min(i, star) - q
    ensures Min(i, star) < |hops| ==> hops[q..][Min(i - q, star - q)] == hops[Min(i, star)]
  {
  }

  lemma LookupByLevel(pattern: Selector, h: PointHierarchy)
    ensures LookupPasses(pattern, h) <==>
            forall i | Anchor(pattern.hops) <= i < |h.segments| && Min(i, StarIndex(pattern.hops)) < |pattern.hops| ::
              Agrees(pattern.hops[Min(i, StarIndex(pattern.hops))], h.segments[i])
  {
    var q, post, star := Anchor(pattern.hops), PostRootHops(pattern), StarIndex(pattern.hops);
    StarIndexPostRoot(pattern.hops);
    if q <= |h.segments| {
      var below := h.segments[q..];
      forall i | q <= i < |h.segments|
        ensures AdmittedAt(post, below, i - q) <==>
                (Min(i, star) < |pattern.hops| ==> Agrees(pattern.hops[Min(i, star)], h.segments[i]))
      {
        LevelHop(pattern.hops, q, star, i);
        if Min(i, star) < |pattern.hops| {
          AdmitsIfAgrees(pattern.hops[Min(i, star)], h.segments[i]);
        }
      }
      assert forall j | 0 <= j < |below| :: AdmittedAt(post, below, j) <==> AdmittedAt(post, below, (q + j) - q);
    }
  }

  lemma RootSegments(pattern: Selector, segments: seq<PointSeg>)
    ensures AnchoredSegments(pattern.hops) < segments <==>
            && Anchor(pattern.hops) < |segments|
            && forall i | 0 <= i < Anchor(pattern.hops) :: segments[i] == pattern.hops[i].segment.exact.Seg()
  {
    forall i | 0 <= i < Anchor(pattern.hops)
      ensures AnchoredSegments(pattern.hops)[i] == pattern.hops[i].segment.exact.Seg()
    {
      AnchoredAt(pattern.hops, i);
    }
  }

  /**
   * For every selector and every table, in terms of segments and columns alone: a particle is listed iff it lies below
   * the leading exact hops; each further level, up to the first plain `**` and beyond it with that `**` itself, agrees
   * with its hop in every column the hop names; and it matches, or no hop was left to match it.
   */
  lemma SelectedByColumns(store: Store, pattern: Selector, p: Point)
    ensures p in Selected(store, pattern) <==>
            && p.route == This && HasHierarchy(store, p)
            && var hops, segs := pattern.hops, HierarchyOf(store, p).segments;
            var root, star := Anchor(hops), StarIndex(hops);
            && root < |segs|
            && (forall i | 0 <= i < root :: p.segments[i] == hops[i].segment.exact.Seg())
            && (forall i | root <= i < |segs| && Min(i, star) < |hops| :: Agrees(hops[Min(i, star)], segs[i]))
            && (star == |hops| ==> |segs| <= |hops| + 1)
            && ((star == |hops| && |segs| == |hops| + 1) || pattern.Matches(HierarchyOf(store, p)))
  {
    SelectedClosedForm(store, pattern, p);
    if HasHierarchy(store, p) {
      LookupByLevel(pattern, HierarchyOf(store, p));
      RootSegments(pattern, p.segments);
    }
  }

  /**
   * Whatever is listed, matched or not, agrees level by level with what the hops name: with the segment of an exact hop
   * anywhere before the first `**`, and from the query root on with base, sub-kind and specific of the hop.
   */
  lemma ListedAgrees(store: Store, pattern: Selector, p: Point, i: nat)
    requires p in Selected(store, pattern) && i < |p.segments| && i < |pattern.hops| && i <= StarIndex(pattern.hops)
    ensures var hop, kind := pattern.hops[i], HierarchyOf(store, p).segments[i].kind;
            && (forall seg | hop.segment == ExactPoint(ExactSeg(seg)) :: p.segments[i] == seg)
            && (forall version | hop.segment == ExactPoint(ExactVersion(version)) ::
                  p.segments[i] == Version(version))
            && (Anchor(pattern.hops) <= i && hop.kind.base.Exact? ==>
                  && kind.base == hop.kind.base.value
                  && (hop.kind.sub.Exact? && hop.kind.sub.value.Some? ==> kind.sub == hop.kind.sub.value))
            && (Anchor(pattern.hops) <= i && hop.kind.specific.PatternValue? ==>
                  var want, columns := hop.kind.specific.pattern, kind.specific;
                  && (want.provider.Exact? ==> columns.Some? && columns.value.provider == want.provider.value)
                  && (want.vendor.Exact? ==> columns.Some? && columns.value.vendor == want.vendor.value)
                  && (want.product.Exact? ==> columns.Some? && columns.value.product == want.product.value)
                  && (want.variant.Exact? ==> columns.Some? && columns.value.variant == want.variant.value))
  {
    SelectedByColumns(store, pattern, p);
    var hops, row := pattern.hops, HierarchyOf(store, p).segments[i];
    assert row.segment == p.segments[i];
    if Anchor(hops) <= i {
      assert Min(i, StarIndex(hops)) == i;
      assert Agrees(hops[i], row);
    } else {
      assert p.segments[i] == hops[i].segment.exact.Seg();
    }
  }

  /** Beyond the first plain `**` every level agrees with the kind on that `**`. */
  lemma ListedAgreesWithStar(store: Store, pattern: Selector, p: Point, i: nat)
    requires p in Selected(store, pattern) && StarIndex(pattern.hops) <= i < |p.segments|
    requires StarIndex(pattern.hops) < |pattern.hops|
    ensures Agrees(pattern.hops[StarIndex(pattern.hops)], HierarchyOf(store, p).segments[i])
  {
    SelectedByColumns(store, pattern, p);
    StarIndexPostRoot(pattern.hops);
    assert Min(i, StarIndex(pattern.hops)) == StarIndex(pattern.hops);
  }

  // ------------------------------------------------------------------ the root

  /** Among what is listed is the root iff the pattern is empty or one hop `+:*` or `+:**` whose base suits the root. */
  lemma RootListedExactly(store: Store, pattern: Selector, stubs: seq<Stub>)
    requires Lists(store, pattern, stubs)
    ensures ROOT in PointsOf(stubs) <==>
            || pattern.hops == []
            || exists hop :: && pattern.hops == [hop]
                             && (hop.segment == InclusiveAny || hop.segment == InclusiveRecursive)
                             && (hop.kind.base == Any || hop.kind.base == Exact(RootKind))
    ensures forall i | 0 <= i < |stubs| && stubs[i].point == ROOT :: i == |stubs| - 1 && stubs[i].kind == ROOT_KIND
  {
    assert ROOT !in Selected(store, pattern);
    var found := if pattern.MatchesRoot() then stubs[..|stubs| - 1] else stubs;
    forall i | 0 <= i < |found|
      ensures stubs[i].point != ROOT
    {
      assert found[i].point in PointsOf(found);
    }
    if pattern.MatchesRoot() {
      assert stubs[|stubs| - 1].point == ROOT;
    }
    if |pattern.hops| == 1 {
      assert pattern.hops == [pattern.hops[0]];
    }
  }

  // ------------------------------------------------------------------ where the descent is blocked

  /** A segment of a file system, with no root directory above it. */
  predicate NotBelowRootDir(p: Point)
    requires p.segments != []
  {
    && (Last(p).FilesystemRootDir? || Last(p).Dir? || Last(p).File?)
    && forall i | 0 <= i < |p.segments| - 1 :: p.segments[i] != FilesystemRootDir
  }

  /** The descent wants to go on into this particle, into a file system without a root directory above it. */
  ghost predicate Strays(store: Store, pattern: Selector, p: Point) {
    && IsBelow(QueryRootOf(pattern), p)
    && Visits(store, QueryRootOf(pattern), PostRootHops(pattern), Tail(QueryRootOf(pattern), p))
    && (StarIndex(pattern.hops) == |pattern.hops| ==> |p.segments| <= |pattern.hops|)
    && NotBelowRootDir(p)
  }

  lemma HopsLeft(store: Store, pattern: Selector, p: Point)
    requires IsBelow(QueryRootOf(pattern), p)
    requires Visits(store, QueryRootOf(pattern), PostRootHops(pattern), Tail(QueryRootOf(pattern), p))
    ensures HopsAt(PostRootHops(pattern), |Tail(QueryRootOf(pattern), p)| - 1) != [] <==>
            (StarIndex(pattern.hops) == |pattern.hops| ==> |p.segments| <= |pattern.hops|)
  {
    var post, tail := PostRootHops(pattern), Tail(QueryRootOf(pattern), p);
    StarIndexPostRoot(pattern.hops);
    VisitsClosedForm(store, QueryRootOf(pattern), post, tail);
    HopsRunOut(pattern, p);
  }

  /** Only a segment of a file system can fail to be pushed, and only where no root directory has been pushed before. */
  lemma PushFails(point: Point, segment: PointSeg)
    ensures point.PushSegment(segment).Err? <==>
            && (segment.FilesystemRootDir? || segment.Dir? || segment.File?)
            && forall i | 0 <= i < |point.segments| :: point.segments[i] != FilesystemRootDir
  {
  }

  lemma ParentPush(p: Point)
    requires p.segments != []
    ensures Point(p.route, p.segments[..|p.segments| - 1]).PushSegment(Last(p)).Err? <==> NotBelowRootDir(p)
  {
    var parent := Point(p.route, p.segments[..|p.segments| - 1]);
    PushFails(parent, Last(p));
    assert forall i | 0 <= i < |parent.segments| :: parent.segments[i] == p.segments[i];
  }

  lemma BlockedWithHops(store: Store, point: Point, hops: seq<Hop>, p: Point)
    requires IsBelow(point, p) && Visits(store, point, hops, Tail(point, p))
    ensures Blocked(store, point, hops, p) <==> HopsAt(hops, |Tail(point, p)| - 1) != [] && NotBelowRootDir(p)
  {
    ParentPush(p);
  }

  lemma BlockedExactly(store: Store, pattern: Selector, p: Point)
    requires IsBelow(QueryRootOf(pattern), p)
    requires Visits(store, QueryRootOf(pattern), PostRootHops(pattern), Tail(QueryRootOf(pattern), p))
    ensures Blocked(store, QueryRootOf(pattern), PostRootHops(pattern), p) <==> Strays(store, pattern, p)
  {
    HopsLeft(store, pattern, p);
    BlockedWithHops(store, QueryRootOf(pattern), PostRootHops(pattern), p);
  }

  /**
   * `select` fails iff some segment of the query root has no row, or the descent would have to go on into a segment of
   * a file system that has no root directory above it.
   */
  lemma SelectFailsExactly(store: Store, pattern: Selector)
    ensures SelectFails(store, pattern) <==>
            !HasHierarchy(store, QueryRootOf(pattern)) || exists p :: Strays(store, pattern, p)
  {
    var root, post := QueryRootOf(pattern), PostRootHops(pattern);
    forall p | IsBelow(root, p) && Visits(store, root, post, Tail(root, p))
      ensures Blocked(store, root, post, p) <==> Strays(store, pattern, p)
    {
      BlockedExactly(store, pattern, p);
    }
  }
}
