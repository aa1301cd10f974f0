/** How the search relates to filtering every particle with `Selector.Matches`. */
module SearchRefinement {
  import opened Wrappers
  import opened Loc
  import opened Selector
  import opened Search

  /** The simple form: every local particle whose true hierarchy the pattern accepts. */
  ghost function Matching(store: Store, pattern: Selector): set<Point> {
    set p | p in store && p.route == This && HasHierarchy(store, p) && pattern.Matches(HierarchyOf(store, p))
  }

  /** A kind constraint whose lookup checks no more than the matcher does. */
  predicate ChecksBaseOnly(kind: KindSelector) {
    && (kind.base.Exact? ==> kind.sub.Any? || kind.sub.value.None?)
    && (kind.specific.PatternValue? ==>
          var want := kind.specific.pattern;
          want.provider.Any? && want.vendor.Any? && want.product.Any? && want.variant.Any?)
  }

  lemma MatchIsAdmitted(hop: Hop, seg: PointKindSeg)
    requires hop.Matches(seg) && ChecksBaseOnly(hop.kind)
    ensures HopAdmits(hop, seg.segment, seg.kind)
  {
  }

  /** A matching particle lies strictly below the query root, unless the query root is the whole pattern. */
  lemma MatchingIsBelow(store: Store, pattern: Selector, p: Point)
    requires p in Matching(store, pattern) && Anchor(pattern.hops) < |pattern.hops|
    ensures AnchoredSegments(pattern.hops) < p.segments
  {
    MatchesBelowQueryRoot(pattern, HierarchyOf(store, p));
  }

  /** With a plain `**` the search never runs out of hops: it lists exactly the matches whose path the lookups admit. */
  lemma SearchWithStar(store: Store, pattern: Selector)
    requires StarIndex(pattern.hops) < |pattern.hops|
    ensures Selected(store, pattern) ==
            set p | p in Matching(store, pattern) && LookupPasses(pattern, HierarchyOf(store, p))
  {
    StarIndexPostRoot(pattern.hops);
    forall p
      ensures p in Selected(store, pattern) <==>
              p in Matching(store, pattern) && LookupPasses(pattern, HierarchyOf(store, p))
    {
      SelectedClosedForm(store, pattern, p);
      if HasHierarchy(store, p) {
        assert p.segments[..|p.segments|] == p.segments;
      }
      if p in Matching(store, pattern) {
        MatchingIsBelow(store, pattern, p);
      }
    }
  }

  /**
   * No `+:**` comes before the first plain `**` (or at all, if there is none), the lookups before it check base kinds
   * only, and it admits any kind itself.
   */
  ghost predicate PlainLookups(pattern: Selector) {
    var hops, star := pattern.hops, StarIndex(pattern.hops);
    && NoRecursive(hops[..star])
    && (star < |hops| ==> hops[star].kind.base.Any? && ChecksBaseOnly(hops[star].kind))
    && forall i | Anchor(hops) <= i < star :: ChecksBaseOnly(hops[i].kind)
  }

  lemma AnyKindStarAdmits(star: Hop, seg: PointKindSeg)
    requires star.segment.Recursive? && star.kind.base.Any? && ChecksBaseOnly(star.kind)
    ensures HopAdmits(star, seg.segment, seg.kind)
  {
  }

  /** Before the first plain `**` the lookup sees a segment its hop has matched. */
  lemma MatchPassesBefore(pattern: Selector, h: PointHierarchy, i: nat)
    requires PlainLookups(pattern) && pattern.Matches(h)
    requires Anchor(pattern.hops) <= i < StarIndex(pattern.hops) && i < |h.segments|
    ensures HopAdmits(pattern.hops[i], h.segments[i].segment, h.segments[i].kind)
  {
    var hops := pattern.hops;
    assert hops[..i + 1] == hops[..StarIndex(hops)][..i + 1];
    MatchesAligns(pattern, h, i);
    MatchIsAdmitted(hops[i], h.segments[i]);
  }

  /** The lookups of a plain pattern pass where the hop's own lookup does; from the first `**` on they always do. */
  lemma PlainPassesAt(pattern: Selector, h: PointHierarchy, j: nat)
    requires PlainLookups(pattern) && Anchor(pattern.hops) + j < |h.segments|
    requires var i := Anchor(pattern.hops) + j;
             i < StarIndex(pattern.hops) ==> HopAdmits(pattern.hops[i], h.segments[i].segment, h.segments[i].kind)
    ensures AdmittedAt(PostRootHops(pattern), h.segments[Anchor(pattern.hops)..], j)
  {
    var hops, post, q := pattern.hops, PostRootHops(pattern), Anchor(pattern.hops);
    StarIndexPostRoot(hops);
    var i := Min(j, StarIndex(post));
    if i < |post| {
      assert post[i] == hops[q + i] && h.segments[q..][j] == h.segments[q + j];
      if i == StarIndex(post) {
        AnyKindStarAdmits(hops[q + i], h.segments[q + j]);
      }
    }
  }

  lemma MatchPasses(pattern: Selector, h: PointHierarchy)
    requires PlainLookups(pattern) && pattern.Matches(h)
    ensures LookupPasses(pattern, h)
  {
    var q := Anchor(pattern.hops);
    if q <= |h.segments| {
      forall j | 0 <= j < |h.segments[q..]|
        ensures AdmittedAt(PostRootHops(pattern), h.segments[q..], j)
      {
        if q + j < StarIndex(pattern.hops) {
          MatchPassesBefore(pattern, h, q + j);
        }
        PlainPassesAt(pattern, h, j);
      }
    }
  }

  /** The search refines the filter: on every table it lists exactly the particles that match. */
  lemma SearchRefinesFilter(store: Store, pattern: Selector)
    requires PlainLookups(pattern) && StarIndex(pattern.hops) < |pattern.hops|
    ensures Selected(store, pattern) == Matching(store, pattern)
  {
    SearchWithStar(store, pattern);
    forall p | p in Matching(store, pattern)
      ensures LookupPasses(pattern, HierarchyOf(store, p))
    {
      MatchPasses(pattern, HierarchyOf(store, p));
    }
  }

  /**
   * The particles one level below the last hop that the lookups reach: listed although no hop is left to match them.
   */
  ghost function Overrun(store: Store, pattern: Selector): set<Point> {
    set p | && p in store && p.route == This && HasHierarchy(store, p)
            && Exhausted(pattern, |p.segments|)
            && AnchoredSegments(pattern.hops) < p.segments
            && LookupPasses(pattern, HierarchyOf(store, p))
  }

  /** Without a recursive hop every match is listed, and what is listed besides is exactly the overrun. */
  lemma SearchWithoutRecursive(store: Store, pattern: Selector)
    requires PlainLookups(pattern) && StarIndex(pattern.hops) == |pattern.hops|
    requires Anchor(pattern.hops) < |pattern.hops|
    ensures Selected(store, pattern) == Matching(store, pattern) + Overrun(store, pattern)
    ensures Matching(store, pattern) !! Overrun(store, pattern)
    ensures Selected(store, pattern) == Matching(store, pattern) <==> Overrun(store, pattern) == {}
  {
    assert pattern.hops[..|pattern.hops|] == pattern.hops;
    forall p
      ensures p in Selected(store, pattern) <==> p in Matching(store, pattern) || p in Overrun(store, pattern)
      ensures p in Matching(store, pattern) ==> p !in Overrun(store, pattern)
    {
      SelectedClosedForm(store, pattern, p);
      if HasHierarchy(store, p) {
        var h := HierarchyOf(store, p);
        assert p.segments[..|p.segments|] == p.segments;
        MatchesWithoutRecursive(pattern, h);
        if p in Matching(store, pattern) {
          MatchingIsBelow(store, pattern, p);
          MatchPasses(pattern, h);
        }
      }
    }
  }

  /** A pattern that is all query root lists the children of that point, none of which it matches. */
  lemma ExactPathListsChildren(store: Store, pattern: Selector)
    requires Anchor(pattern.hops) == |pattern.hops|
    ensures Selected(store, pattern) ==
            set p | p in store && HasHierarchy(store, p) && IsChild(QueryRootOf(pattern), p)
    ensures Matching(store, pattern) !! Selected(store, pattern)
  {
    StarIndexPostRoot(pattern.hops);
    forall p
      ensures p in Selected(store, pattern) <==>
              p in store && HasHierarchy(store, p) && IsChild(QueryRootOf(pattern), p)
      ensures p in Matching(store, pattern) ==> |p.segments| == |pattern.hops|
    {
      SelectedClosedForm(store, pattern, p);
      if HasHierarchy(store, p) {
        assert p.segments[..|p.segments|] == p.segments;
        MatchesWithoutRecursive(pattern, HierarchyOf(store, p));
      }
    }
  }

  const ANY_KIND := KindSelector(Any, Any, AnyValue)

  // ------------------------------------------------------------------ exactly when the two agree

  /** The descent gets as far as this particle. */
  ghost predicate Reached(store: Store, pattern: Selector, p: Point)
    requires HasHierarchy(store, p)
  {
    && AnchoredSegments(pattern.hops) < p.segments
    && LookupPasses(pattern, HierarchyOf(store, p))
    && (StarIndex(pattern.hops) == |pattern.hops| ==> |p.segments| <= |pattern.hops| + 1)
  }

  /**
   * For every selector whatsoever, `+:**` and constrained kinds included, and every table: the search lists what the
   * filter accepts exactly when the descent reaches every match and every particle it overruns to matches.
   */
  lemma SearchIsFilterExactly(store: Store, pattern: Selector)
    ensures Selected(store, pattern) == Matching(store, pattern) <==>
            && (forall p | p in Matching(store, pattern) :: Reached(store, pattern, p))
            && Overrun(store, pattern) <= Matching(store, pattern)
  {
    forall p
      ensures p in Selected(store, pattern) <==>
              p in Overrun(store, pattern) || (p in Matching(store, pattern) && Reached(store, pattern, p))
    {
      SelectedClosedForm(store, pattern, p);
      if HasHierarchy(store, p) {
        assert p.segments[..|p.segments|] == p.segments;
        assert p.segments != [] ==> p in store;
      }
    }
    if Selected(store, pattern) == Matching(store, pattern) {
      forall p | p in Matching(store, pattern)
        ensures Reached(store, pattern, p)
      {
        assert p in Selected(store, pattern);
      }
    }
  }

  /** With a plain `**` there is no overrun: the two agree exactly when every match passes the lookups of its levels. */
  lemma SearchWithStarExactly(store: Store, pattern: Selector)
    requires StarIndex(pattern.hops) < |pattern.hops|
    ensures Selected(store, pattern) == Matching(store, pattern) <==>
            forall p | p in Matching(store, pattern) :: LookupPasses(pattern, HierarchyOf(store, p))
  {
    SearchWithStar(store, pattern);
    forall p | p in Matching(store, pattern) && Selected(store, pattern) == Matching(store, pattern)
      ensures LookupPasses(pattern, HierarchyOf(store, p))
    {
      assert p in Selected(store, pattern);
    }
  }

  /** `**` with a kind agrees with the filter exactly when kinds like it only occur under ancestors like it. */
  lemma ConstrainedStarExactly(store: Store, star: Hop)
    requires star.segment.Recursive?
    ensures Selected(store, Selector([star])) == Matching(store, Selector([star])) <==>
            forall p, j | p in Matching(store, Selector([star])) && 0 <= j < |p.segments| ::
              HopAdmits(star, p.segments[j], HierarchyOf(store, p).segments[j].kind)
  {
    var pattern := Selector([star]);
    SearchWithStarExactly(store, pattern);
    forall p | p in Matching(store, pattern)
      ensures LookupPasses(pattern, HierarchyOf(store, p)) <==>
              forall j | 0 <= j < |p.segments| :: HopAdmits(star, p.segments[j], HierarchyOf(store, p).segments[j].kind)
    {
      var segs := HierarchyOf(store, p).segments;
      assert segs[0..] == segs && PostRootHops(pattern) == [star];
      forall j | 0 <= j < |segs|
        ensures AdmittedAt([star], segs, j) <==> HopAdmits(star, p.segments[j], segs[j].kind)
      {
        assert segs[j].segment == p.segments[j];
      }
    }
  }

  /** `+:**`, the selector for everything, matches every particle and lists those at most two levels down. */
  lemma EverythingIsTwoLevels(store: Store, everything: Hop)
    requires everything.segment.InclusiveRecursive? && everything.kind == ANY_KIND
    ensures Matching(store, Selector([everything])) ==
            set p | p in store && p.route == This && p.segments != [] && HasHierarchy(store, p)
    ensures Selected(store, Selector([everything])) ==
            set p | p in store && p.route == This && 0 < |p.segments| <= 2 && HasHierarchy(store, p)
    ensures Selected(store, Selector([everything])) == Matching(store, Selector([everything])) <==>
            !exists p :: p in store && p.route == This && |p.segments| > 2 && HasHierarchy(store, p)
  {
    var pattern := Selector([everything]);
    assert pattern.hops[..0] == [];
    forall p
      ensures p in Matching(store, pattern) <==>
              p in store && p.route == This && p.segments != [] && HasHierarchy(store, p)
      ensures p in Selected(store, pattern) <==>
              p in store && p.route == This && 0 < |p.segments| <= 2 && HasHierarchy(store, p)
    {
      SelectedClosedForm(store, pattern, p);
      if HasHierarchy(store, p) {
        assert p.segments[..|p.segments|] == p.segments;
        MatchesRecursiveLast(pattern, HierarchyOf(store, p));
        EverythingPasses(everything, HierarchyOf(store, p));
      }
    }
    if p :| p in store && p.route == This && |p.segments| > 2 && HasHierarchy(store, p) {
      assert p in Matching(store, pattern) && p !in Selected(store, pattern);
    }
  }

  lemma EverythingPasses(everything: Hop, h: PointHierarchy)
    requires everything.segment.InclusiveRecursive? && everything.kind == ANY_KIND
    ensures LookupPasses(Selector([everything]), h)
  {
    assert PostRootHops(Selector([everything])) == [everything] && h.segments[0..] == h.segments;
  }

  // ------------------------------------------------------------------ where the two differ

  const SPACE := Kind(SpaceKind, None, None)
  const A := Point(This, [Space("a")])
  const B := Point(This, [Space("a"), Base("b")])
  const C := Point(This, [Space("a"), Base("b"), Base("c")])

  lemma PathOf(store: Store)
    requires A in store && B in store && C in store
    ensures HasHierarchy(store, A) && HasHierarchy(store, B) && HasHierarchy(store, C)
    ensures HierarchyOf(store, A).segments == [PointKindSeg(Space("a"), store[A].kind)]
    ensures HierarchyOf(store, B).segments ==
            [PointKindSeg(Space("a"), store[A].kind), PointKindSeg(Base("b"), store[B].kind)]
    ensures HierarchyOf(store, C).segments ==
            [PointKindSeg(Space("a"), store[A].kind), PointKindSeg(Base("b"), store[B].kind),
             PointKindSeg(Base("c"), store[C].kind)]
  {
    assert HasHierarchy(store, ROOT);
    assert ROOT.Below([Space("a")]) == A;
    HierarchyStep(store, ROOT, Space("a"));
    assert A.Below([Base("b")]) == B;
    HierarchyStep(store, A, Base("b"));
    assert B.Below([Base("c")]) == C;
    HierarchyStep(store, B, Base("c"));
  }

  /** An inclusive `+:**` is consumed like an ordinary hop, so the search stops two levels down. */
  lemma InclusiveRecursiveMisses()
    ensures var pattern := Selector([Hop(false, InclusiveRecursive, ANY_KIND)]);
            var store := map[A := Particle(SPACE, ROOT), B := Particle(SPACE, ROOT), C := Particle(SPACE, ROOT)];
            C in Matching(store, pattern) && C !in Selected(store, pattern)
  {
    var pattern := Selector([Hop(false, InclusiveRecursive, ANY_KIND)]);
    var store := map[A := Particle(SPACE, ROOT), B := Particle(SPACE, ROOT), C := Particle(SPACE, ROOT)];
    PathOf(store);
    MatchesRecursiveLast(pattern, HierarchyOf(store, C));
    SelectedClosedForm(store, pattern, C);
  }

  /** A kind on `**` restricts every level of the search but only the last segment of a match. */
  lemma ConstrainedStarMisses()
    ensures var pattern := Selector([Hop(false, Recursive, KindSelector(Exact(User), Any, AnyValue))]);
            var store := map[A := Particle(SPACE, ROOT), B := Particle(SPACE, ROOT),
                             C := Particle(Kind(User, None, None), ROOT)];
            C in Matching(store, pattern) && C !in Selected(store, pattern)
  {
    var pattern := Selector([Hop(false, Recursive, KindSelector(Exact(User), Any, AnyValue))]);
    var store := map[A := Particle(SPACE, ROOT), B := Particle(SPACE, ROOT),
                     C := Particle(Kind(User, None, None), ROOT)];
    PathOf(store);
    MatchesRecursiveLast(pattern, HierarchyOf(store, C));
    SearchWithStar(store, pattern);
    assert !AdmittedAt(PostRootHops(pattern), HierarchyOf(store, C).segments[0..], 0);
  }

  /** A sub-kind is looked up although it is not matched. */
  lemma SubKindMisses()
    ensures var pattern := Selector(
            [Hop(false, AnySeg, KindSelector(Exact(Database), Exact(Some("Relational")), AnyValue))]);
            var store := map[A := Particle(Kind(Database, None, None), ROOT), B := Particle(SPACE, ROOT),
                             C := Particle(SPACE, ROOT)];
            A in Matching(store, pattern) && A !in Selected(store, pattern)
  {
    var pattern := Selector([Hop(false, AnySeg, KindSelector(Exact(Database), Exact(Some("Relational")), AnyValue))]);
    var store := map[A := Particle(Kind(Database, None, None), ROOT), B := Particle(SPACE, ROOT),
                     C := Particle(SPACE, ROOT)];
    PathOf(store);
    MatchesWithoutRecursive(pattern, HierarchyOf(store, A));
    SelectedClosedForm(store, pattern, A);
    assert !AdmittedAt(PostRootHops(pattern), HierarchyOf(store, A).segments[0..], 0);
  }
}
