/** Selectors over point hierarchies: the reference matcher that the registry search must agree with. */
module Selector {
  import opened Wrappers
  import opened Loc

  datatype Pattern<T(==)> = Any | Exact(value: T) {
    predicate Matches(t: T)
    {
      Any? || value == t
    }
  }

  datatype BaseKind =
    | RootKind | SpaceKind | UserBase | BaseKind | User | App | Mechtron | FileSystem | FileKind | Database | Repo
    | BundleSeries | Bundle | Artifact | Control | PortalKind | StarKind | Driver | GlobalKind | HostKind | GuestKind
    | Native

  datatype Specific = Specific(provider: string, vendor: string, product: string, variant: string, version: string)

  datatype Kind = Kind(base: BaseKind, sub: Option<string>, specific: Option<Specific>)

  const ROOT_KIND := Kind(RootKind, None, None)

  /** The semver decision itself is a parameter. */
  datatype VersionReq = VersionReq(accepts: string -> bool)

  datatype SpecificSelector = SpecificSelector(
    provider: Pattern<string>, vendor: Pattern<string>, product: Pattern<string>, variant: Pattern<string>,
    version: VersionReq)

  datatype ValuePattern<T> = AnyValue | NoValue | PatternValue(pattern: T)

  datatype KindSelector = KindSelector(
    base: Pattern<BaseKind>, sub: Pattern<Option<string>>, specific: ValuePattern<SpecificSelector>)
  {
    /** Only the base kind takes part in matching. */
    predicate Matches(kind: Kind) {
      base.Matches(kind.base)
    }
  }

  datatype ExactPointSeg = ExactSeg(seg: PointSeg) | ExactVersion(version: string) {
    function Seg(): PointSeg {
      match this
      case ExactSeg(seg) => seg
      case ExactVersion(version) => Version(version)
    }
  }

  datatype PointSegSelector =
    | InclusiveAny
    | InclusiveRecursive
    | AnySeg
    | Recursive
    | ExactPoint(exact: ExactPointSeg)
    | VersionRange(req: VersionReq)
  {
    predicate IsRecursive() {
      InclusiveRecursive? || Recursive?
    }

    predicate Matches(segment: PointSeg) {
      match this
      case InclusiveAny => true
      case InclusiveRecursive => true
      case AnySeg => true
      case Recursive => true
      case ExactPoint(ExactSeg(pattern)) => pattern == segment
      case ExactPoint(ExactVersion(a)) => segment.Version? && a == segment.version
      case VersionRange(req) => segment.Version? && req.accepts(segment.version)
    }
  }

  datatype PointKindSeg = PointKindSeg(segment: PointSeg, kind: Kind)

  datatype PointHierarchy = PointHierarchy(route: RouteSeg, segments: seq<PointKindSeg>) {
    predicate IsRoot() {
      segments == []
    }

    predicate IsFinal() {
      |segments| == 1
    }

    function Push(segment: PointKindSeg): PointHierarchy {
      PointHierarchy(route, segments + [segment])
    }

    function Consume(): Option<PointHierarchy> {
      if |segments| <= 1 then None else Some(PointHierarchy(route, segments[1..]))
    }
  }

  datatype Hop = Hop(inclusive: bool, segment: PointSegSelector, kind: KindSelector) {
    predicate Matches(seg: PointKindSeg) {
      segment.Matches(seg.segment) && kind.Matches(seg.kind)
    }

    /** A hop that belongs to the query root. */
    predicate IsAnchored() {
      segment.ExactPoint? && !inclusive
    }
  }

  datatype Selector = Selector(hops: seq<Hop>) {
    predicate IsRoot() {
      hops == []
    }

    predicate IsFinal() {
      |hops| == 1
    }

    function Consume(): Option<Selector> {
      if hops == [] then None else Some(Selector(hops[1..]))
    }

    predicate MatchesRoot() {
      if hops == [] then true
      else if |hops| == 1 then
        (hops[0].segment.InclusiveAny? || hops[0].segment.InclusiveRecursive?) && hops[0].kind.Matches(ROOT_KIND)
      else false
    }

    /**
     * The reference filter. Every `.value` below stands for an `expect` of the source, so the well-formedness of this
     * function is the statement that none of them can fail; its `decreases` is the statement that it terminates.
     */
    predicate Matches(hierarchy: PointHierarchy)
      decreases |hierarchy.segments|
    {
      if hierarchy.IsRoot() && IsRoot() then true
      else if hierarchy.segments == [] || hops == [] then false
      else
        var hop := hops[0];
        var seg := hierarchy.segments[0];
        if hierarchy.IsFinal() && IsFinal() then
          hop.Matches(seg)
        else if hierarchy.IsFinal() then
          hop.inclusive && hop.Matches(seg)
        else if hop.segment.IsRecursive() && |hops| >= 2 then
          if hops[1].Matches(seg) then
            Consume().value.Matches(hierarchy.Consume().value)
          else
            Matches(hierarchy.Consume().value)
        else if hop.segment.IsRecursive() then
          hop.Matches(hierarchy.segments[|hierarchy.segments| - 1]) && Matches(hierarchy.Consume().value)
        else
          hop.Matches(seg) && Consume().value.Matches(hierarchy.Consume().value)
    }
  }

  /** The leading run of exact, non-inclusive hops. */
  function AnchoredSegments(hops: seq<Hop>): seq<PointSeg> {
    if hops == [] || !hops[0].IsAnchored() then []
    else [hops[0].segment.exact.Seg()] + AnchoredSegments(hops[1..])
  }

  /** The number of hops the query root absorbs. */
  function Anchor(hops: seq<Hop>): (n: nat)
    ensures n <= |hops|
    ensures forall i | 0 <= i < n :: hops[i].IsAnchored()
    ensures n < |hops| ==> !hops[n].IsAnchored()
    ensures n == |AnchoredSegments(hops)|
  {
    if hops == [] || !hops[0].IsAnchored() then 0 else 1 + Anchor(hops[1..])
  }

  lemma {:induction false} AnchoredAt(hops: seq<Hop>, i: nat)
    requires i < Anchor(hops)
    ensures AnchoredSegments(hops)[i] == hops[i].segment.exact.Seg()
  {
    if i > 0 {
      AnchoredAt(hops[1..], i - 1);
    }
  }

  method QueryRoot(selector: Selector) returns (point: Point)
    ensures point == Point(This, AnchoredSegments(selector.hops))
  {
    var segments: seq<PointSeg> := [];
    var i := 0;
    while i < |selector.hops|
      invariant 0 <= i <= |selector.hops|
      invariant segments + AnchoredSegments(selector.hops[i..]) == AnchoredSegments(selector.hops)
    {
      var hop := selector.hops[i];
      assert selector.hops[i..][0] == hop && selector.hops[i..][1..] == selector.hops[i + 1..];
      if hop.segment.ExactPoint? {
        if hop.inclusive {
          break;
        }
        segments := segments + [hop.segment.exact.Seg()];
      } else {
        break;
      }
      i := i + 1;
    }
    point := Point(This, segments);
  }

  method SubSelectHops(selector: Selector) returns (hops: seq<Hop>)
    ensures hops == selector.hops[Anchor(selector.hops)..]
  {
    hops := selector.hops;
    var root := QueryRoot(selector);
    var n := |root.segments|;
    assert n == Anchor(selector.hops);
    for i := 0 to n
      invariant hops == selector.hops[i..]
    {
      hops := hops[1..];
    }
  }

  // ------------------------------------------------------------------ the meaning of Matches

  /** The first `n` segments meet the first `n` hops one by one. */
  ghost predicate Aligned(hops: seq<Hop>, segments: seq<PointKindSeg>, n: nat)
    requires n <= |hops| && n <= |segments|
  {
    forall i | 0 <= i < n :: hops[i].Matches(segments[i])
  }

  ghost predicate NoRecursive(hops: seq<Hop>) {
    forall i | 0 <= i < |hops| :: !hops[i].segment.IsRecursive()
  }

  /** The path ends before the hops do, on an inclusive hop. */
  ghost predicate EndsInclusive(hops: seq<Hop>, segments: seq<PointKindSeg>)
  {
    0 < |segments| < |hops| && hops[|segments| - 1].inclusive
  }

  /** Without a recursive hop: hop-by-hop alignment of the whole path, cut short only on an inclusive hop. */
  lemma {:induction false} MatchesWithoutRecursive(selector: Selector, h: PointHierarchy)
    requires NoRecursive(selector.hops)
    ensures selector.Matches(h) <==>
            && |h.segments| <= |selector.hops|
            && Aligned(selector.hops, h.segments, |h.segments|)
            && (|h.segments| == |selector.hops| || EndsInclusive(selector.hops, h.segments))
    decreases |h.segments|
  {
    var hops, segs := selector.hops, h.segments;
    if hops != [] && |segs| > 1 {
      MatchesWithoutRecursive(Selector(hops[1..]), PointHierarchy(h.route, segs[1..]));
      AlignedStep(hops, segs);
    }
  }

  lemma AlignedStep(hops: seq<Hop>, segs: seq<PointKindSeg>)
    requires 0 < |hops| && 0 < |segs|
    ensures |segs| <= |hops| ==>
              (Aligned(hops, segs, |segs|) <==> hops[0].Matches(segs[0]) && Aligned(hops[1..], segs[1..], |segs| - 1))
    ensures |segs| >= |hops| ==>
              (Aligned(hops, segs, |hops| - 1) <==>
               |hops| == 1 || (hops[0].Matches(segs[0]) && Aligned(hops[1..], segs[1..], |hops| - 2)))
  {
    assert forall i | 0 < i < |hops| :: hops[i] == hops[1..][i - 1];
    assert forall i | 0 < i < |segs| :: segs[i] == segs[1..][i - 1];
  }

  /** With exactly one recursive hop, in last place: it swallows the rest and checks the kind of the last segment. */
  lemma {:induction false} MatchesRecursiveLast(selector: Selector, h: PointHierarchy)
    requires selector.hops != [] && selector.hops[|selector.hops| - 1].segment.IsRecursive()
    requires NoRecursive(selector.hops[..|selector.hops| - 1])
    ensures var hops, segs := selector.hops, h.segments;
            selector.Matches(h) <==>
            if |segs| < |hops| then Aligned(hops, segs, |segs|) && EndsInclusive(hops, segs)
            else Aligned(hops, segs, |hops| - 1) && hops[|hops| - 1].kind.Matches(segs[|segs| - 1].kind)
    decreases |h.segments|
  {
    var hops, segs := selector.hops, h.segments;
    if |segs| > 1 {
      var rest := PointHierarchy(h.route, segs[1..]);
      if |hops| == 1 {
        MatchesRecursiveLast(selector, rest);
      } else {
        assert hops[0] == hops[..|hops| - 1][0];
        assert hops[1..][..|hops| - 2] == hops[..|hops| - 1][1..];
        MatchesRecursiveLast(Selector(hops[1..]), rest);
        AlignedStep(hops, segs);
      }
    }
  }

  /**
   * A recursive hop followed by another one is greedy: it is consumed together with the first segment (other than the
   * last) that the next hop accepts, and if there is none it can only end the path inclusively.
   */
  lemma {:induction false} MatchesRecursiveThenHop(selector: Selector, h: PointHierarchy, j: nat)
    requires |selector.hops| >= 2 && selector.hops[0].segment.IsRecursive()
    requires j < |h.segments|
    requires forall i | 0 <= i < j :: !selector.hops[1].Matches(h.segments[i])
    requires j < |h.segments| - 1 ==> selector.hops[1].Matches(h.segments[j])
    ensures selector.Matches(h) <==>
            if j < |h.segments| - 1 then
              Selector(selector.hops[1..]).Matches(PointHierarchy(h.route, h.segments[j + 1..]))
            else
              selector.hops[0].inclusive && selector.hops[0].Matches(h.segments[j])
    decreases j
  {
    if j > 0 {
      var rest := PointHierarchy(h.route, h.segments[1..]);
      MatchesRecursiveThenHop(selector, rest, j - 1);
      assert rest.segments[j..] == h.segments[j + 1..];
    }
  }

  /**
   * `**:x` does not mean "anything that ends in x": it accepts exactly the paths whose last two segments both match x
   * and none before them does, because the recursive hop is consumed together with the first match.
   */
  lemma {:induction false} RecursiveThenLast(star: Hop, last: Hop, h: PointHierarchy)
    requires star.segment.IsRecursive() && !star.inclusive && !last.segment.IsRecursive()
    ensures var segs, n := h.segments, |h.segments|;
            Selector([star, last]).Matches(h) <==>
            && n >= 2 && last.Matches(segs[n - 2]) && last.Matches(segs[n - 1])
            && forall i | 0 <= i < n - 2 :: !last.Matches(segs[i])
    decreases |h.segments|
  {
    var segs, rest := h.segments, PointHierarchy(h.route, if h.segments == [] then [] else h.segments[1..]);
    assert Selector([star, last]).Consume().value == Selector([last]);
    if |segs| >= 2 {
      assert forall i | 0 < i < |segs| :: segs[i] == rest.segments[i - 1];
      if last.Matches(segs[0]) {
        assert Selector([last]).Matches(rest) <==> |segs| == 2 && last.Matches(segs[1]);
      } else {
        RecursiveThenLast(star, last, rest);
      }
    }
  }

  /** The first segment before the last one that the hop accepts, or else the last one. */
  function FirstMatch(hop: Hop, segs: seq<PointKindSeg>): (j: nat)
    requires segs != []
    ensures j < |segs|
    ensures forall i | 0 <= i < j :: !hop.Matches(segs[i])
    ensures j < |segs| - 1 ==> hop.Matches(segs[j])
  {
    if |segs| == 1 || hop.Matches(segs[0]) then 0 else 1 + FirstMatch(hop, segs[1..])
  }

  /**
   * What each hop takes of the path, with any number of recursive hops anywhere: an ordinary hop one segment; a
   * recursive hop in last place all that is left, of which it checks the last kind; a recursive hop with a successor
   * everything up to and including the first match of that successor. A path may end early on an inclusive hop.
   */
  predicate Takes(hops: seq<Hop>, segs: seq<PointKindSeg>)
    decreases |hops|
  {
    if hops == [] || segs == [] then hops == [] && segs == []
    else
      var last := segs[|segs| - 1];
      if !hops[0].segment.IsRecursive() then
        hops[0].Matches(segs[0]) && (Takes(hops[1..], segs[1..]) || (|segs| == 1 && hops[0].inclusive))
      else if |hops| == 1 then
        hops[0].kind.Matches(last.kind)
      else
        var j := FirstMatch(hops[1], segs);
        if j < |segs| - 1 then Takes(hops[1..], segs[j + 1..]) else hops[0].inclusive && hops[0].Matches(last)
  }

  /** For every selector and every path: the recursion over the path is that one pass over the hops. */
  lemma {:induction false} MatchesIsTakes(selector: Selector, h: PointHierarchy)
    ensures selector.Matches(h) <==> Takes(selector.hops, h.segments)
    decreases |selector.hops|
  {
    var hops, segs := selector.hops, h.segments;
    if hops != [] && segs != [] {
      if !hops[0].segment.IsRecursive() {
        MatchesIsTakes(Selector(hops[1..]), PointHierarchy(h.route, segs[1..]));
      } else if |hops| == 1 {
        assert hops[..0] == [];
        MatchesRecursiveLast(selector, h);
      } else {
        var j := FirstMatch(hops[1], segs);
        MatchesRecursiveThenHop(selector, h, j);
        if j < |segs| - 1 {
          MatchesIsTakes(Selector(hops[1..]), PointHierarchy(h.route, segs[j + 1..]));
        }
      }
    }
  }

  /** So space.org:**:users does not accept space.org:many:silly:dirs:users. */
  lemma CommentedExampleIsRejected(kinds: KindSelector, kind: Kind)
    ensures var exact := (seg: PointSeg) => Hop(false, ExactPoint(ExactSeg(seg)), kinds);
            var path := [Space("space.org"), Base("many"), Base("silly"), Base("dirs"), Base("users")];
            !Selector([exact(path[0]), Hop(false, Recursive, kinds), exact(path[4])])
             .Matches(PointHierarchy(This, seq(5, i requires 0 <= i < 5 => PointKindSeg(path[i], kind))))
  {
    var path := [Space("space.org"), Base("many"), Base("silly"), Base("dirs"), Base("users")];
    var h := PointHierarchy(This, seq(5, i requires 0 <= i < 5 => PointKindSeg(path[i], kind)));
    var star, users := Hop(false, Recursive, kinds), Hop(false, ExactPoint(ExactSeg(path[4])), kinds);
    var below := PointHierarchy(This, h.segments[1..]);
    RecursiveThenLast(star, users, below);
    assert below.segments[2] == PointKindSeg(path[3], kind) && "dirs"[0] != "users"[0];
    var pattern := Selector([Hop(false, ExactPoint(ExactSeg(path[0])), kinds), star, users]);
    assert pattern.Consume().value == Selector([star, users]);
  }

  /** The bare segments of a hierarchy. */
  function Segments(segs: seq<PointKindSeg>): (r: seq<PointSeg>)
    ensures |r| == |segs|
    ensures forall i | 0 <= i < |segs| :: r[i] == segs[i].segment
  {
    seq(|segs|, i requires 0 <= i < |segs| => segs[i].segment)
  }

  /** Up to the first recursive hop (or the end of the shorter side) an accepted path is aligned with the hops. */
  lemma {:induction false} MatchesAligns(selector: Selector, h: PointHierarchy, i: nat)
    requires selector.Matches(h)
    requires i < |selector.hops| && i < |h.segments|
    requires NoRecursive(selector.hops[..i + 1])
    ensures selector.hops[i].Matches(h.segments[i])
    decreases |h.segments|
  {
    var hops, segs := selector.hops, h.segments;
    assert !hops[..i + 1][0].segment.IsRecursive();
    if i > 0 {
      assert hops[1..][..i] == hops[..i + 1][1..];
      MatchesAligns(Selector(hops[1..]), PointHierarchy(h.route, segs[1..]), i - 1);
    }
  }

  /** A path that ends before the hops do is accepted only on an inclusive hop. */
  lemma {:induction false} MatchesShort(selector: Selector, h: PointHierarchy)
    requires selector.Matches(h)
    requires |h.segments| < |selector.hops|
    requires NoRecursive(selector.hops[..|h.segments|])
    ensures EndsInclusive(selector.hops, h.segments)
    decreases |h.segments|
  {
    var hops, segs := selector.hops, h.segments;
    if |segs| > 1 {
      assert !hops[..|segs|][0].segment.IsRecursive();
      assert hops[1..][..|segs| - 1] == hops[..|segs|][1..];
      MatchesShort(Selector(hops[1..]), PointHierarchy(h.route, segs[1..]));
    }
  }

  /** An anchored hop that accepts a segment accepts exactly one. */
  lemma AnchoredMatch(hop: Hop, seg: PointKindSeg)
    requires hop.IsAnchored() && hop.Matches(seg)
    ensures seg.segment == hop.segment.exact.Seg()
  {
  }

  /** The query root is a prefix of every path the selector accepts. */
  lemma MatchesBelowQueryRoot(selector: Selector, h: PointHierarchy)
    requires selector.Matches(h)
    ensures AnchoredSegments(selector.hops) <= Segments(h.segments)
    ensures |h.segments| == Anchor(selector.hops) ==> |selector.hops| == |h.segments|
  {
    var hops, segs := selector.hops, h.segments;
    var n := Anchor(hops);
    if |segs| < n {
      MatchesShort(selector, h);
      assert false;
    }
    forall i | 0 <= i < n
      ensures AnchoredSegments(hops)[i] == segs[i].segment
    {
      MatchesAligns(selector, h, i);
      AnchoredMatch(hops[i], segs[i]);
      AnchoredAt(hops, i);
    }
    if |segs| == n && n < |hops| {
      MatchesShort(selector, h);
    }
  }

  // ------------------------------------------------------------------ in so many words

  /**
   * Without a recursive hop, in terms of segments and kinds alone: an exact hop asks for its segment, an exact version
   * for that version, a range for a version within it, a base kind for that base kind, and nothing asks for more.
   */
  lemma MatchesLiterally(selector: Selector, h: PointHierarchy)
    requires forall i | 0 <= i < |selector.hops| ::
               !selector.hops[i].segment.Recursive? && !selector.hops[i].segment.InclusiveRecursive?
    ensures var hops, segs := selector.hops, h.segments;
            selector.Matches(h) <==>
            && |segs| <= |hops|
            && (|segs| < |hops| ==> segs != [] && hops[|segs| - 1].inclusive)
            && (forall i | 0 <= i < |segs| && hops[i].segment.ExactPoint? && hops[i].segment.exact.ExactSeg? ::
                  segs[i].segment == hops[i].segment.exact.seg)
            && (forall i | 0 <= i < |segs| && hops[i].segment.ExactPoint? && hops[i].segment.exact.ExactVersion? ::
                  segs[i].segment == Version(hops[i].segment.exact.version))
            && (forall i | 0 <= i < |segs| && hops[i].segment.VersionRange? ::
                  segs[i].segment.Version? && hops[i].segment.req.accepts(segs[i].segment.version))
            && (forall i | 0 <= i < |segs| && hops[i].kind.base.Exact? ::
                  segs[i].kind.base == hops[i].kind.base.value)
  {
    var hops, segs := selector.hops, h.segments;
    MatchesWithoutRecursive(selector, h);
    if |segs| <= |hops| {
      forall i | 0 <= i < |segs|
        ensures hops[i].Matches(segs[i]) <==>
                && (hops[i].segment.ExactPoint? && hops[i].segment.exact.ExactSeg? ==>
                      segs[i].segment == hops[i].segment.exact.seg)
                && (hops[i].segment.ExactPoint? && hops[i].segment.exact.ExactVersion? ==>
                      segs[i].segment == Version(hops[i].segment.exact.version))
                && (hops[i].segment.VersionRange? ==>
                      segs[i].segment.Version? && hops[i].segment.req.accepts(segs[i].segment.version))
                && (hops[i].kind.base.Exact? ==> segs[i].kind.base == hops[i].kind.base.value)
      {
      }
    }
  }

  /** A list of `*` and `+:*` of any kind accepts the paths as long as itself, and shorter ones that end inclusively. */
  lemma AnySegmentsByLength(selector: Selector, h: PointHierarchy)
    requires forall i | 0 <= i < |selector.hops| ::
               && (selector.hops[i].segment.AnySeg? || selector.hops[i].segment.InclusiveAny?)
               && selector.hops[i].kind.base.Any?
    ensures selector.Matches(h) <==>
            || |h.segments| == |selector.hops|
            || (0 < |h.segments| < |selector.hops| && selector.hops[|h.segments| - 1].inclusive)
  {
    MatchesLiterally(selector, h);
  }

  /** A range below an exact point accepts exactly the versions of that point that are within it. */
  lemma VersionsOfPoint(exact: seq<Hop>, range: Hop, h: PointHierarchy)
    requires forall i | 0 <= i < |exact| ::
               && exact[i].segment.ExactPoint? && exact[i].segment.exact.ExactSeg?
               && !exact[i].inclusive && exact[i].kind.base.Any?
    requires range.segment.VersionRange? && range.kind.base.Any?
    ensures Selector(exact + [range]).Matches(h) <==>
            && |h.segments| == |exact| + 1
            && (forall i | 0 <= i < |exact| :: h.segments[i].segment == exact[i].segment.exact.seg)
            && h.segments[|exact|].segment.Version?
            && range.segment.req.accepts(h.segments[|exact|].segment.version)
  {
    var hops := exact + [range];
    assert forall i | 0 <= i < |exact| :: hops[i] == exact[i];
    assert hops[|exact|] == range;
    MatchesLiterally(Selector(hops), h);
  }

  /** `**` of any kind accepts everything below the root; so does `+:**`. */
  lemma StarAcceptsEverything(star: Hop, h: PointHierarchy)
    requires (star.segment.Recursive? || star.segment.InclusiveRecursive?) && star.kind.base.Any?
    ensures Selector([star]).Matches(h) <==> h.segments != []
  {
    assert [star][..0] == [];
    MatchesRecursiveLast(Selector([star]), h);
  }
}
