/** The evaluation of access grants, and what its verdict means. */
module AccessControl {
  import opened Wrappers
  import opened Loc
  import opened Selector
  import opened Search
  import opened Security

  datatype GrantKind = SuperGrant | PrivilegeGrant(privilege: Privilege) | MaskGrant(mask: PermissionsMask)

  datatype AccessGrant = AccessGrant(kind: GrantKind, onPoint: Selector, toPoint: Selector, byParticle: Point)

  ghost predicate ParentClosed(store: Store) {
    forall p | p in store :: HasHierarchy(store, p)
  }

  predicate Owns(store: Store, to: Point, on: Point) {
    on in store && store[on].owner == to
  }

  /** The two early returns of the evaluation: nobody's grants are looked at. */
  predicate AnsweredEarly(store: Store, to: Point, on: Point) {
    to == HYPERUSER || (to == on && Owns(store, to, on))
  }

  /** The column a grant is indexed by. */
  function IndexOf(grant: AccessGrant): Point {
    QueryRootOf(grant.onPoint)
  }

  /**
   * A grant, by an existing particle, whose two selectors match. Grants are only found for points of the local route.
   */
  ghost predicate Applies(store: Store, grant: AccessGrant, to: Point, on: Point) {
    && on.route == This
    && grant.byParticle in store
    && HasHierarchy(store, to) && HasHierarchy(store, on)
    && grant.toPoint.Matches(HierarchyOf(store, to))
    && grant.onPoint.Matches(HierarchyOf(store, on))
  }

  /** The evaluation for `to` goes on to the grantor of this grant. */
  ghost predicate Delegates(store: Store, grants: seq<AccessGrant>, on: Point, to: Point, grant: AccessGrant) {
    grant in grants && Applies(store, grant, to, on) && !AnsweredEarly(store, to, on)
  }

  /** A chain of delegations, from `to` back to the last grantor. */
  ghost predicate IsChain(store: Store, grants: seq<AccessGrant>, on: Point, to: Point, chain: seq<AccessGrant>)
    decreases |chain|
  {
    || chain == []
    || (Delegates(store, grants, on, to, chain[0]) && IsChain(store, grants, on, chain[0].byParticle, chain[1..]))
  }

  function ChainEnd(to: Point, chain: seq<AccessGrant>): Point {
    if chain == [] then to else chain[|chain| - 1].byParticle
  }

  // ------------------------------------------------------------------ the meaning of a verdict

  /** A chain of super grants that starts at the hyperuser. */
  ghost predicate IsSuperChain(store: Store, grants: seq<AccessGrant>, on: Point, to: Point, chain: seq<AccessGrant>) {
    && IsChain(store, grants, on, to, chain)
    && (forall i | 0 <= i < |chain| :: chain[i].kind.SuperGrant?)
    && ChainEnd(to, chain) == HYPERUSER
  }

  ghost predicate SuperByChain(store: Store, grants: seq<AccessGrant>, to: Point, on: Point) {
    exists chain :: IsSuperChain(store, grants, on, to, chain)
  }

  ghost predicate FullByChain(store: Store, grants: seq<AccessGrant>, to: Point, on: Point) {
    SuperByChain(store, grants, to, on) || Owns(store, to, on)
  }

  ghost function Applicable(store: Store, grants: seq<AccessGrant>, to: Point, on: Point): set<AccessGrant> {
    set g | g in grants && Applies(store, g, to, on)
  }

  /** The grants among `some` that a full-access grantor stands behind. */
  ghost function Backed(store: Store, grants: seq<AccessGrant>, on: Point, some: set<AccessGrant>): set<AccessGrant> {
    set g | g in some && FullByChain(store, grants, g.byParticle, on)
  }

  ghost function PrivilegesOf(backed: set<AccessGrant>): Privileges {
    if exists g :: g in backed && g.kind == PrivilegeGrant(FullPrivilege) then FullPrivileges
    else Enumerated(set g | g in backed && g.kind.PrivilegeGrant? && g.kind.privilege.Single? :: g.kind.privilege.name)
  }

  ghost predicate OrBit(backed: set<AccessGrant>, bit: Bit) {
    exists g :: g in backed && g.kind.MaskGrant? && g.kind.mask.kind.OrMask? && g.kind.mask.permissions.Has(bit)
  }

  /** And masks count whoever granted them. */
  ghost predicate AndBit(some: set<AccessGrant>, bit: Bit) {
    forall g | g in some && g.kind.MaskGrant? && g.kind.mask.kind.AndMask? :: g.kind.mask.permissions.Has(bit)
  }

  ghost function FromBits(backed: set<AccessGrant>, masks: set<AccessGrant>): (p: Permissions)
    ensures forall bit :: p.Has(bit) <==> OrBit(backed, bit) && AndBit(masks, bit)
  {
    Permissions(
      ChildPerms(OrBit(backed, CreateBit) && AndBit(masks, CreateBit),
                 OrBit(backed, SelectBit) && AndBit(masks, SelectBit),
                 OrBit(backed, DeleteBit) && AndBit(masks, DeleteBit)),
      ParticlePerms(OrBit(backed, ReadBit) && AndBit(masks, ReadBit),
                    OrBit(backed, WriteBit) && AndBit(masks, WriteBit),
                    OrBit(backed, ExecuteBit) && AndBit(masks, ExecuteBit)))
  }

  /**
   * The verdict, without any evaluation order: chains decide who is super, ownership who is owner, and everyone else
   * gets what backed grants add, less what any And mask takes away. (For the hyperuser the code answers `Super` where
   * it owns the particle and `SuperOwner` where it does not.)
   */
  ghost function AccessOf(store: Store, grants: seq<AccessGrant>, to: Point, on: Point): Access {
    var owner := Owns(store, to, on);
    if to == HYPERUSER then (if owner then Super else SuperOwner)
    else if to == on && owner then Owner
    else if SuperByChain(store, grants, to, on) then (if owner then SuperOwner else Super)
    else if owner then Owner
    else
      var applicable := Applicable(store, grants, to, on);
      var backed := Backed(store, grants, on, applicable);
      EnumeratedOnly(EnumeratedAccess(FromBits(backed, applicable), PrivilegesOf(backed)))
  }

  /** One more link: super is inherited through a super grant, unless the evaluation stops at the self-owner. */
  lemma SuperStep(store: Store, grants: seq<AccessGrant>, to: Point, on: Point)
    ensures SuperByChain(store, grants, to, on) <==>
            || to == HYPERUSER
            || exists g :: && Delegates(store, grants, on, to, g) && g.kind.SuperGrant?
                           && SuperByChain(store, grants, g.byParticle, on)
  {
    if to == HYPERUSER {
      assert IsSuperChain(store, grants, on, to, []);
    }
    if g :| Delegates(store, grants, on, to, g) && g.kind.SuperGrant? && SuperByChain(store, grants, g.byParticle, on) {
      var chain: seq<AccessGrant> :| IsSuperChain(store, grants, on, g.byParticle, chain);
      assert IsSuperChain(store, grants, on, to, [g] + chain);
    }
    if SuperByChain(store, grants, to, on) && to != HYPERUSER {
      var chain: seq<AccessGrant> :| IsSuperChain(store, grants, on, to, chain);
      assert IsSuperChain(store, grants, on, chain[0].byParticle, chain[1..]);
      assert Delegates(store, grants, on, to, chain[0]);
    }
  }

  /** Super access is exactly a chain from the hyperuser; full access is exactly that or ownership. */
  lemma VerdictByChain(store: Store, grants: seq<AccessGrant>, to: Point, on: Point)
    ensures AccessOf(store, grants, to, on).HasSuper() <==> SuperByChain(store, grants, to, on)
    ensures AccessOf(store, grants, to, on).HasFull() <==> FullByChain(store, grants, to, on)
  {
    SuperStep(store, grants, to, on);
  }

  /**
   * The label says whether the particle is owned for everyone but the hyperuser, for whom it says the opposite. Super
   * and super owner are told apart by ownership alone, except that a particle that owns itself is only called its
   * owner.
   */
  lemma LabelsExactly(store: Store, grants: seq<AccessGrant>, to: Point, on: Point)
    ensures var verdict := AccessOf(store, grants, to, on);
            (verdict.Owner? || verdict.SuperOwner? <==> Owns(store, to, on)) <==> to != HYPERUSER
    ensures AccessOf(store, grants, to, on).Super? <==>
            SuperByChain(store, grants, to, on) && (Owns(store, to, on) <==> to == HYPERUSER)
    ensures AccessOf(store, grants, to, on).SuperOwner? <==>
            && SuperByChain(store, grants, to, on)
            && (Owns(store, to, on) <==> to != HYPERUSER)
            && !(to == on && to != HYPERUSER)
  {
    SuperStep(store, grants, to, on);
  }

  /** Who holds the `i`-th grant of a chain: `to` the first, and each grantor the next. */
  function Holder(to: Point, chain: seq<AccessGrant>, i: nat): Point
    requires i <= |chain|
  {
    if i == 0 then to else chain[i - 1].byParticle
  }

  /**
   * In terms of rows alone, a chain by which `to` is super on `on`: each link is a super grant by an existing particle,
   * matching the path of whoever holds it and that of `on`; the last grantor is the hyperuser; and nobody on the way is
   * answered without a look at the grants, being the hyperuser or the particle that owns itself.
   */
  ghost predicate IsVouched(store: Store, grants: seq<AccessGrant>, to: Point, on: Point, chain: seq<AccessGrant>) {
    && Holder(to, chain, |chain|) == HYPERUSER
    && forall i | 0 <= i < |chain| ::
         && chain[i] in grants && chain[i].kind.SuperGrant? && chain[i].byParticle in store && on.route == This
         && HasHierarchy(store, Holder(to, chain, i)) && HasHierarchy(store, on)
         && chain[i].toPoint.Matches(HierarchyOf(store, Holder(to, chain, i)))
         && chain[i].onPoint.Matches(HierarchyOf(store, on))
         && Holder(to, chain, i) != HYPERUSER
         && !(Holder(to, chain, i) == on && on in store && store[on].owner == on)
  }

  ghost predicate IsLink(store: Store, grants: seq<AccessGrant>, on: Point, to: Point, chain: seq<AccessGrant>, i: nat)
    requires i < |chain|
  {
    Delegates(store, grants, on, Holder(to, chain, i), chain[i])
  }

  lemma {:induction false} ChainByLinks(store: Store, grants: seq<AccessGrant>, on: Point, to: Point,
                                        chain: seq<AccessGrant>)
    ensures IsChain(store, grants, on, to, chain) <==>
            forall i | 0 <= i < |chain| :: IsLink(store, grants, on, to, chain, i)
    decreases |chain|
  {
    if chain != [] {
      var first, rest := chain[0], chain[1..];
      ChainByLinks(store, grants, on, first.byParticle, rest);
      forall i | 0 <= i < |rest|
        ensures IsLink(store, grants, on, first.byParticle, rest, i) <==> IsLink(store, grants, on, to, chain, i + 1)
      {
        assert Holder(first.byParticle, rest, i) == Holder(to, chain, i + 1) && rest[i] == chain[i + 1];
      }
      if IsChain(store, grants, on, to, chain) {
        forall i | 0 <= i < |chain|
          ensures IsLink(store, grants, on, to, chain, i)
        {
          assert i > 0 ==> IsLink(store, grants, on, first.byParticle, rest, i - 1);
        }
      }
      if forall i | 0 <= i < |chain| :: IsLink(store, grants, on, to, chain, i) {
        assert IsLink(store, grants, on, to, chain, 0);
      }
    }
  }

  lemma VouchedIsChain(store: Store, grants: seq<AccessGrant>, to: Point, on: Point, chain: seq<AccessGrant>)
    ensures IsSuperChain(store, grants, on, to, chain) <==> IsVouched(store, grants, to, on, chain)
  {
    ChainByLinks(store, grants, on, to, chain);
    if IsVouched(store, grants, to, on, chain) {
      forall i | 0 <= i < |chain|
        ensures IsLink(store, grants, on, to, chain, i)
      {
        assert chain[i] in grants;
      }
    }
    if IsSuperChain(store, grants, on, to, chain) {
      forall i | 0 <= i < |chain|
        ensures chain[i].kind.SuperGrant? && Delegates(store, grants, on, Holder(to, chain, i), chain[i])
      {
        assert IsLink(store, grants, on, to, chain, i);
      }
    }
  }

  /** In terms of rows and paths alone: exactly who is super. */
  lemma SuperExactly(store: Store, grants: seq<AccessGrant>, to: Point, on: Point)
    ensures AccessOf(store, grants, to, on).HasSuper() <==> exists chain :: IsVouched(store, grants, to, on, chain)
  {
    VerdictByChain(store, grants, to, on);
    forall chain
      ensures IsSuperChain(store, grants, on, to, chain) <==> IsVouched(store, grants, to, on, chain)
    {
      VouchedIsChain(store, grants, to, on, chain);
    }
  }

  /**
   * For whoever is neither super nor owner, in terms of rows and paths: a permission rests on some Or mask, by a
   * particle with full access, whose two selectors match, and on every And mask that exists and matches, by whomever; a
   * privilege rests on some matching privilege grant by a particle with full access.
   */
  lemma EnumeratedRests(store: Store, grants: seq<AccessGrant>, to: Point, on: Point, bit: Bit, privilege: string)
    requires !AccessOf(store, grants, to, on).HasFull()
    ensures AccessOf(store, grants, to, on).Permissions().Has(bit) <==>
            && on.route == This && HasHierarchy(store, to) && HasHierarchy(store, on)
            && (exists g :: && g in grants && g.kind.MaskGrant? && g.kind.mask.kind.OrMask?
                            && g.kind.mask.permissions.Has(bit)
                            && g.toPoint.Matches(HierarchyOf(store, to)) && g.onPoint.Matches(HierarchyOf(store, on))
                            && g.byParticle in store && AccessOf(store, grants, g.byParticle, on).HasFull())
            && (forall g | && g in grants && g.kind.MaskGrant? && g.kind.mask.kind.AndMask? && g.byParticle in store
                           && g.toPoint.Matches(HierarchyOf(store, to)) && g.onPoint.Matches(HierarchyOf(store, on)) ::
                  g.kind.mask.permissions.Has(bit))
    ensures AccessOf(store, grants, to, on).CheckPrivilege(privilege) <==>
            && on.route == This && HasHierarchy(store, to) && HasHierarchy(store, on)
            && exists g :: && g in grants && g.kind.PrivilegeGrant?
                           && (g.kind.privilege.FullPrivilege? || g.kind.privilege == Single(privilege))
                           && g.toPoint.Matches(HierarchyOf(store, to)) && g.onPoint.Matches(HierarchyOf(store, on))
                           && g.byParticle in store && AccessOf(store, grants, g.byParticle, on).HasFull()
  {
    var applicable := Applicable(store, grants, to, on);
    var backed := Backed(store, grants, on, applicable);
    forall p
      ensures AccessOf(store, grants, p, on).HasFull() <==> FullByChain(store, grants, p, on)
    {
      VerdictByChain(store, grants, p, on);
    }
    assert forall g :: g in backed <==>
           g in grants && Applies(store, g, to, on) && FullByChain(store, grants, g.byParticle, on);
    assert AccessOf(store, grants, to, on).enumerated ==
           EnumeratedAccess(FromBits(backed, applicable), PrivilegesOf(backed));
    assert PrivilegesOf(backed).Has(privilege) <==>
           exists g :: && g in backed && g.kind.PrivilegeGrant?
                       && (g.kind.privilege.FullPrivilege? || g.kind.privilege == Single(privilege));
  }

  // ------------------------------------------------------------------ which grantors the evaluation asks

  /** A super grant by a super, indexed further down than depth `n`: the walk up from `on` ends there. */
  ghost predicate SettledBelow(store: Store, grants: seq<AccessGrant>, on: Point, to: Point, n: nat) {
    exists g :: && g in grants && Applies(store, g, to, on) && g.kind.SuperGrant? && |IndexOf(g).segments| > n
                && SuperByChain(store, grants, g.byParticle, on)
  }

  /** The walk gets as far as the index of this grant, so that (under some row order) its grantor is asked. */
  ghost predicate Consults(store: Store, grants: seq<AccessGrant>, on: Point, to: Point, grant: AccessGrant) {
    Delegates(store, grants, on, to, grant) && !SettledBelow(store, grants, on, to, |IndexOf(grant).segments|)
  }

  ghost predicate IsConsultation(store: Store, grants: seq<AccessGrant>, on: Point, to: Point, chain: seq<AccessGrant>)
    decreases |chain|
  {
    chain == [] ||
    (Consults(store, grants, on, to, chain[0]) && IsConsultation(store, grants, on, chain[0].byParticle, chain[1..]))
  }

  /** Following grantors that are asked, one gets from `to` to a particle whose access depends on itself. */
  ghost predicate Loops(store: Store, grants: seq<AccessGrant>, on: Point, to: Point) {
    exists there, loop :: IsLoop(store, grants, on, to, there, loop)
  }

  ghost predicate IsLoop(store: Store, grants: seq<AccessGrant>, on: Point, to: Point, there: seq<AccessGrant>,
                         loop: seq<AccessGrant>) {
    && loop != []
    && IsConsultation(store, grants, on, to, there)
    && IsConsultation(store, grants, on, ChainEnd(to, there), loop)
    && ChainEnd(ChainEnd(to, there), loop) == ChainEnd(to, there)
  }

  lemma LoopsOneStepOn(store: Store, grants: seq<AccessGrant>, on: Point, to: Point, grant: AccessGrant)
    requires Consults(store, grants, on, to, grant) && Loops(store, grants, on, grant.byParticle)
    ensures Loops(store, grants, on, to)
  {
    var there, loop :| IsLoop(store, grants, on, grant.byParticle, there, loop);
    assert ([grant] + there)[1..] == there;
    assert ChainEnd(to, [grant] + there) == ChainEnd(grant.byParticle, there);
    assert IsLoop(store, grants, on, to, [grant] + there, loop);
  }

  /** A particle whose evaluation loops asks a grantor whose evaluation loops. */
  lemma LoopsGoOn(store: Store, grants: seq<AccessGrant>, on: Point, to: Point) returns (grant: AccessGrant)
    requires Loops(store, grants, on, to)
    ensures Consults(store, grants, on, to, grant) && Loops(store, grants, on, grant.byParticle)
  {
    var there, loop :| IsLoop(store, grants, on, to, there, loop);
    if there != [] {
      grant := there[0];
      assert ChainEnd(to, there) == ChainEnd(grant.byParticle, there[1..]);
      assert IsLoop(store, grants, on, grant.byParticle, there[1..], loop);
    } else {
      grant := loop[0];
      assert ChainEnd(to, loop) == ChainEnd(grant.byParticle, loop[1..]) == to;
      assert IsLoop(store, grants, on, grant.byParticle, loop[1..], loop);
    }
  }

  ghost predicate HasConsultation(store: Store, grants: seq<AccessGrant>, on: Point, to: Point, n: nat) {
    exists chain :: |chain| == n && IsConsultation(store, grants, on, to, chain)
  }

  ghost function LongestUpTo(store: Store, grants: seq<AccessGrant>, on: Point, to: Point, n: nat): (r: nat)
    ensures r <= n
    ensures forall m | r < m <= n :: !HasConsultation(store, grants, on, to, m)
    ensures HasConsultation(store, grants, on, to, r)
  {
    if n == 0 then
      assert IsConsultation(store, grants, on, to, []);
      0
    else if HasConsultation(store, grants, on, to, n) then n
    else LongestUpTo(store, grants, on, to, n - 1)
  }

  /** How far the evaluation can go from grantor to grantor. */
  ghost function Rank(store: Store, grants: seq<AccessGrant>, on: Point, to: Point): nat {
    LongestUpTo(store, grants, on, to, |grants|)
  }

  lemma {:induction false} ConsultationSplits(store: Store, grants: seq<AccessGrant>, on: Point, to: Point,
                                              first: seq<AccessGrant>, rest: seq<AccessGrant>)
    requires IsConsultation(store, grants, on, to, first + rest)
    ensures IsConsultation(store, grants, on, to, first) && IsConsultation(store, grants, on, ChainEnd(to, first), rest)
    decreases |first|
  {
    if first == [] {
      assert first + rest == rest;
    } else {
      var next, more := first[0].byParticle, first[1..];
      assert (first + rest)[1..] == more + rest;
      ConsultationSplits(store, grants, on, next, more, rest);
      assert ChainEnd(to, first) == ChainEnd(next, more);
    }
  }

  lemma EndsMeet(store: Store, grants: seq<AccessGrant>, on: Point, to: Point, there: seq<AccessGrant>,
                 loop: seq<AccessGrant>)
    requires IsConsultation(store, grants, on, to, there)
             && IsConsultation(store, grants, on, ChainEnd(to, there), loop)
    requires there != [] && loop != [] && there[|there| - 1] == loop[|loop| - 1]
    ensures Loops(store, grants, on, to)
  {
    assert IsLoop(store, grants, on, to, there, loop);
  }

  /** Meeting a grant twice is going round a loop. */
  lemma TwiceIsLoop(store: Store, grants: seq<AccessGrant>, on: Point, to: Point, chain: seq<AccessGrant>, i: nat,
                    j: nat)
    requires IsConsultation(store, grants, on, to, chain) && i < j < |chain| && chain[i] == chain[j]
    ensures Loops(store, grants, on, to)
  {
    var there, loop, rest := chain[..i + 1], chain[i + 1..j + 1], chain[j + 1..];
    assert chain == there + loop + rest;
    ConsultationSplits(store, grants, on, to, there + loop, rest);
    ConsultationSplits(store, grants, on, to, there, loop);
    EndsMeet(store, grants, on, to, there, loop);
  }

  /** Without a loop no grant is met twice, so no consultation is longer than the grant table. */
  lemma ConsultationBound(store: Store, grants: seq<AccessGrant>, on: Point, to: Point, chain: seq<AccessGrant>)
    requires !Loops(store, grants, on, to) && IsConsultation(store, grants, on, to, chain)
    ensures |chain| <= |grants|
  {
    forall i, j | 0 <= i < j < |chain|
      ensures chain[i] != chain[j]
    {
      if chain[i] == chain[j] {
        TwiceIsLoop(store, grants, on, to, chain, i, j);
        assert false;
      }
    }
    ConsultationGrants(store, grants, on, to, chain);
    DistinctBound(chain, grants);
  }

  lemma {:induction false} ConsultationGrants(store: Store, grants: seq<AccessGrant>, on: Point, to: Point,
                                              chain: seq<AccessGrant>)
    requires IsConsultation(store, grants, on, to, chain)
    ensures forall i | 0 <= i < |chain| :: chain[i] in grants
    decreases |chain|
  {
    if chain != [] {
      ConsultationGrants(store, grants, on, chain[0].byParticle, chain[1..]);
      assert forall i | 0 < i < |chain| :: chain[i] == chain[1..][i - 1];
    }
  }

  lemma {:induction false} DistinctBound<T>(some: seq<T>, all: seq<T>)
    requires forall i, j | 0 <= i < j < |some| :: some[i] != some[j]
    requires forall i | 0 <= i < |some| :: some[i] in all
    ensures |some| <= |all|
  {
    if some != [] {
      var last := some[|some| - 1];
      var k :| 0 <= k < |all| && all[k] == last;
      var rest := all[..k] + all[k + 1..];
      forall i | 0 <= i < |some| - 1
        ensures some[i] in rest
      {
        var m :| 0 <= m < |all| && all[m] == some[i];
        assert rest[if m < k then m else m - 1] == some[i];
      }
      DistinctBound(some[..|some| - 1], rest);
    }
  }

  /** Each grantor that is asked has less ahead of it. */
  lemma RankDecreases(store: Store, grants: seq<AccessGrant>, on: Point, to: Point, grant: AccessGrant)
    requires !Loops(store, grants, on, to) && Consults(store, grants, on, to, grant)
    ensures !Loops(store, grants, on, grant.byParticle)
    ensures Rank(store, grants, on, grant.byParticle) < Rank(store, grants, on, to)
  {
    if Loops(store, grants, on, grant.byParticle) {
      LoopsOneStepOn(store, grants, on, to, grant);
    }
    var n := Rank(store, grants, on, grant.byParticle);
    var chain: seq<AccessGrant> :| |chain| == n && IsConsultation(store, grants, on, grant.byParticle, chain);
    assert ([grant] + chain)[1..] == chain;
    assert IsConsultation(store, grants, on, to, [grant] + chain);
    ConsultationBound(store, grants, on, to, [grant] + chain);
    assert HasConsultation(store, grants, on, to, n + 1);
  }

  // ------------------------------------------------------------------ the index

  /**
   * Walking from `on` to the root and reading the grants indexed by each point on the way meets a grant that matches
   * `on` exactly once if `on` is on the local route, and never otherwise.
   */
  lemma IndexWalkIsScan(grant: AccessGrant, store: Store, on: Point)
    requires HasHierarchy(store, on) && grant.onPoint.Matches(HierarchyOf(store, on))
    ensures forall n | 0 <= n <= |on.segments| ::
              IndexOf(grant) == Point(on.route, on.segments[..n]) <==>
              on.route == This && n == Anchor(grant.onPoint.hops)
    ensures Anchor(grant.onPoint.hops) <= |on.segments|
  {
    MatchesBelowQueryRoot(grant.onPoint, HierarchyOf(store, on));
  }

  // ------------------------------------------------------------------ the evaluation

  /** The applicable grants whose index has at least `n` segments: those met before the walk reaches depth `n - 1`. */
  ghost function MetFrom(store: Store, grants: seq<AccessGrant>, to: Point, on: Point, n: nat): set<AccessGrant> {
    set g | g in Applicable(store, grants, to, on) && |IndexOf(g).segments| >= n
  }

  /** The grants indexed by the point the walk stands at that match both sides. */
  method GrantsIndexedBy(store: Store, grants: seq<AccessGrant>, index: Point, toPath: PointHierarchy,
                         onPath: PointHierarchy)
    returns (found: seq<AccessGrant>)
    ensures forall g :: g in found <==>
              && g in grants && IndexOf(g) == index && g.byParticle in store
              && g.toPoint.Matches(toPath) && g.onPoint.Matches(onPath)
  {
    found := [];
    for i := 0 to |grants|
      invariant forall g :: g in found <==>
                  && g in grants[..i] && IndexOf(g) == index && g.byParticle in store
                  && g.toPoint.Matches(toPath) && g.onPoint.Matches(onPath)
    {
      var g := grants[i];
      if IndexOf(g) == index && g.byParticle in store && g.toPoint.Matches(toPath) && g.onPoint.Matches(onPath) {
        found := found + [g];
      }
    }
  }

  /** The And masks of one level. */
  method AndMasks(found: seq<AccessGrant>) returns (ands: seq<PermissionsMask>)
    ensures forall m :: m in ands <==> m.kind.AndMask? && exists g :: g in found && g.kind == MaskGrant(m)
  {
    ands := [];
    for i := 0 to |found|
      invariant forall m :: m in ands <==> m.kind.AndMask? && exists g :: g in found[..i] && g.kind == MaskGrant(m)
    {
      if found[i].kind.MaskGrant? && found[i].kind.mask.kind.AndMask? {
        ands := ands + [found[i].kind.mask];
      }
      assert found[..i + 1] == found[..i] + [found[i]];
    }
  }

  /** The masks of every level, deepest index last, taken off one by one. */
  method ApplyAnds(permissions: Permissions, levels: seq<seq<PermissionsMask>>) returns (r: Permissions)
    ensures forall bit :: r.Has(bit) <==>
              permissions.Has(bit) && forall l, m | l in levels && m in l :: m.permissions.Has(bit)
  {
    r := permissions;
    var i := |levels|;
    while i > 0
      invariant 0 <= i <= |levels|
      invariant forall bit :: r.Has(bit) <==>
                  permissions.Has(bit) && forall l, m | l in levels[i..] && m in l :: m.permissions.Has(bit)
    {
      i := i - 1;
      var level := levels[i];
      assert levels[i..] == [level] + levels[i + 1..];
      ghost var before := r;
      for j := 0 to |level|
        invariant forall bit :: r.Has(bit) <==> before.Has(bit) && forall m | m in level[..j] :: m.permissions.Has(bit)
      {
        r := r.And(level[j].permissions);
        assert level[..j + 1] == level[..j] + [level[j]];
      }
      assert level[..|level|] == level;
    }
  }

  lemma BackedGrows(store: Store, grants: seq<AccessGrant>, on: Point, some: set<AccessGrant>, g: AccessGrant)
    ensures Backed(store, grants, on, some + {g}) ==
            if FullByChain(store, grants, g.byParticle, on) then Backed(store, grants, on, some) + {g}
            else Backed(store, grants, on, some)
  {
  }

  lemma PrivilegeGrows(backed: set<AccessGrant>, g: AccessGrant)
    ensures PrivilegesOf(backed + {g}) ==
            if g.kind.PrivilegeGrant? then PrivilegesOf(backed).With(g.kind.privilege) else PrivilegesOf(backed)
  {
    assert g.kind == PrivilegeGrant(FullPrivilege) ==> g in backed + {g};
    if f :| f in backed && f.kind == PrivilegeGrant(FullPrivilege) {
      assert f in backed + {g};
    }
    if !PrivilegesOf(backed + {g}).FullPrivileges? && g.kind.PrivilegeGrant? {
      assert PrivilegesOf(backed + {g}).names == PrivilegesOf(backed).names + {g.kind.privilege.name} by {
        forall name | name in PrivilegesOf(backed).names + {g.kind.privilege.name}
          ensures name in PrivilegesOf(backed + {g}).names
        {
          var f :| (f in backed || f == g) && f.kind.PrivilegeGrant? && f.kind.privilege == Single(name);
          assert f in backed + {g};
        }
      }
    }
  }

  ghost function SetOf(grants: seq<AccessGrant>): set<AccessGrant> {
    set g | g in grants
  }

  datatype LevelOutcome = SuperFound | Collected(privileges: Privileges, permissions: Permissions)

  /** What has been collected from the grants met so far. */
  ghost predicate CollectedFrom(store: Store, grants: seq<AccessGrant>, on: Point, met: set<AccessGrant>,
                                privileges: Privileges, permissions: Permissions) {
    var backed := Backed(store, grants, on, met);
    && privileges == PrivilegesOf(backed)
    && (forall bit :: permissions.Has(bit) <==> OrBit(backed, bit))
    && (forall g | g in met && g.kind.SuperGrant? :: !SuperByChain(store, grants, g.byParticle, on))
  }

  /** One row of a stop: a super grant may settle the matter, and full access backs a privilege or an Or mask. */
  function Weigh(g: AccessGrant, byAccess: Access, privileges: Privileges, permissions: Permissions): LevelOutcome {
    match g.kind
    case SuperGrant => if byAccess.HasSuper() then SuperFound else Collected(privileges, permissions)
    case PrivilegeGrant(privilege) =>
      Collected(if byAccess.HasFull() then privileges.With(privilege) else privileges, permissions)
    case MaskGrant(mask) =>
      Collected(privileges,
                if byAccess.HasFull() && mask.kind.OrMask? then permissions.Or(mask.permissions) else permissions)
  }

  /**
   * Weighed by the grantor's verdict, a grant settles the matter only as a super's super grant, and else adds what is
   * backed.
   */
  lemma WeighedRight(store: Store, grants: seq<AccessGrant>, on: Point, met: set<AccessGrant>, g: AccessGrant,
                     privileges: Privileges, permissions: Permissions)
    requires CollectedFrom(store, grants, on, met, privileges, permissions)
    ensures var outcome := Weigh(g, AccessOf(store, grants, g.byParticle, on), privileges, permissions);
            && (outcome.SuperFound? <==> g.kind.SuperGrant? && SuperByChain(store, grants, g.byParticle, on))
            && (outcome.Collected? ==>
                  CollectedFrom(store, grants, on, met + {g}, outcome.privileges, outcome.permissions))
  {
    VerdictByChain(store, grants, g.byParticle, on);
    CollectOne(store, grants, on, met, g, privileges, permissions);
  }

  /** The contribution of one more grant, given the access of its grantor. */
  lemma CollectOne(store: Store, grants: seq<AccessGrant>, on: Point, met: set<AccessGrant>, g: AccessGrant,
                   privileges: Privileges, permissions: Permissions)
    requires CollectedFrom(store, grants, on, met, privileges, permissions)
    ensures var full := FullByChain(store, grants, g.byParticle, on);
            (g.kind.SuperGrant? ==> !SuperByChain(store, grants, g.byParticle, on)) ==>
              CollectedFrom(
                store, grants, on, met + {g},
                if full && g.kind.PrivilegeGrant? then privileges.With(g.kind.privilege) else privileges,
                if full && g.kind.MaskGrant? && g.kind.mask.kind.OrMask? then permissions.Or(g.kind.mask.permissions)
                else permissions)
  {
    var backed := Backed(store, grants, on, met);
    BackedGrows(store, grants, on, met, g);
    PrivilegeGrows(backed, g);
    forall bit
      ensures OrBit(backed + {g}, bit) <==>
              || OrBit(backed, bit)
              || (g.kind.MaskGrant? && g.kind.mask.kind.OrMask? && g.kind.mask.permissions.Has(bit))
    {
      assert g in backed + {g};
      assert backed <= backed + {g};
    }
  }

  /** One row: the grantor's own access is evaluated first, whatever the kind of the grant, and weighs it. */
  method ReadRow(store: Store, grants: seq<AccessGrant>, to: Point, on: Point, g: AccessGrant,
                 privileges: Privileges, permissions: Permissions, ghost met: set<AccessGrant>)
    returns (outcome: LevelOutcome)
    requires ParentClosed(store) && !Loops(store, grants, on, to) && HasHierarchy(store, on)
    requires Consults(store, grants, on, to, g) && CollectedFrom(store, grants, on, met, privileges, permissions)
    ensures outcome.SuperFound? <==> g.kind.SuperGrant? && SuperByChain(store, grants, g.byParticle, on)
    ensures outcome.Collected? ==>
              CollectedFrom(store, grants, on, met + {g}, outcome.privileges, outcome.permissions)
    decreases Rank(store, grants, on, to), 0
  {
    RankDecreases(store, grants, on, to, g);
    var byAccess := EvaluateAccess(store, grants, g.byParticle, on);
    WeighedRight(store, grants, on, met, g, privileges, permissions);
    outcome := Weigh(g, byAccess.value, privileges, permissions);
  }

  lemma OneMoreMet(met: set<AccessGrant>, found: seq<AccessGrant>, i: nat)
    requires i < |found|
    ensures met + SetOf(found[..i + 1]) == met + SetOf(found[..i]) + {found[i]}
  {
    assert found[..i + 1] == found[..i] + [found[i]];
  }

  /** One stop of the walk: every grant found there is weighed by its grantor's own access. */
  method ReadLevel(store: Store, grants: seq<AccessGrant>, to: Point, on: Point, found: seq<AccessGrant>,
                   privileges: Privileges, permissions: Permissions, ghost met: set<AccessGrant>)
    returns (outcome: LevelOutcome)
    requires ParentClosed(store) && !Loops(store, grants, on, to) && HasHierarchy(store, on)
    requires forall g | g in found :: Consults(store, grants, on, to, g)
    requires CollectedFrom(store, grants, on, met, privileges, permissions)
    ensures outcome.SuperFound? ==>
              exists g :: g in found && g.kind.SuperGrant? && SuperByChain(store, grants, g.byParticle, on)
    ensures outcome.Collected? ==>
              CollectedFrom(store, grants, on, met + SetOf(found), outcome.privileges, outcome.permissions)
    decreases Rank(store, grants, on, to), 1
  {
    outcome := Collected(privileges, permissions);
    assert met + SetOf(found[..0]) == met;
    for i := 0 to |found|
      invariant outcome.Collected?
      invariant CollectedFrom(store, grants, on, met + SetOf(found[..i]), outcome.privileges, outcome.permissions)
    {
      var g := found[i];
      outcome := ReadRow(store, grants, to, on, g, outcome.privileges, outcome.permissions, met + SetOf(found[..i]));
      if outcome.SuperFound? {
        assert g in found;
        return;
      }
      OneMoreMet(met, found, i);
    }
    assert found[..|found|] == found;
  }

  /** The And masks saved so far, level by level, are those of the grants met. */
  ghost predicate SavedAnds(levels: seq<seq<PermissionsMask>>, met: set<AccessGrant>) {
    forall m :: (exists l :: l in levels && m in l) <==>
      m.kind.AndMask? && exists g :: g in met && g.kind == MaskGrant(m)
  }

  lemma SaveLevel(levels: seq<seq<PermissionsMask>>, met: set<AccessGrant>, ands: seq<PermissionsMask>,
                  found: seq<AccessGrant>)
    requires SavedAnds(levels, met)
    requires forall m :: m in ands <==> m.kind.AndMask? && exists g :: g in found && g.kind == MaskGrant(m)
    ensures SavedAnds(levels + [ands], met + SetOf(found))
  {
    forall m
      ensures (exists l :: l in levels + [ands] && m in l) <==>
              m.kind.AndMask? && exists g :: g in met + SetOf(found) && g.kind == MaskGrant(m)
    {
      if l :| l in levels + [ands] && m in l {
        if l in levels {
          var g :| g in met && g.kind == MaskGrant(m);
          assert g in met + SetOf(found);
        } else {
          var g :| g in found && g.kind == MaskGrant(m);
          assert g in met + SetOf(found);
        }
      }
      if m.kind.AndMask? {
        if g :| g in met + SetOf(found) && g.kind == MaskGrant(m) {
          if g in met {
            var l :| l in levels && m in l;
            assert l in levels + [ands];
          } else {
            assert m in ands && ands in levels + [ands];
          }
        }
      }
    }
  }

  lemma SavedAndBits(levels: seq<seq<PermissionsMask>>, met: set<AccessGrant>, bit: Bit)
    requires SavedAnds(levels, met)
    ensures (forall l, m | l in levels && m in l :: m.permissions.Has(bit)) <==> AndBit(met, bit)
  {
    if AndBit(met, bit) {
      forall l, m | l in levels && m in l
        ensures m.permissions.Has(bit)
      {
        assert exists k :: k in levels && m in k;
        assert m.kind.AndMask? && exists f :: f in met && f.kind == MaskGrant(m);
      }
    } else {
      var g :| g in met && g.kind.MaskGrant? && g.kind.mask.kind.AndMask? && !g.kind.mask.permissions.Has(bit);
      var m := g.kind.mask;
      assert g.kind == MaskGrant(m);
      assert exists f :: f in met && f.kind == MaskGrant(m);
      assert exists l :: l in levels && m in l;
    }
  }

  /** What the walk has met when it stands at depth `depth`, and what the stop there adds. */
  lemma WalkStop(store: Store, grants: seq<AccessGrant>, to: Point, on: Point, depth: nat, found: seq<AccessGrant>)
    requires HasHierarchy(store, to) && HasHierarchy(store, on) && depth <= |on.segments|
    requires forall g :: g in found <==>
               && g in grants && IndexOf(g) == Point(on.route, on.segments[..depth]) && g.byParticle in store
               && g.toPoint.Matches(HierarchyOf(store, to)) && g.onPoint.Matches(HierarchyOf(store, on))
    ensures MetFrom(store, grants, to, on, depth) == MetFrom(store, grants, to, on, depth + 1) + SetOf(found)
    ensures forall g | g in found :: g in grants && Applies(store, g, to, on) && |IndexOf(g).segments| == depth
  {
    forall g | g in grants && g.onPoint.Matches(HierarchyOf(store, on))
      ensures IndexOf(g) == Point(on.route, on.segments[..depth]) <==>
              on.route == This && |IndexOf(g).segments| == depth
    {
      IndexWalkIsScan(g, store, on);
    }
  }

  /** As long as no super grant by a super has been met, every grant of the next stop is one whose grantor is asked. */
  lemma StopConsults(store: Store, grants: seq<AccessGrant>, to: Point, on: Point, depth: nat, found: seq<AccessGrant>)
    requires !AnsweredEarly(store, to, on)
    requires forall g | g in found :: g in grants && Applies(store, g, to, on) && |IndexOf(g).segments| == depth
    requires forall g | g in MetFrom(store, grants, to, on, depth + 1) && g.kind.SuperGrant? ::
               !SuperByChain(store, grants, g.byParticle, on)
    ensures forall g | g in found :: Consults(store, grants, on, to, g)
  {
    forall g | g in grants && Applies(store, g, to, on) && g.kind.SuperGrant? && |IndexOf(g).segments| > depth
      ensures !SuperByChain(store, grants, g.byParticle, on)
    {
      assert g in MetFrom(store, grants, to, on, depth + 1);
    }
  }

  lemma NoneAbove(store: Store, grants: seq<AccessGrant>, to: Point, on: Point)
    ensures MetFrom(store, grants, to, on, |on.segments| + 1) == {}
    ensures MetFrom(store, grants, to, on, 0) == Applicable(store, grants, to, on)
  {
    forall g | g in Applicable(store, grants, to, on)
      ensures |IndexOf(g).segments| <= |on.segments|
    {
      IndexWalkIsScan(g, store, on);
    }
  }

  /** `access`: the walk, the recursion into the grantors and the masks applied last yield the verdict. */
  method EvaluateAccess(store: Store, grants: seq<AccessGrant>, to: Point, on: Point)
    returns (r: Result<Access, SearchError>)
    requires ParentClosed(store) && !Loops(store, grants, on, to)
    ensures r.Err? <==>
            !AnsweredEarly(store, to, on) && (!HasHierarchy(store, to) || !HasHierarchy(store, on))
    ensures r.Ok? ==> r.value == AccessOf(store, grants, to, on)
    decreases Rank(store, grants, on, to), 2
  {
    var hasOwner := on in store && store[on].owner == to;
    if to == HYPERUSER {
      return Ok(if hasOwner then Super else SuperOwner);
    }
    if to == on && hasOwner {
      return Ok(Owner);
    }
    var toPath := Query(store, to);
    if toPath.Err? {
      return Err(toPath.error);
    }
    var onPath := Query(store, on);
    if onPath.Err? {
      return Err(onPath.error);
    }
    var traversal := on;
    var privileges := Enumerated({});
    var permissions := NO_PERMISSIONS;
    var levelAnds: seq<seq<PermissionsMask>> := [];
    ghost var met: set<AccessGrant> := {};
    NoneAbove(store, grants, to, on);
    assert on.segments[..|on.segments|] == on.segments;
    while true
      invariant traversal.route == on.route && traversal.segments <= on.segments
      invariant met == MetFrom(store, grants, to, on, |traversal.segments| + 1)
      invariant CollectedFrom(store, grants, on, met, privileges, permissions)
      invariant SavedAnds(levelAnds, met)
      decreases |traversal.segments|
    {
      var found := GrantsIndexedBy(store, grants, traversal, toPath.value, onPath.value);
      assert traversal == Point(on.route, on.segments[..|traversal.segments|]);
      WalkStop(store, grants, to, on, |traversal.segments|, found);
      StopConsults(store, grants, to, on, |traversal.segments|, found);
      var outcome := ReadLevel(store, grants, to, on, found, privileges, permissions, met);
      if outcome.SuperFound? {
        SuperStep(store, grants, to, on);
        return Ok(if hasOwner then SuperOwner else Super);
      }
      privileges, permissions := outcome.privileges, outcome.permissions;
      var ands := AndMasks(found);
      SaveLevel(levelAnds, met, ands, found);
      levelAnds := levelAnds + [ands];
      met := met + SetOf(found);
      if traversal.IsRoot() {
        break;
      }
      traversal := Point(traversal.route, traversal.segments[..|traversal.segments| - 1]);
    }
    NotSuper(store, grants, to, on, met);
    if hasOwner {
      return Ok(Owner);
    }
    var allowed := ApplyAnds(permissions, levelAnds);
    forall bit
      ensures allowed.Has(bit) <==> FromBits(Backed(store, grants, on, met), met).Has(bit)
    {
      SavedAndBits(levelAnds, met, bit);
    }
    SameBits(allowed, FromBits(Backed(store, grants, on, met), met));
    r := Ok(EnumeratedOnly(EnumeratedAccess(allowed, privileges)));
  }

  lemma NotSuper(store: Store, grants: seq<AccessGrant>, to: Point, on: Point, met: set<AccessGrant>)
    requires met == Applicable(store, grants, to, on) && to != HYPERUSER
    requires forall g | g in met && g.kind.SuperGrant? :: !SuperByChain(store, grants, g.byParticle, on)
    ensures !SuperByChain(store, grants, to, on)
  {
    SuperStep(store, grants, to, on);
  }

  // ------------------------------------------------------------------ order and monotonicity

  lemma {:induction false} ChainGrants(store: Store, grants: seq<AccessGrant>, on: Point, to: Point,
                                       chain: seq<AccessGrant>)
    requires IsChain(store, grants, on, to, chain)
    ensures forall i | 0 <= i < |chain| :: chain[i] in grants
    decreases |chain|
  {
    if chain != [] {
      ChainGrants(store, grants, on, chain[0].byParticle, chain[1..]);
      assert forall i | 0 < i < |chain| :: chain[i] == chain[1..][i - 1];
    }
  }

  lemma {:induction false} ChainsGrow(store: Store, fewer: seq<AccessGrant>, more: seq<AccessGrant>, on: Point,
                                      to: Point, chain: seq<AccessGrant>)
    requires IsChain(store, fewer, on, to, chain)
    requires forall i | 0 <= i < |chain| :: chain[i] in more
    ensures IsChain(store, more, on, to, chain)
    decreases |chain|
  {
    if chain != [] {
      assert forall i | 0 <= i < |chain| - 1 :: chain[1..][i] == chain[i + 1];
      ChainsGrow(store, fewer, more, on, chain[0].byParticle, chain[1..]);
    }
  }

  /** Only the super grants decide who is super. */
  lemma SuperGrows(store: Store, fewer: seq<AccessGrant>, more: seq<AccessGrant>, to: Point, on: Point)
    requires forall g | g in fewer && g.kind.SuperGrant? :: g in more
    requires SuperByChain(store, fewer, to, on)
    ensures SuperByChain(store, more, to, on)
  {
    var chain: seq<AccessGrant> :| IsSuperChain(store, fewer, on, to, chain);
    ChainGrants(store, fewer, on, to, chain);
    ChainsGrow(store, fewer, more, on, to, chain);
    assert IsSuperChain(store, more, on, to, chain);
  }

  /** The verdict depends on which grants there are, not on their order or number. */
  lemma OrderIndependent(store: Store, a: seq<AccessGrant>, b: seq<AccessGrant>, to: Point, on: Point)
    requires forall g :: g in a <==> g in b
    ensures AccessOf(store, a, to, on) == AccessOf(store, b, to, on)
  {
    forall p
      ensures SuperByChain(store, a, p, on) <==> SuperByChain(store, b, p, on)
    {
      if SuperByChain(store, a, p, on) {
        SuperGrows(store, a, b, p, on);
      }
      if SuperByChain(store, b, p, on) {
        SuperGrows(store, b, a, p, on);
      }
    }
    var applicable := Applicable(store, a, to, on);
    assert applicable == Applicable(store, b, to, on);
    assert Backed(store, a, on, applicable) == Backed(store, b, on, applicable);
  }

  predicate IsAndMask(grant: AccessGrant) {
    grant.kind.MaskGrant? && grant.kind.mask.kind.AndMask?
  }

  /** One verdict allows at least what the other does. */
  ghost predicate AllowsMore(less: Access, more: Access) {
    && (less.HasFull() ==> more.HasFull())
    && (forall bit :: less.Permissions().Has(bit) ==> more.Permissions().Has(bit))
    && (forall privilege :: less.CheckPrivilege(privilege) ==> more.CheckPrivilege(privilege))
  }

  /** Adding a super, privilege or Or grant never takes anything from anyone. */
  lemma AddingGrantKeepsAccess(store: Store, grants: seq<AccessGrant>, grant: AccessGrant, to: Point, on: Point)
    requires !IsAndMask(grant)
    ensures AllowsMore(AccessOf(store, grants, to, on), AccessOf(store, grants + [grant], to, on))
  {
    var more := grants + [grant];
    forall p | SuperByChain(store, grants, p, on)
      ensures SuperByChain(store, more, p, on)
    {
      SuperGrows(store, grants, more, p, on);
    }
    VerdictByChain(store, grants, to, on);
    VerdictByChain(store, more, to, on);
    if !AccessOf(store, more, to, on).HasFull() {
      var applicable, applicable' := Applicable(store, grants, to, on), Applicable(store, more, to, on);
      var backed, backed' := Backed(store, grants, on, applicable), Backed(store, more, on, applicable');
      assert backed <= backed';
      assert forall g | g in applicable' && IsAndMask(g) :: g in applicable;
      if PrivilegesOf(backed).FullPrivileges? {
        var f :| f in backed && f.kind == PrivilegeGrant(FullPrivilege);
        assert f in backed';
      }
    }
  }

  /** Adding an And mask never gives anything, touches no privilege, and leaves full access where it was. */
  lemma AddingMaskGivesNothing(store: Store, grants: seq<AccessGrant>, grant: AccessGrant, to: Point, on: Point)
    requires IsAndMask(grant)
    ensures var before, after := AccessOf(store, grants, to, on), AccessOf(store, grants + [grant], to, on);
            && AllowsMore(after, before)
            && (after.HasFull() <==> before.HasFull()) && (after.HasSuper() <==> before.HasSuper())
            && forall privilege :: after.CheckPrivilege(privilege) <==> before.CheckPrivilege(privilege)
  {
    var more := grants + [grant];
    forall p
      ensures SuperByChain(store, grants, p, on) <==> SuperByChain(store, more, p, on)
    {
      if SuperByChain(store, grants, p, on) {
        SuperGrows(store, grants, more, p, on);
      }
      if SuperByChain(store, more, p, on) {
        SuperGrows(store, more, grants, p, on);
      }
    }
    VerdictByChain(store, grants, to, on);
    VerdictByChain(store, more, to, on);
    if !AccessOf(store, grants, to, on).HasFull() {
      var applicable, applicable' := Applicable(store, grants, to, on), Applicable(store, more, to, on);
      var backed, backed' := Backed(store, grants, on, applicable), Backed(store, more, on, applicable');
      assert forall g | g in backed' && !IsAndMask(g) :: g in backed;
      assert backed <= backed';
      assert applicable <= applicable';
      SamePrivileges(backed, backed');
    }
  }

  lemma SamePrivileges(backed: set<AccessGrant>, backed': set<AccessGrant>)
    requires backed <= backed'
    requires forall g | g in backed' && !IsAndMask(g) :: g in backed
    ensures PrivilegesOf(backed) == PrivilegesOf(backed')
  {
  }
}
