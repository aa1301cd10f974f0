/** The registry as an object: its particle table, its grant table and the change of ownership. */
module RegistryModule {
  import opened Wrappers
  import opened Loc
  import opened Selector
  import opened Search
  import opened AccessControl

  datatype RegistryError = SearchFailed(error: SearchError) | NotSuper | NoSuchGrantor

  /** The points `select` lists: the particles it finds and, if the root rule accepts it, the root. */
  ghost function ListedPoints(store: Store, pattern: Selector): set<Point> {
    Selected(store, pattern) + if pattern.MatchesRoot() then {ROOT} else {}
  }

  lemma ListedExactly(store: Store, pattern: Selector, stubs: seq<Stub>)
    requires Lists(store, pattern, stubs)
    ensures PointsOf(stubs) == ListedPoints(store, pattern)
  {
    if pattern.MatchesRoot() {
      var found := stubs[..|stubs| - 1];
      assert stubs == found + [Stub(ROOT, ROOT_KIND)];
      forall p | p in ListedPoints(store, pattern)
        ensures p in PointsOf(stubs)
      {
        if p in PointsOf(found) {
          var i :| 0 <= i < |found| && found[i].point == p;
          assert stubs[i].point == p;
        } else {
          assert stubs[|stubs| - 1].point == p;
        }
      }
      forall i | 0 <= i < |stubs|
        ensures stubs[i].point in ListedPoints(store, pattern)
      {
        assert i < |found| ==> stubs[i] == found[i];
      }
    }
  }

  /** The table with a new owner for some of its particles, and nothing else touched. */
  ghost function Chowned(store: Store, points: set<Point>, owner: Point): Store {
    map p | p in store :: if p in points then store[p].(owner := owner) else store[p]
  }

  class Registry {
    var particles: Store
    var grants: seq<AccessGrant>

    ghost predicate Valid()
      reads this
    {
      && ParentClosed(particles)
      && forall g | g in grants :: g.byParticle in particles
    }

    /** A grant row refers to the row of its grantor. */
    method Grant(grant: AccessGrant) returns (r: Result<(), RegistryError>)
      requires Valid()
      modifies this`grants
      ensures Valid()
      ensures r.Ok? <==> grant.byParticle in particles
      ensures grants == if r.Ok? then old(grants) + [grant] else old(grants)
    {
      if grant.byParticle !in particles {
        return Err(NoSuchGrantor);
      }
      grants := grants + [grant];
      r := Ok(());
    }

    /**
     * All or nothing: ownership changes for exactly the listed particles if `requester` was super on every one of them
     * beforehand, and otherwise nothing changes.
     */
    method Chown(on: Selector, owner: Point, requester: Point) returns (r: Result<(), RegistryError>)
      requires Valid()
      requires !SelectFails(particles, on) ==>
                 forall p | p in ListedPoints(particles, on) :: !Loops(particles, grants, p, requester)
      modifies this`particles
      ensures Valid()
      ensures r.Ok? <==>
              && !old(SelectFails(particles, on))
              && forall p | p in old(ListedPoints(particles, on)) ::
                   AccessOf(old(particles), grants, requester, p).HasSuper()
      ensures particles ==
              if r.Ok? then old(Chowned(particles, ListedPoints(particles, on), owner)) else old(particles)
    {
      var selection := Select(particles, on);
      if selection.Err? {
        return Err(SearchFailed(selection.error));
      }
      var list := selection.value;
      ListedExactly(particles, on, list);
      var trans := particles;
      for i := 0 to |list|
        invariant trans == Chowned(particles, PointsOf(list[..i]), owner)
        invariant particles == old(particles)
        invariant forall p | p in PointsOf(list[..i]) :: AccessOf(particles, grants, requester, p).HasSuper()
      {
        var p := list[i].point;
        PointsGrow(list, i);
        ChownedGrows(particles, PointsOf(list[..i]), p, owner);
        // the check reads the committed tables, not the pending transaction
        var access := EvaluateAccess(particles, grants, requester, p);
        if access.Err? {
          NotSuperWithoutRow(particles, grants, requester, p);
          return Err(SearchFailed(access.error));
        }
        if !access.value.HasSuper() {
          return Err(NotSuper);
        }
        if p in trans {
          trans := trans[p := trans[p].(owner := owner)];
        }
      }
      assert list[..|list|] == list;
      particles := trans;
      r := Ok(());
      SameKeysClosed(old(particles), particles);
    }
  }

  lemma PointsGrow(list: seq<Stub>, i: nat)
    requires i < |list|
    ensures PointsOf(list[..i + 1]) == PointsOf(list[..i]) + {list[i].point}
    ensures list[i].point in PointsOf(list)
  {
    assert list[..i + 1][i] == list[i];
    assert forall j | 0 <= j < i :: list[..i + 1][j] == list[..i][j];
  }

  /** Updating the row of one more particle. */
  lemma ChownedGrows(store: Store, points: set<Point>, p: Point, owner: Point)
    ensures Chowned(store, points + {p}, owner) ==
            var pending := Chowned(store, points, owner);
            if p in pending then pending[p := pending[p].(owner := owner)] else pending
  {
  }

  lemma NotSuperWithoutRow(store: Store, grants: seq<AccessGrant>, to: Point, on: Point)
    requires !AnsweredEarly(store, to, on) && (!HasHierarchy(store, to) || !HasHierarchy(store, on))
    ensures !AccessOf(store, grants, to, on).HasSuper()
  {
    SuperStep(store, grants, to, on);
  }

  lemma SameKeysClosed(before: Store, after: Store)
    requires ParentClosed(before) && before.Keys == after.Keys
    ensures ParentClosed(after)
  {
    forall p | p in after
      ensures HasHierarchy(after, p)
    {
      assert HasHierarchy(before, p);
    }
  }

  /** A chain of delegations towards access to `on` only depends on who owns `on` itself. */
  lemma {:induction false} ChainsStay(store: Store, after: Store, grants: seq<AccessGrant>, on: Point, to: Point,
                                      chain: seq<AccessGrant>)
    requires SameShape(store, after) && (on in store ==> store[on].owner == after[on].owner)
    requires IsChain(store, grants, on, to, chain)
    ensures IsChain(after, grants, on, to, chain)
    decreases |chain|
  {
    if chain != [] {
      AppliesStays(store, after, chain[0], to, on);
      ChainsStay(store, after, grants, on, chain[0].byParticle, chain[1..]);
    }
  }

  /** The same particles of the same kinds. */
  ghost predicate SameShape(store: Store, after: Store) {
    store.Keys == after.Keys && forall p | p in store :: store[p].kind == after[p].kind
  }

  lemma HierarchyStays(store: Store, after: Store, p: Point)
    requires SameShape(store, after)
    ensures HasHierarchy(store, p) <==> HasHierarchy(after, p)
    ensures HasHierarchy(store, p) ==> HierarchyOf(store, p) == HierarchyOf(after, p)
  {
  }

  lemma AppliesStays(store: Store, after: Store, grant: AccessGrant, to: Point, on: Point)
    requires SameShape(store, after)
    ensures Applies(store, grant, to, on) <==> Applies(after, grant, to, on)
  {
    HierarchyStays(store, after, to);
    HierarchyStays(store, after, on);
  }

  lemma SuperStays(store: Store, after: Store, grants: seq<AccessGrant>, to: Point, on: Point)
    requires SameShape(store, after) && (on in store ==> store[on].owner == after[on].owner)
    requires SuperByChain(store, grants, to, on)
    ensures SuperByChain(after, grants, to, on)
  {
    var chain: seq<AccessGrant> :| IsSuperChain(store, grants, on, to, chain);
    ChainsStay(store, after, grants, on, to, chain);
    assert IsSuperChain(after, grants, on, to, chain);
  }

  /** Nobody's access to any other particle is touched by a change of ownership. */
  lemma ChownLeavesOthers(store: Store, grants: seq<AccessGrant>, points: set<Point>, owner: Point, to: Point,
                          on: Point)
    requires on !in points
    ensures AccessOf(Chowned(store, points, owner), grants, to, on) == AccessOf(store, grants, to, on)
  {
    var after := Chowned(store, points, owner);
    forall p
      ensures SuperByChain(store, grants, p, on) <==> SuperByChain(after, grants, p, on)
    {
      if SuperByChain(store, grants, p, on) {
        SuperStays(store, after, grants, p, on);
      }
      if SuperByChain(after, grants, p, on) {
        SuperStays(after, store, grants, p, on);
      }
    }
    forall g
      ensures Applies(store, g, to, on) <==> Applies(after, g, to, on)
    {
      AppliesStays(store, after, g, to, on);
    }
    var applicable := Applicable(store, grants, to, on);
    assert applicable == Applicable(after, grants, to, on);
    assert Backed(store, grants, on, applicable) == Backed(after, grants, on, applicable);
  }

  /**
   * Of a particle given away, the new owner has full access, and the old one (as anybody else) keeps it only as a
   * super. Who was super stays so, unless the particle was given to itself.
   */
  lemma ChownedFullExactly(store: Store, grants: seq<AccessGrant>, points: set<Point>, owner: Point, to: Point,
                           on: Point)
    requires on in points && on in store
    ensures AccessOf(Chowned(store, points, owner), grants, to, on).HasFull() <==>
            to == owner || SuperByChain(Chowned(store, points, owner), grants, to, on)
    ensures SuperByChain(store, grants, to, on) && owner != on ==>
              AccessOf(Chowned(store, points, owner), grants, to, on).HasSuper()
  {
    var after := Chowned(store, points, owner);
    VerdictByChain(after, grants, to, on);
    if SuperByChain(store, grants, to, on) && owner != on {
      var chain: seq<AccessGrant> :| IsSuperChain(store, grants, on, to, chain);
      OwnerlessChains(store, after, grants, on, to, chain);
      assert IsSuperChain(after, grants, on, to, chain);
    }
  }

  /** Where the particle does not own itself afterwards, ownership ends no chain. */
  lemma {:induction false} OwnerlessChains(store: Store, after: Store, grants: seq<AccessGrant>, on: Point, to: Point,
                                           chain: seq<AccessGrant>)
    requires SameShape(store, after) && !Owns(after, on, on) && IsChain(store, grants, on, to, chain)
    ensures IsChain(after, grants, on, to, chain)
    decreases |chain|
  {
    if chain != [] {
      AppliesStays(store, after, chain[0], to, on);
      OwnerlessChains(store, after, grants, on, chain[0].byParticle, chain[1..]);
    }
  }

  /** Ownership plays no part in what a selector lists, so repeating the selection finds the same particles. */
  lemma ChownKeepsListing(store: Store, pattern: Selector, points: set<Point>, owner: Point)
    ensures ListedPoints(Chowned(store, points, owner), pattern) == ListedPoints(store, pattern)
  {
    var after := Chowned(store, points, owner);
    forall p
      ensures p in Selected(store, pattern) <==> p in Selected(after, pattern)
    {
      SelectedClosedForm(store, pattern, p);
      SelectedClosedForm(after, pattern, p);
      assert HasHierarchy(store, p) <==> HasHierarchy(after, p);
      if HasHierarchy(store, p) {
        assert HierarchyOf(store, p) == HierarchyOf(after, p);
      }
    }
  }
}
