/** When the evaluation of access ends: exactly when it cannot be led round a loop of grantors. */
module AccessTermination {
  import opened Wrappers
  import opened Loc
  import opened Search
  import opened Security
  import opened AccessControl

  // ------------------------------------------------------------------ the rows of a stop

  /** A grant that is found at depth `n` of the walk. */
  ghost predicate FoundAt(store: Store, g: AccessGrant, to: Point, on: Point, n: nat)
    requires HasHierarchy(store, to) && HasHierarchy(store, on) && n <= |on.segments|
  {
    && IndexOf(g) == Point(on.route, on.segments[..n]) && g.byParticle in store
    && g.toPoint.Matches(HierarchyOf(store, to)) && g.onPoint.Matches(HierarchyOf(store, on))
  }

  ghost function RowsAt(store: Store, grants: seq<AccessGrant>, to: Point, on: Point, n: nat): (rows: seq<AccessGrant>)
    requires HasHierarchy(store, to) && HasHierarchy(store, on) && n <= |on.segments|
    ensures forall g :: g in rows <==> g in grants && FoundAt(store, g, to, on, n)
  {
    if grants == [] then []
    else
      var rows := RowsAt(store, grants[1..], to, on, n);
      if FoundAt(store, grants[0], to, on, n) then [grants[0]] + rows else rows
  }

  /** The table promises no order: at each stop of each walk the rows may come in any. */
  type RowOrder = (Point, nat) -> seq<AccessGrant>

  ghost predicate IsRowOrder(store: Store, grants: seq<AccessGrant>, on: Point, order: RowOrder)
    requires HasHierarchy(store, on)
  {
    forall to: Point, n: nat {:trigger RowsAt(store, grants, to, on, n)} |
      HasHierarchy(store, to) && n <= |on.segments| ::
      multiset(order(to, n)) == multiset(RowsAt(store, grants, to, on, n))
  }

  lemma OrderedRows(store: Store, grants: seq<AccessGrant>, on: Point, order: RowOrder, to: Point, n: nat)
    requires HasHierarchy(store, on) && HasHierarchy(store, to)
             && n <= |on.segments| && IsRowOrder(store, grants, on, order)
    ensures forall g :: g in order(to, n) <==> g in grants && FoundAt(store, g, to, on, n)
  {
    var rows := RowsAt(store, grants, to, on, n);
    assert forall g :: g in order(to, n) <==> g in multiset(order(to, n));
    assert forall g :: g in rows <==> g in multiset(rows);
  }

  // ------------------------------------------------------------------ the evaluation, with a bound on its depth

  function MasksOf(rows: seq<AccessGrant>): seq<PermissionsMask> {
    if rows == [] then []
    else (if IsAndMask(rows[0]) then [rows[0].kind.mask] else []) + MasksOf(rows[1..])
  }

  function TakeOff(permissions: Permissions, masks: seq<PermissionsMask>): Permissions
    decreases |masks|
  {
    if masks == [] then permissions else TakeOff(permissions.And(masks[0].permissions), masks[1..])
  }

  /** What the grantors' own evaluations answer, if they do. */
  type Answers = map<Point, Option<Access>>

  function Asked(answers: Answers, p: Point): Option<Access> {
    if p in answers then answers[p] else None
  }

  /** The rows, each weighed by its grantor's own access. */
  function Read(answers: Answers, rows: seq<AccessGrant>, privileges: Privileges,
                permissions: Permissions): Option<LevelOutcome>
  {
    if rows == [] then Some(Collected(privileges, permissions))
    else
      match Asked(answers, rows[0].byParticle)
      case None => None
      case Some(byAccess) =>
        match Weigh(rows[0], byAccess, privileges, permissions)
        case SuperFound => Some(SuperFound)
        case Collected(p, q) => Read(answers, rows[1..], p, q)
  }

  /** The rows in the order in which the walk reads them: stop after stop, from depth `n` up to the root. */
  function RowsOnTheWay(order: RowOrder, to: Point, n: nat): seq<AccessGrant> {
    order(to, n) + if n == 0 then [] else RowsOnTheWay(order, to, n - 1)
  }

  /** What is made of the rows, once the early answers are out of the question. */
  ghost function Answer(store: Store, on: Point, to: Point, rows: seq<AccessGrant>, answers: Answers): Option<Access>
  {
    var owner := Owns(store, to, on);
    match Read(answers, rows, Enumerated({}), NO_PERMISSIONS)
    case None => None
    case Some(SuperFound) => Some(if owner then SuperOwner else Super)
    case Some(Collected(privileges, permissions)) =>
      Some(if owner then Owner
           else EnumeratedOnly(EnumeratedAccess(TakeOff(permissions, MasksOf(rows)), privileges)))
  }

  /** One call of `access`, given what the calls it makes in turn answer. */
  ghost function OneCall(store: Store, grants: seq<AccessGrant>, on: Point, order: RowOrder, to: Point,
                         answers: Answers)
    : Option<Access>
    requires HasHierarchy(store, on) && IsRowOrder(store, grants, on, order)
    requires AnsweredEarly(store, to, on) || HasHierarchy(store, to)
  {
    var owner := Owns(store, to, on);
    if to == HYPERUSER then Some(if owner then Super else SuperOwner)
    else if to == on && owner then Some(Owner)
    else
      RowsAreApplicable(store, grants, on, order, to);
      Answer(store, on, to, RowsOnTheWay(order, to, |on.segments|), answers)
  }

  /** The answers of all calls, given what the calls below them answer. */
  ghost function OneLevel(store: Store, grants: seq<AccessGrant>, on: Point, order: RowOrder): Answers -> Answers
    requires ParentClosed(store) && HasHierarchy(store, on) && IsRowOrder(store, grants, on, order)
  {
    deeper => map p | p in store :: OneCall(store, grants, on, order, p, deeper)
  }

  function Iterate(level: Answers -> Answers, n: nat): Answers {
    if n == 0 then map[] else level(Iterate(level, n - 1))
  }

  /** `access` with calls nested at most `fuel` deep below this one. */
  ghost function Evaluate(store: Store, grants: seq<AccessGrant>, on: Point, order: RowOrder, to: Point, fuel: nat)
    : Option<Access>
    requires ParentClosed(store) && HasHierarchy(store, on) && IsRowOrder(store, grants, on, order)
    requires AnsweredEarly(store, to, on) || HasHierarchy(store, to)
  {
    OneCall(store, grants, on, order, to, Iterate(OneLevel(store, grants, on, order), fuel))
  }

  // ------------------------------------------------------------------ the rows on the way

  ghost predicate DeepestFirst(rows: seq<AccessGrant>) {
    forall i, j | 0 <= i < j < |rows| :: |IndexOf(rows[i]).segments| >= |IndexOf(rows[j]).segments|
  }

  lemma {:induction false} RowsUpFrom(store: Store, grants: seq<AccessGrant>, on: Point, order: RowOrder, to: Point,
                                      n: nat)
    requires HasHierarchy(store, on) && HasHierarchy(store, to)
             && IsRowOrder(store, grants, on, order) && n <= |on.segments|
    ensures var rows := RowsOnTheWay(order, to, n);
            && DeepestFirst(rows)
            && forall g :: g in rows <==> g in grants && Applies(store, g, to, on) && |IndexOf(g).segments| <= n
  {
    var rows := RowsOnTheWay(order, to, n);
    OrderedRows(store, grants, on, order, to, n);
    WalkStop(store, grants, to, on, n, order(to, n));
    FoundIsApplicable(store, grants, to, on, n);
    if n > 0 {
      RowsUpFrom(store, grants, on, order, to, n - 1);
      var above := RowsOnTheWay(order, to, n - 1);
      assert rows == order(to, n) + above;
      forall i, j | 0 <= i < j < |rows|
        ensures |IndexOf(rows[i]).segments| >= |IndexOf(rows[j]).segments|
      {
        assert rows[i] in if i < |order(to, n)| then order(to, n) else above;
        assert rows[j] in if j < |order(to, n)| then order(to, n) else above;
      }
    }
  }

  lemma FoundIsApplicable(store: Store, grants: seq<AccessGrant>, to: Point, on: Point, n: nat)
    requires HasHierarchy(store, to) && HasHierarchy(store, on) && n <= |on.segments|
    ensures forall g | g in grants :: FoundAt(store, g, to, on, n) <==>
            Applies(store, g, to, on) && |IndexOf(g).segments| == n
  {
    forall g | g in grants
      ensures FoundAt(store, g, to, on, n) <==> Applies(store, g, to, on) && |IndexOf(g).segments| == n
    {
      if g.onPoint.Matches(HierarchyOf(store, on)) {
        IndexWalkIsScan(g, store, on);
      }
    }
  }

  /** Every applicable grant is met, the deepest indexed first. */
  lemma RowsAreApplicable(store: Store, grants: seq<AccessGrant>, on: Point, order: RowOrder, to: Point)
    requires HasHierarchy(store, on) && HasHierarchy(store, to) && IsRowOrder(store, grants, on, order)
    ensures var rows := RowsOnTheWay(order, to, |on.segments|);
            && DeepestFirst(rows) && SetOf(rows) == Applicable(store, grants, to, on)
            && forall g | g in rows :: g in grants && Applies(store, g, to, on) && g.byParticle in store
  {
    RowsUpFrom(store, grants, on, order, to, |on.segments|);
    forall g | g in grants && Applies(store, g, to, on)
      ensures |IndexOf(g).segments| <= |on.segments|
    {
      IndexWalkIsScan(g, store, on);
    }
  }

  // ------------------------------------------------------------------ an answer is the verdict

  ghost predicate Saved(masks: seq<PermissionsMask>, met: set<AccessGrant>) {
    forall m :: m in masks <==> m.kind.AndMask? && exists g :: g in met && g.kind == MaskGrant(m)
  }

  lemma {:induction false} MasksOfRows(rows: seq<AccessGrant>)
    ensures Saved(MasksOf(rows), SetOf(rows))
  {
    if rows != [] {
      MasksOfRows(rows[1..]);
      SavedGrows(MasksOf(rows[1..]), SetOf(rows[1..]),
                 if IsAndMask(rows[0]) then [rows[0].kind.mask] else [], {rows[0]});
      assert SetOf(rows) == {rows[0]} + SetOf(rows[1..]);
    }
  }

  lemma SavedGrows(masks: seq<PermissionsMask>, met: set<AccessGrant>, more: seq<PermissionsMask>,
                   rows: set<AccessGrant>)
    requires Saved(masks, met) && Saved(more, rows)
    ensures Saved(more + masks, rows + met)
  {
    forall m
      ensures m in more + masks <==> m.kind.AndMask? && exists g :: g in rows + met && g.kind == MaskGrant(m)
    {
      if m in more {
        var g :| g in rows && g.kind == MaskGrant(m);
        assert g in rows + met;
      } else if m in masks {
        var g :| g in met && g.kind == MaskGrant(m);
        assert g in rows + met;
      }
    }
  }

  lemma {:induction false} TakenOff(permissions: Permissions, masks: seq<PermissionsMask>, bit: Bit)
    ensures TakeOff(permissions, masks).Has(bit) <==>
            permissions.Has(bit) && forall m | m in masks :: m.permissions.Has(bit)
    decreases |masks|
  {
    if masks != [] {
      TakenOff(permissions.And(masks[0].permissions), masks[1..], bit);
      assert masks == [masks[0]] + masks[1..];
    }
  }

  lemma MaskedRight(permissions: Permissions, masks: seq<PermissionsMask>, backed: set<AccessGrant>,
                    met: set<AccessGrant>)
    requires Saved(masks, met) && forall bit :: permissions.Has(bit) <==> OrBit(backed, bit)
    ensures TakeOff(permissions, masks) == FromBits(backed, met)
  {
    forall bit
      ensures TakeOff(permissions, masks).Has(bit) <==> OrBit(backed, bit) && AndBit(met, bit)
    {
      TakenOff(permissions, masks, bit);
      if forall m | m in masks :: m.permissions.Has(bit) {
        forall g | g in met && IsAndMask(g)
          ensures g.kind.mask.permissions.Has(bit)
        {
          assert g.kind == MaskGrant(g.kind.mask);
        }
      }
    }
    SameBits(TakeOff(permissions, masks), FromBits(backed, met));
  }

  ghost predicate Honest(store: Store, grants: seq<AccessGrant>, on: Point, answers: Answers) {
    forall p | Asked(answers, p).Some? :: Asked(answers, p).value == AccessOf(store, grants, p, on)
  }

  lemma {:induction false} ReadRight(store: Store, grants: seq<AccessGrant>, on: Point, answers: Answers,
                                     rows: seq<AccessGrant>,
                                     privileges: Privileges, permissions: Permissions, met: set<AccessGrant>)
    requires Honest(store, grants, on, answers)
    requires CollectedFrom(store, grants, on, met, privileges, permissions)
    ensures match Read(answers, rows, privileges, permissions)
            case None => true
            case Some(SuperFound) =>
              exists g :: g in rows && g.kind.SuperGrant? && SuperByChain(store, grants, g.byParticle, on)
            case Some(Collected(p, q)) => CollectedFrom(store, grants, on, met + SetOf(rows), p, q)
    decreases |rows|
  {
    if rows == [] {
      assert met + SetOf(rows) == met;
    } else if Asked(answers, rows[0].byParticle).Some? {
      var g := rows[0];
      WeighedRight(store, grants, on, met, g, privileges, permissions);
      match Weigh(g, AccessOf(store, grants, g.byParticle, on), privileges, permissions)
      case SuperFound =>
      case Collected(p, q) =>
        ReadRight(store, grants, on, answers, rows[1..], p, q, met + {g});
        assert met + {g} + SetOf(rows[1..]) == met + SetOf(rows);
    }
  }

  /** After the last row: super if it was found, the owner's full access, or what was collected less the masks. */
  lemma FinishedRight(store: Store, grants: seq<AccessGrant>, on: Point, to: Point, rows: seq<AccessGrant>,
                      outcome: LevelOutcome)
    requires !AnsweredEarly(store, to, on) && SetOf(rows) == Applicable(store, grants, to, on)
    requires match outcome
             case SuperFound =>
               exists g :: g in rows && g.kind.SuperGrant? && SuperByChain(store, grants, g.byParticle, on)
             case Collected(p, q) => CollectedFrom(store, grants, on, SetOf(rows), p, q)
    ensures AccessOf(store, grants, to, on) ==
            match outcome
            case SuperFound => (if Owns(store, to, on) then SuperOwner else Super)
            case Collected(p, q) =>
              if Owns(store, to, on) then Owner else EnumeratedOnly(EnumeratedAccess(TakeOff(q, MasksOf(rows)), p))
  {
    var met := SetOf(rows);
    match outcome
    case SuperFound =>
      var g :| g in rows && g.kind.SuperGrant? && SuperByChain(store, grants, g.byParticle, on);
      assert g in met;
      SuperStep(store, grants, to, on);
    case Collected(p, q) =>
      NotSuper(store, grants, to, on, met);
      MasksOfRows(rows);
      MaskedRight(q, MasksOf(rows), Backed(store, grants, on, met), met);
  }

  lemma NothingCollected(store: Store, grants: seq<AccessGrant>, on: Point)
    ensures CollectedFrom(store, grants, on, {}, Enumerated({}), NO_PERMISSIONS)
  {
  }

  lemma AnswerRight(store: Store, grants: seq<AccessGrant>, on: Point, to: Point, rows: seq<AccessGrant>,
                    answers: Answers)
    requires !AnsweredEarly(store, to, on) && SetOf(rows) == Applicable(store, grants, to, on)
    requires Honest(store, grants, on, answers)
    ensures var answer := Answer(store, on, to, rows, answers);
            answer.Some? ==> answer.value == AccessOf(store, grants, to, on)
  {
    NothingCollected(store, grants, on);
    ReadRight(store, grants, on, answers, rows, Enumerated({}), NO_PERMISSIONS, {});
    var read := Read(answers, rows, Enumerated({}), NO_PERMISSIONS);
    if read.Some? {
      assert {} + SetOf(rows) == SetOf(rows);
      FinishedRight(store, grants, on, to, rows, read.value);
    }
  }

  lemma OneCallRight(store: Store, grants: seq<AccessGrant>, on: Point, order: RowOrder, to: Point, answers: Answers)
    requires HasHierarchy(store, on) && IsRowOrder(store, grants, on, order)
    requires AnsweredEarly(store, to, on) || HasHierarchy(store, to)
    requires Honest(store, grants, on, answers)
    ensures var answer := OneCall(store, grants, on, order, to, answers);
            answer.Some? ==> answer.value == AccessOf(store, grants, to, on)
  {
    if !AnsweredEarly(store, to, on) {
      RowsAreApplicable(store, grants, on, order, to);
      AnswerRight(store, grants, on, to, RowsOnTheWay(order, to, |on.segments|), answers);
    }
  }

  lemma OneLevelRight(store: Store, grants: seq<AccessGrant>, on: Point, order: RowOrder, deeper: Answers)
    requires ParentClosed(store) && HasHierarchy(store, on) && IsRowOrder(store, grants, on, order)
    requires Honest(store, grants, on, deeper)
    ensures Honest(store, grants, on, OneLevel(store, grants, on, order)(deeper))
  {
    forall p | p in store
      ensures var answer := OneCall(store, grants, on, order, p, deeper);
              answer.Some? ==> answer.value == AccessOf(store, grants, p, on)
    {
      OneCallRight(store, grants, on, order, p, deeper);
    }
  }

  // ------------------------------------------------------------------ without a loop there is an answer

  /** A super grant by a super: the walk does not get past it. */
  ghost predicate Settles(store: Store, grants: seq<AccessGrant>, on: Point, g: AccessGrant) {
    g.kind.SuperGrant? && SuperByChain(store, grants, g.byParticle, on)
  }

  /** Reading ends when every row that no settling row precedes is answered. */
  lemma {:induction false} ReadEnds(store: Store, grants: seq<AccessGrant>, on: Point, answers: Answers,
                                    rows: seq<AccessGrant>, privileges: Privileges, permissions: Permissions)
    requires Honest(store, grants, on, answers)
    requires forall k | 0 <= k < |rows| && (forall j | 0 <= j < k :: !Settles(store, grants, on, rows[j])) ::
               Asked(answers, rows[k].byParticle).Some?
    ensures Read(answers, rows, privileges, permissions).Some?
    decreases |rows|
  {
    if rows != [] {
      var g, rest := rows[0], rows[1..];
      assert Asked(answers, g.byParticle).Some?;
      VerdictByChain(store, grants, g.byParticle, on);
      match Weigh(g, Asked(answers, g.byParticle).value, privileges, permissions)
      case SuperFound =>
      case Collected(p, q) =>
        forall k | 0 <= k < |rest| && (forall j | 0 <= j < k :: !Settles(store, grants, on, rest[j]))
          ensures Asked(answers, rest[k].byParticle).Some?
        {
          assert forall j | 0 < j < k + 1 :: rows[j] == rest[j - 1];
          assert rows[k + 1] == rest[k];
        }
        ReadEnds(store, grants, on, answers, rest, p, q);
    }
  }

  /** A row that no settling row precedes is one whose grantor is asked. */
  lemma UnsettledIsConsulted(store: Store, grants: seq<AccessGrant>, on: Point, to: Point, rows: seq<AccessGrant>,
                             k: nat)
    requires !AnsweredEarly(store, to, on) && DeepestFirst(rows) && k < |rows|
    requires forall g :: g in rows <==> g in grants && Applies(store, g, to, on)
    requires forall j | 0 <= j < k :: !Settles(store, grants, on, rows[j])
    ensures Consults(store, grants, on, to, rows[k])
  {
    assert rows[k] in rows;
    forall g | g in grants && Applies(store, g, to, on) && |IndexOf(g).segments| > |IndexOf(rows[k]).segments|
      ensures !Settles(store, grants, on, g)
    {
      var j :| 0 <= j < |rows| && rows[j] == g;
      assert j < k;
    }
  }

  /** Every grantor that is asked answers. */
  ghost predicate Answered(store: Store, grants: seq<AccessGrant>, on: Point, to: Point, answers: Answers) {
    forall g | Consults(store, grants, on, to, g) :: Asked(answers, g.byParticle).Some?
  }

  lemma AnswerEnds(store: Store, grants: seq<AccessGrant>, on: Point, to: Point, rows: seq<AccessGrant>,
                   answers: Answers)
    requires !AnsweredEarly(store, to, on) && DeepestFirst(rows) && SetOf(rows) == Applicable(store, grants, to, on)
    requires Honest(store, grants, on, answers)
    requires Answered(store, grants, on, to, answers)
    ensures Answer(store, on, to, rows, answers).Some?
  {
    assert forall g :: g in rows <==> g in SetOf(rows);
    forall k | 0 <= k < |rows| && (forall j | 0 <= j < k :: !Settles(store, grants, on, rows[j]))
      ensures Asked(answers, rows[k].byParticle).Some?
    {
      UnsettledIsConsulted(store, grants, on, to, rows, k);
    }
    ReadEnds(store, grants, on, answers, rows, Enumerated({}), NO_PERMISSIONS);
  }

  lemma OneCallEnds(store: Store, grants: seq<AccessGrant>, on: Point, order: RowOrder, to: Point, answers: Answers)
    requires HasHierarchy(store, on) && IsRowOrder(store, grants, on, order)
    requires AnsweredEarly(store, to, on) || HasHierarchy(store, to)
    requires Honest(store, grants, on, answers) && Answered(store, grants, on, to, answers)
    ensures OneCall(store, grants, on, order, to, answers).Some?
  {
    if !AnsweredEarly(store, to, on) {
      RowsAreApplicable(store, grants, on, order, to);
      AnswerEnds(store, grants, on, to, RowsOnTheWay(order, to, |on.segments|), answers);
    }
  }

  /** Whoever has consultations shorter than `n`, and no loop, ahead of them is answered. */
  ghost predicate AnsweredBelow(store: Store, grants: seq<AccessGrant>, on: Point, answers: Answers, n: nat) {
    forall p | p in store && !Loops(store, grants, on, p) && Rank(store, grants, on, p) < n ::
      Asked(answers, p).Some?
  }

  lemma BelowIsAnswered(store: Store, grants: seq<AccessGrant>, on: Point, answers: Answers, n: nat, to: Point)
    requires AnsweredBelow(store, grants, on, answers, n)
    requires !Loops(store, grants, on, to) && Rank(store, grants, on, to) <= n
    ensures Answered(store, grants, on, to, answers)
  {
    forall g | Consults(store, grants, on, to, g)
      ensures Asked(answers, g.byParticle).Some?
    {
      RankDecreases(store, grants, on, to, g);
    }
  }

  lemma OneLevelMore(store: Store, grants: seq<AccessGrant>, on: Point, order: RowOrder, deeper: Answers, n: nat)
    requires ParentClosed(store) && HasHierarchy(store, on) && IsRowOrder(store, grants, on, order)
    requires Honest(store, grants, on, deeper) && AnsweredBelow(store, grants, on, deeper, n)
    ensures AnsweredBelow(store, grants, on, OneLevel(store, grants, on, order)(deeper), n + 1)
  {
    forall p | p in store && !Loops(store, grants, on, p) && Rank(store, grants, on, p) < n + 1
      ensures OneCall(store, grants, on, order, p, deeper).Some?
    {
      BelowIsAnswered(store, grants, on, deeper, n, p);
      OneCallEnds(store, grants, on, order, p, deeper);
    }
  }

  /** What every level keeps holds at every depth. */
  lemma {:induction false} IterateKeeps(level: Answers -> Answers, keeps: (Answers, nat) -> bool, n: nat)
    requires keeps(map[], 0) && forall answers, k: nat | keeps(answers, k) :: keeps(level(answers), k + 1)
    ensures keeps(Iterate(level, n), n)
  {
    if n > 0 {
      IterateKeeps(level, keeps, n - 1);
    }
  }

  /**
   * Under any row order and any bound on the depth an answer, when there is one, is the order-free verdict; and the
   * length of the longest consultation is depth enough.
   */
  lemma DepthIsRank(store: Store, grants: seq<AccessGrant>, on: Point, order: RowOrder, fuel: nat)
    requires ParentClosed(store) && HasHierarchy(store, on) && IsRowOrder(store, grants, on, order)
    ensures Honest(store, grants, on, Iterate(OneLevel(store, grants, on, order), fuel))
    ensures AnsweredBelow(store, grants, on, Iterate(OneLevel(store, grants, on, order), fuel), fuel)
  {
    var level := OneLevel(store, grants, on, order);
    var keeps := (answers: Answers, k: nat) =>
      Honest(store, grants, on, answers) && AnsweredBelow(store, grants, on, answers, k);
    forall answers: Answers, k: nat | keeps(answers, k)
      ensures keeps(level(answers), k + 1)
    {
      OneLevelRight(store, grants, on, order, answers);
      OneLevelMore(store, grants, on, order, answers, k);
    }
    assert AnsweredBelow(store, grants, on, map[], 0);
    assert keeps(map[], 0);
    IterateKeeps(level, keeps, fuel);
  }

  // ------------------------------------------------------------------ with a loop there may be none

  /** A grant of this stop whose grantor is asked and loops. */
  ghost predicate LeadsRound(store: Store, grants: seq<AccessGrant>, on: Point, to: Point, n: nat, g: AccessGrant) {
    Consults(store, grants, on, to, g) && |IndexOf(g).segments| == n && Loops(store, grants, on, g.byParticle)
  }

  ghost function ToFront(rows: seq<AccessGrant>, g: AccessGrant): (r: seq<AccessGrant>)
    requires g in rows
    ensures r != [] && r[0] == g && multiset(r) == multiset(rows)
  {
    var i :| 0 <= i < |rows| && rows[i] == g;
    assert rows == rows[..i] + [g] + rows[i + 1..];
    [g] + rows[..i] + rows[i + 1..]
  }

  lemma LeadersAreRows(store: Store, grants: seq<AccessGrant>, on: Point, to: Point, n: nat, g: AccessGrant)
    requires HasHierarchy(store, to) && HasHierarchy(store, on)
             && n <= |on.segments| && LeadsRound(store, grants, on, to, n, g)
    ensures g in RowsAt(store, grants, to, on, n)
  {
    IndexWalkIsScan(g, store, on);
  }

  /** The order that gets the evaluation round a loop wherever it can. */
  ghost function LeadingRound(store: Store, grants: seq<AccessGrant>, on: Point, to: Point,
                              n: nat): (rows: seq<AccessGrant>)
    requires HasHierarchy(store, on)
    ensures HasHierarchy(store, to) && n <= |on.segments| ==>
              && multiset(rows) == multiset(RowsAt(store, grants, to, on, n))
              && ((exists g :: LeadsRound(store, grants, on, to, n, g)) ==>
                    rows != [] && LeadsRound(store, grants, on, to, n, rows[0]))
  {
    if !HasHierarchy(store, to) || n > |on.segments| then []
    else if g :| LeadsRound(store, grants, on, to, n, g) then
      LeadersAreRows(store, grants, on, to, n, g);
      ToFront(RowsAt(store, grants, to, on, n), g)
    else RowsAt(store, grants, to, on, n)
  }

  /** A first row that leads round a loop, with only deeper ones before it. */
  lemma {:induction false} LeaderOnTheWay(store: Store, grants: seq<AccessGrant>, on: Point, order: RowOrder, to: Point,
                                          n: nat, d: nat)
    returns (k: nat)
    requires HasHierarchy(store, on) && HasHierarchy(store, to) && IsRowOrder(store, grants, on, order)
    requires d <= n <= |on.segments| && order(to, d) != []
    ensures var rows := RowsOnTheWay(order, to, n);
            k < |rows| && rows[k] == order(to, d)[0] && forall j | 0 <= j < k :: |IndexOf(rows[j]).segments| > d
    decreases n
  {
    var rows := RowsOnTheWay(order, to, n);
    if d == n {
      k := 0;
    } else {
      k := LeaderOnTheWay(store, grants, on, order, to, n - 1, d);
      OrderedRows(store, grants, on, order, to, n);
      FoundIsApplicable(store, grants, to, on, n);
      var here, above := order(to, n), RowsOnTheWay(order, to, n - 1);
      assert rows == here + above;
      forall j | 0 <= j < |here| + k
        ensures |IndexOf(rows[j]).segments| > d
      {
        assert rows[j] == if j < |here| then here[j] else above[j - |here|];
        assert j < |here| ==> here[j] in here;
      }
      k := |here| + k;
    }
  }

  /** Reading stops at a row without an answer that no settling row precedes. */
  lemma {:induction false} ReadRunsOut(store: Store, grants: seq<AccessGrant>, on: Point, answers: Answers,
                                       rows: seq<AccessGrant>, privileges: Privileges, permissions: Permissions, k: nat)
    requires Honest(store, grants, on, answers)
    requires k < |rows| && Asked(answers, rows[k].byParticle) == None
    requires forall j | 0 <= j < k :: !Settles(store, grants, on, rows[j])
    ensures Read(answers, rows, privileges, permissions) == None
    decreases k
  {
    var g := rows[0];
    if k > 0 && Asked(answers, g.byParticle).Some? {
      VerdictByChain(store, grants, g.byParticle, on);
      assert !Settles(store, grants, on, g);
      var outcome := Weigh(g, Asked(answers, g.byParticle).value, privileges, permissions);
      ReadRunsOut(store, grants, on, answers, rows[1..], outcome.privileges, outcome.permissions, k - 1);
    }
  }

  lemma DeeperDoNotSettle(store: Store, grants: seq<AccessGrant>, on: Point, to: Point, rows: seq<AccessGrant>,
                          leader: AccessGrant, k: nat)
    requires Consults(store, grants, on, to, leader) && k <= |rows|
    requires forall g | g in rows :: g in grants && Applies(store, g, to, on)
    requires forall j | 0 <= j < k :: |IndexOf(rows[j]).segments| > |IndexOf(leader).segments|
    ensures forall j | 0 <= j < k :: !Settles(store, grants, on, rows[j])
  {
    forall j | 0 <= j < k
      ensures !Settles(store, grants, on, rows[j])
    {
      assert rows[j] in rows;
    }
  }

  lemma AnswerRunsOut(store: Store, grants: seq<AccessGrant>, on: Point, order: RowOrder, to: Point, answers: Answers,
                      leader: AccessGrant)
    requires HasHierarchy(store, on) && IsRowOrder(store, grants, on, order) && HasHierarchy(store, to)
    requires Honest(store, grants, on, answers)
    requires Consults(store, grants, on, to, leader) && |IndexOf(leader).segments| <= |on.segments|
    requires order(to, |IndexOf(leader).segments|) != [] && order(to, |IndexOf(leader).segments|)[0] == leader
    requires Asked(answers, leader.byParticle) == None
    ensures Answer(store, on, to, RowsOnTheWay(order, to, |on.segments|), answers) == None
  {
    var rows := RowsOnTheWay(order, to, |on.segments|);
    RowsAreApplicable(store, grants, on, order, to);
    var k := LeaderOnTheWay(store, grants, on, order, to, |on.segments|, |IndexOf(leader).segments|);
    DeeperDoNotSettle(store, grants, on, to, rows, leader, k);
    ReadRunsOut(store, grants, on, answers, rows, Enumerated({}), NO_PERMISSIONS, k);
  }

  /** Where the evaluation loops, some stop begins with a grant that leads round a loop. */
  lemma FirstLeader(store: Store, grants: seq<AccessGrant>, on: Point, order: RowOrder, to: Point)
      returns (first: AccessGrant)
    requires HasHierarchy(store, on) && HasHierarchy(store, to) && Loops(store, grants, on, to)
    requires forall p: Point, d: nat :: order(p, d) == LeadingRound(store, grants, on, p, d)
    ensures Consults(store, grants, on, to, first) && Loops(store, grants, on, first.byParticle)
    ensures var d := |IndexOf(first).segments|; d <= |on.segments| && order(to, d) != [] && order(to, d)[0] == first
  {
    var leader := LoopsGoOn(store, grants, on, to);
    var d := |IndexOf(leader).segments|;
    IndexWalkIsScan(leader, store, on);
    assert LeadsRound(store, grants, on, to, d, leader);
    first := order(to, d)[0];
    assert LeadsRound(store, grants, on, to, d, first);
  }

  /** Whoever's evaluation loops is not answered. */
  ghost predicate Stuck(store: Store, grants: seq<AccessGrant>, on: Point, answers: Answers) {
    forall p | Loops(store, grants, on, p) :: Asked(answers, p) == None
  }

  lemma OneCallStuck(store: Store, grants: seq<AccessGrant>, on: Point, order: RowOrder, to: Point, answers: Answers)
    requires HasHierarchy(store, on) && IsRowOrder(store, grants, on, order)
    requires forall p: Point, d: nat :: order(p, d) == LeadingRound(store, grants, on, p, d)
    requires Honest(store, grants, on, answers) && Stuck(store, grants, on, answers)
    requires Loops(store, grants, on, to) && HasHierarchy(store, to)
    ensures OneCall(store, grants, on, order, to, answers) == None
  {
    var first := FirstLeader(store, grants, on, order, to);
    AnswerRunsOut(store, grants, on, order, to, answers, first);
  }

  lemma OneLevelStuck(store: Store, grants: seq<AccessGrant>, on: Point, order: RowOrder, deeper: Answers)
    requires ParentClosed(store) && HasHierarchy(store, on) && IsRowOrder(store, grants, on, order)
    requires forall p: Point, d: nat :: order(p, d) == LeadingRound(store, grants, on, p, d)
    requires Honest(store, grants, on, deeper) && Stuck(store, grants, on, deeper)
    ensures Stuck(store, grants, on, OneLevel(store, grants, on, order)(deeper))
  {
    forall p | p in store && Loops(store, grants, on, p)
      ensures OneCall(store, grants, on, order, p, deeper) == None
    {
      OneCallStuck(store, grants, on, order, p, deeper);
    }
  }

  /** Wherever the evaluation loops, no depth of calls is enough. */
  lemma LoopsStayStuck(store: Store, grants: seq<AccessGrant>, on: Point, order: RowOrder, fuel: nat)
    requires ParentClosed(store) && HasHierarchy(store, on) && IsRowOrder(store, grants, on, order)
    requires forall p: Point, d: nat :: order(p, d) == LeadingRound(store, grants, on, p, d)
    ensures Honest(store, grants, on, Iterate(OneLevel(store, grants, on, order), fuel))
    ensures Stuck(store, grants, on, Iterate(OneLevel(store, grants, on, order), fuel))
  {
    var level := OneLevel(store, grants, on, order);
    var keeps := (answers: Answers, k: nat) => Honest(store, grants, on, answers) && Stuck(store, grants, on, answers);
    forall answers: Answers, k: nat | keeps(answers, k)
      ensures keeps(level(answers), k + 1)
    {
      OneLevelRight(store, grants, on, order, answers);
      OneLevelStuck(store, grants, on, order, answers);
    }
    IterateKeeps(level, keeps, fuel);
  }

  /** Some depth of calls is enough for the verdict. */
  ghost predicate Ends(store: Store, grants: seq<AccessGrant>, on: Point, order: RowOrder, to: Point)
    requires ParentClosed(store) && HasHierarchy(store, on) && IsRowOrder(store, grants, on, order)
    requires HasHierarchy(store, to)
  {
    exists fuel: nat :: Evaluate(store, grants, on, order, to, fuel) == Some(AccessOf(store, grants, to, on))
  }

  lemma EndsWithoutLoop(store: Store, grants: seq<AccessGrant>, on: Point, order: RowOrder, to: Point)
    requires ParentClosed(store) && HasHierarchy(store, on) && IsRowOrder(store, grants, on, order)
    requires HasHierarchy(store, to) && !Loops(store, grants, on, to)
    ensures Ends(store, grants, on, order, to)
  {
    var fuel := Rank(store, grants, on, to);
    var answers := Iterate(OneLevel(store, grants, on, order), fuel);
    DepthIsRank(store, grants, on, order, fuel);
    BelowIsAnswered(store, grants, on, answers, fuel, to);
    OneCallEnds(store, grants, on, order, to, answers);
    OneCallRight(store, grants, on, order, to, answers);
    assert Evaluate(store, grants, on, order, to, fuel) == Some(AccessOf(store, grants, to, on));
  }

  /** Where the grantors lead round a loop there is a row order in which no depth of calls is enough. */
  lemma LoopNeverEnds(store: Store, grants: seq<AccessGrant>, on: Point, to: Point) returns (order: RowOrder)
    requires ParentClosed(store) && HasHierarchy(store, on) && HasHierarchy(store, to) && Loops(store, grants, on, to)
    ensures IsRowOrder(store, grants, on, order)
    ensures forall fuel: nat :: Evaluate(store, grants, on, order, to, fuel) == None
  {
    order := (p: Point, n: nat) => LeadingRound(store, grants, on, p, n);
    assert IsRowOrder(store, grants, on, order);
    forall fuel: nat
      ensures Evaluate(store, grants, on, order, to, fuel) == None
    {
      LoopsStayStuck(store, grants, on, order, fuel);
      OneCallStuck(store, grants, on, order, to, Iterate(OneLevel(store, grants, on, order), fuel));
    }
  }

  /**
   * In whatever order the rows come, the evaluation ends with the order-free verdict: exactly when the grantors it asks
   * lead round no loop.
   */
  lemma EndsExactlyWithoutLoop(store: Store, grants: seq<AccessGrant>, to: Point, on: Point)
    requires ParentClosed(store) && HasHierarchy(store, on) && HasHierarchy(store, to)
    ensures (forall order | IsRowOrder(store, grants, on, order) :: Ends(store, grants, on, order, to))
            <==> !Loops(store, grants, on, to)
  {
    if Loops(store, grants, on, to) {
      var order := LoopNeverEnds(store, grants, on, to);
      assert !Ends(store, grants, on, order, to);
    } else {
      forall order | IsRowOrder(store, grants, on, order)
        ensures Ends(store, grants, on, order, to)
      {
        EndsWithoutLoop(store, grants, on, order, to);
      }
    }
  }

  /** A grant that also matches its own grantor makes a loop, unless a super grant by a super is met further down. */
  lemma SelfGrantLoops(store: Store, grants: seq<AccessGrant>, on: Point, g: AccessGrant)
    requires Delegates(store, grants, on, g.byParticle, g)
    ensures !SettledBelow(store, grants, on, g.byParticle, |IndexOf(g).segments|) ==>
            Loops(store, grants, on, g.byParticle)
  {
    if Consults(store, grants, on, g.byParticle, g) {
      assert IsConsultation(store, grants, on, g.byParticle, []);
      assert [g][1..] == [] && ChainEnd(g.byParticle, [g]) == g.byParticle;
      assert IsConsultation(store, grants, on, g.byParticle, [g]);
      assert IsLoop(store, grants, on, g.byParticle, [], [g]);
    }
  }
}
