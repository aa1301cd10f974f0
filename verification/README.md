# Cosmic registry, hyperlanes and star routing: a verified model

A Dafny model of the parts of the Cosmic/Starlane platform that decide who is found, who may do what, and how messages
travel: the registry's selector search, the evaluation of access grants, the hyperlane / hyperway / interchange protocol,
the client session on top of it, star-to-star routing over the topology a machine builds, ripple flooding, and the frame
format on a byte stream.

`dafny verify dfyconfig.toml` checks everything.

## How the pieces fit

* `loc`, `selector`: points, surfaces, selectors and the reference matcher `Selector.Selector.Matches`. Every `.value`
  in that function stands for an `expect` of the original, so its well-formedness says none of them can fail and its
  `decreases` says the recursion ends. `MatchesWithoutRecursive`, `MatchesRecursiveLast` and `RecursiveThenLast` say
  what it accepts.
* `search`, `lookup`, `refinement`: the particle table (a finite map from point to kind and owner) and `query`,
  `sub_select` and `select` as methods over it. `SelectedClosedForm` says, for every selector and every table, which
  particles are listed, and `lookup` says it in terms of segments and columns; `refinement` relates that to filtering
  every particle with the matcher, including the inputs on which the two differ.
* `security`, `access`, `access_loops`, `registry`: `access` as the original's loop and recursion, proved equal to
  `AccessOf`, a definition with no evaluation order in it: chains of super grants from the hyperuser, ownership, and
  sets of grants. `access_loops` evaluates with a bound on the depth of calls, under any order of the rows, and says
  exactly when some depth is enough. `registry` is the object whose ownership change is all or nothing.
* `transforms`, `lane`, `lane_actor`, `lane_limits`, `lane_order`, `lane_flow`: a lane is a state machine
  (`HyperlaneSpec.Next`) whose steps are the stretches between two await points of its task. `HyperlaneActor.Hyperlane`
  is the task as an object that is always where some run leads, so lemmas over `Run`, which hold for every interleaving
  with the outside, hold of it. `lane_order` says exactly which runs are first in, first out; `lane_flow` that a lane
  with a listener gets everything out.
* `interchange`, `interchange_count`, `delivery`, `interchange_actor`: the same for an interchange with any number of
  hyperways; `Play` is a run. `interchange_count` follows each wave through all lanes, relays and calls; `delivery` says
  what becomes of each call and that a wave can get from one remote to another.
* `client`, `client_reports`, `client_actor`: the same for the runner, relay and status tasks of a client.
* `star`, `routes`, `machine`, `wiring`: routing of one transport from star to star, the templates a machine turns into
  stars, and the interchange it builds for each of them.
* `flood`: copies of a ripple to all stars, arriving in any order.
* `frame`: length-prefixed frames on a stream that delivers bytes in arbitrary pieces.

## Where the code and its comments differ

The model follows the code.

* `**` followed by another hop is consumed together with the segment that hop matches, so the example in the comment beside
  that branch is rejected (`CommentedExampleIsRejected`; the exact condition is `RecursiveThenLast`).
* A selector's kind part only compares base kinds when matching, but the lookup also compares sub-kind and specific
  (`SubKindMisses`). Matching also never reaches its branch for a recursive hop on the last segment.
* When the hops run out the search lists every child unmatched (`SearchWithoutRecursive`, `ExactPathListsChildren`), and
  `+:**` is consumed like any other hop (`InclusiveRecursiveMisses`, `EverythingIsTwoLevels`). When search and filter
  agree all the same is `SearchIsFilterExactly`.
* For the hyperuser, and for nobody else, `Super` and `SuperOwner` come out the wrong way round (`LabelsExactly`); And masks
  count whoever granted them.
* The evaluation of access can call itself for ever: exactly when, from grantor to grantor that it asks, it can be led round
  a loop (`EndsExactlyWithoutLoop`). One grant that also matches its own grantor makes such a loop, unless a super grant by a
  super is indexed further down and settles the matter first (`SelfGrantLoops`).
* After a failed send a lane can hand waves out in another order, and the late reset can forget a listener that is still
  there (`FailureReordersAndForgets`). The order is kept exactly on the runs that take a wave back only while nothing is
  queued and no wave is mailed (`OrderKeptExactly`), so on every run without failed sends; a listener is forgotten exactly
  by a reset received after it (`ForgottenExactlyByReset`), so never without failed sends and outside resets
  (`ListenersStay`).
* A client reports `Ready` as soon as it has an endpoint, before any greeting, and reports it again after a refused greeting
  followed by a reset, when nothing can reach it any more (`ReadyBeforeGreeting`, `ReadyAfterRefusal`). From where it can
  still report it is `ReadyReachableExactly`.
* The `Fatal` that a runner sends when it gives up is never seen, since it only gives up after the status task has stopped
  (`EachStatusHasItsCause`).
* Where links go both ways a transport arrives within three stars or not at all (`ArrivesWithinThree`): any further it is
  passed back and forth up to the limit of 255 hops, or needs the search that is not implemented.
* Closing a client leads its runner into one more attempt to connect. Once a final status is published, an attempt under way
  is the last one and leads to no connection; a runner that is relaying by then goes on until it leaves its connection
  (`FinalStatusIsFinal`).
* A registration or a mount mails its listener to a lane without looking at the result: on a lane whose task has panicked
  both go on as if it had been attached.
* A frame of 2^32 bytes or more is written with its length cut off (`FrameRoundTrip` is an if-and-only-if).

## Model

| member | source | states |
|---|---|---|
| `Selector.Anchor` | rust/cosmic/cosmic-space/src/selector.rs:181-205 | the query root absorbs exactly the longest run of leading exact, non-inclusive hops |
| `Selector.QueryRoot` | rust/cosmic/cosmic-space/src/selector.rs:181-205 | the loop yields the local point made of that run's segments |
| `Selector.SubSelectHops` | rust/cosmic/cosmic-space/src/selector.rs:207-214 | what is left of the hops is exactly those after the query root |
| `Selector.MatchesWithoutRecursive` | rust/cosmic/cosmic-space/src/selector.rs:216-293 | without a recursive hop a path is accepted iff it aligns hop by hop and either has as many segments as hops or ends early on an inclusive hop |
| `Selector.MatchesLiterally` | rust/cosmic/cosmic-space/src/selector.rs:216-462 | the same without naming the hop matcher: which segment, version, range and base kind each kind of hop asks for, and that nothing asks for more |
| `Selector.AnySegmentsByLength` | rust/cosmic/cosmic-space/src/selector.rs:437-441 | n hops `*` or `+:*` of any kind accept exactly the paths of n segments, and shorter ones only where they end inclusively |
| `Selector.VersionsOfPoint` | rust/cosmic/cosmic-space/src/selector.rs:444-459 | a version range below an exact point accepts exactly the versions of that point that its requirement accepts |
| `Selector.StarAcceptsEverything` | rust/cosmic/cosmic-space/src/selector.rs:437-442 | `**` or `+:**` of any kind accepts every path but the empty one |
| `Selector.MatchesRecursiveLast` | rust/cosmic/cosmic-space/src/selector.rs:216-293 | with one recursive hop, last: iff the earlier hops align and the last segment's kind suits the recursive hop, or the path ends early on an inclusive hop |
| `Selector.MatchesRecursiveThenHop` | rust/cosmic/cosmic-space/src/selector.rs:263-279 | a recursive hop with a successor skips to the first segment the successor accepts and is consumed together with it; failing that it ends the path only inclusively |
| `Selector.MatchesIsTakes` | rust/cosmic/cosmic-space/src/selector.rs:216-293 | for every selector and path, with any number of recursive hops anywhere: matching is one pass over the hops, in which a recursive hop takes everything up to the first match of its successor |
| `Selector.RecursiveThenLast` | rust/cosmic/cosmic-space/src/selector.rs:263-279 | `**:x` accepts exactly the paths whose last two segments match x and none before does |
| `Selector.CommentedExampleIsRejected` | rust/cosmic/cosmic-space/src/selector.rs:270-272 | the path the comment promises to accept is not accepted, whatever the kinds |
| `Selector.MatchesAligns` | rust/cosmic/cosmic-space/src/selector.rs:216-293 | up to the first recursive hop an accepted path meets the hops one by one |
| `Selector.MatchesShort` | rust/cosmic/cosmic-space/src/selector.rs:251-262 | an accepted path that ends before the hops do ends on an inclusive hop |
| `Selector.MatchesBelowQueryRoot` | rust/cosmic/cosmic-space/src/selector.rs:181-293 | the query root is a prefix of every accepted path |
| `Search.Query` | rust/cosmic/cosmic-registry-postgres/src/lib.rs:498-526 | answers the true hierarchy of a point, and fails iff some ancestor (or the point) has no row |
| `Search.FetchAll` | rust/cosmic/cosmic-registry-postgres/src/lib.rs:585-687 | the lookup of one level: the children the first hop admits, each once, in any order |
| `Search.Retain` | rust/cosmic/cosmic-registry-postgres/src/lib.rs:720-731 | keeps exactly the rows whose whole path the pattern matches |
| `Search.SubSelect` | rust/cosmic/cosmic-registry-postgres/src/lib.rs:578-742 | on every table the recursion ends, lists each visited particle that matches or was reached with no hop left exactly once, and fails iff it must descend into a particle whose point cannot be built |
| `Search.Select` | rust/cosmic/cosmic-registry-postgres/src/lib.rs:551-575 | the search from the query root, then the root itself if the root rule accepts it; fails iff the query root has no row or the descent is blocked |
| `Search.MeshNeverBlocks` | rust/cosmic/cosmic-space/src/loc.rs:1722-1734 | on a table of mesh segments, with or without a row for the root, the descent is never blocked |
| `Search.HopsAtClosedForm` | rust/cosmic/cosmic-registry-postgres/src/lib.rs:691-700 | the hops left at each depth: one is dropped a level until the first plain `**`, which stays |
| `Search.VisitsClosedForm` | rust/cosmic/cosmic-registry-postgres/src/lib.rs:585-718 | a particle is visited iff every level of its path has a row its hop admits and the hops reach that far |
| `Search.SelectedClosedForm` | rust/cosmic/cosmic-registry-postgres/src/lib.rs:551-742 | for every selector and table, what is listed in terms of the particle's path alone |
| `SearchLookup.RowsByColumns` | rust/cosmic/cosmic-registry-postgres/src/lib.rs:578-687 | one level of the lookup yields exactly the children that agree with the first hop in segment, base, sub-kind and the four columns of a specific |
| `SearchLookup.SelectedByColumns` | rust/cosmic/cosmic-registry-postgres/src/lib.rs:551-742 | for every selector and table, in terms of segments and columns: listed iff below the leading exact hops, in agreement with every hop up to and including the first `**`, and a match or past the last hop |
| `SearchLookup.ListedAgrees` | rust/cosmic/cosmic-registry-postgres/src/lib.rs:589-679 | whatever is listed, matched or not, has the segment of every exact hop and, from the query root on, the base, sub-kind and specific the hops name |
| `SearchLookup.ListedAgreesWithStar` | rust/cosmic/cosmic-registry-postgres/src/lib.rs:605-679 | beyond the first `**` every level agrees with the kind on that `**` |
| `SearchLookup.RootListedExactly` | rust/cosmic/cosmic-space/src/selector.rs:156-171 | the root is listed, once and last, iff the pattern is empty or one hop `+:*` or `+:**` whose base suits it |
| `SearchLookup.SelectFailsExactly` | rust/cosmic/cosmic-space/src/loc.rs:1722-1734 | a selection fails iff the query root has no complete path or the descent must go on into a file system segment with no root directory above it |
| `SearchRefinement.SearchRefinesFilter` | rust/cosmic/cosmic-registry-postgres/src/lib.rs:551-742 | if the first recursive hop is `**` of any kind and earlier lookups check base kinds only, the search lists exactly the particles the matcher accepts |
| `SearchRefinement.SearchWithStar` | rust/cosmic/cosmic-registry-postgres/src/lib.rs:551-742 | with a plain `**` anywhere: exactly the matches that pass the lookups of their levels |
| `SearchRefinement.SearchWithoutRecursive` | rust/cosmic/cosmic-registry-postgres/src/lib.rs:689-734 | without a recursive hop: the matches plus the level below the last hop, so it equals the filter iff that level is empty |
| `SearchRefinement.ExactPathListsChildren` | rust/cosmic/cosmic-registry-postgres/src/lib.rs:689-742 | an exact path lists the children of that point and never the point it matches |
| `SearchRefinement.SearchIsFilterExactly` | rust/cosmic/cosmic-registry-postgres/src/lib.rs:551-742 | for every selector and every table: the search is the filter iff the descent reaches every match and what it overruns to matches |
| `SearchRefinement.SearchWithStarExactly` | rust/cosmic/cosmic-registry-postgres/src/lib.rs:551-742 | with a plain `**`: the two agree iff every match passes the lookups of its levels |
| `SearchRefinement.EverythingIsTwoLevels` | rust/cosmic/cosmic-registry-postgres/src/lib.rs:691-700 | `+:**` matches every particle and lists exactly those at most two levels down, so it is the filter iff none is deeper |
| `SearchRefinement.ConstrainedStarExactly` | rust/cosmic/cosmic-registry-postgres/src/lib.rs:605-612 | `**` with a kind is the filter iff every ancestor of a match passes the lookup of that kind, too |
| `SearchRefinement.InclusiveRecursiveMisses` | rust/cosmic/cosmic-registry-postgres/src/lib.rs:695-700 | a table on which `+:**` matches a particle the search does not list |
| `SearchRefinement.ConstrainedStarMisses` | rust/cosmic/cosmic-registry-postgres/src/lib.rs:605-612 | a table on which `**` with a kind matches a particle the search does not list |
| `SearchRefinement.SubKindMisses` | rust/cosmic/cosmic-space/src/selector.rs:60-73 | a table on which a sub-kind is looked up though it is not matched |
| `Security.Permissions.Or` | rust/cosmic/cosmic-space/src/security.rs:331-334 | a permission is set afterwards iff it was set on either side, for all six |
| `Security.Permissions.And` | rust/cosmic/cosmic-space/src/security.rs:336-339 | a permission is set afterwards iff it was set on both sides, for all six |
| `AccessControl.EvaluateAccess` | rust/cosmic/cosmic-registry-postgres/src/lib.rs:776-903 | unless the grantors it asks lead round a loop, the evaluation ends with exactly the order-free verdict; it fails iff one of the two particles has no complete path and no early answer applies |
| `AccessControl.ReadLevel` | rust/cosmic/cosmic-registry-postgres/src/lib.rs:829-855 | one stop of the walk finds super only through a super grantor, and otherwise collects exactly what full-access grantors granted there |
| `AccessControl.ReadRow` | rust/cosmic/cosmic-registry-postgres/src/lib.rs:830-855 | one row settles the verdict iff it is a super grant by a super, and otherwise adds exactly what a full-access grantor may give |
| `AccessControl.GrantsIndexedBy` | rust/cosmic/cosmic-registry-postgres/src/lib.rs:819-828 | the grants under one index whose grantor exists and whose two selectors match |
| `AccessControl.AndMasks` | rust/cosmic/cosmic-registry-postgres/src/lib.rs:856-872 | exactly the And masks of a level, whoever granted them |
| `AccessControl.ApplyAnds` | rust/cosmic/cosmic-registry-postgres/src/lib.rs:888-893 | a permission survives iff every saved mask has it |
| `AccessControl.VerdictByChain` | rust/cosmic/cosmic-registry-postgres/src/lib.rs:788-840 | super iff a chain of matching super grants leads to the hyperuser; full iff that or ownership |
| `AccessControl.SuperExactly` | rust/cosmic/cosmic-registry-postgres/src/lib.rs:788-841 | super iff a chain of super grants by existing particles, each matching the path of its holder and of the particle, leads to the hyperuser past nobody who is answered early |
| `AccessControl.LabelsExactly` | rust/cosmic/cosmic-registry-postgres/src/lib.rs:797-841 | the label says whether the particle is owned iff it is not the hyperuser's; exactly when a verdict is `Super` and exactly when `SuperOwner`, in terms of chains and ownership |
| `AccessControl.EnumeratedRests` | rust/cosmic/cosmic-registry-postgres/src/lib.rs:842-901 | in terms of rows and paths: short of full access, a permission rests on some Or mask by a grantor with full access whose two selectors match and on every And mask that matches, a privilege on some such privilege grant |
| `AccessControl.SuperStep` | rust/cosmic/cosmic-registry-postgres/src/lib.rs:797-841 | super is inherited through exactly one more super grant, unless the evaluation stopped at the self-owner |
| `AccessControl.ConsultationBound` | rust/cosmic/cosmic-registry-postgres/src/lib.rs:831-831 | without a loop no chain of grantors asked one after the other is longer than the grant table |
| `AccessTermination.EndsExactlyWithoutLoop` | rust/cosmic/cosmic-registry-postgres/src/lib.rs:814-902 | the evaluation ends with the verdict under every order of the rows iff no loop of grantors that are asked is reachable from the particle; a grantor is not asked when a super grant by a super is indexed further down |
| `AccessTermination.LoopNeverEnds` | rust/cosmic/cosmic-registry-postgres/src/lib.rs:819-831 | if such a loop is reachable there is an order of the rows in which no depth of calls is enough |
| `AccessTermination.DepthIsRank` | rust/cosmic/cosmic-registry-postgres/src/lib.rs:829-902 | under every order and every bound on the depth an answer, if there is one, is the verdict, and the longest chain of grantors is depth enough |
| `AccessTermination.SelfGrantLoops` | rust/cosmic/cosmic-registry-postgres/src/lib.rs:825-831 | a grant that also matches its own grantor loops, unless a super grant by a super is met further down |
| `AccessControl.RankDecreases` | rust/cosmic/cosmic-registry-postgres/src/lib.rs:831-831 | each grantor that is asked is free of loops and has a strictly shorter longest chain ahead of it |
| `AccessControl.IndexWalkIsScan` | rust/cosmic/cosmic-registry-postgres/src/lib.rs:818-881 | the walk from the particle to the root meets the index of a matching grant exactly once on the local route, and never on another |
| `AccessControl.OrderIndependent` | rust/cosmic/cosmic-registry-postgres/src/lib.rs:814-902 | the verdict depends on which grants there are, not on their order or number |
| `AccessControl.AddingGrantKeepsAccess` | rust/cosmic/cosmic-registry-postgres/src/lib.rs:825-902 | adding a super, privilege or Or grant takes nothing from anyone |
| `AccessControl.AddingMaskGivesNothing` | rust/cosmic/cosmic-registry-postgres/src/lib.rs:856-893 | adding an And mask gives nobody anything and leaves full access, super and privileges as they were |
| `RegistryModule.Registry.Grant` | rust/cosmic/cosmic-registry-postgres/src/lib.rs:744-773 | a grant is stored iff its grantor has a row, and nothing else changes |
| `RegistryModule.Registry.Chown` | rust/cosmic/cosmic-registry-postgres/src/lib.rs:905-937 | either exactly the listed particles get the new owner, the requester having been super on every one beforehand, or nothing changes; succeeds iff the selection does and that holds (where evaluating the requester's access to a listed particle can loop, the call need not return) |
| `RegistryModule.ChownLeavesOthers` | rust/cosmic/cosmic-registry-postgres/src/lib.rs:905-937 | a change of ownership leaves everybody's access to every other particle as it was |
| `RegistryModule.ChownedFullExactly` | rust/cosmic/cosmic-registry-postgres/src/lib.rs:905-937 | on a particle given away, full access is the new owner's and the supers'; whoever was super stays so unless the particle was given to itself |
| `RegistryModule.ChownKeepsListing` | rust/cosmic/cosmic-registry-postgres/src/lib.rs:905-937 | ownership plays no part in selection: the same selector finds the same particles afterwards |
| `Transforms.FilterAllIdempotent` | rust/cosmic/cosmic-hyperlane/src/lib.rs:319-423 | what any list of From, Agent, To and Layer transforms has done once it does not change a second time |
| `Transforms.RetryIsHarmless` | rust/cosmic/cosmic-hyperlane/src/lib.rs:467-469 | a wave filtered by an earlier state of the growing list and sent through again comes out as if sent through only now |
| `Transforms.SingleNeverPanics` | rust/cosmic/cosmic-hyperlane/src/lib.rs:337-348 | a singly addressed wave passes any list and stays singly addressed |
| `Transforms.StampedByList` | rust/cosmic/cosmic-hyperlane/src/lib.rs:74-95 | a list that starts with the two stamps and then only readdresses fixes sender and agent |
| `Transforms.LastOneDecides` | rust/cosmic/cosmic-hyperlane/src/lib.rs:319-423 | the last sender, agent and recipient of a list are those a wave comes out with, and the last layer after the last recipient |
| `Transforms.PanicsExactly` | rust/cosmic/cosmic-hyperlane/src/lib.rs:337-348 | a list panics iff the wave has no single recipient and a layer is to be set before anything gives it one |
| `HyperlaneSpec.WavesAreConserved` | rust/cosmic/cosmic-hyperlane/src/lib.rs:450-500 | over every run each id is accepted as often as it is handed out, queued, mailed, trimmed, refused or lost to a panic, together |
| `HyperlaneSpec.EachWaveInOnePlace` | rust/cosmic/cosmic-hyperlane/src/lib.rs:450-500 | a wave accepted once is in exactly one of those places, once |
| `HyperlaneSpec.StaysSane` | rust/cosmic/cosmic-hyperlane/src/lib.rs:443-500 | from any sane state: mailbox and queue keep their bounds and the task only sends with something to send and a listener |
| `HyperlaneSpec.LaneIsBounded` | rust/cosmic/cosmic-hyperlane/src/lib.rs:443-466 | the queue never exceeds 1025 waves, the mailbox never 1024 calls |
| `HyperlaneSpec.FailureFreeRunsKeepOrder` | rust/cosmic/cosmic-hyperlane/src/lib.rs:450-500 | without a failed send, what was handed out, trimmed, queued and mailed is the accepted sequence in order |
| `HyperlaneOrder.OrderKeptExactly` | rust/cosmic/cosmic-hyperlane/src/lib.rs:450-500 | over every run of distinct waves, failed sends included: handed out, queued, mailed and in hand stand in the order of acceptance all along iff all along a wave is taken back only while nothing is queued and no wave is mailed |
| `HyperlaneOrder.StepKeepsOrderExactly` | rust/cosmic/cosmic-hyperlane/src/lib.rs:481-495 | from a state in order each step keeps the order iff it leaves nothing for a returning wave to get behind: a failed send with something behind it and a newcomer during the return are what breaks it |
| `HyperlaneSpec.QueueBeforeListener` | rust/cosmic/cosmic-hyperlane/src/lib.rs:462-471 | before any listener the queue is exactly the last 1025 filtered waves, received in the order accepted |
| `HyperlaneSpec.HandedIsFilteredOnce` | rust/cosmic/cosmic-hyperlane/src/lib.rs:459-494 | however often it was taken back, a wave handed out is an accepted one put once through a list that starts with the priming transforms |
| `HyperlaneSpec.InboundStampsAll` | rust/cosmic/cosmic-hyperlane/src/lib.rs:74-101 | every wave an inbound lane ever hands out carries the hyperway's sender and agent |
| `HyperlaneLimits.FailureReordersAndForgets` | rust/cosmic/cosmic-hyperlane/src/lib.rs:475-493 | a run with one failed send on which the second wave overtakes the first and a listener that never closed is forgotten |
| `HyperlaneLimits.ListenerIsLastAttached` | rust/cosmic/cosmic-hyperlane/src/lib.rs:456-477 | over every run, failures included, the listener is the last one attached unless a reset was received after it |
| `HyperlaneLimits.ForgottenExactlyByReset` | rust/cosmic/cosmic-hyperlane/src/lib.rs:456-477 | a listener no later one replaced is forgotten iff a reset is received after it |
| `HyperlaneLimits.ResetsHaveCauses` | rust/cosmic/cosmic-hyperlane/src/lib.rs:475-493 | resets received, mailed or about to be are exactly as many as failed sends and outside requests |
| `HyperlaneLimits.ListenersStay` | rust/cosmic/cosmic-hyperlane/src/lib.rs:456-493 | without either of these whoever attached last stays attached |
| `HyperlaneFlow.MailboxHoldsExactly` | rust/cosmic/cosmic-hyperlane/src/lib.rs:443-443 | a mailbox takes in exactly as many calls as make 1024 |
| `HyperlaneFlow.PanickedStaysDead` | rust/cosmic/cosmic-hyperlane/src/lib.rs:459-461 | a lane that has panicked takes in and does nothing more |
| `HyperlaneFlow.FlowEmpties` | rust/cosmic/cosmic-hyperlane/src/lib.rs:454-495 | a lane that is listened to can hand out everything it holds, in order |
| `HyperlaneFlow.GoneGetsNothing` | rust/cosmic/cosmic-hyperlane/src/lib.rs:485-490 | a listener that has gone is handed nothing any more |
| `HyperlaneFlow.FailuresHaveGoneListeners` | rust/cosmic/cosmic-hyperlane/src/lib.rs:485-495 | as long as no listener goes no send fails |
| `HyperlaneFlow.TrimmedOnlyUnheard` | rust/cosmic/cosmic-hyperlane/src/lib.rs:462-466 | over every run no wave is trimmed while a listener is attached |
| `HyperlaneActor.Hyperlane.constructor` | rust/cosmic/cosmic-hyperlane/src/lib.rs:443-453 | a new lane is the empty one, at the beginning of its run |
| `HyperlaneActor.Hyperlane.TrySend` | rust/cosmic/cosmic-hyperlane/src/lib.rs:97-101 | a call is accepted iff there is room and the task lives, and is lost without trace otherwise |
| `HyperlaneActor.Hyperlane.CloseListener` | rust/cosmic/cosmic-hyperlane/src/lib.rs:485-490 | the listener counts as gone and no wave moves |
| `HyperlaneActor.Hyperlane.DropOldest` | rust/cosmic/cosmic-hyperlane/src/lib.rs:463-466 | drops exactly the oldest waves beyond 1024 |
| `HyperlaneActor.Hyperlane.HandleCall` | rust/cosmic/cosmic-hyperlane/src/lib.rs:454-480 | one turn of the loop, transforms and all, is one receive step of the lane's run |
| `HyperlaneActor.Hyperlane.SendTurn` | rust/cosmic/cosmic-hyperlane/src/lib.rs:481-495 | one turn of the drain continues the run, and every id is afterwards in as many places as before |
| `HyperlaneActor.Hyperlane.Drain` | rust/cosmic/cosmic-hyperlane/src/lib.rs:479-495 | a drain left alone hands an open listener the whole queue in order, or puts it all back in the mailbox, a reset before each wave |
| `HyperlaneActor.Hyperlane.Promises` | rust/cosmic/cosmic-hyperlane/src/lib.rs:443-500 | whatever was done to it, the object keeps its bounds and has every accepted wave in as many places as it was accepted times |
| `HyperlaneActor.Replay` | rust/cosmic/cosmic-hyperlane/src/lib.rs:450-500 | every run of the state machine is one of the object |
| `HyperlaneActor.Hyperway.constructor` | rust/cosmic/cosmic-hyperlane/src/lib.rs:74-95 | a new hyperway has two lanes of its own, the inbound one primed with From and then Agent |
| `HyperlaneActor.Hyperway.TransformInbound` | rust/cosmic/cosmic-hyperlane/src/lib.rs:97-101 | the transform joins the inbound mailbox if there is room |
| `InterchangeSpec.MoveOk` | rust/cosmic/cosmic-hyperlane/src/lib.rs:551-685 | every move keeps the interchange invariant: lanes filtered once, the table in step with the hyperways, waves marked by the way they came |
| `InterchangeSpec.EndToEnd` | rust/cosmic/cosmic-hyperlane/src/lib.rs:551-671 | over every run a wave leaves only through the lane it is addressed to; if it entered through a remote it is what entered, put once through that lane's primers, so carries that remote and its agent; and if that remote was added to a singular interchange it leaves only through the singular surface |
| `InterchangeConservation.EachIsInOnePlace` | rust/cosmic/cosmic-hyperlane/src/lib.rs:551-685 | over every run a wave that came in is once, and any other nowhere, in: the inbound lanes, handed to a relay task, the calls, the outbound lanes and what they handed out, or dropped as unroutable or too late |
| `InterchangeConservation.LeavesAtMostOnce` | rust/cosmic/cosmic-hyperlane/src/lib.rs:551-685 | over all its lanes together an interchange hands a wave out at most once |
| `InterchangeDelivery.RoutedExactly` | rust/cosmic/cosmic-hyperlane/src/lib.rs:580-598 | a routed wave goes into the mailbox of the way registered under its single recipient, waiting for room, and nothing else changes, iff there is one and no timeout; otherwise it is dropped and no lane changes |
| `InterchangeDelivery.MountedExactly` | rust/cosmic/cosmic-hyperlane/src/lib.rs:599-616 | a mount mails its listener to the outbound lane registered under the remote, and nothing else changes |
| `InterchangeDelivery.RegisteredAtOnce` | rust/cosmic/cosmic-hyperlane/src/lib.rs:560-576 | a registration enters the way into the table and mails the relay to its inbound lane |
| `InterchangeDelivery.RegisteredExactly` | rust/cosmic/cosmic-hyperlane/src/lib.rs:559-580 | over every run waves for a remote go to a way iff its registration is the last thing handled about that remote, no later registration or removal |
| `InterchangeDelivery.CallsInOrder` | rust/cosmic/cosmic-hyperlane/src/lib.rs:552-559 | over every run calls of whatever kind are handled in the order they were mailed |
| `InterchangeDelivery.NothingDroppedExactly` | rust/cosmic/cosmic-hyperlane/src/lib.rs:559-620 | over every run nothing is dropped iff no move met a timeout or a routed wave without a way registered under one recipient |
| `InterchangeDelivery.RoutedCanLeave` | rust/cosmic/cosmic-hyperlane/src/lib.rs:454-598 | from every reachable state in which a routed wave is next and its recipient is listened to, some continuation hands it out there after all that lane held, and drops nothing |
| `InterchangeDelivery.MountedCanHand` | rust/cosmic/cosmic-hyperlane/src/lib.rs:599-616 | from every reachable state in which a mount is next and its lane waits for mail, some continuation hands the listener the whole queue in order |
| `InterchangeDelivery.RemoteReachesRemote` | rust/cosmic/cosmic-hyperlane/src/lib.rs:551-685 | from the start, for any two remotes and any wave addressed to the second: on some run it enters through the first and is handed to the listener of the second under the name and agent of the first |
| `InterchangeActor.HyperwayInterchange.Singular` | rust/cosmic/cosmic-hyperlane/src/lib.rs:659-661 | later hyperways get this one target; earlier ones do not change |
| `InterchangeActor.HyperwayInterchange.AddHyperway` | rust/cosmic/cosmic-hyperlane/src/lib.rs:663-671 | a new hyperway, primed in the order From, Agent, readdressing, singular target, waits to be registered |
| `InterchangeActor.HyperwayInterchange.HandleCall` | rust/cosmic/cosmic-hyperlane/src/lib.rs:559-620 | one turn of the interchange's loop is one handling move, and a routed wave ends up in the mailbox registered under its recipient or is dropped; mailing a listener to a panicked lane fails unnoticed and the turn goes on |
| `InterchangeActor.HyperwayInterchange.Act` | rust/cosmic/cosmic-hyperlane/src/lib.rs:560-618 | registering, removing, routing and mounting each do what the handling move says, whatever the table holds; routing passes on iff a way is registered and there is no timeout |
| `InterchangeActor.PrimedHyperway` | rust/cosmic/cosmic-hyperlane/src/lib.rs:74-107 | the inbound lane's mailbox is exactly that list of transforms, in order |
| `ClientSpec.NothingBeforeGreeting` | rust/cosmic/cosmic-hyperlane/src/lib.rs:1365-1481 | over every interleaving nothing reaches a listener or the exchanger before a greeting, at most one is published, and iff the first wave read is one |
| `ClientSpec.PassedInOrder` | rust/cosmic/cosmic-hyperlane/src/lib.rs:1465-1480 | after the greeting every wave is passed on in order, answers to the exchanger if there is one |
| `ClientSpec.FinalStatusIsFinal` | rust/cosmic/cosmic-hyperlane/src/lib.rs:1318-1331 | a status observed as Fatal or Closed never changes again, and a runner not relaying by then never relays again |
| `ClientSpec.StepKeeps` | rust/cosmic/cosmic-hyperlane/src/lib.rs:1318-1481 | every step keeps a final status, a published greeting and what was handed on, and hands on more only after a greeting |
| `ClientSpec.RefusalIsReported` | rust/cosmic/cosmic-hyperlane/src/lib.rs:1373-1462 | a first wave that is no greeting leads to the right complaint: under way, published, or too late because a final status came first |
| `ClientSpec.NothingAfterTheEnd` | rust/cosmic/cosmic-hyperlane/src/lib.rs:1365-1481 | a relay that has ended passes nothing on, whatever the runner still receives |
| `ClientSpec.ReadyBeforeGreeting` | rust/cosmic/cosmic-hyperlane/src/lib.rs:1720-1730 | a run on which the client is Ready without a greeting |
| `ClientSpec.ReadyAfterRefusal` | rust/cosmic/cosmic-hyperlane/src/lib.rs:1420-1430 | a run on which a refused client is Ready again although its relay has ended |
| `ClientSpec.ReadyReachableExactly` | rust/cosmic/cosmic-hyperlane/src/lib.rs:1684-1812 | from every reachable state some continuation reaches Ready iff it is there, or the status task listens and no final status is mailed ahead of the first Ready |
| `ClientReports.ReadInSendingOrder` | rust/cosmic/cosmic-hyperlane/src/lib.rs:1365-1481 | over every interleaving the relay reads what the remote sent in the order sent, without a gap; until it ends all that is unread waits in that order |
| `ClientReports.GreetedByFirstSent` | rust/cosmic/cosmic-hyperlane/src/lib.rs:1373-1463 | once anything is read, a greeting is published iff the first wave ever sent is a reflected success that carries it |
| `ClientReports.HandedOnAsSent` | rust/cosmic/cosmic-hyperlane/src/lib.rs:1465-1480 | listener and exchanger have been handed the waves sent right after the greeting, in sending order, all those read but the one whose refusal ended the relay |
| `ClientReports.EachStatusHasItsCause` | rust/cosmic/cosmic-hyperlane/src/lib.rs:1373-1462 | over every interleaving `Ready` has an endpoint behind it, `Closed` a request to close, `Fatal` and `Panic` a first wave that refuses by its code or body; the `Fatal` of a runner that gives up is never reported |
| `ClientReports.RefusalIsReportedByCode` | rust/cosmic/cosmic-hyperlane/src/lib.rs:1373-1462 | a read refusal for good or for now, by its code, is under way, reported or too late |
| `ClientReports.ClosingIsReported` | rust/cosmic/cosmic-hyperlane/src/lib.rs:1744-1770 | a request to close is reported unless the status task has stopped |
| `ClientReports.ReportsCountConnections` | rust/cosmic/cosmic-hyperlane/src/lib.rs:1684-1812 | while the status task listens: pending is reported once, ready once per connection whichever of five ways the others were left, connecting once before each |
| `ClientReports.InboxHoldsExactly` | rust/cosmic/cosmic-hyperlane/src/lib.rs:1666-1666 | a relaying runner takes in exactly as many waves as make 1024 waiting |
| `ClientReports.StatusesFit` | rust/cosmic/cosmic-hyperlane/src/lib.rs:1313-1316 | over every run at most 128 statuses wait |
| `ClientReports.StatusesPileUp` | rust/cosmic/cosmic-hyperlane/src/lib.rs:1313-1316 | and any number up to 128 does on some run |
| `ClientReports.EverythingCanBeHandedOn` | rust/cosmic/cosmic-hyperlane/src/lib.rs:1365-1481 | from the start, for any greeting and any waves after it, on some run the client is greeted and every one of them is handed on in order, to the right side |
| `ClientActor.HyperClient.PublishStatus` | rust/cosmic/cosmic-hyperlane/src/lib.rs:1318-1331 | one turn of the status task continues the run; no final status was published before it, and it stops iff it publishes one |
| `ClientActor.HyperClient.ReceiveFirst` | rust/cosmic/cosmic-hyperlane/src/lib.rs:1373-1463 | the first wave is a greeting to publish or a complaint to make, by status code and body |
| `ClientActor.HyperClient.ReceiveNext` | rust/cosmic/cosmic-hyperlane/src/lib.rs:1465-1480 | a later wave goes to one of the two sides, or ends the relay if refused |
| `ClientActor.HyperClient.RelayTurn` | rust/cosmic/cosmic-hyperlane/src/lib.rs:1365-1484 | one turn of the relay task: a greeting once published stays, and nothing is handed on without one |
| `ClientActor.HyperClient.RunnerConnects` | rust/cosmic/cosmic-hyperlane/src/lib.rs:1684-1812 | one turn towards a connection: after a final status none leads to relaying, and a runner that gave up leaves one behind |
| `ClientActor.HyperClient.RunnerRelays` | rust/cosmic/cosmic-hyperlane/src/lib.rs:1744-1798 | what the runner hears while relaying changes neither the greeting nor the status nor what was handed on; a wave joins the end of what the relay has yet to read, and five things end the connection |
| `ClientActor.HyperClient.Promises` | rust/cosmic/cosmic-hyperlane/src/lib.rs:1318-1481 | whatever the object did: nothing handed on before a greeting, at most one, iff the first wave is one; the status task has stopped iff the status is final; waves read as sent, and a cause for each published status |
| `ClientActor.Session` | rust/cosmic/cosmic-hyperlane/src/lib.rs:1303-1484 | every interleaving of the three tasks is one of the object, and keeps those promises |
| `StarRouting.AdjacentsAreStubs` | rust/cosmic/cosmic-hyperspace/src/star.rs:217-223 | the adjacents are exactly the connected stars, each under its own key |
| `StarRouting.CollectAdjacents` | rust/cosmic/cosmic-hyperspace/src/star.rs:217-223 | the loop fills the table the routing theorems are about; a later connection to the same star replaces an earlier one |
| `StarRouting.CollectForwarders` | rust/cosmic/cosmic-hyperspace/src/star.rs:714-719 | the adjacent forwarders, each once |
| `StarRouting.ToHyperway` | rust/cosmic/cosmic-hyperspace/src/star.rs:1184-1224 | the hop is the next hop of the routing theorems: itself, a neighbour, the only forwarder, or one of the two failures |
| `StarRouting.FromHyperway` | rust/cosmic/cosmic-hyperspace/src/star.rs:993-1049 | a star keeps, refuses or forwards a transport after counting the hop |
| `StarRouting.ForwardingEnds` | rust/cosmic/cosmic-hyperspace/src/star.rs:1004-1012 | in any network whatsoever a fresh transport reaches at most 256 stars |
| `StarRouting.JourneyIsWalk` | rust/cosmic/cosmic-hyperspace/src/star.rs:993-1224 | a transport moves only along links and through forwarders, and arrives iff the last star reached is the one addressed |
| `RouteLength.ArrivesWithinLimit` | rust/cosmic/cosmic-hyperspace/src/star.rs:1004-1012 | along a route of any length in any network a fresh transport arrives, having visited all of it, iff it is at most 255 stars long; otherwise the 256th refuses it |
| `RouteLength.NowhereExactly` | rust/cosmic/cosmic-hyperspace/src/star.rs:1208-1222 | a transport for an unknown star fails iff no neighbour is of a forwarding kind and needs a search iff two are |
| `RouteLength.ArrivesWithinThree` | rust/cosmic/cosmic-hyperspace/src/star.rs:1184-1224 | where links go both ways a transport arrives at the third star it reaches at the latest, or never |
| `MachineTopology.WithMachineStar` | rust/cosmic/cosmic-hyperspace/src/machine.rs:551-562 | every star gains one connector to the machine star, which receives each of them in order |
| `MachineTopology.MachineStarLinks` | rust/cosmic/cosmic-hyperspace/src/machine.rs:551-562 | star by star: one connector to the machine star more, and one receiver for it there, nothing else |
| `MachineTopology.MachineStarKeepsPairs` | rust/cosmic/cosmic-hyperspace/src/machine.rs:551-562 | for any number of stars with distinct keys every connector keeps its receiver, multiplicities included |
| `MachineTopology.HubDelivers` | rust/cosmic/cosmic-hyperspace/src/star.rs:993-1224 | in any hub template plus machine star every transport between any two stars arrives: directly, or between leaves by way of the hub |
| `MachineTopology.HubDeliversMembersOnly` | rust/cosmic/cosmic-hyperspace/src/star.rs:993-1224 | there a transport is delivered iff it is addressed to a star of the machine |
| `MachineTopology.HubTemplateIsHub` | rust/cosmic/cosmic-hyperspace/src/machine.rs:595-621 | a forwarder that receives any distinct leaves connected only to it makes a hub |
| `MachineTopology.HubTemplatePairs` | rust/cosmic/cosmic-hyperspace/src/machine.rs:595-621 | and in it every connector has its receiver |
| `MachineTopology.DefaultIsHub` | rust/cosmic/cosmic-hyperspace/src/machine.rs:565-622 | the default template is such a hub |
| `MachineTopology.DefaultStars` | rust/cosmic/cosmic-hyperspace/src/machine.rs:565-622 | one star of each kind but the machine star, the nexus in the middle |
| `StarWiring.WireStar` | rust/cosmic/cosmic-hyperspace/src/machine.rs:236-281 | the calls a machine makes for one star leave the interchange in the state the planned moves lead to |
| `StarWiring.RunsFollowThePlan` | rust/cosmic/cosmic-hyperspace/src/machine.rs:236-281 | whatever happens in between, the hyperways are as planned and each is in the table or about to be |
| `StarWiring.RegistrationsPlay` | rust/cosmic/cosmic-hyperlane/src/lib.rs:559-576 | nothing stands in the way of handling all registrations right after the setup |
| `StarWiring.KeyedBySelfAndAdjacents` | rust/cosmic/cosmic-hyperspace/src/machine.rs:236-281 | once registered, the interchange is keyed at the gravity layer by the star and its adjacents, and by nothing else |
| `StarWiring.HopsFindTheirHyperway` | rust/cosmic/cosmic-hyperspace/src/star.rs:1184-1217 | whatever hops a star sends, each comes out of its own lane addressed to a registered hyperway iff it is not to a neighbour named under a topic |
| `StarWiring.HopLeavesByItsLane` | rust/cosmic/cosmic-hyperspace/src/star.rs:1184-1217 | by whatever lane a hop of the star leaves, it is the lane of that hop's star |
| `StarWiring.NeighboursReachOnlyTheStar` | rust/cosmic/cosmic-hyperspace/src/machine.rs:245-281 | what a neighbour sends in goes to the star alone, under that neighbour's name |
| `StarWiring.HopReachesThatStarOnly` | rust/cosmic/cosmic-hyperspace/src/star.rs:993-1217 | across two interchanges: a hop that leaves by the lane a neighbour is linked to was a hop to it, and behind that link it reaches the neighbour alone, under the sender's name |
| `RippleFlood.Shard` | rust/cosmic/cosmic-hyperspace/src/star.rs:1835-1853 | one copy for each neighbour not in the history, none for any other |
| `RippleFlood.EveryCopyIsSimple` | rust/cosmic/cosmic-hyperspace/src/star.rs:1102-1133 | over every schedule a copy travels along links through relaying stars and never visits a star twice |
| `RippleFlood.EachTrailOnce` | rust/cosmic/cosmic-hyperspace/src/star.rs:1102-1133 | for every such trail, at every moment, either one copy is on the way to it or it was received exactly once |
| `RippleFlood.ExactlyTheSimpleTrails` | rust/cosmic/cosmic-hyperspace/src/star.rs:1102-1133 | once no copy is in flight, under any schedule, those received are exactly the simple trails, each once |
| `RippleFlood.FloodHalts` | rust/cosmic/cosmic-hyperspace/src/star.rs:1102-1133 | every schedule is over after a number of arrivals bounded by the number of stars |
| `RippleFlood.RunFlood` | rust/cosmic/cosmic-hyperspace/src/driver/star.rs:532-549 | handling copies in any order until none is left ends, with exactly the simple trails received, each of them once |
| `RippleFlood.CutCircles` | rust/cosmic/cosmic-hyperspace/src/driver/star.rs:532-549 | any way through forwarding stars shortens to a trail without repetition |
| `RippleFlood.FloodReachesConnected` | rust/cosmic/cosmic-hyperspace/src/driver/star.rs:532-549 | a finished flood has reached exactly the stars that forwarding stars connect with its origin |
| `Framing.FrameComesBack` | rust/cosmic/cosmic-hyperlane-tcp/src/lib.rs:182-198 | a written frame is read back up to its length modulo 2^32, the rest stays on the stream |
| `Framing.FrameRoundTrip` | rust/cosmic/cosmic-hyperlane-tcp/src/lib.rs:182-198 | a frame round-trips iff it is shorter than 2^32 bytes |
| `Framing.NetworkOrder` | rust/cosmic/cosmic-hyperlane-tcp/src/lib.rs:183-194 | prefixes compare as numbers the way they compare byte by byte, so the most significant byte comes first |
| `Framing.PrefixRoundTrip` | rust/cosmic/cosmic-hyperlane-tcp/src/lib.rs:183-194 | every four bytes are the prefix of exactly one number |
| `Framing.CutFrameIsNoFrame` | rust/cosmic/cosmic-hyperlane-tcp/src/lib.rs:182-191 | no proper prefix of a written frame is taken for a frame |
| `Framing.FramesRoundTrip` | rust/cosmic/cosmic-hyperlane-tcp/src/lib.rs:182-198 | any list of frames comes back whole with nothing left over iff each fits the prefix |
| `Framing.ToStream` | rust/cosmic/cosmic-hyperlane-tcp/src/lib.rs:193-198 | appends the cut length and all the data |
| `Framing.Stream.ReadU32` | rust/cosmic/cosmic-hyperlane-tcp/src/lib.rs:183-183 | the next four bytes in network order, or an end of file that uses up the rest |
| `Framing.Stream.ReadSome` | rust/cosmic/cosmic-hyperlane-tcp/src/lib.rs:186-188 | some of the bytes that have arrived, never more than asked for, none only at the end |
| `Framing.FromStream` | rust/cosmic/cosmic-hyperlane-tcp/src/lib.rs:182-191 | however the bytes are split on arrival the outcome is that of parsing them at once |
| `Framing.ReadFrames` | rust/cosmic/cosmic-hyperlane-tcp/src/lib.rs:182-191 | frame after frame over one stream |

## Left out

- SQL text, connection pools and row decoding: a table is a map or a list, a text column is the value it prints. A
  `SELECT DISTINCT` returns each row once, in any order.
- `register`, `delete`, `set_properties`, `assign_star`, `assign_host`, `remove_access`, `list_access`: not modelled. (The
  order on indexed grants never answers "less", so nothing is claimed about sorting.)
- Parsing and printing of points, selectors and kinds, and the resolution of variables: values are taken as parsed. The
  semver decision of a version selector is a parameter. The status of a stub is not modelled.
- Permissions, privileges and star templates are values in local variables; their `or`, `and`, `connect` and `receive`
  return the new value instead of updating in place. No aliasing of them exists in the source.
- AccessControl.EvaluateAccess: stated for tables that contain every ancestor and for particles from which no loop of asked
  grantors is reachable; where one is, the original need not return (`AccessTermination.LoopNeverEnds`).
- Failing database calls: `query` fails only for a missing row.
- `HopTransform` and `TransportTransform`: they wrap the wave; retries of wrapped waves are not claimed to be harmless.
- Fairness and liveness: safety over all runs only. Timeouts of an interchange or a full lane are a flag that may be raised
  at any step; what is given up that way counts as dropped. The first wave a mount may be given is not modelled.
- A hyperway that is removed from the table keeps its two lanes and its relay, as in the original; dropping them is not
  modelled.
- The layers inside a star, the particle drivers, wave bodies and exchangers: a wave is an id with sender, recipients and
  agent, and a transport is a recipient and a hop count.
- A star is identified by its point, which the original computes from its key. Overflow of the sixteen-bit hop counter wraps
  around, as it does in an optimized build.
- RippleFlood.EachTrailOnce: a star's history is kept in the order of insertion; the original keeps a set and only ever asks
  for membership. Lost copies, the answers to a search and their collection are not modelled.
- Framing.FromStream: a read never takes more bytes than the frame still wants; at the end of the stream, where the original
  keeps asking for ever, the outcome is `Stalled`.
- TLS, QUIC, the TCP handshake, the muxer, the operator, the command line, macros and guests: not modelled.
