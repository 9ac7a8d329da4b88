/**
  One participant, any number of leases, and other clients, interleaved at every request boundary.

  A request commits at the participant at some later step, or never, in full or in part; its reply arrives,
  is lost, or is unreadable, and may report only part of what was done. A request whose caller has given up
  may still commit, any number of times.
 */
module LeaseSystem {
  import opened Common
  import opened Runs
  import opened Leasing

  datatype Call =
    | Idle
    | AwaitingToken
    | PatchInFlight
    | PatchCommitted(removed: set<Right>)
    | ListInFlight(candidates: seq<Right>)
    | ListServed(candidates: seq<Right>, served: set<Right>)

  datatype Op =
    | Granting(requested: set<Right>)
    | Granted(newly: set<Right>)
    | NoLease
    | Leased(lease: Lease, call: Call)

  datatype World = World(
    initial: set<Right>,
    held: set<Right>,
    ops: map<nat, Op>,
    stranded: set<Right>,            // newly granted, but by a grant that put them into no lease
    foreign: set<Right>,             // granted by clients that take no lease
    lateGrants: set<set<Right>>,     // abandoned grants that may still commit
    lateRevokes: set<set<Right>>)    // abandoned revokes that may still commit

  datatype Step =
    | SendGrant(id: nat, requested: set<Right>)
    | CommitGrant(id: nat, added: set<Right>)
    | GrantReply(id: nat, granted: seq<Right>)
    | LoseGrantReply(id: nat)
    | AbandonGrant(id: nat)
    | LateGrant(rights: set<Right>)
    | CallDispose(id: nat)
    | TokenFails(id: nat)
    | SendPatch(id: nat)
    | CommitPatch(id: nat, taken: set<Right>)
    | ReadPatchReply(id: nat, revoked: seq<Right>)
    | UnreadablePatchReply(id: nat)
    | LosePatchReply(id: nat)
    | AbandonPatch(id: nat)
    | LateRevoke(rights: set<Right>)
    | ServeList(id: nat)
    | ReadListReply(id: nat, listing: seq<Right>)
    | UnusableListReply(id: nat)
    | LoseListReply(id: nat)
    | OtherGrant(rights: set<Right>)
    | OtherRevoke(rights: set<Right>)

  function Start(initial: set<Right>): World {
    World(initial, initial, map[], {}, {}, {}, {})
  }

  /** A reply tells the truth about `rights`: nothing else, nothing twice, but perhaps not everything. */
  ghost predicate Reports(reply: seq<Right>, rights: set<Right>) {
    NoDuplicates(reply) && Elements(reply) <= rights
  }

  predicate Calling(w: World, id: nat) {
    id in w.ops && w.ops[id].Leased?
  }

  ghost predicate Enabled(w: World, step: Step) {
    match step
    case SendGrant(id, _) => id !in w.ops
    case CommitGrant(id, added) => id in w.ops && w.ops[id].Granting? && added <= w.ops[id].requested
    case GrantReply(id, granted) => id in w.ops && w.ops[id].Granted? && Reports(granted, w.ops[id].newly)
    case LoseGrantReply(id) => id in w.ops && w.ops[id].Granted?
    case AbandonGrant(id) => id in w.ops && w.ops[id].Granting?
    case LateGrant(rights) => exists requested :: requested in w.lateGrants && rights <= requested
    case CallDispose(id) => Calling(w, id)
    case TokenFails(id) => Calling(w, id) && w.ops[id].call.AwaitingToken?
    case SendPatch(id) => Calling(w, id) && w.ops[id].call.AwaitingToken?
    case CommitPatch(id, taken) =>
      Calling(w, id) && w.ops[id].call.PatchInFlight? && taken <= Elements(w.ops[id].lease.owned) * w.held
    case ReadPatchReply(id, revoked) =>
      Calling(w, id) && w.ops[id].call.PatchCommitted? && Reports(revoked, w.ops[id].call.removed)
    case UnreadablePatchReply(id) => Calling(w, id) && w.ops[id].call.PatchCommitted?
    case LosePatchReply(id) => Calling(w, id) && w.ops[id].call.PatchCommitted?
    case AbandonPatch(id) => Calling(w, id) && w.ops[id].call.PatchInFlight?
    case LateRevoke(rights) => exists requested :: requested in w.lateRevokes && rights <= requested
    case ServeList(id) => Calling(w, id) && w.ops[id].call.ListInFlight?
    case ReadListReply(id, listing) =>
      Calling(w, id) && w.ops[id].call.ListServed? && Elements(listing) == w.ops[id].call.served
    case UnusableListReply(id) => Calling(w, id) && (w.ops[id].call.ListInFlight? || w.ops[id].call.ListServed?)
    case LoseListReply(id) => Calling(w, id) && (w.ops[id].call.ListInFlight? || w.ops[id].call.ListServed?)
    case OtherGrant(_) => true
    case OtherRevoke(_) => true
  }

  function AfterProgress(lease: Lease, progress: Progress): Op {
    match progress
    case Settled(l) => Leased(l, Idle)
    case Failed(l) => Leased(l, Idle)
    case CrossCheck(candidates) => Leased(lease, ListInFlight(candidates))
  }

  /** The candidates a listing is checked against. */
  function Candidates(call: Call): seq<Right>
    requires call.ListInFlight? || call.ListServed?
  {
    call.candidates
  }

  ghost function Apply(w: World, step: Step): World
    requires Enabled(w, step)
  {
    match step
    case SendGrant(id, requested) =>
      w.(ops := w.ops[id := if requested == {} then Leased(NewLease([]), Idle) else Granting(requested)])
    case CommitGrant(id, added) =>
      w.(held := w.held + added, ops := w.ops[id := Granted(added - w.held)])
    case GrantReply(id, granted) =>
      w.(ops := w.ops[id := Leased(NewLease(granted), Idle)],
         stranded := w.stranded + (w.ops[id].newly - Elements(granted)))
    case LoseGrantReply(id) =>
      w.(ops := w.ops[id := NoLease], stranded := w.stranded + w.ops[id].newly)
    case AbandonGrant(id) =>
      w.(ops := w.ops[id := NoLease], lateGrants := w.lateGrants + {w.ops[id].requested})
    case LateGrant(rights) =>
      w.(held := w.held + rights, stranded := w.stranded + (rights - w.held))
    case CallDispose(id) =>
      var op := w.ops[id];
      w.(ops := w.ops[id := Leased(Begin(op.lease), if Issues(op.lease) then AwaitingToken else op.call)])
    case TokenFails(id) =>
      w.(ops := w.ops[id := Leased(Reopen(w.ops[id].lease), Idle)])
    case SendPatch(id) =>
      w.(ops := w.ops[id := w.ops[id].(call := PatchInFlight)])
    case CommitPatch(id, taken) =>
      w.(held := w.held - taken, ops := w.ops[id := w.ops[id].(call := PatchCommitted(taken))])
    case ReadPatchReply(id, revoked) =>
      w.(ops := w.ops[id := AfterProgress(w.ops[id].lease, OnPatchReply(w.ops[id].lease, revoked))])
    case UnreadablePatchReply(id) =>
      w.(ops := w.ops[id := AfterProgress(w.ops[id].lease, OnPatchReply(w.ops[id].lease, []))])
    case LosePatchReply(id) =>
      w.(ops := w.ops[id := Leased(Reopen(w.ops[id].lease), Idle)])
    case AbandonPatch(id) =>
      w.(ops := w.ops[id := Leased(Reopen(w.ops[id].lease), Idle)],
         lateRevokes := w.lateRevokes + {Elements(w.ops[id].lease.owned)})
    case LateRevoke(rights) => w.(held := w.held - rights)
    case ServeList(id) =>
      w.(ops := w.ops[id := w.ops[id].(call := ListServed(w.ops[id].call.candidates, w.held))])
    case ReadListReply(id, listing) =>
      var op := w.ops[id];
      w.(ops := w.ops[id := AfterProgress(op.lease, OnListReply(op.lease, op.call.candidates, Listed(listing)))])
    case UnusableListReply(id) =>
      var op := w.ops[id];
      w.(ops := w.ops[id := AfterProgress(op.lease, OnListReply(op.lease, Candidates(op.call), ListUnusable))])
    case LoseListReply(id) =>
      var op := w.ops[id];
      w.(ops := w.ops[id := AfterProgress(op.lease, OnListReply(op.lease, Candidates(op.call), ListThrew))])
    case OtherGrant(rights) => w.(held := w.held + rights, foreign := w.foreign + rights)
    case OtherRevoke(rights) => w.(held := w.held - rights)
  }

  ghost const SYSTEM: System<World, Step> :=
    System((w, step) => Enabled(w, step), (w, step) => if Enabled(w, step) then Apply(w, step) else w)

  // ---------------------------------------------------------------- shape of reachable calls

  ghost predicate CallShape(lease: Lease, call: Call) {
    && NoDuplicates(lease.owned)
    && (call != Idle ==> lease.disposed && lease.owned != [] && lease.attempts >= 1)
    && (call.PatchCommitted? ==> call.removed <= Elements(lease.owned))
    && (call.ListInFlight? || call.ListServed? ==>
          lease.attempts >= 2 && NoDuplicates(Candidates(call)) && Elements(Candidates(call)) <= Elements(lease.owned))
  }

  ghost predicate Shape(w: World) {
    forall id :: Calling(w, id) ==> CallShape(w.ops[id].lease, w.ops[id].call)
  }

  lemma ShapeStep(w: World, step: Step)
    requires Shape(w) && Enabled(w, step)
    ensures Shape(Apply(w, step))
  {
  }

  /** A disposal that issues requests never overlaps another one of the same lease. */
  lemma OneRevokeInFlight(w: World, id: nat)
    requires Shape(w) && Calling(w, id) && Issues(w.ops[id].lease)
    ensures w.ops[id].call == Idle
  {
  }

  /** Between being taken and the end of time, a lease never gains a right. */
  lemma OwnedOnlyShrinks(w: World, step: Step, id: nat)
    requires Shape(w) && Enabled(w, step) && Calling(w, id)
    ensures Calling(Apply(w, step), id)
    ensures Elements(Apply(w, step).ops[id].lease.owned) <= Elements(w.ops[id].lease.owned)
  {
  }

  // ---------------------------------------------------------------- conservation

  /** What an operation answers for: of a lease, what its revoke left and its listing, once served, shows. */
  ghost function Accounts(op: Op): set<Right> {
    match op
    case Granting(_) => {}
    case Granted(newly) => newly
    case NoLease => {}
    case Leased(lease, call) =>
      match call
      case PatchCommitted(removed) => Elements(lease.owned) - removed
      case ListInFlight(candidates) => Elements(candidates)
      case ListServed(candidates, served) => Elements(candidates) * served
      case _ => Elements(lease.owned)
  }

  ghost predicate Accounted(w: World, r: Right) {
    || r in w.initial || r in w.foreign || r in w.stranded
    || exists id :: id in w.ops && r in Accounts(w.ops[id])
  }

  ghost predicate Conserved(w: World) {
    forall r :: r in w.held ==> Accounted(w, r)
  }

  /** The operation a step belongs to, if any. */
  function Actor(step: Step): Option<nat> {
    match step
    case LateGrant(_) => None
    case LateRevoke(_) => None
    case OtherGrant(_) => None
    case OtherRevoke(_) => None
    case _ => Some(step.id)
  }

  lemma OthersKeepAccounts(w: World, step: Step)
    requires Enabled(w, step)
    ensures forall id :: id in w.ops && Actor(step) != Some(id) ==>
              id in Apply(w, step).ops && Apply(w, step).ops[id] == w.ops[id]
  {
  }

  /** Reading a confirmation keeps answering for every owned right that was not removed. */
  lemma ConfirmationKeepsTheRest(w: World, id: nat, revoked: seq<Right>)
    requires Shape(w) && Enabled(w, ReadPatchReply(id, revoked))
    ensures Accounts(w.ops[id]) <= Accounts(Apply(w, ReadPatchReply(id, revoked)).ops[id])
  {
    var lease := w.ops[id].lease;
    SelectIsSetArithmetic(lease.owned, revoked);
    CountingIsMatching(lease.owned, revoked);
  }

  lemma UnreadableKeepsTheRest(w: World, id: nat)
    requires Shape(w) && Enabled(w, UnreadablePatchReply(id))
    ensures Accounts(w.ops[id]) <= Accounts(Apply(w, UnreadablePatchReply(id)).ops[id])
  {
    OutstandingOfNothing(w.ops[id].lease.owned);
  }

  /** So does reading a listing, for every candidate that it showed. */
  lemma ListingKeepsTheRest(w: World, id: nat, listing: seq<Right>)
    requires Shape(w) && Enabled(w, ReadListReply(id, listing))
    ensures Accounts(w.ops[id]) <= Accounts(Apply(w, ReadListReply(id, listing)).ops[id])
  {
    SelectIsSetArithmetic(w.ops[id].call.candidates, listing);
  }

  /** The operation that acts keeps answering for what it answered for and is still held, or strands it. */
  lemma ActorKeepsAccounts(w: World, step: Step, r: Right)
    requires Shape(w) && Enabled(w, step) && Actor(step).Some? && Actor(step).value in w.ops
    requires r in Accounts(w.ops[Actor(step).value]) && r in w.held && r in Apply(w, step).held
    ensures r in Accounts(Apply(w, step).ops[Actor(step).value]) || r in Apply(w, step).stranded
  {
    match step
    case ReadPatchReply(id, revoked) => ConfirmationKeepsTheRest(w, id, revoked);
    case UnreadablePatchReply(id) => UnreadableKeepsTheRest(w, id);
    case ReadListReply(id, listing) => ListingKeepsTheRest(w, id, listing);
    case _ =>
  }

  lemma ConservedStep(w: World, step: Step)
    requires Shape(w) && Conserved(w) && Enabled(w, step)
    ensures Conserved(Apply(w, step))
  {
    var v := Apply(w, step);
    OthersKeepAccounts(w, step);
    forall r | r in v.held ensures Accounted(v, r) {
      if r in w.held {
        assert Accounted(w, r);
        if id :| id in w.ops && r in Accounts(w.ops[id]) {
          if Actor(step) == Some(id) {
            ActorKeepsAccounts(w, step, r);
          }
          assert r in Accounts(v.ops[id]) || r in v.stranded;
        }
      } else if step.CommitGrant? {
        assert r in Accounts(v.ops[step.id]);
      }
    }
  }

  /**
    In every run, with any replies lost or partial and any requests carried out in part, every right the
    participant holds was there at the start, was granted by a client without leases, is owned by some lease
    and not known to be removed, or came from a grant that put it into no lease.
   */
  lemma LeaseConservation(w: World, steps: seq<Step>)
    requires Shape(w) && Conserved(w) && Run(SYSTEM, w, steps)
    ensures Shape(After(SYSTEM, w, steps)) && Conserved(After(SYSTEM, w, steps))
  {
    forall v, step | Shape(v) && Conserved(v) && Enabled(v, step)
      ensures Shape(Apply(v, step)) && Conserved(Apply(v, step))
    {
      ConservedStep(v, step);
      ShapeStep(v, step);
    }
    Always(SYSTEM, v => Shape(v) && Conserved(v), w, steps);
  }

  // ---------------------------------------------------------------- pre-existing rights

  /** The rights an operation, or an abandoned revoke, could still take away. */
  ghost predicate SparesInitial(w: World) {
    && w.initial <= w.held
    && w.stranded !! w.initial
    && (forall id :: id in w.ops ==> Claims(w.ops[id]) !! w.initial)
    && (forall rights :: rights in w.lateRevokes ==> rights !! w.initial)
  }

  ghost function Claims(op: Op): set<Right> {
    match op
    case Granted(newly) => newly
    case Leased(lease, _) => Elements(lease.owned)
    case _ => {}
  }

  lemma SparesInitialStep(w: World, step: Step)
    requires Shape(w) && SparesInitial(w) && Enabled(w, step) && !step.OtherRevoke?
    ensures SparesInitial(Apply(w, step)) && Apply(w, step).initial == w.initial
  {
    var v := Apply(w, step);
    OthersKeepAccounts(w, step);
    forall id | id in v.ops ensures Claims(v.ops[id]) !! v.initial {
      if Actor(step) == Some(id) && Calling(w, id) {
        OwnedOnlyShrinks(w, step, id);
      } else if Actor(step) != Some(id) {
        assert v.ops[id] == w.ops[id];
      }
    }
  }

  predicate LeavesRevoking(w: World, step: Step) {
    !step.OtherRevoke?
  }

  /** Nobody but the leases revokes. */
  ghost const ONLY_LEASES_REVOKE: System<World, Step> := Restricted(SYSTEM, LeavesRevoking)

  /**
    Without foreign revokes, no run puts an initially held right into a lease, whatever replies are lost
    and however often disposals are repeated; so no lease ever revokes one.
   */
  lemma PreexistingRightsAreSafe(w: World, steps: seq<Step>)
    requires Shape(w) && SparesInitial(w) && Run(ONLY_LEASES_REVOKE, w, steps)
    ensures var v := After(ONLY_LEASES_REVOKE, w, steps); Shape(v) && SparesInitial(v) && v.initial == w.initial
  {
    forall v, step | Shape(v) && SparesInitial(v) && Enabled(v, step) && LeavesRevoking(v, step)
      ensures Shape(Apply(v, step)) && SparesInitial(Apply(v, step)) && Apply(v, step).initial == v.initial
    {
      SparesInitialStep(v, step);
      ShapeStep(v, step);
    }
    Always(ONLY_LEASES_REVOKE, v => Shape(v) && SparesInitial(v) && v.initial == w.initial, w, steps);
  }

  ghost predicate NothingOutstanding(w: World) {
    && w.stranded == {} && w.foreign == {}
    && forall id :: id in w.ops ==> Claims(w.ops[id]) == {}
  }

  /** Once every lease has handed back and no grant was stranded, the participant is as it was found. */
  lemma ParticipantIsRestored(initial: set<Right>, steps: seq<Step>)
    requires Run(ONLY_LEASES_REVOKE, Start(initial), steps)
    requires NothingOutstanding(After(ONLY_LEASES_REVOKE, Start(initial), steps))
    ensures After(ONLY_LEASES_REVOKE, Start(initial), steps).held == initial
  {
    var w := After(ONLY_LEASES_REVOKE, Start(initial), steps);
    RestrictedRuns(SYSTEM, LeavesRevoking, Start(initial), steps);
    LeaseConservation(Start(initial), steps);
    PreexistingRightsAreSafe(Start(initial), steps);
    forall id | id in w.ops ensures Accounts(w.ops[id]) == {} {
      assert Accounts(w.ops[id]) <= Claims(w.ops[id]);
    }
    forall r | r in w.held ensures r in initial {
      assert Accounted(w, r);
    }
  }

  // ---------------------------------------------------------------- exclusive ownership

  /** No two operations answer for the same right, and what they answer for is held. */
  ghost predicate Exclusive(w: World) {
    && (forall id :: id in w.ops ==> Accounts(w.ops[id]) <= w.held)
    && (forall i, j :: i in w.ops && j in w.ops && i != j ==> Accounts(w.ops[i]) !! Accounts(w.ops[j]))
  }

  /** What a step makes an operation answer for again: rights its revoke removed, or its listing did not show. */
  ghost function Regained(w: World, step: Step): set<Right>
    requires Enabled(w, step)
  {
    match step
    case ReadPatchReply(id, revoked) => w.ops[id].call.removed - Elements(revoked)
    case UnreadablePatchReply(id) => w.ops[id].call.removed
    case LosePatchReply(id) => w.ops[id].call.removed
    case UnusableListReply(id) =>
      if w.ops[id].call.ListServed? then Elements(w.ops[id].call.candidates) - w.ops[id].call.served else {}
    case LoseListReply(id) => Elements(w.ops[id].lease.owned) - Accounts(w.ops[id])
    case _ => {}
  }

  /** The rights are held, and no operation but `id` answers for one of them. */
  ghost predicate Free(w: World, id: nat, rights: set<Right>) {
    rights <= w.held && forall j :: j in w.ops && j != id ==> rights !! Accounts(w.ops[j])
  }

  /** The exact condition for a step to leave ownership exclusive. */
  ghost predicate KeepsExclusive(w: World, step: Step)
    requires Enabled(w, step)
  {
    match step
    case LateRevoke(rights) => forall id :: id in w.ops ==> rights !! Accounts(w.ops[id])
    case OtherRevoke(rights) => forall id :: id in w.ops ==> rights !! Accounts(w.ops[id])
    case LateGrant(_) => true
    case OtherGrant(_) => true
    case _ => Free(w, step.id, Regained(w, step))
  }

  /** What an operation answers for after its own step. */
  lemma AccountsStep(w: World, step: Step)
    requires Shape(w) && Enabled(w, step) && Actor(step).Some?
    ensures var v, id := Apply(w, step), Actor(step).value;
            id in v.ops &&
            if id !in w.ops then Accounts(v.ops[id]) == {}
            else if step.CommitGrant? then Accounts(v.ops[id]) == step.added - w.held
            else if step.CommitPatch? then Accounts(v.ops[id]) == Accounts(w.ops[id]) - step.taken
            else Regained(w, step) <= Accounts(v.ops[id]) <= Accounts(w.ops[id]) + Regained(w, step)
  {
    if step.ReadPatchReply? {
      ConfirmedAccounts(w, step.id, step.revoked);
    } else if step.UnreadablePatchReply? {
      OutstandingOfNothing(w.ops[step.id].lease.owned);
    } else if step.ReadListReply? {
      SelectIsSetArithmetic(w.ops[step.id].call.candidates, step.listing);
    }
  }

  lemma ConfirmedAccounts(w: World, id: nat, revoked: seq<Right>)
    requires Shape(w) && Enabled(w, ReadPatchReply(id, revoked))
    ensures var op := Apply(w, ReadPatchReply(id, revoked)).ops[id];
            Accounts(op) == Elements(w.ops[id].lease.owned) - Elements(revoked)
  {
    SelectIsSetArithmetic(w.ops[id].lease.owned, revoked);
    CountingIsMatching(w.ops[id].lease.owned, revoked);
  }

  lemma HeldStep(w: World, step: Step, id: nat)
    requires Shape(w) && Exclusive(w) && Enabled(w, step) && KeepsExclusive(w, step) && id in Apply(w, step).ops
    ensures Accounts(Apply(w, step).ops[id]) <= Apply(w, step).held
  {
    OthersKeepAccounts(w, step);
    if Actor(step).Some? {
      AccountsStep(w, step);
    }
  }

  lemma DisjointStep(w: World, step: Step, i: nat, j: nat)
    requires Shape(w) && Exclusive(w) && Enabled(w, step) && KeepsExclusive(w, step) && i != j
    requires i in Apply(w, step).ops && j in Apply(w, step).ops && Actor(step) != Some(j)
    ensures Accounts(Apply(w, step).ops[i]) !! Accounts(Apply(w, step).ops[j])
  {
    OthersKeepAccounts(w, step);
    if Actor(step) == Some(i) {
      AccountsStep(w, step);
      assert Accounts(w.ops[j]) <= w.held;
    }
  }

  lemma OnlyIfFree(w: World, step: Step)
    requires Shape(w) && Exclusive(w) && Enabled(w, step) && Exclusive(Apply(w, step))
    ensures KeepsExclusive(w, step)
  {
    var v := Apply(w, step);
    OthersKeepAccounts(w, step);
    if Actor(step).Some? && Regained(w, step) != {} {
      AccountsStep(w, step);
      assert v.held == w.held;
      forall j | j in w.ops && j != step.id ensures Regained(w, step) !! Accounts(w.ops[j]) {
        assert v.ops[j] == w.ops[j];
      }
    }
  }

  /**
    A step leaves ownership exclusive if and only if whatever it makes a lease answer for again is held and
    nobody else's, and, if it is a foreign or a late revoke, it takes nothing that a lease answers for.
   */
  lemma ExclusiveStepIff(w: World, step: Step)
    requires Shape(w) && Exclusive(w) && Enabled(w, step)
    ensures Exclusive(Apply(w, step)) <==> KeepsExclusive(w, step)
  {
    var v := Apply(w, step);
    if KeepsExclusive(w, step) {
      forall i | i in v.ops ensures Accounts(v.ops[i]) <= v.held {
        HeldStep(w, step, i);
      }
      forall i, j | i in v.ops && j in v.ops && i != j ensures Accounts(v.ops[i]) !! Accounts(v.ops[j]) {
        if Actor(step) != Some(j) {
          DisjointStep(w, step, i, j);
        } else {
          DisjointStep(w, step, j, i);
        }
      }
    } else if Exclusive(v) {
      OnlyIfFree(w, step);
    }
  }

  ghost const KEEPING: System<World, Step> :=
    Restricted(SYSTEM, (w, step) => Enabled(w, step) && KeepsExclusive(w, step))

  /** Ownership is exclusive throughout a run if and only if every one of its steps meets that condition. */
  lemma {:induction false} OwnedExclusivelyIff(w: World, steps: seq<Step>)
    requires Shape(w) && Exclusive(w) && Run(SYSTEM, w, steps)
    ensures Throughout(SYSTEM, v => Exclusive(v), w, steps) <==> Run(KEEPING, w, steps)
    decreases |steps|
  {
    if steps != [] {
      var v := Apply(w, steps[0]);
      ExclusiveStepIff(w, steps[0]);
      ShapeStep(w, steps[0]);
      if Exclusive(v) {
        OwnedExclusivelyIff(v, steps[1..]);
      }
    }
  }

  // ---------------------------------------------------------------- runs in which leases are told in full

  /**
    Leases learn all that their revokes removed, and nothing else revokes: a confirmation names everything
    removed, it is lost or unreadable only when that is nothing, and so is the listing of a retry.
   */
  ghost predicate ToldInFull(w: World, step: Step)
    requires Enabled(w, step)
  {
    match step
    case ReadPatchReply(id, revoked) => Elements(revoked) == w.ops[id].call.removed
    case UnreadablePatchReply(id) => w.ops[id].call.removed == {}
    case LosePatchReply(id) => w.ops[id].call.removed == {}
    case LoseListReply(id) => Elements(w.ops[id].lease.owned) == Elements(w.ops[id].call.candidates)
    case LateRevoke(_) => false
    case OtherRevoke(_) => false
    case _ => true
  }

  ghost const TELLING: System<World, Step> :=
    Restricted(SYSTEM, (w, step) => Enabled(w, step) && ToldInFull(w, step))

  /** A listing that was served showed every candidate. */
  ghost predicate AllShown(w: World) {
    forall id :: Calling(w, id) && w.ops[id].call.ListServed? ==>
      Elements(w.ops[id].call.candidates) <= w.ops[id].call.served
  }

  lemma AllShownStep(w: World, step: Step)
    requires Shape(w) && Exclusive(w) && AllShown(w) && Enabled(w, step)
    ensures AllShown(Apply(w, step))
  {
    OthersKeepAccounts(w, step);
    if step.ServeList? {
      assert Accounts(w.ops[step.id]) <= w.held;
    }
  }

  lemma NothingIsRegained(w: World, step: Step)
    requires Shape(w) && AllShown(w) && Enabled(w, step) && ToldInFull(w, step)
    ensures KeepsExclusive(w, step)
  {
    assert Regained(w, step) == {};
  }

  /** In every run in which leases are told in full, partial revokes included, ownership is exclusive. */
  lemma LeasesOwnExclusively(w: World, steps: seq<Step>)
    requires Shape(w) && Exclusive(w) && AllShown(w) && Run(TELLING, w, steps)
    ensures var v := After(TELLING, w, steps); Shape(v) && Exclusive(v) && AllShown(v)
  {
    forall v, step | Shape(v) && Exclusive(v) && AllShown(v) && Enabled(v, step) && ToldInFull(v, step)
      ensures Shape(Apply(v, step)) && Exclusive(Apply(v, step)) && AllShown(Apply(v, step))
    {
      NothingIsRegained(v, step);
      ExclusiveStepIff(v, step);
      AllShownStep(v, step);
      ShapeStep(v, step);
    }
    Always(TELLING, v => Shape(v) && Exclusive(v) && AllShown(v), w, steps);
  }

  // ---------------------------------------------------------------- runs in which revokes remove everything

  /** A revoke also removes everything requested that is held. */
  ghost predicate Orderly(w: World, step: Step)
    requires Enabled(w, step)
  {
    ToldInFull(w, step) && (step.CommitPatch? ==> step.taken == Elements(w.ops[step.id].lease.owned) * w.held)
  }

  /** Every step is orderly, except perhaps for those listed. */
  ghost function OrderlyBut(exceptions: set<Step>): System<World, Step> {
    Restricted(SYSTEM, (w, step) => Enabled(w, step) && (Orderly(w, step) || step in exceptions))
  }

  /** Every revoke so far took all that its lease owns, and needed no listing. */
  ghost predicate Thorough(w: World) {
    forall id :: Calling(w, id) ==>
      && !w.ops[id].call.ListInFlight? && !w.ops[id].call.ListServed?
      && (w.ops[id].call.PatchCommitted? ==> w.ops[id].call.removed == Elements(w.ops[id].lease.owned))
  }

  /** Then a delivered confirmation is complete: the disposal hands everything back. */
  lemma DeliveredConfirmationIsComplete(w: World, id: nat, revoked: seq<Right>)
    requires Shape(w) && Thorough(w) && Enabled(w, ReadPatchReply(id, revoked))
    requires ToldInFull(w, ReadPatchReply(id, revoked))
    ensures var op := Apply(w, ReadPatchReply(id, revoked)).ops[id];
            op.Leased? && op.call == Idle && op.lease.owned == [] && op.lease.disposed
  {
    CountingIsMatching(w.ops[id].lease.owned, revoked);
  }

  lemma ThoroughStep(w: World, step: Step)
    requires Shape(w) && Exclusive(w) && Thorough(w) && Enabled(w, step) && Orderly(w, step)
    ensures Thorough(Apply(w, step))
  {
    OthersKeepAccounts(w, step);
    if step.ReadPatchReply? {
      DeliveredConfirmationIsComplete(w, step.id, step.revoked);
    } else if step.CommitPatch? {
      assert Accounts(w.ops[step.id]) <= w.held;
    } else if step.UnreadablePatchReply? {
      NotRemovedNotOwned(w, step.id);
    }
  }

  lemma NotRemovedNotOwned(w: World, id: nat)
    requires Shape(w) && Thorough(w) && Calling(w, id) && w.ops[id].call.PatchCommitted?
    ensures w.ops[id].call.removed != {}
  {
    assert w.ops[id].lease.owned[0] in Elements(w.ops[id].lease.owned);
  }

  /** In every orderly run, every disposal that is confirmed is confirmed completely, and none needs a listing. */
  lemma OrderlyDisposalsComplete(w: World, steps: seq<Step>)
    requires Shape(w) && Exclusive(w) && AllShown(w) && Thorough(w) && Run(OrderlyBut({}), w, steps)
    ensures var v := After(OrderlyBut({}), w, steps); Shape(v) && Exclusive(v) && AllShown(v) && Thorough(v)
  {
    forall v, step | Shape(v) && Exclusive(v) && AllShown(v) && Thorough(v) && Enabled(v, step) && Orderly(v, step)
      ensures var u := Apply(v, step); Shape(u) && Exclusive(u) && AllShown(u) && Thorough(u)
    {
      NothingIsRegained(v, step);
      ExclusiveStepIff(v, step);
      AllShownStep(v, step);
      ThoroughStep(v, step);
      ShapeStep(v, step);
    }
    Always(OrderlyBut({}), v => Shape(v) && Exclusive(v) && AllShown(v) && Thorough(v), w, steps);
  }

  // ---------------------------------------------------------------- a run that breaks it

  /** Lease `id` is granted the one right `r`. */
  lemma Acquire(w0: World, before: seq<Step>, id: nat, r: Right, exceptions: set<Step>)
    returns (steps: seq<Step>, w: World)
    requires Run(OrderlyBut(exceptions), w0, before)
    requires var v := After(OrderlyBut(exceptions), w0, before); id !in v.ops && r !in v.held
    ensures Run(OrderlyBut(exceptions), w0, steps) && After(OrderlyBut(exceptions), w0, steps) == w
    ensures var v := After(OrderlyBut(exceptions), w0, before);
            w == v.(held := v.held + {r}, ops := v.ops[id := Leased(Lease([r], false, 0), Idle)])
  {
    var v := After(OrderlyBut(exceptions), w0, before);
    assert Elements([r]) == {r};
    steps, w := Then(OrderlyBut(exceptions), w0, before, SendGrant(id, {r}));
    steps, w := Then(OrderlyBut(exceptions), w0, steps, CommitGrant(id, {r}));
    steps, w := Then(OrderlyBut(exceptions), w0, steps, GrantReply(id, [r]));
  }

  /** Lease `id`, which owns `r` alone, is disposed of as far as the commit of its revoke. */
  lemma Relinquish(w0: World, before: seq<Step>, id: nat, r: Right, attempts: nat, exceptions: set<Step>)
    returns (steps: seq<Step>, w: World)
    requires Run(OrderlyBut(exceptions), w0, before)
    requires var v := After(OrderlyBut(exceptions), w0, before);
             id in v.ops && v.ops[id] == Leased(Lease([r], false, attempts), Idle) && r in v.held
    ensures Run(OrderlyBut(exceptions), w0, steps) && After(OrderlyBut(exceptions), w0, steps) == w
    ensures var v := After(OrderlyBut(exceptions), w0, before);
            var begun := Lease([r], true, attempts + 1);
            w == v.(held := v.held - {r}, ops := v.ops[id := Leased(begun, PatchCommitted({r}))])
  {
    var v := After(OrderlyBut(exceptions), w0, before);
    var begun := Lease([r], true, attempts + 1);
    steps, w := Then(OrderlyBut(exceptions), w0, before, CallDispose(id));
    steps, w := Then(OrderlyBut(exceptions), w0, steps, SendPatch(id));
    assert w == v.(ops := v.ops[id := Leased(begun, PatchInFlight)]);
    steps, w := CommitAll(w0, steps, id, r, exceptions);
  }

  lemma CommitAll(w0: World, before: seq<Step>, id: nat, r: Right, exceptions: set<Step>)
    returns (steps: seq<Step>, w: World)
    requires Run(OrderlyBut(exceptions), w0, before)
    requires var v := After(OrderlyBut(exceptions), w0, before);
             Calling(v, id) && v.ops[id].lease.owned == [r] && v.ops[id].call == PatchInFlight && r in v.held
    ensures Run(OrderlyBut(exceptions), w0, steps) && After(OrderlyBut(exceptions), w0, steps) == w
    ensures var v := After(OrderlyBut(exceptions), w0, before);
            w == v.(held := v.held - {r}, ops := v.ops[id := v.ops[id].(call := PatchCommitted({r}))])
  {
    assert Elements([r]) == {r};
    steps, w := Then(OrderlyBut(exceptions), w0, before, CommitPatch(id, {r}));
  }

  /**
    One lost confirmation is enough to lose exclusivity: a second lease acquires the right that the first
    still lists, and the first one's retry takes it away from the second.
   */
  lemma LostConfirmationSharesARight() returns (steps: seq<Step>)
    ensures Run(OrderlyBut({LosePatchReply(1)}), Start({}), steps)
    ensures var w := After(OrderlyBut({LosePatchReply(1)}), Start({}), steps);
            var r := CanActAs("alice::p");
            !Exclusive(w) && Calling(w, 1) && Calling(w, 2) && r !in w.held &&
            r in w.ops[1].lease.owned && r in w.ops[2].lease.owned && w.ops[2].lease.attempts == 0
  {
    var r: Right := CanActAs("alice::p");
    var lost, w := {LosePatchReply(1)}, Start({});
    steps, w := TwoLeases(r);
    steps, w := Relinquish(Start({}), steps, 1, r, 1, lost);
    assert r in Accounts(w.ops[2]);
  }

  /** The first lease's confirmation is lost, and the second acquires the right that the first still lists. */
  lemma TwoLeases(r: Right) returns (steps: seq<Step>, w: World)
    ensures Run(OrderlyBut({LosePatchReply(1)}), Start({}), steps)
    ensures After(OrderlyBut({LosePatchReply(1)}), Start({}), steps) == w && w.held == {r}
    ensures w.ops == map[1 := Leased(Lease([r], false, 1), Idle), 2 := Leased(Lease([r], false, 0), Idle)]
  {
    var w0, lost := Start({}), {LosePatchReply(1)};
    steps, w := Unheard(r);
    steps, w := Acquire(w0, steps, 2, r, lost);
  }

  lemma Unheard(r: Right) returns (steps: seq<Step>, w: World)
    ensures Run(OrderlyBut({LosePatchReply(1)}), Start({}), steps)
    ensures After(OrderlyBut({LosePatchReply(1)}), Start({}), steps) == w && w.held == {}
    ensures w.ops == map[1 := Leased(Lease([r], false, 1), Idle)]
  {
    var w0, lost := Start({}), {LosePatchReply(1)};
    steps, w := Acquire(w0, [], 1, r, lost);
    steps, w := Relinquish(w0, steps, 1, r, 0, lost);
    steps, w := Then(OrderlyBut(lost), w0, steps, LosePatchReply(1));
  }

  // ---------------------------------------------------------------- convergence of a retry

  /** The retried disposal is not cut off and its revoke removes everything; others grant none of `rights`. */
  ghost predicate Quiet(w: World, step: Step, id: nat, rights: set<Right>)
    requires Enabled(w, step)
  {
    if Actor(step) == Some(id) then
      && !step.LosePatchReply? && !step.AbandonPatch? && !step.UnusableListReply? && !step.LoseListReply?
      && (step.CommitPatch? ==> step.taken == Elements(w.ops[id].lease.owned) * w.held)
    else
      match step
      case CommitGrant(_, added) => added !! rights
      case LateGrant(granted) => granted !! rights
      case OtherGrant(granted) => granted !! rights
      case _ => true
  }

  ghost function Quietly(id: nat, rights: set<Right>): System<World, Step> {
    Restricted(SYSTEM, (w, step) => Enabled(w, step) && Quiet(w, step, id, rights))
  }

  /** A repeated disposal under way: what each phase already knows about `rights`. */
  ghost predicate Converging(w: World, id: nat, rights: set<Right>) {
    && Calling(w, id)
    && var lease, call := w.ops[id].lease, w.ops[id].call;
       && lease.disposed && lease.attempts >= 2 && NoDuplicates(lease.owned) && Elements(lease.owned) <= rights
       && match call
          case Idle => lease.owned == [] && w.held !! rights
          case AwaitingToken => false
          case PatchInFlight => Elements(lease.owned) == rights
          case PatchCommitted(removed) => w.held !! rights
          case ListInFlight(candidates) => w.held !! rights && Elements(candidates) <= rights
          case ListServed(candidates, served) => w.held !! rights && Elements(candidates) <= rights && served !! rights
  }

  lemma ConvergingStep(w: World, step: Step, id: nat, rights: set<Right>)
    requires Converging(w, id, rights) && Enabled(w, step) && Quiet(w, step, id, rights)
    ensures Converging(Apply(w, step), id, rights)
  {
    OthersKeepAccounts(w, step);
    if step.ReadListReply? && step.id == id {
      var call := w.ops[id].call;
      SelectIsSetArithmetic(call.candidates, step.listing);
      EmptyIff(StillHeld(call.candidates, step.listing));
    } else if Actor(step) == Some(id) && (step.ReadPatchReply? || step.UnreadablePatchReply?) {
      var revoked := if step.ReadPatchReply? then step.revoked else [];
      SelectIsSetArithmetic(w.ops[id].lease.owned, revoked);
    }
  }

  /**
    From the moment a repeated disposal has its revoke in flight, however other clients interleave: as long
    as its replies arrive and nobody re-grants its rights, it can only end owning nothing, marked disposed,
    with none of the rights left on the participant.
   */
  lemma RetryConverges(w: World, steps: seq<Step>, id: nat, rights: set<Right>)
    requires Converging(w, id, rights) && Run(Quietly(id, rights), w, steps)
    ensures Converging(After(Quietly(id, rights), w, steps), id, rights)
  {
    forall v, step | Converging(v, id, rights) && Enabled(v, step) && Quiet(v, step, id, rights)
      ensures Converging(Apply(v, step), id, rights)
    {
      ConvergingStep(v, step, id, rights);
    }
    Always(Quietly(id, rights), v => Converging(v, id, rights), w, steps);
  }

  // ---------------------------------------------------------------- the steps are the code

  /**
    Taken without interruption, the steps of one disposal are the object's own disposal: whether or not it
    issues anything, whatever part of the revoke commits, and whatever comes back.
   */
  lemma StepsComposeToDispose(w: World, id: nat, taken: set<Right>, tokenOk: bool, patch: PatchReply, list: ListReply)
    returns (steps: seq<Step>, v: World)
    requires Calling(w, id) && w.ops[id].call == Idle && taken <= Elements(w.ops[id].lease.owned) * w.held
    requires patch.PatchOk? && patch.revoked.Some? ==> Reports(patch.revoked.value, taken)
    requires list.Listed? ==> Elements(list.rights) == w.held - taken
    ensures Run(SYSTEM, w, steps) && After(SYSTEM, w, steps) == v
    ensures v.held == if Issues(w.ops[id].lease) && tokenOk then w.held - taken else w.held
    ensures v.ops == w.ops[id := Leased(Dispose(w.ops[id].lease, tokenOk, patch, list).0, Idle)]
  {
    var lease := w.ops[id].lease;
    if !Issues(lease) {
      steps, v := Then(SYSTEM, w, [], CallDispose(id));
    } else if !tokenOk {
      steps, v := Then(SYSTEM, w, [], CallDispose(id));
      steps, v := Then(SYSTEM, w, steps, TokenFails(id));
    } else if patch.PatchThrew? {
      steps, v := Committed(w, id, taken);
      steps, v := Then(SYSTEM, w, steps, LosePatchReply(id));
    } else {
      steps, v := Answered(w, id, taken, patch, list);
    }
  }

  /** The part of a disposal after its revoke was answered. */
  function AfterAnswer(begun: Lease, patch: PatchReply, list: ListReply): Op
    requires patch.PatchOk?
  {
    var progress := OnPatchReply(begun, Reported(patch));
    AfterProgress(begun, if progress.CrossCheck? then OnListReply(begun, progress.candidates, list) else progress)
  }

  lemma AnswerEndsTheDisposal(lease: Lease, patch: PatchReply, list: ListReply)
    requires Issues(lease) && patch.PatchOk?
    ensures AfterAnswer(Begin(lease), patch, list) == Leased(Dispose(lease, true, patch, list).0, Idle)
  {
  }

  lemma Answered(w: World, id: nat, taken: set<Right>, patch: PatchReply, list: ListReply)
    returns (steps: seq<Step>, v: World)
    requires Calling(w, id) && w.ops[id].call == Idle && Issues(w.ops[id].lease)
    requires taken <= Elements(w.ops[id].lease.owned) * w.held && patch.PatchOk?
    requires patch.revoked.Some? ==> Reports(patch.revoked.value, taken)
    requires list.Listed? ==> Elements(list.rights) == w.held - taken
    ensures Run(SYSTEM, w, steps) && After(SYSTEM, w, steps) == v
    ensures v.held == w.held - taken
    ensures v.ops == w.ops[id := Leased(Dispose(w.ops[id].lease, true, patch, list).0, Idle)]
  {
    var lease := w.ops[id].lease;
    AnswerEndsTheDisposal(lease, patch, list);
    steps, v := Committed(w, id, taken);
    steps, v := Confirmed(w, steps, id, patch);
    if OnPatchReply(Begin(lease), Reported(patch)).CrossCheck? {
      steps, v := CrossChecked(w, steps, id, list);
    }
  }

  lemma Committed(w: World, id: nat, taken: set<Right>) returns (steps: seq<Step>, v: World)
    requires Calling(w, id) && w.ops[id].call == Idle && Issues(w.ops[id].lease)
    requires taken <= Elements(w.ops[id].lease.owned) * w.held
    ensures Run(SYSTEM, w, steps) && After(SYSTEM, w, steps) == v
    ensures v == w.(held := w.held - taken, ops := w.ops[id := Leased(Begin(w.ops[id].lease), PatchCommitted(taken))])
  {
    steps, v := Then(SYSTEM, w, [], CallDispose(id));
    steps, v := Then(SYSTEM, w, steps, SendPatch(id));
    steps, v := Then(SYSTEM, w, steps, CommitPatch(id, taken));
  }

  lemma Confirmed(w0: World, before: seq<Step>, id: nat, patch: PatchReply) returns (steps: seq<Step>, w: World)
    requires Run(SYSTEM, w0, before) && patch.PatchOk?
    requires Calling(After(SYSTEM, w0, before), id) && After(SYSTEM, w0, before).ops[id].call.PatchCommitted?
    requires patch.revoked.Some? ==> Reports(patch.revoked.value, After(SYSTEM, w0, before).ops[id].call.removed)
    ensures Run(SYSTEM, w0, steps) && After(SYSTEM, w0, steps) == w
    ensures var v := After(SYSTEM, w0, before);
            var lease := v.ops[id].lease;
            w == v.(ops := v.ops[id := AfterProgress(lease, OnPatchReply(lease, Reported(patch)))])
  {
    if patch.revoked.Some? {
      steps, w := Then(SYSTEM, w0, before, ReadPatchReply(id, patch.revoked.value));
    } else {
      steps, w := Then(SYSTEM, w0, before, UnreadablePatchReply(id));
    }
  }

  lemma CrossChecked(w0: World, before: seq<Step>, id: nat, list: ListReply) returns (steps: seq<Step>, w: World)
    requires Run(SYSTEM, w0, before)
    requires Calling(After(SYSTEM, w0, before), id) && After(SYSTEM, w0, before).ops[id].call.ListInFlight?
    requires list.Listed? ==> Elements(list.rights) == After(SYSTEM, w0, before).held
    ensures Run(SYSTEM, w0, steps) && After(SYSTEM, w0, steps) == w
    ensures var v := After(SYSTEM, w0, before);
            var Leased(lease, call) := v.ops[id];
            w == v.(ops := v.ops[id := AfterProgress(lease, OnListReply(lease, call.candidates, list))])
  {
    match list {
      case Listed(rights) =>
        var v := After(SYSTEM, w0, before);
        steps, w := Then(SYSTEM, w0, before, ServeList(id));
        assert w == v.(ops := v.ops[id := v.ops[id].(call := ListServed(v.ops[id].call.candidates, v.held))]);
        steps, w := ListRead(w0, steps, id, rights);
      case ListUnusable =>
        steps, w := Then(SYSTEM, w0, before, UnusableListReply(id));
      case ListThrew =>
        steps, w := Then(SYSTEM, w0, before, LoseListReply(id));
    }
  }

  lemma ListRead(w0: World, before: seq<Step>, id: nat, rights: seq<Right>) returns (steps: seq<Step>, w: World)
    requires Run(SYSTEM, w0, before)
    requires var v := After(SYSTEM, w0, before);
             Calling(v, id) && v.ops[id].call.ListServed? && Elements(rights) == v.ops[id].call.served
    ensures Run(SYSTEM, w0, steps) && After(SYSTEM, w0, steps) == w
    ensures var v := After(SYSTEM, w0, before);
            var Leased(lease, call) := v.ops[id];
            w == v.(ops := v.ops[id := AfterProgress(lease, OnListReply(lease, call.candidates, Listed(rights)))])
  {
    steps, w := Then(SYSTEM, w0, before, ReadListReply(id, rights));
  }

  /** Retrying any failed disposal brings it to where `RetryConverges` starts. */
  lemma RetryBeginsConverging(w: World, id: nat)
    requires Shape(w) && Calling(w, id) && Issues(w.ops[id].lease) && w.ops[id].lease.attempts >= 1
    ensures Enabled(w, CallDispose(id)) && Enabled(Apply(w, CallDispose(id)), SendPatch(id))
    ensures Converging(Apply(Apply(w, CallDispose(id)), SendPatch(id)), id, Elements(w.ops[id].lease.owned))
  {
    OneRevokeInFlight(w, id);
  }

  /** The invariants above hold before anyone has asked for anything. */
  lemma StartIsSound(initial: set<Right>)
    ensures var w := Start(initial);
            Shape(w) && Conserved(w) && SparesInitial(w) && Exclusive(w) && AllShown(w) && Thorough(w)
  {
  }
}
