/**
  A lease on ledger-user rights: the client side of taking rights on a shared
  participant and handing back exactly those that were newly granted.

  The client's own decisions are pure functions of its state and of one reply;
  `UserRightsLease` is the object that carries that state, and `LeaseSystem`
  interleaves any number of leases on one participant.
 */
module Leasing {
  import opened Common

  datatype ServedRight =
    | CanActAs(party: string)
    | CanReadAs(party: string)
    | Unmodelled(raw: string)

  /** No JSON text starts with the letter C, so raw text cannot look like a modelled identity. */
  type Right = r: ServedRight | r.Unmodelled? ==> r.raw == [] || r.raw[0] != 'C' witness CanActAs("")

  function Identity(right: Right): string {
    match right
    case CanActAs(party) => "CanActAs " + party
    case CanReadAs(party) => "CanReadAs " + party
    case Unmodelled(raw) => raw
  }

  lemma KindsAreTold(a: Right, b: Right)
    requires a.CanActAs? != b.CanActAs? || a.CanReadAs? != b.CanReadAs?
    ensures Identity(a) != Identity(b)
  {
    forall r: Right
      ensures r.CanActAs? ==> Identity(r)[0] == 'C' && Identity(r)[3] == 'A'
      ensures r.CanReadAs? ==> Identity(r)[0] == 'C' && Identity(r)[3] == 'R'
    {
    }
  }

  /** Matching rights across responses by identity never confuses two rights. */
  lemma IdentityIsInjective(a: Right, b: Right)
    ensures Identity(a) == Identity(b) <==> a == b
  {
    if a.CanActAs? == b.CanActAs? && a.CanReadAs? == b.CanReadAs? {
      assert a.CanActAs? ==> Identity(a)[9..] == a.party && Identity(b)[9..] == b.party;
      assert a.CanReadAs? ==> Identity(a)[10..] == a.party && Identity(b)[10..] == b.party;
    } else {
      KindsAreTold(a, b);
    }
  }

  function Identities(rights: seq<Right>): set<string> {
    set right | right in rights :: Identity(right)
  }

  /** The entries of `rights`, in order, whose identity is (or is not) among `identities`. */
  function Select(rights: seq<Right>, identities: set<string>, among: bool): (kept: seq<Right>)
    ensures forall r :: r in kept <==> r in rights && ((Identity(r) in identities) <==> among)
    ensures |kept| <= |rights|
    ensures NoDuplicates(rights) ==> NoDuplicates(kept)
  {
    if rights == [] then []
    else
      var rest := Select(rights[1..], identities, among);
      if (Identity(rights[0]) in identities) <==> among then [rights[0]] + rest else rest
  }

  function Outstanding(owned: seq<Right>, settled: seq<Right>): seq<Right> {
    Select(owned, Identities(settled), false)
  }

  function StillHeld(candidates: seq<Right>, held: seq<Right>): seq<Right> {
    Select(candidates, Identities(held), true)
  }

  /** Identity matching is set difference and set intersection of rights. */
  lemma SelectIsSetArithmetic(rights: seq<Right>, listed: seq<Right>)
    ensures Elements(Outstanding(rights, listed)) == Elements(rights) - Elements(listed)
    ensures Elements(StillHeld(rights, listed)) == Elements(rights) * Elements(listed)
  {
    forall r: Right ensures Identity(r) in Identities(listed) <==> r in listed {
      if Identity(r) in Identities(listed) {
        var other :| other in listed && Identity(other) == Identity(r);
        IdentityIsInjective(other, r);
      }
    }
  }

  // ---------------------------------------------------------------- client state

  datatype Lease = Lease(owned: seq<Right>, disposed: bool, attempts: nat)

  /** Where a disposal stands once a reply has been digested. */
  datatype Progress =
    | Settled(lease: Lease)
    | CrossCheck(candidates: seq<Right>)
    | Failed(lease: Lease)

  datatype PatchReply = PatchThrew | PatchOk(revoked: Option<seq<Right>>)
  datatype ListReply = ListThrew | ListUnusable | Listed(rights: seq<Right>)
  datatype Ending = NothingSent | HandedBack | Threw

  function NewLease(granted: seq<Right>): Lease {
    Lease(granted, false, 0)
  }

  predicate Issues(lease: Lease) {
    !lease.disposed && lease.owned != []
  }

  /** The guard of a disposal: it always marks the lease, and counts only attempts that go on. */
  function Begin(lease: Lease): Lease {
    if Issues(lease) then lease.(disposed := true, attempts := lease.attempts + 1)
    else lease.(disposed := true)
  }

  function Reopen(lease: Lease): Lease {
    lease.(disposed := false)
  }

  function Conclude(lease: Lease, outstanding: seq<Right>): Progress {
    if outstanding == [] then Settled(lease.(owned := []))
    else Failed(Reopen(lease.(owned := outstanding)))
  }

  function OnPatchReply(lease: Lease, revoked: seq<Right>): Progress {
    if |revoked| >= |lease.owned| then Settled(lease.(owned := []))
    else if lease.attempts > 1 then CrossCheck(Outstanding(lease.owned, revoked))
    else Conclude(lease, Outstanding(lease.owned, revoked))
  }

  function OnListReply(lease: Lease, candidates: seq<Right>, reply: ListReply): Progress {
    match reply
    case ListThrew => Failed(Reopen(lease))
    case ListUnusable => Conclude(lease, candidates)
    case Listed(rights) => Conclude(lease, StillHeld(candidates, rights))
  }

  /** A whole disposal, given the replies it would meet. */
  function Dispose(lease: Lease, tokenOk: bool, patch: PatchReply, list: ListReply): (Lease, Ending) {
    var begun := Begin(lease);
    if !Issues(lease) then (begun, NothingSent)
    else if !tokenOk || patch.PatchThrew? then (Reopen(begun), Threw)
    else
      var progress := OnPatchReply(begun, Reported(patch));
      var final := if progress.CrossCheck? then OnListReply(begun, progress.candidates, list) else progress;
      match final
      case Settled(l) => (l, HandedBack)
      case Failed(l) => (l, Threw)
      case CrossCheck(_) => (begun, Threw)
  }

  /** An unreadable confirmation counts as confirming nothing. */
  function Reported(patch: PatchReply): seq<Right>
    requires patch.PatchOk?
  {
    if patch.revoked.Some? then patch.revoked.value else []
  }

  /** The lease object: `_owned`, `_disposed` and `_attempts`, updated in place by a disposal. */
  class UserRightsLease {
    var owned: seq<Right>
    var disposed: bool
    var attempts: nat

    function Model(): Lease
      reads this
    {
      Lease(owned, disposed, attempts)
    }

    constructor (granted: seq<Right>)
      ensures Model() == NewLease(granted)
    {
      owned, disposed, attempts := granted, false, 0;
    }

    /**
      One uncontended call. `patched` and `listed` are the requests it issued: the rights sent for
      revocation, and whether the user's rights were read back.
     */
    method DisposeAsync(tokenOk: bool, patch: PatchReply, list: ListReply)
      returns (ending: Ending, patched: Option<seq<Right>>, listed: bool)
      modifies this
      ensures (Model(), ending) == Dispose(old(Model()), tokenOk, patch, list)
      ensures patched == if Issues(old(Model())) && tokenOk then Some(old(owned)) else None
      ensures listed ==> old(attempts) >= 1 && patched.Some? && patch.PatchOk?
      ensures ending == HandedBack ==> disposed && owned == []
      ensures ending == NothingSent ==> disposed && owned == old(owned)
      ensures ending == Threw ==> !disposed
    {
      patched, listed := None, false;
      var before := disposed;
      disposed := true;
      if before || |owned| == 0 {
        return NothingSent, None, false;
      }
      attempts := attempts + 1;
      var attempt := attempts;
      var requested := |owned|;
      if !tokenOk {
        disposed := false;
        return Threw, None, false;
      }
      patched := Some(owned);
      if patch.PatchThrew? {
        disposed := false;
        return Threw, patched, false;
      }
      var revoked := Reported(patch);
      if |revoked| >= requested {
        owned := [];
        return HandedBack, patched, false;
      }
      var outstanding := Outstanding(owned, revoked);
      if attempt > 1 {
        listed := true;
        if list.ListThrew? {
          disposed := false;
          return Threw, patched, true;
        }
        if list.Listed? {
          outstanding := StillHeld(outstanding, list.rights);
        }
      }
      owned := outstanding;
      if |outstanding| == 0 {
        return HandedBack, patched, listed;
      }
      disposed := false;
      ending := Threw;
    }
  }

  // ---------------------------------------------------------------- what a disposal promises

  /** `reply` is what an honest participant answers about the set `rights`: each right once. */
  ghost predicate Lists(reply: seq<Right>, rights: set<Right>) {
    NoDuplicates(reply) && Elements(reply) == rights
  }

  /** Whatever the replies say, no right enters the lease, and duplicates do not appear. */
  lemma DisposalOnlyNarrows(lease: Lease, tokenOk: bool, patch: PatchReply, list: ListReply)
    ensures Elements(Dispose(lease, tokenOk, patch, list).0.owned) <= Elements(lease.owned)
    ensures NoDuplicates(lease.owned) ==> NoDuplicates(Dispose(lease, tokenOk, patch, list).0.owned)
  {
  }

  /** A first disposal that meets an honest confirmation hands back exactly when nothing owned was already gone. */
  lemma FirstDisposalHandsBackIffAllHeld(lease: Lease, held: set<Right>, revoked: seq<Right>, list: ListReply)
    requires NoDuplicates(lease.owned) && Issues(lease) && lease.attempts == 0
    requires Lists(revoked, Elements(lease.owned) * held)
    ensures var (after, ending) := Dispose(lease, true, PatchOk(Some(revoked)), list);
            (ending == HandedBack <==> Elements(lease.owned) <= held) &&
            Elements(after.owned) == Elements(lease.owned) - held
  {
    var owned := Elements(lease.owned);
    CountingIsMatching(lease.owned, revoked);
    assert owned <= held <==> owned <= Elements(revoked);
    var out := Outstanding(lease.owned, revoked);
    SelectIsSetArithmetic(lease.owned, revoked);
    assert Elements(out) == owned - held;
    EmptyIff(out);
  }

  /**
    A repeated disposal whose confirmation and listing both arrive keeps exactly the rights that the
    confirmation does not cover and the listing still shows; it hands back when there are none.
   */
  lemma RetryKeepsWhatIsStillListed(lease: Lease, revoked: seq<Right>, listed: seq<Right>)
    requires NoDuplicates(lease.owned) && Issues(lease) && lease.attempts >= 1
    requires NoDuplicates(revoked) && Elements(revoked) <= Elements(lease.owned)
    ensures var (after, ending) := Dispose(lease, true, PatchOk(Some(revoked)), Listed(listed));
            Elements(after.owned) == (Elements(lease.owned) - Elements(revoked)) * Elements(listed) &&
            (ending == HandedBack <==> after.owned == []) && (ending == HandedBack <==> after.disposed)
  {
    if |revoked| >= |lease.owned| {
      SameSizeSameElements(revoked, lease.owned);
    } else {
      var out := Outstanding(lease.owned, revoked);
      SelectIsSetArithmetic(lease.owned, revoked);
      SelectIsSetArithmetic(out, listed);
      EmptyIff(StillHeld(out, listed));
    }
  }

  /**
    The revoke of a first disposal committed, but its reply was lost or could not be read. With nobody
    re-granting, a second disposal owns nothing and raises nothing, and every later one sends nothing.
   */
  lemma LostReplyConverges(lease: Lease, held: set<Right>, first: PatchReply, list: ListReply,
                           revoked: seq<Right>, listed: seq<Right>,
                           tokenOk: bool, later: PatchReply, laterList: ListReply)
    requires NoDuplicates(lease.owned) && Issues(lease) && lease.attempts == 0
    requires first == PatchThrew || first == PatchOk(None)
    requires var left := held - Elements(lease.owned);
             Lists(revoked, Elements(lease.owned) * left) && Lists(listed, left)
    ensures var (once, e1) := Dispose(lease, true, first, list);
            var (twice, e2) := Dispose(once, true, PatchOk(Some(revoked)), Listed(listed));
            var (thrice, e3) := Dispose(twice, tokenOk, later, laterList);
            e1 == Threw && e2 == HandedBack && twice.owned == [] && e3 == NothingSent && thrice == twice
  {
    var (once, e1) := Dispose(lease, true, first, list);
    OutstandingOfNothing(lease.owned);
    assert once.owned == lease.owned && Issues(once);
    assert Elements(revoked) == {};
    RetryKeepsWhatIsStillListed(once, revoked, listed);
    var (twice, e2) := Dispose(once, true, PatchOk(Some(revoked)), Listed(listed));
    EmptyIff(twice.owned);
  }

  lemma {:induction false} OutstandingOfNothing(owned: seq<Right>)
    ensures Outstanding(owned, []) == owned
  {
    if owned != [] {
      OutstandingOfNothing(owned[1..]);
    }
  }

  /**
    Settling is decided by counting. For confirmations that list distinct rights out of those requested
    that is the same as confirming every one of them.
   */
  lemma CountingIsMatching(owned: seq<Right>, revoked: seq<Right>)
    requires NoDuplicates(owned) && NoDuplicates(revoked) && Elements(revoked) <= Elements(owned)
    ensures |revoked| >= |owned| <==> Elements(owned) <= Elements(revoked)
  {
    if |revoked| >= |owned| {
      SameSizeSameElements(revoked, owned);
    } else if Elements(owned) <= Elements(revoked) {
      SameSizeSameElements(owned, revoked);
      NoDuplicatesSize(owned);
      NoDuplicatesSize(revoked);
    }
  }

  /** Whatever is confirmed, a first disposal hands back iff the count is reached or every owned right is confirmed. */
  lemma FirstDisposalHandsBackIff(lease: Lease, patch: PatchReply, list: ListReply)
    requires Issues(lease) && lease.attempts == 0 && patch.PatchOk?
    ensures Dispose(lease, true, patch, list).1 == HandedBack <==>
            |Reported(patch)| >= |lease.owned| || Elements(lease.owned) <= Elements(Reported(patch))
  {
    var out := Outstanding(lease.owned, Reported(patch));
    SelectIsSetArithmetic(lease.owned, Reported(patch));
    EmptyIff(out);
    assert Elements(lease.owned) <= Elements(Reported(patch)) <==> Elements(out) == {} by {
      if !(Elements(lease.owned) <= Elements(Reported(patch))) {
        var r :| r in Elements(lease.owned) && r !in Elements(Reported(patch));
        assert r in Elements(out);
      }
    }
  }

  /** An unconfirmed right is let go iff the count is reached without it, or a retry's listing no longer shows it. */
  lemma UnconfirmedIsForgottenIff(lease: Lease, patch: PatchReply, list: ListReply, right: Right)
    requires Issues(lease) && patch.PatchOk? && right in lease.owned && right !in Reported(patch)
    ensures right !in Dispose(lease, true, patch, list).0.owned <==>
            || |Reported(patch)| >= |lease.owned|
            || (lease.attempts >= 1 && list.Listed? && right !in list.rights)
  {
    var out := Outstanding(lease.owned, Reported(patch));
    SelectIsSetArithmetic(lease.owned, Reported(patch));
    assert right in out <==> right in Elements(out);
    if list.Listed? {
      SelectIsSetArithmetic(out, list.rights);
      assert right in StillHeld(out, list.rights) <==> right in Elements(StillHeld(out, list.rights));
    }
  }

  /** So counting loses an owned right exactly when the count is reached and some owned right is not confirmed. */
  lemma FirstDisposalForgetsIff(lease: Lease, patch: PatchReply, list: ListReply)
    requires Issues(lease) && lease.attempts == 0 && patch.PatchOk?
    ensures (exists r: Right ::
              r in lease.owned && r !in Reported(patch) && r !in Dispose(lease, true, patch, list).0.owned) <==>
            |Reported(patch)| >= |lease.owned| && !(Elements(lease.owned) <= Elements(Reported(patch)))
  {
    var after := Dispose(lease, true, patch, list).0;
    forall r: Right | r in lease.owned && r !in Reported(patch)
      ensures r !in after.owned <==> |Reported(patch)| >= |lease.owned|
      ensures r in Elements(lease.owned) && r !in Elements(Reported(patch))
    {
      UnconfirmedIsForgottenIff(lease, patch, list, r);
    }
    if |Reported(patch)| >= |lease.owned| && !(Elements(lease.owned) <= Elements(Reported(patch))) {
      var r: Right :| r in Elements(lease.owned) && r !in Elements(Reported(patch));
      assert r in lease.owned && r !in Reported(patch) && r !in after.owned;
    }
  }

  /** For instance, a confirmation of some other right empties the lease. */
  lemma CountingIsNotMatchingInGeneral()
    ensures var lease := NewLease([CanActAs("alice::p")]);
            Dispose(lease, true, PatchOk(Some([CanReadAs("bob::p")])), ListThrew)
            == (Lease([], true, 1), HandedBack)
  {
  }
}
