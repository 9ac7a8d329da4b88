/**
  The prune: read the rights and agree on a plan, read them again, and write once. Other clients may act
  before every read and before the write.
 */
module Prune {
  import opened Common
  import opened RightsPolicy

  /** The user's rights at the participant. */
  class Participant {
    var held: seq<Right>

    constructor (initially: seq<Right>)
      ensures held == initially
    {
      held := initially;
    }

    /** Other clients leave the user with some other list of rights. */
    method OthersAct(after: seq<Right>)
      modifies this
      ensures held == after
    {
      held := after;
    }

    /** The participant removes some of the rights it is asked to. */
    method Patch(rights: seq<Right>, removed: set<Right>)
      modifies this
      ensures held == Without(old(held), removed * Elements(rights))
    {
      held := Without(held, removed * (set r | r in rights));
    }
  }

  function Without(held: seq<Right>, removed: set<Right>): (left: seq<Right>)
    ensures forall r :: r in left <==> r in held && r !in removed
  {
    if held == [] then []
    else if held[0] in removed then Without(held[1..], removed)
    else [held[0]] + Without(held[1..], removed)
  }

  /** A revoke counts only if the reply names every requested right as newly revoked, by identity. */
  predicate Confirms(reported: seq<Right>, requested: seq<Right>) {
    IdentitiesOf(requested) <= IdentitiesOf(reported)
  }

  method Confirmed(requested: seq<Right>, reported: seq<Right>) returns (ok: bool)
    ensures ok <==> Confirms(reported, requested)
  {
    var confirmed: map<Identity, bool> := map[];
    for i := 0 to |reported|
      invariant confirmed.Keys == IdentitiesOf(reported[..i])
    {
      confirmed := confirmed[IdentityOf(reported[i]) := true];
      assert reported[..i + 1] == reported[..i] + [reported[i]];
    }
    assert reported[..|reported|] == reported;
    var confirmedCount := 0;
    for i := 0 to |requested|
      invariant 0 <= confirmedCount <= i
      invariant confirmedCount == i <==> IdentitiesOf(requested[..i]) <= IdentitiesOf(reported)
    {
      if IdentityOf(requested[i]) in confirmed {
        confirmedCount := confirmedCount + 1;
      }
      assert requested[..i + 1] == requested[..i] + [requested[i]];
      assert IdentitiesOf(requested[..i + 1]) == IdentitiesOf(requested[..i]) + {IdentityOf(requested[i])};
    }
    assert requested[..|requested|] == requested;
    ok := confirmedCount == |requested|;
  }

  // ---------------------------------------------------------------- one run

  /** The operator's side: flags, and the trimmed answer typed at the prompt (None: it could not be read). */
  datatype Operator = Operator(assumeYes: bool, dryRun: bool, terminal: bool, answer: Option<string>)

  datatype Consent = Authorised | NotAuthorised | InputFailed

  function ConfirmRevoke(operator: Operator): Consent {
    if operator.assumeYes then Authorised
    else if !operator.terminal then NotAuthorised
    else if operator.answer == None then InputFailed
    else if operator.answer.value != "revoke" then NotAuthorised
    else Authorised
  }

  /**
    What the run meets: the rights others leave before each of its four requests, which reads fail, which of
    the rights in its write are removed, and those its reply reports (None: no readable reply).
   */
  datatype Course = Course(
    first: seq<Right>, firstFails: bool,
    second: seq<Right>, secondFails: bool,
    atWrite: seq<Right>, removed: set<Right>, reply: Option<seq<Right>>,
    last: seq<Right>, lastFails: bool)

  datatype Exit = Success | Failure | Unauthorised

  /** Asked for by flag, or typed in full at a prompt. */
  predicate Agreed(operator: Operator) {
    operator.assumeYes || (operator.terminal && operator.answer == Some("revoke"))
  }

  /** The operator said so, and nothing that was not agreed to, or that the policy preserves, is in the write. */
  ghost predicate SafeWrite(policy: Policy, operator: Operator, course: Course, write: seq<Right>) {
    && !operator.dryRun && Agreed(operator)
    && write != []
    && (forall r :: r in write ==> !Preserves(policy, r))
    && (forall r :: r in write ==> r in course.second)
    && IdentitiesOf(write) <= IdentitiesOf(PlanOf(course.first, policy).revoke)
    && |write| <= policy.maxRevoke
    && Validate(PlanOf(course.first, policy), policy) == NoRefusal
    && Validate(PlanOf(course.second, policy), policy) == NoRefusal
  }

  /** The write of a run that gets that far is the whole live plan. */
  function WriteOf(policy: Policy, operator: Operator, course: Course): Option<seq<Right>> {
    var consented, live := PlanOf(course.first, policy), PlanOf(course.second, policy);
    if course.firstFails || consented.revoke == [] || Validate(consented, policy) != NoRefusal || operator.dryRun
       || ConfirmRevoke(operator) != Authorised || course.secondFails || Validate(live, policy) != NoRefusal
       || !(IdentitiesOf(live.revoke) <= IdentitiesOf(consented.revoke)) || live.revoke == []
    then None
    else Some(live.revoke)
  }

  function ExitOf(policy: Policy, operator: Operator, course: Course): Exit {
    var consented, live := PlanOf(course.first, policy), PlanOf(course.second, policy);
    if course.firstFails then Failure
    else if consented.revoke == [] then Success
    else if Validate(consented, policy) != NoRefusal then Failure
    else if operator.dryRun then Success
    else
      match ConfirmRevoke(operator)
      case NotAuthorised => Unauthorised
      case InputFailed => Failure
      case Authorised =>
        if course.secondFails || Validate(live, policy) != NoRefusal then Failure
        else if !(IdentitiesOf(live.revoke) <= IdentitiesOf(consented.revoke)) then Failure
        else if live.revoke == [] then Success
        else if course.reply.Some? && Confirms(course.reply.value, live.revoke) && !course.lastFails then Success
        else Failure
  }

  method Run(participant: Participant, policy: Policy, operator: Operator, course: Course)
    returns (exit: Exit, write: Option<seq<Right>>)
    modifies participant
    ensures write == WriteOf(policy, operator, course) && exit == ExitOf(policy, operator, course)
    ensures write.Some? ==> SafeWrite(policy, operator, course, write.value)
    ensures write == None ==> participant.held == course.first || participant.held == course.second
    ensures write.Some? ==>
              participant.held ==
                if course.reply.Some? && Confirms(course.reply.value, write.value) then course.last
                else Without(course.atWrite, course.removed * Elements(write.value))
  {
    write := None;
    participant.OthersAct(course.first);
    if course.firstFails {
      return Failure, None;
    }
    var consented := Classify(participant.held, policy);
    if |consented.revoke| == 0 {
      return Success, None;
    }
    if Validate(consented, policy) != NoRefusal {
      return Failure, None;
    }
    if operator.dryRun {
      return Success, None;
    }
    var consent := ConfirmRevoke(operator);
    if consent != Authorised {
      return if consent == NotAuthorised then Unauthorised else Failure, None;
    }
    participant.OthersAct(course.second);
    if course.secondFails {
      return Failure, None;
    }
    var live := Classify(participant.held, policy);
    if Validate(live, policy) != NoRefusal {
      return Failure, None;
    }
    var added := NewSince(live, consented);
    if |added| > 0 {
      return Failure, None;
    }
    if |live.revoke| == 0 {
      return Success, None;
    }
    write := Some(live.revoke);
    participant.OthersAct(course.atWrite);
    participant.Patch(live.revoke, course.removed);
    if course.reply == None {
      return Failure, write;
    }
    var confirmed := Confirmed(live.revoke, course.reply.value);
    if !confirmed {
      return Failure, write;
    }
    participant.OthersAct(course.last);
    exit := if course.lastFails then Failure else Success;
  }

  // ---------------------------------------------------------------- when a run writes, and how it exits

  /** A plan that was read, has something to revoke, and passes every check. */
  predicate Sound(plan: Plan, fails: bool, policy: Policy) {
    !fails && plan.revoke != [] && Validate(plan, policy) == NoRefusal
  }

  /**
    A run writes if and only if it was authorised, both reads gave a sound plan, and the second one would revoke no
    identity that the first did not; and it writes all that the second would revoke.
   */
  lemma WritesIff(policy: Policy, operator: Operator, course: Course)
    ensures var consented, live := PlanOf(course.first, policy), PlanOf(course.second, policy);
            WriteOf(policy, operator, course) ==
              if !operator.dryRun && Agreed(operator)
                 && Sound(consented, course.firstFails, policy) && Sound(live, course.secondFails, policy)
                 && forall r :: r in live.revoke ==> IdentityOf(r) in IdentitiesOf(consented.revoke)
              then Some(live.revoke)
              else None
  {
    var consented, live := PlanOf(course.first, policy), PlanOf(course.second, policy);
    assert IdentitiesOf(live.revoke) <= IdentitiesOf(consented.revoke) <==>
           forall r :: r in live.revoke ==> IdentityOf(r) in IdentitiesOf(consented.revoke);
  }

  /** Not authorised: a sound plan, no dry run, no flag, and no terminal or an answer other than "revoke". */
  lemma UnauthorisedIff(policy: Policy, operator: Operator, course: Course)
    ensures ExitOf(policy, operator, course) == Unauthorised <==>
            && Sound(PlanOf(course.first, policy), course.firstFails, policy) && !operator.dryRun && !operator.assumeYes
            && (!operator.terminal || (operator.answer.Some? && operator.answer.value != "revoke"))
  {
  }

  /**
    Success: nothing to revoke at the first read, or a dry run over a sound plan; or an authorised run whose second
    read passes the checks and has nothing left to revoke, or whose write was confirmed and read back.
   */
  lemma SuccessIff(policy: Policy, operator: Operator, course: Course)
    ensures var consented, live := PlanOf(course.first, policy), PlanOf(course.second, policy);
            ExitOf(policy, operator, course) == Success <==>
            || (!course.firstFails && consented.revoke == [])
            || (Sound(consented, course.firstFails, policy) && operator.dryRun)
            || (Sound(consented, course.firstFails, policy) && !operator.dryRun && Agreed(operator)
                && !course.secondFails && Validate(live, policy) == NoRefusal && live.revoke == [])
            || (WriteOf(policy, operator, course).Some? && !course.lastFails && course.reply.Some?
                && forall r :: r in live.revoke ==> IdentityOf(r) in IdentitiesOf(course.reply.value))
  {
    var consented, live := PlanOf(course.first, policy), PlanOf(course.second, policy);
    WritesIff(policy, operator, course);
    if course.reply.Some? {
      assert Confirms(course.reply.value, live.revoke) <==>
             forall r :: r in live.revoke ==> IdentityOf(r) in IdentitiesOf(course.reply.value);
    }
  }

  // ---------------------------------------------------------------- what every run keeps

  /** However others interleave, and whatever part of the write is done, it takes no preserved or unagreed right. */
  lemma PreservedRightsSurvive(policy: Policy, operator: Operator, course: Course, right: Right)
    requires WriteOf(policy, operator, course).Some? && right in course.atWrite
    requires Preserves(policy, right) || IdentityOf(right) !in IdentitiesOf(PlanOf(course.first, policy).revoke)
    ensures right in Without(course.atWrite, course.removed * Elements(WriteOf(policy, operator, course).value))
  {
    var write := WriteOf(policy, operator, course).value;
    assert right in write ==> IdentityOf(right) in IdentitiesOf(write);
  }

  /** Undisturbed, a prune leaves exactly the preserved rights, so the next one has nothing to do. */
  lemma UndisturbedPruneIsComplete(policy: Policy, operator: Operator, course: Course, next: Operator, after: Course)
    requires course.first == course.second == course.atWrite
    requires WriteOf(policy, operator, course).Some?
    requires after.first == Without(course.atWrite, Elements(WriteOf(policy, operator, course).value))
    ensures forall r :: r in after.first <==> r in course.first && Preserves(policy, r)
    ensures PlanOf(after.first, policy).revoke == [] && WriteOf(policy, next, after) == None
  {
    var revoke := PlanOf(after.first, policy).revoke;
    assert forall r :: r in revoke ==> r in PlanOf(course.first, policy).revoke;
    EmptyIff(revoke);
  }

  /**
    Which rights an undisturbed prune leaves: the admin right, act-as rights on the preserved prefix if there is
    one, read-as rights on it when told to, and of every other kind none.
   */
  lemma LeftIff(policy: Policy, operator: Operator, course: Course, right: Right)
    requires course.first == course.second == course.atWrite
    requires WriteOf(policy, operator, course).Some?
    ensures right in Without(course.atWrite, Elements(WriteOf(policy, operator, course).value)) <==>
            && right in course.first
            && (|| right.kind == "ParticipantAdmin"
                || (&& policy.partyPrefix != "" && policy.partyPrefix <= right.party
                    && (right.kind == "CanActAs" || (right.kind == "CanReadAs" && policy.preserveReadAs))))
  {
  }

  /**
    The policy is told a party but preserves a prefix: of the act-as rights, an undisturbed prune leaves those on
    that very party alone if and only if the user can act as no party whose id properly extends it.
   */
  lemma OnlyTheNamedPartyIsKeptIff(policy: Policy, operator: Operator, course: Course)
    requires course.first == course.second == course.atWrite
    requires WriteOf(policy, operator, course).Some?
    ensures var left := Without(course.atWrite, Elements(WriteOf(policy, operator, course).value));
            (forall r :: r in left && r.kind == ACT_AS_KIND ==> r.party == policy.partyPrefix) <==>
            !exists r :: r in course.first && r.kind == ACT_AS_KIND && policy.partyPrefix < r.party
  {
    var write := WriteOf(policy, operator, course).value;
    var left := Without(course.atWrite, Elements(write));
    ValidateIff(course.first, policy);
    forall r | r in course.first && r.kind == ACT_AS_KIND
      ensures r in left <==> policy.partyPrefix == r.party || policy.partyPrefix < r.party
    {
    }
  }

  /** Exit status 2 means nothing was written; a write that ends in success was confirmed right by right. */
  lemma ExitStatusTells(policy: Policy, operator: Operator, course: Course)
    ensures ExitOf(policy, operator, course) == Unauthorised ==> WriteOf(policy, operator, course) == None
    ensures var write := WriteOf(policy, operator, course);
            write.Some? && ExitOf(policy, operator, course) == Success ==>
              course.reply.Some? && Confirms(course.reply.value, write.value)
  {
  }

  /** A dry run that succeeds on a plan with something to revoke foretells the write of an undisturbed authorised run. */
  lemma DryRunForetells(policy: Policy, course: Course)
    requires course.first == course.second && !course.firstFails && !course.secondFails
    requires PlanOf(course.first, policy).revoke != []
    ensures ExitOf(policy, Operator(false, true, false, None), course) == Success <==>
            WriteOf(policy, Operator(true, false, false, None), course) == Some(PlanOf(course.first, policy).revoke)
  {
  }

  /**
    Consent is per identity. Every document written is one that was agreed to if and only if every right that
    the second listing shows and the first did not is preserved by the policy.
   */
  lemma WriteIsConsentedDocumentsIff(policy: Policy, operator: Operator, course: Course)
    requires WriteOf(policy, operator, course).Some?
    ensures (forall r :: r in WriteOf(policy, operator, course).value ==> r in PlanOf(course.first, policy).revoke) <==>
            forall r :: r in course.second && r !in course.first ==> Preserves(policy, r)
  {
  }

  /** So when an identity stands for one document only, every document written was agreed to. */
  lemma WriteIsConsentedDocuments(policy: Policy, operator: Operator, course: Course)
    requires WriteOf(policy, operator, course).Some?
    requires forall a, b :: a in course.first && b in course.second && IdentityOf(a) == IdentityOf(b) ==> a == b
    ensures forall r :: r in WriteOf(policy, operator, course).value ==> r in PlanOf(course.first, policy).revoke
  {
    var write, agreed := WriteOf(policy, operator, course).value, PlanOf(course.first, policy).revoke;
    forall r | r in write ensures r in agreed {
      assert IdentityOf(r) in IdentitiesOf(write);
      var a :| a in agreed && IdentityOf(a) == IdentityOf(r);
    }
  }

  /** Otherwise it need not be: a document that was never listed is revoked under the identity of one that was. */
  lemma UnseenDocumentIsRevoked(policy: Policy, admin: Right, own: Right, seen: Right, unseen: Right) returns (course: Course)
    requires admin.kind == ADMIN_KIND && own.kind == ACT_AS_KIND && Preserves(policy, own)
    requires seen != unseen && IdentityOf(seen) == IdentityOf(unseen)
    requires !Preserves(policy, seen) && !Preserves(policy, unseen) && policy.maxRevoke >= 1
    ensures WriteOf(policy, Operator(true, false, false, None), course) == Some([unseen])
    ensures unseen !in course.first
  {
    var first, second := [admin, own] + [seen], [admin, own] + [unseen];
    course := Course(first, false, second, false, second, {unseen}, None, second, false);
    OneToRevoke(policy, admin, own, seen);
    OneToRevoke(policy, admin, own, unseen);
    SameIdentities(seen, unseen);
    assert [seen] != [] && [unseen] != [];
  }

  lemma SameIdentities(a: Right, b: Right)
    requires IdentityOf(a) == IdentityOf(b)
    ensures IdentitiesOf([b]) <= IdentitiesOf([a])
  {
    assert a in [a];
  }

  lemma OneToRevoke(policy: Policy, admin: Right, own: Right, other: Right)
    requires admin.kind == ADMIN_KIND && own.kind == ACT_AS_KIND && Preserves(policy, own)
    requires !Preserves(policy, other) && policy.maxRevoke >= 1
    ensures PlanOf([admin, own] + [other], policy) == Plan([admin, own], [other])
    ensures Validate(PlanOf([admin, own] + [other], policy), policy) == NoRefusal
  {
    TwoKept(policy, admin, own);
    SplitOfOneMore([admin, own], other, policy, true);
    SplitOfOneMore([admin, own], other, policy, false);
    NothingBefore([], other);
    KeptCanAct(admin, own, other, policy);
  }

  lemma NothingBefore(nothing: seq<Right>, r: Right)
    requires nothing == []
    ensures nothing + [r] == [r]
  {
  }

  lemma KeptCanAct(admin: Right, own: Right, other: Right, policy: Policy)
    requires admin.kind == ADMIN_KIND && own.kind == ACT_AS_KIND && policy.maxRevoke >= 1
    ensures Validate(Plan([admin, own], [other]), policy) == NoRefusal
  {
    var keep := [admin, own];
    assert keep[0].kind == ADMIN_KIND && keep[1].kind == ACT_AS_KIND;
  }

  lemma TwoKept(policy: Policy, a: Right, b: Right)
    requires Preserves(policy, a) && Preserves(policy, b)
    ensures PlanOf([a, b], policy) == Plan([a, b], [])
  {
    assert [a, b][..1] == [a] && [a][..0] == [];
    assert Split([a], policy, true) == [a];
    assert Split([a], policy, false) == [];
  }
}
