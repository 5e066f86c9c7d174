/**
 The life of one campaign from draft to completion: internal approval, the brand's
 review, edits, scheduling and dispatch.

 Besides the stored columns the model keeps two histories that the database does
 not: a version number for the content, raised by every edit, and the sign-offs
 given for each version. What "approved content" means is stated in those terms.
 Each operation is one atomic step.
 */
module Approval {
  import opened Audience

  datatype Status =
    Draft | PendingApproval | Approved | Rejected | Scheduled | Processing | Paused | Completed | Cancelled

  /** The role in the request; the scheduler's own requests carry none. */
  datatype Role = Owner | Admin | Member | NoRole

  datatype Verdict = BrandApproved | ChangesRequested

  /** A brand decision, its time, and the content version it was made on. */
  datatype Review = Review(verdict: Verdict, at: int, version: nat)

  datatype Signer = Staff | Brand

  /** The subscription, when it could be read, with the deliveries of its period, when they
      could be counted. A limit of -1 is none. */
  datatype Plan = NoPlan | Plan(limit: int, sent: Option<nat>)

  /** What a schedule or dispatch gets to read of the workspace's approval setting. */
  datatype Setting = Required | NotRequired | Unreadable

  /** The read's error is discarded, so an unreadable setting requires nothing. */
  predicate RequiresApproval(s: Setting) {
    s == Required
  }

  datatype Campaign = Campaign(
    status: Status,
    revisedAt: Option<int>,
    reviews: seq<Review>,
    version: nat,
    signOffs: set<(nat, Signer)>)

  datatype Action =
    | Update(contentValid: bool)
    | Submit
    | Approve(role: Role)
    | Reject(role: Role, reasonGiven: bool)
    | Decide(verdict: Verdict, noteGiven: bool)
    | Schedule(role: Role, tooSoon: bool)
    | CancelSchedule
    | Cancel
    | Dispatch(role: Role, plan: Plan, deliverable: bool)
    | Pause
    | Resume
    | LastResult
    | Reopen
    | Restore

  datatype Refusal =
    | NotEditable | InvalidContent | WrongStatus | NotAnApprover | ReasonRequired | NoteRequired | NotReviewable
    | TooSoon | ChangesOutstanding | ReviewStale | AwaitingApproval | ApprovalRequired | RowNotMatched
    | AlreadyExecuted | WasRejected | QuotaExceeded | NothingDeliverable

  predicate IsApprover(role: Role) {
    role == Owner || role == Admin
  }

  predicate QuotaReached(p: Plan) {
    p.Plan? && p.limit != -1 && p.sent.Some? && p.sent.value >= p.limit
  }

  // ---- The brand's verdict ----

  /** The most recent decision; reviews are stored in the order of their times. */
  function LatestReview(c: Campaign): Option<Review> {
    if c.reviews == [] then None else Some(c.reviews[|c.reviews| - 1])
  }

  predicate LatestAsksForChanges(c: Campaign) {
    LatestReview(c).Some? && LatestReview(c).value.verdict == ChangesRequested
  }

  predicate BrandReviewCurrent(c: Campaign) {
    LatestReview(c).Some? && (c.revisedAt.Some? ==> LatestReview(c).value.at >= c.revisedAt.value)
  }

  predicate BrandChangesOutstanding(c: Campaign) {
    LatestAsksForChanges(c) && BrandReviewCurrent(c)
  }

  predicate BrandReviewStale(c: Campaign) {
    LatestReview(c).Some? && !BrandReviewCurrent(c)
  }

  // ---- The operations ----

  predicate Editable(c: Campaign) {
    match c.status
    case Draft | Rejected => true
    case PendingApproval | Approved => LatestAsksForChanges(c)
    case _ => false
  }

  /** Why an action is refused, first reason first, or None when it takes effect. */
  function Refused(c: Campaign, a: Action, requireApproval: bool): Option<Refusal> {
    match a
    case Update(contentValid) =>
      if !Editable(c) then Some(NotEditable) else if !contentValid then Some(InvalidContent) else None
    case Submit => if c.status != Draft && c.status != Rejected then Some(WrongStatus) else None
    case Approve(role) =>
      if !IsApprover(role) then Some(NotAnApprover)
      else if c.status != PendingApproval then Some(WrongStatus)
      else if BrandChangesOutstanding(c) then Some(ChangesOutstanding)
      else None
    case Reject(role, reasonGiven) =>
      if !IsApprover(role) then Some(NotAnApprover)
      else if !reasonGiven then Some(ReasonRequired)
      else if c.status != PendingApproval then Some(WrongStatus)
      else None
    case Decide(verdict, noteGiven) =>
      if verdict == ChangesRequested && !noteGiven then Some(NoteRequired)
      else if c.status !in {Draft, PendingApproval, Approved} then Some(NotReviewable)
      else None
    case Schedule(role, tooSoon) =>
      if tooSoon then Some(TooSoon)
      else if BrandChangesOutstanding(c) then Some(ChangesOutstanding)
      else if BrandReviewStale(c) then Some(ReviewStale)
      else if requireApproval && !IsApprover(role) && c.status != Approved then
        Some(if c.status == PendingApproval then AwaitingApproval else ApprovalRequired)
      else if c.status !in {Draft, Approved, PendingApproval} then Some(WrongStatus)
      else if c.status !in {Draft, Approved} then Some(RowNotMatched)
      else None
    case CancelSchedule => if c.status != Scheduled then Some(RowNotMatched) else None
    case Cancel => if c.status !in {Draft, Scheduled, PendingApproval, Approved} then Some(WrongStatus) else None
    case Dispatch(role, plan, deliverable) =>
      if c.status in {Processing, Completed, Paused, Cancelled} then Some(AlreadyExecuted)
      else if c.status == Rejected then Some(WasRejected)
      else if BrandChangesOutstanding(c) then Some(ChangesOutstanding)
      else if BrandReviewStale(c) then Some(ReviewStale)
      else if requireApproval && !IsApprover(role) && c.status != Approved && c.status != Scheduled then
        Some(if c.status == PendingApproval then AwaitingApproval else ApprovalRequired)
      else if QuotaReached(plan) then Some(QuotaExceeded)
      else if !deliverable then Some(NothingDeliverable)
      else None
    case Pause => if c.status != Processing then Some(WrongStatus) else None
    case Resume => if c.status != Paused then Some(WrongStatus) else None
    case LastResult => if c.status != Processing then Some(RowNotMatched) else None
    case Reopen | Restore => if !Executed(c.status) then Some(WrongStatus) else None
  }

  function SignedBy(c: Campaign, role: Role): set<(nat, Signer)> {
    if IsApprover(role) then c.signOffs + {(c.version, Staff)} else c.signOffs
  }

  /** The stored content changes: with `reset` the campaign goes back to draft. */
  function UpdateContent(c: Campaign, reset: bool, now: int): Campaign {
    if c.status !in {Draft, Rejected, PendingApproval, Approved} then c
    else c.(status := if reset then Draft else c.status, revisedAt := Some(now), version := c.version + 1)
  }

  function Effect(c: Campaign, a: Action, now: int): Campaign {
    match a
    case Update(_) => UpdateContent(c, c.status != Draft, now)
    case Submit => c.(status := PendingApproval)
    case Approve(_) => c.(status := Approved, signOffs := c.signOffs + {(c.version, Staff)})
    case Reject(_, _) => c.(status := Rejected)
    case Decide(verdict, _) =>
      var d := c.(reviews := c.reviews + [Review(verdict, now, c.version)]);
      if verdict == BrandApproved && c.status == PendingApproval
      then d.(status := Approved, signOffs := c.signOffs + {(c.version, Brand)})
      else d
    case Schedule(role, _) => c.(status := Scheduled, signOffs := SignedBy(c, role))
    case CancelSchedule => c.(status := Draft)
    case Cancel => c.(status := Cancelled)
    case Dispatch(role, _, _) => c.(status := Processing, signOffs := SignedBy(c, role))
    case Pause => c.(status := Paused)
    case Resume => c.(status := Processing)
    case LastResult => c.(status := Completed)
    case Reopen => c.(status := Processing)
    case Restore => c.(status := Completed)
  }

  function Apply(c: Campaign, a: Action, now: int, requireApproval: bool): Campaign {
    if Refused(c, a, requireApproval).Some? then c else Effect(c, a, now)
  }

  const NEW: Campaign := Campaign(Draft, None, [], 0, {})

  class CampaignRow {
    var status: Status
    var revisedAt: Option<int>
    var reviews: seq<Review>
    /** The model's own histories, not columns. */
    var version: nat
    var signOffs: set<(nat, Signer)>

    ghost function State(): Campaign
      reads this
    {
      Campaign(status, revisedAt, reviews, version, signOffs)
    }

    constructor ()
      ensures State() == NEW
    {
      status, revisedAt, reviews, version, signOffs := Draft, None, [], 0, {};
    }

    method Latest() returns (r: Option<Review>)
      ensures r == LatestReview(State())
    {
      r := if reviews == [] then None else Some(reviews[|reviews| - 1]);
    }

    method ReviewState() returns (asksForChanges: bool, outstanding: bool, stale: bool)
      ensures asksForChanges == LatestAsksForChanges(State())
      ensures outstanding == BrandChangesOutstanding(State()) && stale == BrandReviewStale(State())
    {
      var latest := Latest();
      var current := latest.Some? && (revisedAt.None? || latest.value.at >= revisedAt.value);
      asksForChanges := latest.Some? && latest.value.verdict == ChangesRequested;
      outstanding := asksForChanges && current;
      stale := latest.Some? && !current;
    }

    method UpdateCampaign(contentValid: bool, now: int) returns (refusal: Option<Refusal>)
      modifies this
      ensures refusal == Refused(old(State()), Update(contentValid), false)
      ensures State() == Apply(old(State()), Update(contentValid), now, false)
    {
      var asks, _, _ := ReviewState();
      var editable := status == Draft || status == Rejected || ((status == PendingApproval || status == Approved) && asks);
      if !editable {
        return Some(NotEditable);
      }
      if !contentValid {
        return Some(InvalidContent);
      }
      status, revisedAt, version := Draft, Some(now), version + 1;
      return None;
    }

    method SubmitForApproval() returns (refusal: Option<Refusal>)
      modifies this
      ensures refusal == Refused(old(State()), Submit, false) && State() == Apply(old(State()), Submit, 0, false)
    {
      if status != Draft && status != Rejected {
        return Some(WrongStatus);
      }
      status := PendingApproval;
      return None;
    }

    method ApproveCampaign(role: Role) returns (refusal: Option<Refusal>)
      modifies this
      ensures refusal == Refused(old(State()), Approve(role), false)
      ensures State() == Apply(old(State()), Approve(role), 0, false)
    {
      if role != Owner && role != Admin {
        return Some(NotAnApprover);
      }
      if status != PendingApproval {
        return Some(WrongStatus);
      }
      var _, outstanding, _ := ReviewState();
      if outstanding {
        return Some(ChangesOutstanding);
      }
      status, signOffs := Approved, signOffs + {(version, Staff)};
      return None;
    }

    method RejectCampaign(role: Role, reasonGiven: bool) returns (refusal: Option<Refusal>)
      modifies this
      ensures refusal == Refused(old(State()), Reject(role, reasonGiven), false)
      ensures State() == Apply(old(State()), Reject(role, reasonGiven), 0, false)
    {
      if role != Owner && role != Admin {
        return Some(NotAnApprover);
      }
      if !reasonGiven {
        return Some(ReasonRequired);
      }
      if status != PendingApproval {
        return Some(WrongStatus);
      }
      status := Rejected;
      return None;
    }

    /** The brand answers through its review link. */
    method DecideReview(verdict: Verdict, noteGiven: bool, now: int) returns (refusal: Option<Refusal>)
      modifies this
      ensures refusal == Refused(old(State()), Decide(verdict, noteGiven), false)
      ensures State() == Apply(old(State()), Decide(verdict, noteGiven), now, false)
    {
      if verdict == ChangesRequested && !noteGiven {
        return Some(NoteRequired);
      }
      match status {
        case Scheduled | Processing | Completed | Paused | Cancelled | Rejected => return Some(NotReviewable);
        case _ =>
      }
      reviews := reviews + [Review(verdict, now, version)];
      if verdict == BrandApproved && status == PendingApproval {
        status, signOffs := Approved, signOffs + {(version, Brand)};
      }
      return None;
    }

    method GetApprovalSetting(setting: Setting) returns (required: bool)
      ensures required == RequiresApproval(setting)
    {
      match setting {
        case Required => required := true;
        case NotRequired => required := false;
        case Unreadable => required := false;
      }
    }

    method ScheduleCampaign(role: Role, tooSoon: bool, setting: Setting) returns (refusal: Option<Refusal>)
      modifies this
      ensures refusal == Refused(old(State()), Schedule(role, tooSoon), RequiresApproval(setting))
      ensures State() == Apply(old(State()), Schedule(role, tooSoon), 0, RequiresApproval(setting))
    {
      if tooSoon {
        return Some(TooSoon);
      }
      var _, outstanding, stale := ReviewState();
      if outstanding {
        return Some(ChangesOutstanding);
      }
      if stale {
        return Some(ReviewStale);
      }
      var requireApproval := GetApprovalSetting(setting);
      var isApprover := role == Owner || role == Admin;
      if requireApproval && !isApprover && status != Approved {
        return Some(if status == PendingApproval then AwaitingApproval else ApprovalRequired);
      }
      if status != Draft && status != Approved && status != PendingApproval {
        return Some(WrongStatus);
      }
      // The update itself matches only drafts and approved campaigns.
      if status != Draft && status != Approved {
        return Some(RowNotMatched);
      }
      status := Scheduled;
      if isApprover {
        signOffs := signOffs + {(version, Staff)};
      }
      return None;
    }

    method TriggerDispatch(role: Role, plan: Plan, deliverable: bool, setting: Setting) returns (refusal: Option<Refusal>)
      modifies this
      ensures refusal == Refused(old(State()), Dispatch(role, plan, deliverable), RequiresApproval(setting))
      ensures State() == Apply(old(State()), Dispatch(role, plan, deliverable), 0, RequiresApproval(setting))
    {
      if status == Processing || status == Completed || status == Paused || status == Cancelled {
        return Some(AlreadyExecuted);
      }
      if status == Rejected {
        return Some(WasRejected);
      }
      var _, outstanding, stale := ReviewState();
      if outstanding {
        return Some(ChangesOutstanding);
      }
      if stale {
        return Some(ReviewStale);
      }
      var requireApproval := GetApprovalSetting(setting);
      var isApprover := role == Owner || role == Admin;
      if requireApproval && !isApprover && status != Approved && status != Scheduled {
        return Some(if status == PendingApproval then AwaitingApproval else ApprovalRequired);
      }
      if plan.Plan? && plan.limit != -1 {
        if plan.sent.Some? && plan.sent.value >= plan.limit {
          return Some(QuotaExceeded);
        }
      }
      if !deliverable {
        return Some(NothingDeliverable);
      }
      status := Processing;
      if isApprover {
        signOffs := signOffs + {(version, Staff)};
      }
      return None;
    }

    /** The operators' transitions only compare and set the status. */
    method Transition(a: Action) returns (refusal: Option<Refusal>)
      requires a in {CancelSchedule, Cancel, Pause, Resume}
      modifies this
      ensures refusal == Refused(old(State()), a, false) && State() == Apply(old(State()), a, 0, false)
    {
      match a {
        case CancelSchedule =>
          if status != Scheduled { return Some(RowNotMatched); }
          status := Draft;
        case Cancel =>
          match status {
            case Draft | Scheduled | PendingApproval | Approved => status := Cancelled;
            case _ => return Some(WrongStatus);
          }
        case Pause =>
          if status != Processing { return Some(WrongStatus); }
          status := Paused;
        case Resume =>
          if status != Paused { return Some(WrongStatus); }
          status := Processing;
      }
      return None;
    }

    /** The recount after a result completes only a campaign that is being sent. */
    method CompleteIfDone(done: bool)
      modifies this
      ensures State() == if done then Apply(old(State()), LastResult, 0, false) else old(State())
    {
      if status == Processing && done {
        status := Completed;
      }
    }

    /** A retry's own status writes. They have no guard; the retry began with a status check,
        and a campaign that has been executed stays so. */
    method UpdateStatus(a: Action)
      requires a in {Reopen, Restore} && Executed(status)
      modifies this
      ensures State() == Apply(old(State()), a, 0, false)
    {
      status := if a == Reopen then Processing else Completed;
    }
  }

  // ---- Runs ----

  datatype Timed = Timed(action: Action, now: int, setting: Setting)

  function After(c: Campaign, t: Timed): Campaign {
    Apply(c, t.action, t.now, RequiresApproval(t.setting))
  }

  function Run(c: Campaign, steps: seq<Timed>): Campaign {
    if steps == [] then c else After(Run(c, steps[..|steps| - 1]), steps[|steps| - 1])
  }

  /** A new campaign after the first i steps. */
  function Before(steps: seq<Timed>, i: nat): Campaign
    requires i <= |steps|
  {
    Run(NEW, steps[..i])
  }

  ghost predicate Throughout(P: Campaign -> bool, steps: seq<Timed>) {
    forall n | 0 <= n <= |steps| :: P(Before(steps, n))
  }

  ghost predicate Nowhere(Q: (Campaign, Timed) -> bool, steps: seq<Timed>) {
    forall i | 0 <= i < |steps| :: !Q(Before(steps, i), steps[i])
  }

  lemma BeforePrefix(steps: seq<Timed>, m: nat, n: nat)
    requires n <= m <= |steps|
    ensures Before(steps[..m], n) == Before(steps, n)
  {
    assert steps[..m][..n] == steps[..n];
  }

  lemma ThroughoutSnoc(P: Campaign -> bool, steps: seq<Timed>, m: nat)
    requires m + 1 == |steps|
    ensures Throughout(P, steps) <==> Throughout(P, steps[..m]) && P(Before(steps, m + 1))
  {
    forall n | 0 <= n <= m ensures Before(steps[..m], n) == Before(steps, n) {
      BeforePrefix(steps, m, n);
    }
  }

  lemma NowhereSnoc(Q: (Campaign, Timed) -> bool, steps: seq<Timed>, m: nat)
    requires m + 1 == |steps|
    ensures Nowhere(Q, steps) <==> Nowhere(Q, steps[..m]) && !Q(Before(steps, m), steps[m])
  {
    forall n | 0 <= n <= m ensures Before(steps[..m], n) == Before(steps, n) {
      BeforePrefix(steps, m, n);
    }
  }

  lemma BeforeSnoc(steps: seq<Timed>, m: nat)
    requires m < |steps|
    ensures Before(steps, m + 1) == After(Before(steps, m), steps[m])
  {
    assert steps[..m + 1][..m] == steps[..m];
  }

  /** A property that exactly the steps in Q break holds all along the runs without them. */
  lemma {:induction false} ThroughoutExactlyWhen(P: Campaign -> bool, Q: (Campaign, Timed) -> bool, steps: seq<Timed>)
    requires P(NEW) && forall c, t | P(c) :: P(After(c, t)) <==> !Q(c, t)
    ensures Throughout(P, steps) <==> Nowhere(Q, steps)
  {
    if steps == [] {
      assert forall n | 0 <= n <= |steps| :: Before(steps, n) == NEW;
    } else {
      var m := |steps| - 1;
      ThroughoutExactlyWhen(P, Q, steps[..m]);
      ThroughoutSnoc(P, steps, m);
      NowhereSnoc(Q, steps, m);
      BeforeSnoc(steps, m);
      BeforePrefix(steps, m, m);
      assert Throughout(P, steps[..m]) ==> P(Before(steps[..m], m));
    }
  }

  ghost predicate Increasing(steps: seq<Timed>) {
    forall i, j | 0 <= i < j < |steps| :: steps[i].now < steps[j].now
  }

  predicate Released(s: Status) {
    s in {Scheduled, Processing, Paused, Completed}
  }

  predicate Executed(s: Status) {
    s in {Processing, Paused, Completed}
  }

  // ---- Approval covers what is sent ----

  predicate SignedOff(c: Campaign) {
    (c.version, Staff) in c.signOffs || (c.version, Brand) in c.signOffs
  }

  ghost predicate Covered(c: Campaign) {
    && (c.status == Approved || Released(c.status) ==> SignedOff(c))
    && (forall s | s in c.signOffs :: s.0 <= c.version)
  }

  /** A schedule or dispatch takes effect for someone who is no approver, without the setting
      being read as required. */
  predicate Unchecked(c: Campaign, t: Timed) {
    match t.action
    case Schedule(role, _) => !IsApprover(role) && !RequiresApproval(t.setting) && Refused(c, t.action, false).None?
    case Dispatch(role, _, _) => !IsApprover(role) && !RequiresApproval(t.setting) && Refused(c, t.action, false).None?
    case _ => false
  }

  /** Such a step finds content nobody has signed. */
  predicate SkipsApproval(c: Campaign, t: Timed) {
    Unchecked(c, t) && !SignedOff(c)
  }

  lemma CoverStep(c: Campaign, t: Timed)
    requires Covered(c)
    ensures Covered(After(c, t)) <==> !SkipsApproval(c, t)
  {
  }

  /** All along a run what is approved or released carries a sign-off for exactly its current
      content, by an owner or admin or by the brand, exactly when nobody but an approver ever
      schedules or sends unsigned content while the setting is off or cannot be read. Edits,
      rejections, cancelled schedules and the role-less scheduler never break it. */
  lemma CoveredExactlyWhen(steps: seq<Timed>)
    ensures Throughout(c => Covered(c), steps) <==> Nowhere((c, t) => SkipsApproval(c, t), steps)
  {
    forall c, t | Covered(c) ensures Covered(After(c, t)) <==> !SkipsApproval(c, t) {
      CoverStep(c, t);
    }
    ThroughoutExactlyWhen(c => Covered(c), (c, t) => SkipsApproval(c, t), steps);
  }

  /** So while the setting is on and every read of it succeeds, what is scheduled, being sent
      or sent is signed off. */
  lemma ApprovalCoversWhatIsSent(steps: seq<Timed>, n: nat)
    requires n <= |steps| && forall i | 0 <= i < |steps| :: steps[i].setting == Required
    ensures Released(Before(steps, n).status) ==> SignedOff(Before(steps, n))
  {
    CoveredExactlyWhen(steps);
    assert Nowhere((c, t) => SkipsApproval(c, t), steps);
    assert (c => Covered(c))(Before(steps, n));
  }

  /** A member's draft goes out with no sign-off at all when the setting cannot be read. */
  lemma UnreadableSettingSends(now: int)
    ensures var t := Timed(Dispatch(Member, NoPlan, true), now, Unreadable);
            && After(NEW, t).status == Processing && !SignedOff(After(NEW, t))
            && After(NEW, t.(setting := Required)) == NEW
  {
  }

  ghost predicate StaffCovered(c: Campaign) {
    c.status == Approved || Released(c.status) ==> (c.version, Staff) in c.signOffs
  }

  /** The brand approves a campaign that awaits approval, or someone who is no approver
      schedules or sends it unchecked, and no owner or admin has signed its current version. */
  predicate SkipsStaff(c: Campaign, t: Timed) {
    && (c.version, Staff) !in c.signOffs
    && (Unchecked(c, t) || (c.status == PendingApproval && t.action.Decide? && t.action.verdict == BrandApproved))
  }

  lemma StaffStep(c: Campaign, t: Timed)
    requires StaffCovered(c)
    ensures StaffCovered(After(c, t)) <==> !SkipsStaff(c, t)
  {
  }

  /** All along a run what is approved or released is signed by an owner or admin, exactly
      when no step of it is one of those. */
  lemma StaffSignsExactlyWhen(steps: seq<Timed>)
    ensures Throughout(c => StaffCovered(c), steps) <==> Nowhere((c, t) => SkipsStaff(c, t), steps)
  {
    forall c, t | StaffCovered(c) ensures StaffCovered(After(c, t)) <==> !SkipsStaff(c, t) {
      StaffStep(c, t);
    }
    ThroughoutExactlyWhen(c => StaffCovered(c), (c, t) => SkipsStaff(c, t), steps);
  }

  /** Even with the setting on there is such a run: a member submits, the brand approves, and
      the scheduler sends, with no owner or admin involved. */
  lemma BrandAloneCanRelease()
    ensures var steps := [Timed(Submit, 1, Required), Timed(Decide(BrandApproved, false), 2, Required),
                          Timed(Dispatch(NoRole, NoPlan, true), 3, Required)];
            var c := Run(NEW, steps);
            c.status == Processing && (c.version, Staff) !in c.signOffs
  {
    var s1, s2 := Timed(Submit, 1, Required), Timed(Decide(BrandApproved, false), 2, Required);
    var s3 := Timed(Dispatch(NoRole, NoPlan, true), 3, Required);
    assert [s1, s2, s3][..2] == [s1, s2] && [s1, s2][..1] == [s1] && [s1][..0] == [];
    assert Run(NEW, []) == NEW;
    var c1 := Run(NEW, [s1]);
    assert c1 == NEW.(status := PendingApproval);
    var c2 := Run(NEW, [s1, s2]);
    assert c2.status == Approved && c2.signOffs == {(0, Brand)} && LatestReview(c2) == Some(Review(BrandApproved, 2, 0));
  }

  /** Why the edit must be atomic with the read that decides on the reset: written on its
      own, it keeps an approved campaign covered exactly when it resets it. */
  lemma EditKeepsCoverExactlyWhen(c: Campaign, reset: bool, now: int)
    requires Covered(c)
    ensures Covered(UpdateContent(c, reset, now)) <==> reset || c.status != Approved
  {
    if c.status == Approved && !reset {
      assert !SignedOff(UpdateContent(c, reset, now));
    }
  }

  /** A campaign waiting for approval is never scheduled, not even by an owner: the gate
      lets it through but the update matches no row. */
  lemma SchedulableExactlyWhen(c: Campaign, role: Role, requireApproval: bool)
    ensures Apply(c, Schedule(role, false), 0, requireApproval).status == Scheduled && c.status != Scheduled
       <==> && (c.status == Approved || (c.status == Draft && (!requireApproval || IsApprover(role))))
            && (LatestReview(c).Some? ==> BrandReviewCurrent(c) && LatestReview(c).value.verdict == BrandApproved)
  {
  }

  // ---- Who may do what ----

  /** The brand's last word is a change request, made no earlier than the last revision. */
  ghost predicate ChangesWanted(c: Campaign) {
    && c.reviews != [] && c.reviews[|c.reviews| - 1].verdict == ChangesRequested
    && (c.revisedAt.Some? ==> c.revisedAt.value <= c.reviews[|c.reviews| - 1].at)
  }

  /** The brand has spoken, but before the last revision. */
  ghost predicate ReviewOutdated(c: Campaign) {
    c.reviews != [] && c.revisedAt.Some? && c.reviews[|c.reviews| - 1].at < c.revisedAt.value
  }

  /** When each of the operations on content and approval takes effect. */
  lemma ApprovalStepsExactlyWhen(c: Campaign, role: Role, given: bool, verdict: Verdict, req: bool)
    ensures Refused(c, Update(given), req).None? <==>
              && given
              && (c.status == Draft || c.status == Rejected
                  || ((c.status == PendingApproval || c.status == Approved)
                      && c.reviews != [] && c.reviews[|c.reviews| - 1].verdict == ChangesRequested))
    ensures Refused(c, Submit, req).None? <==> c.status == Draft || c.status == Rejected
    ensures Refused(c, Approve(role), req).None? <==>
              (role == Owner || role == Admin) && c.status == PendingApproval && !ChangesWanted(c)
    ensures Refused(c, Reject(role, given), req).None? <==>
              (role == Owner || role == Admin) && given && c.status == PendingApproval
    ensures Refused(c, Decide(verdict, given), req).None? <==>
              && (verdict == BrandApproved || given)
              && (c.status == Draft || c.status == PendingApproval || c.status == Approved)
  {
  }

  /** When a schedule or dispatch takes effect. */
  lemma SendingStepsExactlyWhen(c: Campaign, role: Role, plan: Plan, deliverable: bool, tooSoon: bool, req: bool)
    ensures Refused(c, Schedule(role, tooSoon), req).None? <==>
              && !tooSoon && !ChangesWanted(c) && !ReviewOutdated(c)
              && (c.status == Approved || (c.status == Draft && (req ==> role == Owner || role == Admin)))
    ensures Refused(c, Dispatch(role, plan, deliverable), req).None? <==>
              && deliverable && !ChangesWanted(c) && !ReviewOutdated(c)
              && (plan.Plan? && plan.sent.Some? && plan.limit != -1 ==> plan.sent.value < plan.limit)
              && (c.status == Approved || c.status == Scheduled
                  || ((c.status == Draft || c.status == PendingApproval) && (req ==> role == Owner || role == Admin)))
  {
  }

  /** Every refusal gives a reason that is true. */
  lemma RefusalsAreTrue(c: Campaign, a: Action, req: bool)
    requires Refused(c, a, req).Some?
    ensures match Refused(c, a, req).value
            case NotEditable => a.Update? && !Editable(c)
            case InvalidContent => a.Update? && !a.contentValid
            case NotAnApprover => (a.Approve? && a.role in {Member, NoRole}) || (a.Reject? && a.role in {Member, NoRole})
            case ReasonRequired => a.Reject? && !a.reasonGiven
            case NoteRequired => a.Decide? && a.verdict == ChangesRequested && !a.noteGiven
            case NotReviewable => a.Decide? && c.status !in {Draft, PendingApproval, Approved}
            case TooSoon => a.Schedule? && a.tooSoon
            case ChangesOutstanding => (a.Approve? || a.Schedule? || a.Dispatch?) && ChangesWanted(c)
            case ReviewStale => (a.Schedule? || a.Dispatch?) && ReviewOutdated(c)
            case AwaitingApproval => (a.Schedule? || a.Dispatch?) && req && c.status == PendingApproval && a.role in {Member, NoRole}
            case ApprovalRequired => (a.Schedule? || a.Dispatch?) && req && c.status !in {PendingApproval, Approved} && a.role in {Member, NoRole}
            case AlreadyExecuted => a.Dispatch? && (Executed(c.status) || c.status == Cancelled)
            case WasRejected => a.Dispatch? && c.status == Rejected
            case QuotaExceeded => a.Dispatch? && a.plan.Plan? && a.plan.sent.Some? && a.plan.sent.value >= a.plan.limit != -1
            case NothingDeliverable => a.Dispatch? && !a.deliverable
            case RowNotMatched => (a.Schedule? && c.status == PendingApproval) || (a.CancelSchedule? && c.status != Scheduled)
                                  || (a.LastResult? && c.status != Processing)
            case WrongStatus =>
              || (a.Submit? && c.status !in {Draft, Rejected})
              || ((a.Approve? || a.Reject?) && c.status != PendingApproval)
              || (a.Schedule? && c.status !in {Draft, PendingApproval, Approved})
              || (a.Cancel? && c.status !in {Draft, Scheduled, PendingApproval, Approved})
              || (a.Pause? && c.status != Processing) || (a.Resume? && c.status != Paused)
              || ((a.Reopen? || a.Restore?) && c.status !in {Processing, Paused, Completed})
  {
  }

  /** The first of several reasons is the one given. */
  lemma FirstReasonGiven(c: Campaign, role: Role, plan: Plan, given: bool, tooSoon: bool, req: bool)
    ensures !Editable(c) ==> Refused(c, Update(given), req) == Some(NotEditable)
    ensures !(role == Owner || role == Admin) ==>
              Refused(c, Approve(role), req) == Refused(c, Reject(role, given), req) == Some(NotAnApprover)
    ensures (role == Owner || role == Admin) && c.status != PendingApproval ==>
              && Refused(c, Approve(role), req) == Some(WrongStatus)
              && Refused(c, Reject(role, given), req) == Some(if given then WrongStatus else ReasonRequired)
    ensures tooSoon ==> Refused(c, Schedule(role, tooSoon), req) == Some(TooSoon)
    ensures !tooSoon && ChangesWanted(c) ==> Refused(c, Schedule(role, tooSoon), req) == Some(ChangesOutstanding)
    ensures !tooSoon && ReviewOutdated(c) ==> Refused(c, Schedule(role, tooSoon), req) == Some(ReviewStale)
    ensures !tooSoon && !ChangesWanted(c) && !ReviewOutdated(c) && req && c.status != Approved && role in {Member, NoRole} ==>
              Refused(c, Schedule(role, tooSoon), req) in {Some(AwaitingApproval), Some(ApprovalRequired)}
    ensures c.status !in {Rejected, Cancelled} && !Executed(c.status) && ChangesWanted(c) ==>
              Refused(c, Dispatch(role, plan, given), req) == Some(ChangesOutstanding)
    ensures c.status !in {Rejected, Cancelled} && !Executed(c.status) && ReviewOutdated(c) ==>
              Refused(c, Dispatch(role, plan, given), req) == Some(ReviewStale)
    ensures Executed(c.status) || c.status == Cancelled ==>
              Refused(c, Dispatch(role, plan, given), req) == Some(AlreadyExecuted)
  {
  }

  /** Which actions change the status, and from what to what. */
  lemma EdgesAreExactly(c: Campaign, a: Action, now: int, req: bool)
    ensures var d := Apply(c, a, now, req);
            c.status != d.status ==>
              match d.status
              case Draft => (a.Update? && c.status in {PendingApproval, Approved, Rejected}) || (a.CancelSchedule? && c.status == Scheduled)
              case PendingApproval => a.Submit? && c.status in {Draft, Rejected}
              case Approved =>
                c.status == PendingApproval && ((a.Approve? && a.role in {Owner, Admin}) || (a.Decide? && a.verdict == BrandApproved))
              case Rejected => c.status == PendingApproval && a.Reject? && a.role in {Owner, Admin} && a.reasonGiven
              case Scheduled => a.Schedule? && c.status in {Draft, Approved}
              case Processing =>
                || (a.Dispatch? && c.status in {Draft, PendingApproval, Approved, Scheduled})
                || (a.Resume? && c.status == Paused) || (a.Reopen? && c.status in {Paused, Completed})
              case Paused => a.Pause? && c.status == Processing
              case Completed => (a.LastResult? && c.status == Processing) || (a.Restore? && c.status in {Processing, Paused})
              case Cancelled => a.Cancel? && c.status in {Draft, Scheduled, PendingApproval, Approved}
  {
  }

  /** And every one of those edges is taken when its action is. */
  lemma EdgesAreTaken(c: Campaign, a: Action, now: int, req: bool)
    requires Refused(c, a, req).None?
    ensures var d := Apply(c, a, now, req);
            match a
            case Update(_) => d.status == Draft
            case Submit => d.status == PendingApproval
            case Approve(_) => d.status == Approved
            case Reject(_, _) => d.status == Rejected
            case Decide(v, _) => d.status == if v == BrandApproved && c.status == PendingApproval then Approved else c.status
            case Schedule(_, _) => d.status == Scheduled
            case CancelSchedule => d.status == Draft
            case Cancel => d.status == Cancelled
            case Dispatch(_, _, _) | Resume | Reopen => d.status == Processing
            case Pause => d.status == Paused
            case LastResult | Restore => d.status == Completed
  {
  }

  lemma OperatorStepsExactlyWhen(c: Campaign, req: bool)
    ensures Refused(c, CancelSchedule, req).None? <==> c.status == Scheduled
    ensures Refused(c, Cancel, req).None? <==> c.status in {Draft, Scheduled, PendingApproval, Approved}
    ensures Refused(c, Pause, req).None? <==> c.status == Processing
    ensures Refused(c, Resume, req).None? <==> c.status == Paused
    ensures Refused(c, LastResult, req).None? <==> c.status == Processing
    ensures Refused(c, Reopen, req).None? <==> c.status in {Processing, Paused, Completed}
    ensures Refused(c, Restore, req).None? <==> c.status in {Processing, Paused, Completed}
  {
  }

  // ---- What the histories record ----

  /** The step is an approval, schedule or dispatch by an owner or admin that takes effect. */
  predicate StaffSigns(c: Campaign, t: Timed) {
    && Refused(c, t.action, RequiresApproval(t.setting)).None?
    && match t.action
       case Approve(role) => role == Owner || role == Admin
       case Schedule(role, _) => role == Owner || role == Admin
       case Dispatch(role, _, _) => role == Owner || role == Admin
       case _ => false
  }

  /** The step is the brand's approval of a campaign that awaits one. */
  predicate BrandSigns(c: Campaign, t: Timed) {
    t.action.Decide? && t.action.verdict == BrandApproved && c.status == PendingApproval
  }

  lemma SignOffStep(c: Campaign, t: Timed, v: nat)
    ensures (v, Staff) in After(c, t).signOffs <==> (v, Staff) in c.signOffs || (StaffSigns(c, t) && c.version == v)
    ensures (v, Brand) in After(c, t).signOffs <==> (v, Brand) in c.signOffs || (BrandSigns(c, t) && c.version == v)
  {
  }

  /** A version carries a sign-off of staff's exactly when an owner or admin approved, scheduled
      or dispatched just that version, and one of the brand's exactly when the brand approved it
      while it was awaiting approval. */
  lemma {:induction false} SignedExactlyWhen(steps: seq<Timed>, v: nat)
    ensures (v, Staff) in Run(NEW, steps).signOffs <==> !Nowhere((c, t) => StaffSigns(c, t) && c.version == v, steps)
    ensures (v, Brand) in Run(NEW, steps).signOffs <==> !Nowhere((c, t) => BrandSigns(c, t) && c.version == v, steps)
  {
    if steps != [] {
      var m := |steps| - 1;
      SignedExactlyWhen(steps[..m], v);
      SignOffStep(Run(NEW, steps[..m]), steps[m], v);
      NowhereSnoc((c, t) => StaffSigns(c, t) && c.version == v, steps, m);
      NowhereSnoc((c, t) => BrandSigns(c, t) && c.version == v, steps, m);
    }
  }

  /** An edit raises the version and sets the time of revision, a decision is appended with its
      time and the version it was made on, and nothing else touches either history. */
  lemma HistoryStep(c: Campaign, t: Timed)
    ensures var d, done := After(c, t), Refused(c, t.action, RequiresApproval(t.setting)).None?;
            && d.version == c.version + (if done && t.action.Update? then 1 else 0)
            && d.revisedAt == (if done && t.action.Update? then Some(t.now) else c.revisedAt)
            && d.reviews == c.reviews + (if done && t.action.Decide? then [Review(t.action.verdict, t.now, c.version)] else [])
  {
  }

  // ---- The brand's verdict covers what is sent ----

  /** Times and versions tell the same story, and what is released has the brand's approval
      of exactly its current content if the brand ever decided. */
  ghost predicate VerdictInvariant(c: Campaign, clock: int) {
    && (c.revisedAt.None? <==> c.version == 0)
    && (c.revisedAt.Some? ==> c.revisedAt.value <= clock)
    && (LatestReview(c).Some? ==>
          var r := LatestReview(c).value;
          && r.at <= clock && r.version <= c.version
          && (r.version == c.version <==> (c.revisedAt.Some? ==> r.at > c.revisedAt.value))
          && (r.version < c.version ==> c.revisedAt.Some? && r.at < c.revisedAt.value))
    && (Released(c.status) && LatestReview(c).Some? ==> VerdictCovers(c))
  }

  predicate VerdictCovers(c: Campaign) {
    LatestReview(c).Some? && LatestReview(c).value.verdict == BrandApproved && LatestReview(c).value.version == c.version
  }

  lemma VerdictStep(c: Campaign, clock: int, a: Action, now: int, requireApproval: bool)
    requires VerdictInvariant(c, clock) && clock < now
    ensures VerdictInvariant(Apply(c, a, now, requireApproval), now)
  {
    if a.Decide? {
      assert LatestReview(Effect(c, a, now)) == Some(Review(a.verdict, now, c.version));
    } else {
      assert Apply(c, a, now, requireApproval).reviews == c.reviews;
    }
  }

  lemma {:induction false} RunKeepsVerdict(steps: seq<Timed>, clock: int)
    requires Increasing(steps) && forall i | 0 <= i < |steps| :: steps[i].now <= clock
    ensures VerdictInvariant(Run(NEW, steps), clock)
  {
    if steps != [] {
      var n := |steps| - 1;
      RunKeepsVerdict(steps[..n], steps[n].now - 1);
      VerdictStep(Run(NEW, steps[..n]), steps[n].now - 1, steps[n].action, steps[n].now, RequiresApproval(steps[n].setting));
    }
  }

  /** With strictly increasing times, whatever is scheduled, being sent or sent has, if the
      brand ever decided, an approval as its latest decision, made on the current content;
      and the comparison of times is then exactly the comparison of versions. */
  lemma VerdictCoversWhatIsSent(steps: seq<Timed>)
    requires Increasing(steps)
    ensures var c := Run(NEW, steps);
            && (Released(c.status) && LatestReview(c).Some? ==> VerdictCovers(c))
            && (LatestReview(c).Some? ==> (BrandReviewCurrent(c) <==> LatestReview(c).value.version == c.version))
  {
    RunKeepsVerdict(steps, if steps == [] then 0 else steps[|steps| - 1].now);
  }

  /** Equal times defeat the comparison: a decision made in the same instant before an edit
      still counts as current. */
  lemma TiesHideARevision(now: int, setting: Setting)
    ensures var c := Run(NEW, [Timed(Decide(BrandApproved, false), now, setting), Timed(Update(true), now, setting)]);
            BrandReviewCurrent(c) && LatestReview(c).value.version < c.version
  {
    var s1, s2 := Timed(Decide(BrandApproved, false), now, setting), Timed(Update(true), now, setting);
    assert [s1, s2][..1] == [s1] && [s1][..0] == [];
    assert Run(NEW, []) == NEW;
    var c1 := Run(NEW, [s1]);
    assert c1.reviews == [Review(BrandApproved, now, 0)];
  }

  ghost predicate NeverBackwards(steps: seq<Timed>) {
    forall i, j | 0 <= i < j < |steps| :: steps[i].now <= steps[j].now
  }

  /** What remains of the correspondence between times and versions when times may repeat. */
  ghost predicate LooseVerdict(c: Campaign, clock: int) {
    && (c.revisedAt.None? <==> c.version == 0)
    && (c.revisedAt.Some? ==> c.revisedAt.value <= clock)
    && (LatestReview(c).Some? ==>
          var r := LatestReview(c).value;
          && r.at <= clock && r.version <= c.version
          && (r.version == c.version ==> BrandReviewCurrent(c))
          && (r.version < c.version ==> r.at <= c.revisedAt.value))
  }

  lemma LooseStep(c: Campaign, clock: int, a: Action, now: int, requireApproval: bool)
    requires LooseVerdict(c, clock) && clock <= now
    ensures LooseVerdict(Apply(c, a, now, requireApproval), now)
  {
    if a.Decide? {
      assert LatestReview(Effect(c, a, now)) == Some(Review(a.verdict, now, c.version));
    } else {
      assert Apply(c, a, now, requireApproval).reviews == c.reviews;
    }
  }

  lemma {:induction false} RunKeepsLooseVerdict(steps: seq<Timed>, clock: int)
    requires NeverBackwards(steps) && forall i | 0 <= i < |steps| :: steps[i].now <= clock
    ensures LooseVerdict(Run(NEW, steps), clock)
  {
    if steps != [] {
      var n := |steps| - 1;
      RunKeepsLooseVerdict(steps[..n], steps[n].now);
      LooseStep(Run(NEW, steps[..n]), steps[n].now, steps[n].action, steps[n].now, RequiresApproval(steps[n].setting));
    }
  }

  /** With a clock that may stand still, the comparison of times tells whether the latest
      decision is about the current content, except exactly when the content was edited
      after that decision and last in the same instant. */
  lemma ComparisonTellsExactlyWhen(steps: seq<Timed>)
    requires NeverBackwards(steps) && LatestReview(Run(NEW, steps)).Some?
    ensures var c := Run(NEW, steps);
            var r := LatestReview(c).value;
            (BrandReviewCurrent(c) <==> r.version == c.version)
            <==> !(r.version < c.version && c.revisedAt == Some(r.at))
  {
    RunKeepsLooseVerdict(steps, if steps == [] then 0 else steps[|steps| - 1].now);
  }

  /** Once a dispatch has begun the content is frozen: through any later steps the campaign
      stays processing, paused or completed, and every retry sends the dispatched version. */
  lemma {:induction false} ContentIsFrozen(c: Campaign, steps: seq<Timed>)
    requires Executed(c.status)
    ensures var d := Run(c, steps);
            Executed(d.status) && d.version == c.version && d.reviews == c.reviews && d.signOffs == c.signOffs
  {
    if steps != [] {
      ContentIsFrozen(c, steps[..|steps| - 1]);
    }
  }
}
