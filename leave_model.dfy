/**
 * The records, results and decision rules of the three server actions in
 * app/actions/leave.ts: who may submit, edit and review a leave application,
 * what each failure reports, and how an approval debits the balance ledger.
 *
 * The stateful actions themselves are the methods of `LeaveActions.LeaveService`;
 * this module holds the value-level rules they are specified by, and the
 * lemmas stating what those rules promise.
 */
module LeaveModel {
  import opened Wrappers
  import opened Decimal
  import opened Validation

  type UserId = string
  type LeaveTypeId = string
  type ApplicationId = nat
  /** A point in time (`new Date()`), in milliseconds. */
  type Timestamp = int

  /** The `role` column of a caller's profile. */
  datatype Role = Student | Admin

  /** What `auth.getUser()` and the profile lookup yield: no signed-in user,
   *  or a user whose profile has a role (`None` when the profile lookup
   *  fails). */
  datatype Caller = Anonymous | SignedIn(id: UserId, role: Option<Role>)

  datatype Status = Pending | Approved | Rejected | Cancelled

  /** The `status` argument of approveOrRejectApplication. */
  datatype Decision = Approve | Reject

  function DecisionStatus(d: Decision): (s: Status)
    ensures s == Approved || s == Rejected
    ensures s == Approved <==> d == Approve
  {
    match d
    case Approve => Approved
    case Reject => Rejected
  }

  /** A row of `leave_applications`; dates are day numbers. */
  datatype Application = Application(
    studentId: UserId,
    leaveTypeId: LeaveTypeId,
    startDate: int,
    endDate: int,
    reason: string,
    status: Status,
    adminComments: Option<string>,
    approvedBy: Option<UserId>,
    approvedAt: Option<Timestamp>,
    createdAt: Timestamp)

  /** The key of a `leave_balance` row. */
  datatype BalanceKey = BalanceKey(studentId: UserId, leaveTypeId: LeaveTypeId, year: int)

  datatype Balance = Balance(totalDays: int, usedDays: int, remainingDays: int)

  type Ledger = map<BalanceKey, Balance>
  type Applications = map<ApplicationId, Application>

  datatype LeaveError =
    | NotAuthenticated
    | NotStudent
    | NotAdmin
    | NotFound
    | Unauthorized
    | NotPending
    | InsufficientBalance(remaining: int)
    | SubmitFailed
    | UpdateFailed
    | StatusUpdateFailed

  /** The `{ success, error }` object every action returns. */
  datatype ActionResult = Ok | Fail(error: LeaveError)

  const InsufficientPrefix := "You only have "
  const InsufficientSuffix := " days available for this leave type"

  /** The `error` string the caller receives. */
  function Message(e: LeaveError): (m: string)
    ensures e.InsufficientBalance? ==>
      && |m| > |InsufficientPrefix| + |InsufficientSuffix|
      && m[..|InsufficientPrefix|] == InsufficientPrefix
      && m[|m| - |InsufficientSuffix|..] == InsufficientSuffix
  {
    match e
    case NotAuthenticated => "Not authenticated"
    case NotStudent => "Only students can apply for leave"
    case NotAdmin => "Only admins can approve or reject applications"
    case NotFound => "Application not found"
    case Unauthorized => "Unauthorized"
    case NotPending => "Only pending applications can be edited"
    case InsufficientBalance(n) => InsufficientPrefix + IntToDecimal(n) + InsufficientSuffix
    case SubmitFailed => "Failed to submit leave application. Please try again."
    case UpdateFailed => "Failed to update leave application. Please try again."
    case StatusUpdateFailed => "Failed to update application status"
  }

  /** The insufficient-balance message reports exactly the remaining count:
   *  the text between its fixed prefix and suffix parses back to it. */
  lemma InsufficientMessageReportsRemaining(n: int)
    ensures var m := Message(InsufficientBalance(n));
      var digits := m[|InsufficientPrefix|..|m| - |InsufficientSuffix|];
      && digits == IntToDecimal(n)
      && |digits| >= 1
      && (digits[0] == '-' || IsDigit(digits[0]))
      && (forall k :: 1 <= k < |digits| ==> IsDigit(digits[k]))
      && ParseInt(digits) == n
  {
    var m := Message(InsufficientBalance(n));
    var digits := IntToDecimal(n);
    assert m == InsufficientPrefix + digits + InsufficientSuffix;
    assert m[|InsufficientPrefix|..|m| - |InsufficientSuffix|] == digits;
    if n < 0 {
      assert digits[1..] == NatToDecimal(-n);
      assert forall k :: 1 <= k < |digits| ==> digits[k] == NatToDecimal(-n)[k - 1];
    }
    IntRoundTrip(n);
  }

  /** Reads the failure back from the `error` string. */
  function ParseMessage(m: string): Option<LeaveError> {
    // Only the insufficient-balance messages and the two failed-write
    // messages that end in a full stop are longer than the prefix and
    // suffix together.
    if |m| > |InsufficientPrefix| + |InsufficientSuffix| && m[|m| - 1] != '.' then
      if && m[..|InsufficientPrefix|] == InsufficientPrefix
         && m[|m| - |InsufficientSuffix|..] == InsufficientSuffix
         && IsIntText(m[|InsufficientPrefix|..|m| - |InsufficientSuffix|])
      then Some(InsufficientBalance(ParseInt(m[|InsufficientPrefix|..|m| - |InsufficientSuffix|])))
      else None
    // The fixed messages have distinct lengths, except the two that say
    // "submit" and "update".
    else if |m| == 17 && m == Message(NotAuthenticated) then Some(NotAuthenticated)
    else if |m| == 33 && m == Message(NotStudent) then Some(NotStudent)
    else if |m| == 46 && m == Message(NotAdmin) then Some(NotAdmin)
    else if |m| == 21 && m == Message(NotFound) then Some(NotFound)
    else if |m| == 12 && m == Message(Unauthorized) then Some(Unauthorized)
    else if |m| == 39 && m == Message(NotPending) then Some(NotPending)
    else if |m| == 53 && m[15] == 't' && m == Message(SubmitFailed) then Some(SubmitFailed)
    else if |m| == 53 && m[15] == 'e' && m == Message(UpdateFailed) then Some(UpdateFailed)
    else if |m| == 35 && m == Message(StatusUpdateFailed) then Some(StatusUpdateFailed)
    else None
  }

  /** The insufficient-balance message reads back with the count it reports. */
  lemma InsufficientRoundTrip(n: int)
    ensures ParseMessage(Message(InsufficientBalance(n))) == Some(InsufficientBalance(n))
  {
    var m := Message(InsufficientBalance(n));
    InsufficientMessageReportsRemaining(n);
    assert m[|m| - 1] == m[|m| - |InsufficientSuffix|..][|InsufficientSuffix| - 1] == 'e';
  }

  /** The messages that refuse the caller read back. */
  lemma CallerMessageRoundTrip(e: LeaveError)
    requires e.NotAuthenticated? || e.NotStudent? || e.NotAdmin? || e.Unauthorized?
    ensures ParseMessage(Message(e)) == Some(e)
  {
  }

  /** The messages about a missing or decided application and a refused
   *  status write read back. */
  lemma ApplicationMessageRoundTrip(e: LeaveError)
    requires e.NotFound? || e.NotPending? || e.StatusUpdateFailed?
    ensures ParseMessage(Message(e)) == Some(e)
  {
  }

  /** The submit and update failure messages read back; they have the same
   *  length and differ at index 15. */
  lemma WriteMessageRoundTrip(e: LeaveError)
    requires e.SubmitFailed? || e.UpdateFailed?
    ensures ParseMessage(Message(e)) == Some(e)
  {
    assert Message(SubmitFailed)[15] == 't' && Message(UpdateFailed)[15] == 'e';
  }

  /** Every failure can be read back from its message. */
  lemma MessageRoundTrip(e: LeaveError)
    ensures ParseMessage(Message(e)) == Some(e)
  {
    match e
    case InsufficientBalance(n) => InsufficientRoundTrip(n);
    case SubmitFailed => WriteMessageRoundTrip(e);
    case UpdateFailed => WriteMessageRoundTrip(e);
    case NotFound => ApplicationMessageRoundTrip(e);
    case NotPending => ApplicationMessageRoundTrip(e);
    case StatusUpdateFailed => ApplicationMessageRoundTrip(e);
    case _ => CallerMessageRoundTrip(e);
  }

  /** Different failures produce different messages, so the string alone
   *  tells the caller what went wrong. */
  lemma MessagesIdentifyErrors(e1: LeaveError, e2: LeaveError)
    requires Message(e1) == Message(e2)
    ensures e1 == e2
  {
    MessageRoundTrip(e1);
    MessageRoundTrip(e2);
  }

  // ---------------------------------------------------------------------
  // Balance check shared by submit and update
  // ---------------------------------------------------------------------

  /** The row a request is checked against: the caller's balance for the leave
   *  type in the current year. */
  function BalanceRow(ledger: Ledger, key: BalanceKey): Option<Balance> {
    if key in ledger then Some(ledger[key]) else None
  }

  /** `balance && leaveDays > balance.remaining_days`: a request is refused
   *  only when a row exists and the day count exceeds what remains. With no
   *  row there is no check at all. */
  predicate ExceedsBalance(row: Option<Balance>, leaveDays: nat)
    ensures ExceedsBalance(row, leaveDays) ==> row.Some?
    ensures row.Some? && leaveDays <= row.value.remainingDays ==> !ExceedsBalance(row, leaveDays)
  {
    row.Some? && leaveDays > row.value.remainingDays
  }

  // ---------------------------------------------------------------------
  // submitLeaveApplication
  // ---------------------------------------------------------------------

  /** The outcome of submitLeaveApplication, given the ledger it reads. */
  function SubmitOutcome(ledger: Ledger, caller: Caller, leaveTypeId: LeaveTypeId,
                         startDate: int, endDate: int, year: int, storeAccepts: bool): (r: ActionResult)
    ensures caller.Anonymous? ==> r == Fail(NotAuthenticated)
    ensures r.Ok? ==> caller.SignedIn? && caller.role == Some(Student) && storeAccepts
  {
    if caller.Anonymous? then Fail(NotAuthenticated)
    else if caller.role != Some(Student) then Fail(NotStudent)
    else
      var row := BalanceRow(ledger, BalanceKey(caller.id, leaveTypeId, year));
      if ExceedsBalance(row, LeaveDays(startDate, endDate)) then Fail(InsufficientBalance(row.value.remainingDays))
      else if !storeAccepts then Fail(SubmitFailed)
      else Ok
  }

  /** The record a successful submission inserts. */
  function NewApplication(studentId: UserId, leaveTypeId: LeaveTypeId, startDate: int, endDate: int,
                          reason: string, now: Timestamp): (a: Application)
    ensures a.status == Pending && a.studentId == studentId && a.leaveTypeId == leaveTypeId
    ensures a.startDate == startDate && a.endDate == endDate && a.reason == reason
    ensures a.adminComments == None && a.approvedBy == None && a.approvedAt == None
  {
    Application(studentId, leaveTypeId, startDate, endDate, reason, Pending, None, None, None, now)
  }

  /** Only a signed-in student may submit. */
  lemma SubmitRequiresStudent(ledger: Ledger, caller: Caller, leaveTypeId: LeaveTypeId,
                              startDate: int, endDate: int, year: int, storeAccepts: bool)
    requires !(caller.SignedIn? && caller.role == Some(Student))
    ensures SubmitOutcome(ledger, caller, leaveTypeId, startDate, endDate, year, storeAccepts)
            == Fail(if caller.Anonymous? then NotAuthenticated else NotStudent)
  {
  }

  /** A student's submission succeeds exactly when the balance row for the
   *  type and year is missing or covers the inclusive day count, and the store
   *  accepts the insert; it is refused with the remaining count exactly when
   *  the row exists and is exceeded. */
  lemma SubmitBalanceRule(ledger: Ledger, student: UserId, leaveTypeId: LeaveTypeId,
                          startDate: int, endDate: int, year: int, storeAccepts: bool)
    ensures var key := BalanceKey(student, leaveTypeId, year);
      var r := SubmitOutcome(ledger, SignedIn(student, Some(Student)), leaveTypeId, startDate, endDate, year, storeAccepts);
      && (r == Ok <==> (key !in ledger || LeaveDays(startDate, endDate) <= ledger[key].remainingDays) && storeAccepts)
      && (r.Fail? && r.error.InsufficientBalance? <==>
            key in ledger && LeaveDays(startDate, endDate) > ledger[key].remainingDays)
      && (r.Fail? && r.error.InsufficientBalance? ==> r.error.remaining == ledger[key].remainingDays)
      && (((key !in ledger || LeaveDays(startDate, endDate) <= ledger[key].remainingDays) && !storeAccepts)
            ==> r == Fail(SubmitFailed))
  {
  }

  /** The server never rejects a reversed range: swapping the dates gives the
   *  same outcome. */
  lemma SubmitIgnoresDateOrder(ledger: Ledger, caller: Caller, leaveTypeId: LeaveTypeId,
                               startDate: int, endDate: int, year: int, storeAccepts: bool)
    ensures SubmitOutcome(ledger, caller, leaveTypeId, startDate, endDate, year, storeAccepts)
         == SubmitOutcome(ledger, caller, leaveTypeId, endDate, startDate, year, storeAccepts)
  {
  }

  /** With no balance row the balance check is skipped, however long the
   *  leave. */
  lemma SubmitUnlimitedWhenUnprovisioned(ledger: Ledger, student: UserId, leaveTypeId: LeaveTypeId,
                                         startDate: int, endDate: int, year: int)
    requires BalanceKey(student, leaveTypeId, year) !in ledger
    ensures SubmitOutcome(ledger, SignedIn(student, Some(Student)), leaveTypeId, startDate, endDate, year, true) == Ok
  {
  }

  /** Three days remaining: a five-day request is refused with the count 3,
   *  a request of three days or fewer goes through. */
  lemma SubmitThreeDaysRemaining(student: UserId, leaveTypeId: LeaveTypeId, year: int, startDate: int, endDate: int)
    ensures var key := BalanceKey(student, leaveTypeId, year);
      var ledger := map[key := Balance(3, 0, 3)];
      var caller := SignedIn(student, Some(Student));
      && SubmitOutcome(ledger, caller, leaveTypeId, 0, 4, year, true) == Fail(InsufficientBalance(3))
      && (LeaveDays(startDate, endDate) <= 3 ==>
            SubmitOutcome(ledger, caller, leaveTypeId, startDate, endDate, year, true) == Ok)
  {
  }

  // ---------------------------------------------------------------------
  // updateLeaveApplication
  // ---------------------------------------------------------------------

  /** The outcome of updateLeaveApplication. The balance row is looked up with
   *  the caller's id and the leave type stored on the application. */
  function UpdateOutcome(applications: Applications, ledger: Ledger, caller: Caller, applicationId: ApplicationId,
                         startDate: int, endDate: int, year: int, storeAccepts: bool): (r: ActionResult)
    ensures caller.Anonymous? ==> r == Fail(NotAuthenticated)
    ensures r.Ok? ==> caller.SignedIn? && applicationId in applications && storeAccepts
  {
    if caller.Anonymous? then Fail(NotAuthenticated)
    else if applicationId !in applications then Fail(NotFound)
    else
      var application := applications[applicationId];
      if application.studentId != caller.id then Fail(Unauthorized)
      else if application.status != Pending then Fail(NotPending)
      else
        var row := BalanceRow(ledger, BalanceKey(caller.id, application.leaveTypeId, year));
        if ExceedsBalance(row, LeaveDays(startDate, endDate)) then Fail(InsufficientBalance(row.value.remainingDays))
        else if !storeAccepts then Fail(UpdateFailed)
        else Ok
  }

  /** The record after a successful edit: new dates and reason, nothing else. */
  function Edited(application: Application, startDate: int, endDate: int, reason: string): (a: Application)
    ensures a.startDate == startDate && a.endDate == endDate && a.reason == reason
    ensures a.(startDate := application.startDate, endDate := application.endDate, reason := application.reason)
            == application
  {
    application.(startDate := startDate, endDate := endDate, reason := reason)
  }

  /** The guards run in order: existence, then ownership whatever the status,
   *  then pending status. */
  lemma UpdateGuardOrder(applications: Applications, ledger: Ledger, caller: Caller, applicationId: ApplicationId,
                         startDate: int, endDate: int, year: int, storeAccepts: bool)
    requires caller.SignedIn?
    ensures var r := UpdateOutcome(applications, ledger, caller, applicationId, startDate, endDate, year, storeAccepts);
      && (applicationId !in applications ==> r == Fail(NotFound))
      && (applicationId in applications && applications[applicationId].studentId != caller.id ==> r == Fail(Unauthorized))
      && ((applicationId in applications && applications[applicationId].studentId == caller.id
            && applications[applicationId].status != Pending) ==> r == Fail(NotPending))
  {
  }

  /** Update checks no role: an owner is an owner. And once an application is
   *  approved, rejected or cancelled its owner can no longer edit it. */
  lemma DecidedApplicationsAreFrozen(applications: Applications, ledger: Ledger, owner: UserId, role: Option<Role>,
                                     applicationId: ApplicationId, startDate: int, endDate: int, year: int, storeAccepts: bool)
    requires applicationId in applications && applications[applicationId].studentId == owner
    requires applications[applicationId].status != Pending
    ensures UpdateOutcome(applications, ledger, SignedIn(owner, role), applicationId, startDate, endDate, year, storeAccepts)
            == Fail(NotPending)
  {
  }

  /** The balance check of an update depends on one row only: the caller's,
   *  for the application's stored leave type, in the current year. Two
   *  ledgers that agree on that row give the same outcome. */
  lemma UpdateReadsOnlyItsBalanceRow(applications: Applications, ledger1: Ledger, ledger2: Ledger, caller: Caller,
                                     applicationId: ApplicationId, startDate: int, endDate: int, year: int, storeAccepts: bool)
    requires caller.SignedIn? && applicationId in applications
    requires var key := BalanceKey(caller.id, applications[applicationId].leaveTypeId, year);
      BalanceRow(ledger1, key) == BalanceRow(ledger2, key)
    ensures UpdateOutcome(applications, ledger1, caller, applicationId, startDate, endDate, year, storeAccepts)
         == UpdateOutcome(applications, ledger2, caller, applicationId, startDate, endDate, year, storeAccepts)
  {
  }

  /** An owner's edit of a pending application succeeds exactly when the row
   *  for the stored type is missing or covers the new day count, and the
   *  store accepts the write. */
  lemma UpdateBalanceRule(applications: Applications, ledger: Ledger, owner: UserId, role: Option<Role>,
                          applicationId: ApplicationId, startDate: int, endDate: int, year: int, storeAccepts: bool)
    requires applicationId in applications && applications[applicationId].studentId == owner
    requires applications[applicationId].status == Pending
    ensures var key := BalanceKey(owner, applications[applicationId].leaveTypeId, year);
      var r := UpdateOutcome(applications, ledger, SignedIn(owner, role), applicationId, startDate, endDate, year, storeAccepts);
      && (r == Ok <==> (key !in ledger || LeaveDays(startDate, endDate) <= ledger[key].remainingDays) && storeAccepts)
      && ((key in ledger && LeaveDays(startDate, endDate) > ledger[key].remainingDays)
            ==> r == Fail(InsufficientBalance(ledger[key].remainingDays)))
      && (r.Fail? && r.error.InsufficientBalance? ==> key in ledger && LeaveDays(startDate, endDate) > ledger[key].remainingDays)
      && (((key !in ledger || LeaveDays(startDate, endDate) <= ledger[key].remainingDays) && !storeAccepts)
            ==> r == Fail(UpdateFailed))
  {
  }

  // ---------------------------------------------------------------------
  // approveOrRejectApplication
  // ---------------------------------------------------------------------

  /** The outcome of approveOrRejectApplication. It does not depend on the
   *  application: an unknown id updates no row, which is not an error, and
   *  any prior status may be re-decided. */
  function ReviewOutcome(caller: Caller, storeAccepts: bool): (r: ActionResult)
    ensures r == Ok <==> caller.SignedIn? && caller.role == Some(Admin) && storeAccepts
    ensures caller.Anonymous? ==> r == Fail(NotAuthenticated)
    ensures caller.SignedIn? && caller.role != Some(Admin) ==> r == Fail(NotAdmin)
    ensures caller.SignedIn? && caller.role == Some(Admin) && !storeAccepts ==> r == Fail(StatusUpdateFailed)
  {
    if caller.Anonymous? then Fail(NotAuthenticated)
    else if caller.role != Some(Admin) then Fail(NotAdmin)
    else if !storeAccepts then Fail(StatusUpdateFailed)
    else Ok
  }

  /** The record after a decision: status, comments, reviewer and time. */
  function Stamped(application: Application, decision: Decision, comments: string,
                   admin: UserId, now: Timestamp): (a: Application)
    ensures a.status == DecisionStatus(decision)
    ensures a.adminComments == Some(comments) && a.approvedBy == Some(admin) && a.approvedAt == Some(now)
    ensures a.studentId == application.studentId && a.leaveTypeId == application.leaveTypeId
    ensures a.startDate == application.startDate && a.endDate == application.endDate
    ensures a.reason == application.reason && a.createdAt == application.createdAt
  {
    application.(status := DecisionStatus(decision), adminComments := Some(comments),
                 approvedBy := Some(admin), approvedAt := Some(now))
  }

  /** `remaining_days - leaveDays` on the row with `key`, when there is one.
   *  No row is created, and no other counter or row changes. */
  function Debited(ledger: Ledger, key: BalanceKey, days: nat): (after: Ledger)
    ensures after.Keys == ledger.Keys
    ensures forall k | k in ledger && k != key :: after[k] == ledger[k]
    ensures key in ledger ==>
      && after[key].remainingDays == ledger[key].remainingDays - days
      && after[key].totalDays == ledger[key].totalDays
      && after[key].usedDays == ledger[key].usedDays
  {
    if key in ledger then ledger[key := ledger[key].(remainingDays := ledger[key].remainingDays - days)]
    else ledger
  }

  /** The row an approval of `application` debits. */
  function ApprovalKey(application: Application, year: int): BalanceKey {
    BalanceKey(application.studentId, application.leaveTypeId, year)
  }

  /** The ledger after a review: an approval of a known application debits its
   *  owner's row for its type and the current year by its inclusive day count;
   *  a rejection, an unknown application or a failed review changes nothing. */
  function ReviewedLedger(applications: Applications, ledger: Ledger, applicationId: ApplicationId,
                          decision: Decision, year: int, outcome: ActionResult): (after: Ledger)
    ensures after.Keys == ledger.Keys
    ensures outcome.Fail? || decision == Reject || applicationId !in applications ==> after == ledger
    ensures forall k | k in ledger && (applicationId !in applications || k != ApprovalKey(applications[applicationId], year))
              :: after[k] == ledger[k]
  {
    if outcome == Ok && decision == Approve && applicationId in applications then
      var application := applications[applicationId];
      Debited(ledger, ApprovalKey(application, year), LeaveDays(application.startDate, application.endDate))
    else ledger
  }

  /** A rejection never touches the ledger. */
  lemma RejectionKeepsLedger(applications: Applications, ledger: Ledger, applicationId: ApplicationId,
                             year: int, outcome: ActionResult)
    ensures ReviewedLedger(applications, ledger, applicationId, Reject, year, outcome) == ledger
  {
  }

  /** Approving a known application takes its inclusive day count off its
   *  owner's (type, year) row and leaves every other row as it was. */
  lemma ApprovalDebitsDayCount(applications: Applications, ledger: Ledger, applicationId: ApplicationId, year: int)
    requires applicationId in applications
    requires ApprovalKey(applications[applicationId], year) in ledger
    ensures var application := applications[applicationId];
      var key := ApprovalKey(application, year);
      var after := ReviewedLedger(applications, ledger, applicationId, Approve, year, Ok);
      && after[key].remainingDays == ledger[key].remainingDays - LeaveDays(application.startDate, application.endDate)
      && after.Keys == ledger.Keys
      && forall k | k in ledger && k != key :: after[k] == ledger[k]
  {
  }

  /** The decrement leaves `used_days` alone, so a row that satisfied
   *  remaining = total - used no longer does after an approval. */
  lemma DebitBreaksTotals(ledger: Ledger, key: BalanceKey, days: nat)
    requires key in ledger && days >= 1
    requires ledger[key].remainingDays == ledger[key].totalDays - ledger[key].usedDays
    ensures var after := Debited(ledger, key, days);
      after[key].remainingDays != after[key].totalDays - after[key].usedDays
  {
  }

  /** No review guard checks the prior status: approving the same application
   *  twice debits its row twice. */
  lemma ReapprovalDebitsTwice(ledger: Ledger, key: BalanceKey, days: nat)
    requires key in ledger
    ensures Debited(Debited(ledger, key, days), key, days)[key].remainingDays
            == ledger[key].remainingDays - 2 * days
  {
  }

  // ---------------------------------------------------------------------
  // How the application store evolves
  // ---------------------------------------------------------------------

  /** The status changes an action may make: none, or a decision. */
  predicate StatusStep(from: Status, to: Status) {
    to == from || to == Approved || to == Rejected
  }

  /** What every action, and so every sequence of actions, preserves: no
   *  application disappears, owner and leave type never change, statuses move
   *  only by `StatusStep`, and an application that appears has moved from
   *  pending at most to a decision. */
  ghost predicate Evolves(before: Applications, after: Applications) {
    && before.Keys <= after.Keys
    && (forall id | id in before ::
          && after[id].studentId == before[id].studentId
          && after[id].leaveTypeId == before[id].leaveTypeId
          && StatusStep(before[id].status, after[id].status))
    && (forall id | id in after && id !in before :: StatusStep(Pending, after[id].status))
  }

  lemma EvolvesTransitive(a: Applications, b: Applications, c: Applications)
    requires Evolves(a, b) && Evolves(b, c)
    ensures Evolves(a, c)
  {
  }

  /** Nothing in this core cancels an application, and a decided application
   *  never becomes pending again. */
  lemma NoActionCancelsOrReopens(before: Applications, after: Applications, id: ApplicationId)
    requires Evolves(before, after) && id in before
    ensures after[id].status == Cancelled ==> before[id].status == Cancelled
    ensures before[id].status != Pending ==> after[id].status != Pending
  {
  }
}
