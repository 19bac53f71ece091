/**
 * The three server actions of app/actions/leave.ts acting on the two tables
 * they read and write: `leave_applications` (keyed by id) and
 * `leave_balance` (keyed by student, leave type and year).
 *
 * The signed-in caller, the current year, the current time and whether the
 * store accepts a write are parameters of each action. New ids come from a
 * counter, standing in for the ids the store generates.
 */
module LeaveActions {
  import opened Wrappers
  import opened Validation
  import opened LeaveModel

  class LeaveService {
    var applications: Applications
    var balances: Ledger
    /** The id the next inserted application receives. */
    var nextId: ApplicationId

    /** Every stored id was handed out before `nextId`. */
    ghost predicate Valid()
      reads this
    {
      forall id | id in applications :: id < nextId
    }

    /** An empty application table over the provisioned balance rows. */
    constructor (provisioned: Ledger)
      ensures Valid()
      ensures applications == map[] && balances == provisioned && nextId == 0
    {
      applications := map[];
      balances := provisioned;
      nextId := 0;
    }

    /** submitLeaveApplication: a signed-in student asks for leave of one type
     *  over an inclusive date range. */
    method SubmitLeaveApplication(caller: Caller, leaveTypeId: LeaveTypeId, startDate: int, endDate: int,
                                  reason: string, year: int, now: Timestamp, storeAccepts: bool)
      returns (r: ActionResult)
      requires Valid()
      modifies this
      ensures Valid()
      ensures r == SubmitOutcome(old(balances), caller, leaveTypeId, startDate, endDate, year, storeAccepts)
      ensures r.Ok? ==>
        && caller.SignedIn?
        && old(nextId) !in old(applications)
        && applications == old(applications)[old(nextId) := NewApplication(caller.id, leaveTypeId, startDate, endDate, reason, now)]
        && nextId == old(nextId) + 1
      ensures r.Fail? ==> applications == old(applications) && nextId == old(nextId)
      ensures balances == old(balances)
      ensures Evolves(old(applications), applications)
    {
      if caller.Anonymous? {
        return Fail(NotAuthenticated);
      }
      if caller.role != Some(Student) {
        return Fail(NotStudent);
      }
      var key := BalanceKey(caller.id, leaveTypeId, year);
      var leaveDays := LeaveDays(startDate, endDate);
      if key in balances && leaveDays > balances[key].remainingDays {
        return Fail(InsufficientBalance(balances[key].remainingDays));
      }
      if !storeAccepts {
        return Fail(SubmitFailed);
      }
      applications := applications[nextId := NewApplication(caller.id, leaveTypeId, startDate, endDate, reason, now)];
      nextId := nextId + 1;
      return Ok;
    }

    /** updateLeaveApplication: the owner of a pending application changes its
     *  dates and reason. */
    method UpdateLeaveApplication(caller: Caller, applicationId: ApplicationId, startDate: int, endDate: int,
                                  reason: string, year: int, storeAccepts: bool)
      returns (r: ActionResult)
      requires Valid()
      modifies this
      ensures Valid()
      ensures r == UpdateOutcome(old(applications), old(balances), caller, applicationId, startDate, endDate, year, storeAccepts)
      ensures applications ==
        if r.Ok? then old(applications)[applicationId := Edited(old(applications)[applicationId], startDate, endDate, reason)]
        else old(applications)
      ensures balances == old(balances) && nextId == old(nextId)
      ensures Evolves(old(applications), applications)
    {
      if caller.Anonymous? {
        return Fail(NotAuthenticated);
      }
      if applicationId !in applications {
        return Fail(NotFound);
      }
      var application := applications[applicationId];
      if application.studentId != caller.id {
        return Fail(Unauthorized);
      }
      if application.status != Pending {
        return Fail(NotPending);
      }
      var leaveDays := LeaveDays(startDate, endDate);
      var key := BalanceKey(caller.id, application.leaveTypeId, year);
      if key in balances && leaveDays > balances[key].remainingDays {
        return Fail(InsufficientBalance(balances[key].remainingDays));
      }
      if !storeAccepts {
        return Fail(UpdateFailed);
      }
      applications := applications[applicationId := Edited(application, startDate, endDate, reason)];
      return Ok;
    }

    /** approveOrRejectApplication: an administrator records a decision and,
     *  on approval, debits the owner's balance row. */
    method ApproveOrRejectApplication(caller: Caller, applicationId: ApplicationId, decision: Decision,
                                      adminComments: string, year: int, now: Timestamp, storeAccepts: bool)
      returns (r: ActionResult)
      requires Valid()
      modifies this
      ensures Valid()
      ensures r == ReviewOutcome(caller, storeAccepts)
      ensures applications ==
        if r.Ok? && applicationId in old(applications) then
          old(applications)[applicationId := Stamped(old(applications)[applicationId], decision, adminComments, caller.id, now)]
        else old(applications)
      ensures balances == ReviewedLedger(old(applications), old(balances), applicationId, decision, year, r)
      ensures nextId == old(nextId)
      ensures Evolves(old(applications), applications)
    {
      if caller.Anonymous? {
        return Fail(NotAuthenticated);
      }
      if caller.role != Some(Admin) {
        return Fail(NotAdmin);
      }
      if !storeAccepts {
        return Fail(StatusUpdateFailed);
      }
      // An unknown id matches no row: nothing is written, and that is no error.
      if applicationId in applications {
        applications := applications[applicationId := Stamped(applications[applicationId], decision, adminComments, caller.id, now)];
      }
      if decision == Approve && applicationId in applications {
        var application := applications[applicationId];
        var leaveDays := LeaveDays(application.startDate, application.endDate);
        var key := BalanceKey(application.studentId, application.leaveTypeId, year);
        if key in balances {
          balances := balances[key := balances[key].(remainingDays := balances[key].remainingDays - leaveDays)];
        }
      }
      return Ok;
    }
  }

  /** A student with ten days submits a three-day request, which leaves the
   *  balance alone; an administrator approves it, which takes the balance to
   *  seven; the student then tries to edit the approved request and is told
   *  only pending applications can be edited. */
  method ApproveThenEditScenario() returns (afterSubmit: int, afterApproval: int, edit: ActionResult)
    ensures afterSubmit == 10 && afterApproval == 7
    ensures edit == Fail(NotPending)
  {
    var key := BalanceKey("student-a", "casual", 2024);
    var service := new LeaveService(map[key := Balance(10, 0, 10)]);
    var student := SignedIn("student-a", Some(Student));
    var admin := SignedIn("admin-1", Some(Admin));
    var submitted := service.SubmitLeaveApplication(student, "casual", 100, 102, "family event", 2024, 0, true);
    assert submitted == Ok;
    afterSubmit := service.balances[key].remainingDays;
    var reviewed := service.ApproveOrRejectApplication(admin, 0, Approve, "enjoy", 2024, 1, true);
    afterApproval := service.balances[key].remainingDays;
    edit := service.UpdateLeaveApplication(student, 0, 100, 101, "shorter", 2024, true);
  }

  /** Review has no pending guard: approving, rejecting and approving again a
   *  three-day request leaves it approved with six days debited, and the
   *  rejection in between restored nothing. */
  method RedecisionScenario() returns (afterFirst: int, afterReject: int, afterSecond: int, status: Status)
    ensures afterFirst == 7 && afterReject == 7 && afterSecond == 4
    ensures status == Approved
  {
    var key := BalanceKey("student-a", "casual", 2024);
    var service := new LeaveService(map[key := Balance(10, 0, 10)]);
    var student := SignedIn("student-a", Some(Student));
    var admin := SignedIn("admin-1", Some(Admin));
    var submitted := service.SubmitLeaveApplication(student, "casual", 100, 102, "family event", 2024, 0, true);
    var r := service.ApproveOrRejectApplication(admin, 0, Approve, "", 2024, 1, true);
    afterFirst := service.balances[key].remainingDays;
    r := service.ApproveOrRejectApplication(admin, 0, Reject, "", 2024, 2, true);
    afterReject := service.balances[key].remainingDays;
    r := service.ApproveOrRejectApplication(admin, 0, Approve, "", 2024, 3, true);
    afterSecond := service.balances[key].remainingDays;
    status := service.applications[0].status;
  }

  /** With no balance row provisioned, a request of any length is accepted
   *  and its approval debits nothing and creates no row. */
  method UnprovisionedScenario(startDate: int, endDate: int) returns (submitted: ActionResult, rows: Ledger)
    ensures submitted == Ok
    ensures rows == map[]
  {
    var service := new LeaveService(map[]);
    var student := SignedIn("student-b", Some(Student));
    var admin := SignedIn("admin-1", Some(Admin));
    submitted := service.SubmitLeaveApplication(student, "sick", startDate, endDate, "", 2024, 0, true);
    var reviewed := service.ApproveOrRejectApplication(admin, 0, Approve, "", 2024, 1, true);
    rows := service.balances;
  }
}
