# Leave applications: lifecycle, balance ledger and input validators

A Dafny model of the business rules of a leave-request portal. Students
submit leave applications against a per-type, per-year balance. The owner
may edit an application while it is pending. Administrators approve or
reject it, and an approval debits the student's balance.

The model has two parts.

- `Validation` (`validation.dfy`) holds the pure validators of
  `lib/utils/validation.ts`: the e-mail regular expression
  `^[^\s@]+@[^\s@]+\.[^\s@]+$`, the eight-character password rule, the
  date-range check and the inclusive leave-day count.
  - A date is a whole day number. The `DateInput` type adds the two inputs
    the validators treat specially: the empty string (`Blank`) and a string
    JavaScript cannot parse (`Unparsable`, an "Invalid Date").
  - `\s` is the full ECMAScript whitespace and line-terminator set.
  - A password's length is its UTF-16 length, as JavaScript's
    `String.length` counts it.
- The three server actions of `app/actions/leave.ts` are modelled in two
  modules.
  - `LeaveModel` (`leave_model.dfy`) holds the records, the failure kinds
    with their exact messages, and the decision rules as functions
    (`SubmitOutcome`, `UpdateOutcome`, `ReviewOutcome`, `Debited`,
    `ReviewedLedger`). It also holds the lemmas stating what those rules
    promise.
  - `LeaveActions.LeaveService` (`leave_actions.dfy`) is a class with the
    two tables as `map` fields: applications keyed by id, and balance rows
    keyed by (student, leave type, year). Each action is a method that
    checks its guards in the source's order and then updates the maps.
    Its `ensures` ties the result to the decision rule and states the whole
    new state.
- `Decimal` (`decimal.dfy`) renders an integer as a template literal does,
  with a parser proved to invert it. It is used for the
  "You only have N days available for this leave type" message.

The caller (`auth.getUser()` plus the profile's role), the current year, the
current time, and whether the store accepts a write are parameters of each
action. New application ids come from a counter, which stands in for the ids
the store generates.

Behaviour reproduced as the code has it:

- The server actions never call `validateDateRange`. They count days with
  an absolute difference, so a reversed range is accepted with the same
  count (`SubmitIgnoresDateOrder`). Only `validateDateRange` checks
  ordering, and neither server action calls it.
- A missing balance row disables the balance check on submit and update.
  On approval it means no debit, and no row is created
  (`SubmitUnlimitedWhenUnprovisioned`, `Debited`, `UnprovisionedScenario`).
- Review has no "was pending" guard. An application can be re-decided, and
  approving twice debits twice (`ReapprovalDebitsTwice`,
  `RedecisionScenario`).
- Review of an id that matches no application is a success that changes
  nothing. The status update matches no row, which the store does not
  report as an error, and the approval branch finds no record.
- Update checks no role, only ownership.
- The approval decrements `remaining_days` only, so a row whose remaining
  count equalled total minus used no longer does (`DebitBreaksTotals`).
- `cancelled` is a status no action produces (`NoActionCancelsOrReopens`).

## Model

| member | source | states |
|---|---|---|
| `Validation.ValidateEmail` | lib/utils/validation.ts:1-4 | accepts exactly the strings of the regular expression's shape (`EmailShape`): a non-empty local part, one '@', and a domain with a '.' that has a character on each side, every other character outside `\s` and '@' |
| `Validation.ValidEmailHasOneAt` | lib/utils/validation.ts:2 | an accepted address contains exactly one '@' |
| `Validation.ValidatePassword` | lib/utils/validation.ts:6-11 | returns no error iff the UTF-16 length is at least 8; otherwise returns exactly "Password must be at least 8 characters long" |
| `Validation.PasswordLengthInCharacters` | lib/utils/validation.ts:7 | eight or more characters always pass; fewer than four never do, since a character counts one or two UTF-16 units |
| `Validation.Utf16LengthBounds` | lib/utils/validation.ts:7 | the length JavaScript reports lies between the character count and twice it |
| `Validation.ValidateDateRange` | lib/utils/validation.ts:13-26 | "Both dates are required" iff either date is blank; "Start date must be before end date" iff both parse and start is strictly after end; otherwise no error |
| `Validation.DateRangeOrder` | lib/utils/validation.ts:18-25 | two parsed dates pass iff start <= end, so equal dates pass |
| `Validation.UnparsableDatePasses` | lib/utils/validation.ts:18-21 | a non-blank date that does not parse is never reported, because an Invalid Date compares false |
| `Validation.LeaveDays` | lib/utils/validation.ts:31-32 | the inclusive count is at least 1, and it is end - start + 1 for an ordered range and start - end + 1 for a reversed one |
| `Validation.SameDayIsOneDay` | lib/utils/validation.ts:28-34 | a one-date range counts 1 day |
| `Validation.LeaveDaysSymmetric` | lib/utils/validation.ts:31 | swapping the dates does not change the count |
| `Validation.LeaveDaysExtend` | lib/utils/validation.ts:31-32 | both endpoints count: extending an ordered range by a day adds one leave day |
| `Validation.CalculateLeaveDays` | lib/utils/validation.ts:28-34 | a count, at least 1 and equal to `LeaveDays`, iff both dates parse; NaN otherwise |
| `Validation.MillisAgreeWithDays` | lib/utils/validation.ts:29-32 | on midnight timestamps, `Math.ceil(abs(end - start) / 86400000) + 1` equals the day-number count the model uses |
| `Validation.CalculatorExamples` | lib/utils/validation.ts:13-34 | day 0 to day 4 counts 5 leave days; the reversed range is refused and the ordered one accepted |
| `Decimal.IntToDecimal` | app/actions/leave.ts:46 | the rendered count is never empty and starts with '-' exactly when it is negative |
| `Decimal.IntRoundTrip` | app/actions/leave.ts:46 | parsing the rendered remaining count gives the count back, negative counts included |
| `Decimal.IntToDecimalInjective` | app/actions/leave.ts:46 | different counts render differently |
| `LeaveModel.DecisionStatus` | app/actions/leave.ts:162 | a decision yields approved or rejected, approved exactly for approval |
| `LeaveModel.Message` | app/actions/leave.ts:16-198 | the exact error strings; the insufficient-balance one is the fixed prefix, the count and the fixed suffix |
| `LeaveModel.InsufficientMessageReportsRemaining` | app/actions/leave.ts:46 | the text between the prefix and the suffix is the count's decimal form and parses back to the remaining count |
| `LeaveModel.InsufficientRoundTrip` | app/actions/leave.ts:46 | the insufficient-balance string reads back as that failure with the very count it reports |
| `LeaveModel.CallerMessageRoundTrip` | app/actions/leave.ts:16-183 | "Not authenticated", "Only students can apply for leave", "Only admins can approve or reject applications" and "Unauthorized" read back as the failure that raised them |
| `LeaveModel.ApplicationMessageRoundTrip` | app/actions/leave.ts:103-198 | "Application not found", "Only pending applications can be edited" and "Failed to update application status" read back as the failure that raised them |
| `LeaveModel.WriteMessageRoundTrip` | app/actions/leave.ts:63-146 | the two failed-write strings for submit and update, equal in length, each read back as their own failure |
| `LeaveModel.MessageRoundTrip` | app/actions/leave.ts:68-73 | every failure's string, as the caught exception hands it back in `error`, reads back as that failure |
| `LeaveModel.MessagesIdentifyErrors` | app/actions/leave.ts:68-73 | different failures yield different error strings, so the returned string identifies the failure |
| `LeaveModel.ExceedsBalance` | app/actions/leave.ts:45 | a request is refused for the balance only when a row exists, and never when the row covers the count; `SubmitBalanceRule` and `UpdateBalanceRule` state both directions |
| `LeaveModel.SubmitOutcome` | app/actions/leave.ts:15-64 | an anonymous caller gets "Not authenticated"; a submit succeeds only for a signed-in student whose insert is accepted; the lemmas below state the rest |
| `LeaveModel.NewApplication` | app/actions/leave.ts:52-59 | the inserted record is pending, owned by the caller, has the given type, dates and reason, and has no decision fields |
| `LeaveModel.SubmitRequiresStudent` | app/actions/leave.ts:15-28 | with no user, submit fails "Not authenticated"; with a user whose profile is missing or not a student, it fails "Only students can apply for leave" |
| `LeaveModel.SubmitBalanceRule` | app/actions/leave.ts:31-47 | a student's submit succeeds iff the (caller, type, year) row is missing or covers the inclusive count, and the insert is accepted; it fails with the remaining count iff the row exists and is exceeded; with the balance check passed, a refused insert gives "Failed to submit leave application. Please try again." |
| `LeaveModel.SubmitIgnoresDateOrder` | app/actions/leave.ts:40-45 | swapping start and end gives the same outcome, so a reversed range is not refused |
| `LeaveModel.SubmitUnlimitedWhenUnprovisioned` | app/actions/leave.ts:45 | with no balance row, a student's submit succeeds whatever the length |
| `LeaveModel.SubmitThreeDaysRemaining` | app/actions/leave.ts:45-46 | with 3 days remaining, a 5-day request fails reporting 3, and any request of at most 3 days succeeds |
| `LeaveModel.UpdateOutcome` | app/actions/leave.ts:91-147 | an anonymous caller gets "Not authenticated"; an update succeeds only for a signed-in caller, an existing application and an accepted write |
| `LeaveModel.Edited` | app/actions/leave.ts:135-142 | an edit sets the dates and reason and restoring them gives back the original record, so nothing else changed |
| `LeaveModel.UpdateGuardOrder` | app/actions/leave.ts:102-114 | "Application not found" first, then "Unauthorized" for a non-owner whatever the status, then "Only pending applications can be edited" |
| `LeaveModel.DecidedApplicationsAreFrozen` | app/actions/leave.ts:106-114 | the owner, whatever their role, cannot edit an approved, rejected or cancelled application |
| `LeaveModel.UpdateReadsOnlyItsBalanceRow` | app/actions/leave.ts:122-133 | the outcome depends on one ledger row only, the one keyed by the caller, the stored leave type and the year |
| `LeaveModel.UpdateBalanceRule` | app/actions/leave.ts:116-147 | an owner's edit of a pending application succeeds iff that row is missing or covers the new count, and the write is accepted; it is refused for the balance iff the row exists and is exceeded, reporting its remaining count; with the balance check passed, a refused write gives "Failed to update leave application. Please try again." |
| `LeaveModel.ReviewOutcome` | app/actions/leave.ts:168-199 | review succeeds iff the caller is a signed-in admin and the status write is accepted, whatever the application's prior status; otherwise "Not authenticated" for an anonymous caller, "Only admins can approve or reject applications" for any other role, and "Failed to update application status" for an admin whose write is refused |
| `LeaveModel.Stamped` | app/actions/leave.ts:186-194 | a decision sets status, comments, reviewer and time, and keeps owner, type, dates, reason and creation time |
| `LeaveModel.Debited` | app/actions/leave.ts:214-221 | the debit lowers the keyed row's remaining days by the count, leaves its other counters and every other row alone, and creates no row |
| `LeaveModel.ReviewedLedger` | app/actions/leave.ts:201-222 | a review never adds or removes a row; a failed review, a rejection or an unknown id leaves the ledger as it was; only the approved application's (owner, type, year) row can change; `ApprovalDebitsDayCount` states the amount |
| `LeaveModel.RejectionKeepsLedger` | app/actions/leave.ts:201 | a rejection leaves the ledger unchanged |
| `LeaveModel.ApprovalDebitsDayCount` | app/actions/leave.ts:201-222 | approving a known application lowers its owner's (type, year) row by the record's inclusive count, exactly, and nothing else |
| `LeaveModel.DebitBreaksTotals` | app/actions/leave.ts:214-221 | after a debit, remaining no longer equals total minus used on a row where it did |
| `LeaveModel.ReapprovalDebitsTwice` | app/actions/leave.ts:186-222 | approving the same application twice debits its row twice |
| `LeaveModel.EvolvesTransitive` | app/actions/leave.ts:52-194 | the store invariant (no deletion, owner and type fixed, status moves only to a decision) composes over sequences of actions |
| `LeaveModel.NoActionCancelsOrReopens` | app/actions/leave.ts:186-194 | under that invariant no application becomes cancelled and no decided application becomes pending again |
| `LeaveActions.LeaveService.SubmitLeaveApplication` | app/actions/leave.ts:6-75 | the result is `SubmitOutcome`; on success exactly one new pending record under a fresh id is added; on failure nothing changes; no balance row ever changes |
| `LeaveActions.LeaveService.UpdateLeaveApplication` | app/actions/leave.ts:77-158 | the result is `UpdateOutcome`; on success only that record's dates and reason change; on failure nothing changes; balances are untouched |
| `LeaveActions.LeaveService.ApproveOrRejectApplication` | app/actions/leave.ts:160-234 | the result is `ReviewOutcome`; on success an existing record is stamped with the decision, comments, caller and time, and the ledger becomes `ReviewedLedger` |
| `LeaveActions.ApproveThenEditScenario` | app/actions/leave.ts:6-234 | a 3-day request against 10 days leaves 10 until approval, then 7, and a later edit by the owner fails as not pending |
| `LeaveActions.RedecisionScenario` | app/actions/leave.ts:186-222 | approve, reject, approve on a 3-day request ends approved with 6 days debited; the rejection restores nothing |
| `LeaveActions.UnprovisionedScenario` | app/actions/leave.ts:45 | with no balance rows, any request is accepted, and its approval creates no row |

## Left out

- Rendering, pages, forms and the provisioning scripts are not part of this model. That includes the client-side date and balance checks that repeat the server's.
- The store client, `revalidatePath` and the error logging are external I/O. Their effects are the two maps and the `storeAccepts` parameter.
- Read failures are not modelled apart from what they look like. A failed profile read is a caller with no role. In update, a failed application read looks like a missing application. A failed balance read looks like a missing row.
- In review, a failed re-read of the application after its status write (app/actions/leave.ts:202-208) is not modelled. The record is then stamped approved but no balance row is debited, and the action still succeeds. The model has no state for this outcome: a known application that is approved always has its row debited when the row exists.
- Submit and update take parsed day numbers. A blank or unparsable date string sent straight to the server is not modelled. It would give a NaN day count, and `leaveDays > remaining_days` is false for NaN, so the balance check is skipped. Whether the store accepts such a string depends on a schema that is not part of the source, so the server-side balance check can be bypassed.
- JavaScript `Date` parsing, time zones and floating-point division are left out. Dates are whole days, and `MillisAgreeWithDays` shows the source's millisecond formula agrees on midnight timestamps.
- Review's status write and balance decrement are two separate store calls. Their non-atomicity, the ignored error of the second call (the record stays approved but is not debited), and races between concurrent requests are concurrency against an external store and are not modelled.
- `supabase.raw(...)` is a foreign call. Only its intended effect, remaining days minus the leave days, is modelled.
- The generic messages for thrown values that are not `Error`s are left out. Those come only from failures inside the client library.
- Store-generated UUIDs are modelled as a counter. The creation time is the `now` passed to submit, standing in for the store's default.
- Schema constraints are not part of the source here, and neither the validators nor the actions check them. This covers the length limit on the reason and the leave type's existence; a store that refuses such a row is `storeAccepts` being false.
