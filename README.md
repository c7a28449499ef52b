# Waitlist signup: a Dafny model

This project models the waitlist signup round trip of a pre-launch brand page:

- **The `send-welcome-email` edge function** (`WelcomeEmail`, over `WaitlistStore`). It answers the CORS preflight. It rejects a missing or empty email with 400. It inserts the email into the `waitlist` table, whose unique constraint makes a repeated email fail with SQLSTATE 23505 (answered with 409). Any other failure, including a body that is not JSON, is a 500. On a successful insert it tries to send a welcome email through Resend, then sets `welcome_email_sent` on the new row and answers 200 with the row's id. `Serve` is the decision chain as a function. `Register` runs the same chain as two writes on a `Waitlist` store object.
- **The signup form of `ComingSoonPage`** (`ComingSoon`). Its React state is `email`, `isSubmitted`, `submitStatus`, `isOpen` and `toast`. The model adds the pending 3000 ms close timers and the requests still waiting for a reply. It has the handlers `handleOpenChange`, the input's `onChange`, `handleWaitlistSignup` (split into the request leaving and its reply arriving), the close timer and `closeToast`. It also has the render rules for the header, the confirmation line, the input, the button's `disabled` and the button's label. `Next` is the transition function. The class `ComingSoonPage` updates its fields step by step and is proved equal to `Next`.
- **The `Toast` component** (`Toast`). It renders only while `isVisible`. An effect keyed on `[isVisible, onClose]` schedules `onClose` 4000 ms ahead while the toast is visible, and clears the old timer whenever a dependency changes or the component unmounts. The close button calls `onClose` at once. Time is an abstract millisecond clock, and a timer is its deadline.

Everything outside the process is a parameter: the parsed request body, a store error, the mail provider's answer, the flag update's failure, and the reply the browser receives.

At these points the code departs from the intended design of the signup flow, and the model follows the code:

- The code attempts the `welcome_email_sent := true` update after every successful insert. This includes the cases where no key is configured and where the send failed, so the flag does not record a delivered email (`NewEmailCreated`).
- The edge function waits for the send before it answers. The model has no asynchrony there.
- A failed reply leaves `isSubmitted` true, so the submit button stays disabled and the user cannot resubmit until the dialog is closed and reopened (`SubmittedUntilReopened`, `ErrorLocksFormScenario`). The code never assigns `error` to `submitStatus` (`NeverError`).
- Reopening the dialog does not cancel a pending close timer. That timer still closes the freshly reopened dialog (`ReopenDoesNotCancelTimer`). A reply that arrives after a reopen is applied to the fresh form (`StaleReplyAppliesToFreshForm`).
- `closeToast` is a new closure on every render of the page. The toast effect depends on it, so every re-render of the page while a toast is visible clears the toast's timer and starts a new 4000 ms countdown. In the model this is `Rerender(visible, onCloseChanged := true)` (`ChangeRestartsCountdown`, `SecondToastRestartsTimer`).

## Model

| member | source | states |
|---|---|---|
| `WaitlistStore.InsertRow` | supabase/functions/send-welcome-email/index.ts:37-41 | The insert succeeds iff the store reports no fault and the email is not yet in the table. The new row gets the next id and an unset flag. A failed insert leaves the table unchanged, and with no store fault its code is 23505. Well-formedness (ids below the counter and distinct) is preserved. |
| `WaitlistStore.MarkWelcomeSent` | supabase/functions/send-welcome-email/index.ts:121-124 | The update by id sets the flag on exactly the rows with that id and keeps every other row and the key set. On failure nothing changes. Well-formedness is preserved. |
| `WaitlistStore.Waitlist.Insert` | supabase/functions/send-welcome-email/index.ts:37-41 | The insert done in place on the store object: the result and the new table are those of `InsertRow`, and validity is kept. |
| `WaitlistStore.Waitlist.UpdateWelcomeSent` | supabase/functions/send-welcome-email/index.ts:121-124 | The flag update done in place: the result and the new table are those of `MarkWelcomeSent`. |
| `WelcomeEmail.Serve` | supabase/functions/send-welcome-email/index.ts:13-151 | Every response carries the three CORS headers. The status is one of 200, 400, 409 and 500. A non-200 leaves the table unchanged and sends no mail. A success body means the email was new, exactly that email's row was added, and the body's id is that row's id. Well-formedness is preserved. |
| `WelcomeEmail.Falsy` | supabase/functions/send-welcome-email/index.ts:26 | `!email`: an email that passes the check is present and non-empty. |
| `WelcomeEmail.Register` | supabase/functions/send-welcome-email/index.ts:13-151 | The handler run as writes on a `Waitlist`. Its response, its mail attempt, its store calls and the store's new contents are exactly `Serve`'s. |
| `WelcomeEmail.PreflightIsInert` | supabase/functions/send-welcome-email/index.ts:14-16 | OPTIONS gets status 200, only the CORS headers and no body, with no store call and no mail. |
| `WelcomeEmail.MissingEmailRejected` | supabase/functions/send-welcome-email/index.ts:26-34 | An absent or empty email gets 400 "Email is required", with no store call and the table unchanged. |
| `WelcomeEmail.UnparseableBodyFails` | supabase/functions/send-welcome-email/index.ts:141-149 | A body that does not parse gets 500 "Internal server error", with no store call. |
| `WelcomeEmail.DuplicateIsConflict` | supabase/functions/send-welcome-email/index.ts:37-52 | An email already in the table gets 409 "Email already exists in waitlist". Only the insert was called, no mail was attempted and the table is unchanged. |
| `WelcomeEmail.InsertErrorStatus` | supabase/functions/send-welcome-email/index.ts:43-54 | An insert error is 409 when its code is 23505 and 500 otherwise. Either way the table is unchanged and no mail is attempted. |
| `WelcomeEmail.NewEmailCreated` | supabase/functions/send-welcome-email/index.ts:56-139 | A new email gets 200 with the inserted id. The insert is followed by the flag update whatever the notifier did. A mail is attempted iff a key is configured. The table gains exactly that row, with its flag set unless the update failed. |
| `WelcomeEmail.NotifierIrrelevant` | supabase/functions/send-welcome-email/index.ts:57-118 | Changing the notifier's outcome (no key, ok, not ok, threw) changes neither the response, nor the table, nor the store calls. |
| `WelcomeEmail.UpdateFailureKeepsResponse` | supabase/functions/send-welcome-email/index.ts:120-139 | A failed flag update gives the same response as a successful one. |
| `WelcomeEmail.RepeatedAreConflicts` | supabase/functions/send-welcome-email/index.ts:37-52 | Once an email is present, any number of further registrations are all 409 and leave the table as it was. |
| `WelcomeEmail.RepeatedRegistration` | supabase/functions/send-welcome-email/index.ts:37-139 | N registrations of a new email give statuses 200 then N-1 times 409. The table gains exactly one row, for that email, and every other row is untouched. |
| `ComingSoon.ComingSoonPage.constructor` | src/components/ComingSoonPage.tsx:15-27 | The initial state: empty email, not submitted, idle, closed, hidden empty success toast, nothing pending. |
| `ComingSoon.ComingSoonPage.HandleOpenChange` | src/components/ComingSoonPage.tsx:30-38 | The new state is `Next` of the old one for `OpenChange(open)`, and `error` stays unreached. |
| `ComingSoon.ComingSoonPage.SetEmail` | src/components/ComingSoonPage.tsx:258 | Editing the input is `Next` for `EditEmail`, which `EditChangesOnlyEmail` shows replaces only `email`. |
| `ComingSoon.ComingSoonPage.HandleWaitlistSignup` | src/components/ComingSoonPage.tsx:53-68 | A request is sent iff the email is non-empty. The new state is `Next` for `Submit`. |
| `ComingSoon.ComingSoonPage.ReceiveReply` | src/components/ComingSoonPage.tsx:70-102 | The new state is `Next` for the arriving reply. |
| `ComingSoon.ComingSoonPage.FireCloseTimer` | src/components/ComingSoonPage.tsx:80-83 | The new state is `Next` for a pending close timer firing. |
| `ComingSoon.ComingSoonPage.CloseToast` | src/components/ComingSoonPage.tsx:44-46 | The new state is `Next` for `closeToast`. |
| `ComingSoon.Next` | src/components/ComingSoonPage.tsx:30-102 | The transition function of all the handlers; its full behaviour is given through the class methods proved equal to it and the lemmas below. Its own contract: no handler assigns `error`, a close timer is added only by a reply and removed only by its firing, and a reply consumes one outstanding request. |
| `ComingSoon.IsOk` | src/components/ComingSoonPage.tsx:72 | `response.ok`: 200 is ok and 409 is not. |
| `ComingSoon.HeaderShown` | src/components/ComingSoonPage.tsx:208 | The header is shown exactly when the confirmation line is not. |
| `ComingSoon.StatusMessageShown` | src/components/ComingSoonPage.tsx:235 | The confirmation line appears only for a success or a duplicate status. |
| `ComingSoon.InputShown` | src/components/ComingSoonPage.tsx:254 | The input is shown exactly when the header is. |
| `ComingSoon.ButtonDisabled` | src/components/ComingSoonPage.tsx:267 | A confirmed form's button is always disabled. Otherwise the button is disabled iff `isSubmitted`. |
| `ComingSoon.ButtonLabel` | src/components/ComingSoonPage.tsx:270-282 | The label is "Get First Access" exactly while the button is enabled, and the animated "You're In" exactly while the confirmation line is shown. |
| `ComingSoon.OpenResetsForm` | src/components/ComingSoonPage.tsx:30-38 | Opening sets `isOpen`, clears the email, unsets `isSubmitted` and sets the status idle. The toast, the pending timers and the outstanding requests are unchanged. |
| `ComingSoon.CloseChangesOnlyIsOpen` | src/components/ComingSoonPage.tsx:30-31 | `OpenChange(false)` changes only `isOpen`. |
| `ComingSoon.EditChangesOnlyEmail` | src/components/ComingSoonPage.tsx:258 | Editing the input replaces `email` and changes nothing else on the page. |
| `ComingSoon.EmptySubmitIsInert` | src/components/ComingSoonPage.tsx:54 | Submitting an empty email changes nothing and sends no request. |
| `ComingSoon.SubmitStartsRequest` | src/components/ComingSoonPage.tsx:56-68 | A non-empty submit sets `isSubmitted`, sets the status idle and adds one outstanding request, before any reply. |
| `ComingSoon.OkReplySucceeds` | src/components/ComingSoonPage.tsx:72-83 | An ok reply with a JSON body sets the status to success, clears the email, shows the success toast and adds one close timer. It keeps `isSubmitted` and `isOpen`. |
| `ComingSoon.ConflictReplyIsDuplicate` | src/components/ComingSoonPage.tsx:85-90 | A 409 with a JSON body sets the status to duplicate and adds one close timer, and changes nothing else. |
| `ComingSoon.OtherReplyShowsErrorToast` | src/components/ComingSoonPage.tsx:91-102 | Any other status, a failed fetch, or a body that is not JSON even with an ok status only shows the error toast. The status, the email and `isSubmitted` are kept. |
| `ComingSoon.CloseTimerKeepsSubmitted` | src/components/ComingSoonPage.tsx:80-83 | A close timer closes the dialog and sets the status idle, and leaves `isSubmitted` and the email. |
| `ComingSoon.CloseToastKeepsContent` | src/components/ComingSoonPage.tsx:44-46 | `closeToast` hides the toast, keeps its message and type, and changes nothing else on the page. |
| `ComingSoon.ConfirmedRendering` | src/components/ComingSoonPage.tsx:208-282 | On success or duplicate, the header and input are hidden, the confirmation line is shown, the button is disabled and it shows the animated "You're In". |
| `ComingSoon.UnconfirmedRendering` | src/components/ComingSoonPage.tsx:208-282 | Otherwise the header and input are shown. The button is disabled iff `isSubmitted`, with the label "✓ You're In" if submitted and "Get First Access" if not. |
| `ComingSoon.NeverError` | src/components/ComingSoonPage.tsx:17-102 | No run of events reaches `submitStatus == error`. |
| `ComingSoon.SubmittedUntilReopened` | src/components/ComingSoonPage.tsx:53-102 | Once submitted, the form stays submitted and its button disabled, through any replies, timers and toasts, until the dialog is opened again. |
| `ComingSoon.NewSignupScenario` | src/components/ComingSoonPage.tsx:53-83 | Open, type, submit, get 200: success, email cleared, success toast, one timer. When the timer fires the dialog closes and the status is idle, but `isSubmitted` stays. |
| `ComingSoon.DuplicateSignupScenario` | src/components/ComingSoonPage.tsx:85-90 | A 409 gives duplicate, with the confirmation line, no toast and the email kept. The timer then closes the dialog. |
| `ComingSoon.ErrorLocksFormScenario` | src/components/ComingSoonPage.tsx:91-102 | A 500 leaves the status idle, the email kept and the button disabled, and shows the error toast. A further submit is not possible. |
| `ComingSoon.ReopenDoesNotCancelTimer` | src/components/ComingSoonPage.tsx:30-38 | Reopening after a success resets the form at once, but the pending close timer survives and closes the reopened dialog. |
| `ComingSoon.StaleReplyAppliesToFreshForm` | src/components/ComingSoonPage.tsx:53-83 | A 200 arriving after the dialog was reopened sets the fresh form to success and schedules a close. |
| `Toast.EffectiveType` | src/components/ui/toast.tsx:14 | A given type is kept, and an omitted one is success. |
| `Toast.StyleClass` | src/components/ui/toast.tsx:29-33 | Every type is styled "bg-white text-gray-800". |
| `Toast.StyleIgnoresType` | src/components/ui/toast.tsx:29-33 | All three types get the same style. |
| `Toast.Mount` | src/components/ui/toast.tsx:18-25 | After the first render a timer is pending iff the toast is visible, and it is then due exactly 4000 ms after the render. |
| `Toast.Rendered` | src/components/ui/toast.tsx:27 | When nothing is rendered, a consistent toast has no pending timer. |
| `Toast.Step` | src/components/ui/toast.tsx:18-44 | The effect, the timer and the close button as one event step; its full behaviour is given through the `ToastTimer` methods proved equal to it and the lemmas below. Its own contract: the clock never goes back, `onClose` is called only by a shown toast or a pending timer, and a newly set timer is always due 4000 ms ahead. |
| `Toast.HiddenSchedulesNothing` | src/components/ui/toast.tsx:18-27 | A hidden toast renders nothing and has no timer, whether just mounted or re-rendered hidden. |
| `Toast.StepConsistent` | src/components/ui/toast.tsx:18-44 | Every event keeps any pending timer tied to a visible toast and due within 4000 ms. |
| `Toast.RunConsistent` | src/components/ui/toast.tsx:18-44 | The same holds along any sequence of events. |
| `Toast.ChangeRestartsCountdown` | src/components/ui/toast.tsx:18-25 | A visible render that changed a dependency clears the old timer and sets exactly one new timer 4000 ms ahead. |
| `Toast.SameDepsKeepTimer` | src/components/ui/toast.tsx:25 | A render with unchanged dependencies leaves the timer as it was. |
| `Toast.FiresAtDeadline` | src/components/ui/toast.tsx:19-22 | Advancing the clock calls `onClose` iff a timer is pending and its deadline is reached, and then only for a visible toast. The new state is the advanced clock, with the timer cleared if it fired and otherwise kept as it was. |
| `Toast.HiddenRenderKeepsClock` | src/components/ui/toast.tsx:18-25 | A render that hides the toast, or changes `onClose` while hidden, clears the timer and sets nothing new, with the clock unchanged. |
| `Toast.UnmountClearsTimer` | src/components/ui/toast.tsx:23 | Unmounting clears the pending timer and changes nothing else. |
| `Toast.CloseButtonImmediate` | src/components/ui/toast.tsx:42-44 | Clicking close on a shown toast calls `onClose` at once and leaves the timer alone. |
| `Toast.UnmountSilencesClock` | src/components/ui/toast.tsx:23 | After unmounting, no amount of elapsed time ever calls `onClose`. |
| `Toast.SecondToastRestartsTimer` | src/components/ui/toast.tsx:18-25 | A second toast shown within 4000 ms of the first keeps one timer, and `onClose` comes 4000 ms after the second, not the first. |
| `Toast.ToastTimer.constructor` | src/components/ui/toast.tsx:18-25 | The mounted component's state is `Mount`. |
| `Toast.ToastTimer.Render` | src/components/ui/toast.tsx:18-25 | A re-render updates the timer in place as `Step` does, and keeps it consistent. |
| `Toast.ToastTimer.Advance` | src/components/ui/toast.tsx:20-22 | Advancing the clock fires and clears the timer as `Step` does. |
| `Toast.ToastTimer.ClickClose` | src/components/ui/toast.tsx:42-44 | The close button calls `onClose` iff the toast is rendered. |
| `Toast.ToastTimer.Unmount` | src/components/ui/toast.tsx:23 | Unmounting clears the pending timer. |

## Left out

- Network and runtime plumbing (`Deno.serve`, `fetch`, `req.json`, `JSON.stringify`, environment reads, `createClient`) is replaced by parameters. `Body.Unparseable` stands for any body that cannot be read or destructured (not JSON, or JSON `null`).
- A failure of `createClient` itself (for example an empty project URL) also lands in the 500 branch, before any store call. It is not modelled separately.
- An `email` field holding a JSON value that is not a string (a number, `true`) is not modelled. The request type declares it a string.
- The welcome email's sender, subject and HTML template, and all console logging, carry no logic and are left out.
- The row's `created_at` timestamp is never read by the handler, and is not modelled.
- Concurrency between requests is not modelled. The store's uniqueness is modelled only as "an insert of a present email fails with 23505".
- The browser's own validation of the `required`, `type="email"` input (a malformed address never reaches the handler) is not modelled. A submit is allowed in a run only while the dialog is open and the button is enabled.
- The close timers are counted, not timed. `CloseTimerFires` fires one pending timer, and the 3000 ms delay itself is not represented.
- Page layout, images, the Instagram link, the dialog primitives and `cn` are left out. The dialog is the `isOpen` field.
