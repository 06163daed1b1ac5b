# Hostel administration client: token refresh, validation and table logic in Dafny

This project models the logic in the web client of a hostel administration system.
- **HTTP client token refresh** (`lib/axiosInstance.ts`). Every request gets the stored bearer token. When a request fails with 401, the client makes a single refresh call. Requests that fail while that call is in flight are queued, and all of them are released once it settles. If the refresh fails, the session is cleared.
- **User form validation** (`components/Settings/yup.ts`).
- **Attendance tracker** (`components/Attendance/AttendanceTracker.tsx`). It keeps one attendance sheet per date and session.
- **Paginated tables** for students, attendance history and users.
- **User-management dialogs**: add/edit user, confirm a status toggle or a delete, and student details.

All of it is stated as pure Dafny functions over immutable data, with one method (`Attendance.HandleSave`). The lemmas connect each operation to a partner: an inverse, an invariant, an independent reference definition, or the neighbouring component it must agree with.

The modules follow the program's structure:

| file | module | models |
|---|---|---|
| `wrappers.dfy` | `Wrappers` | `Option` |
| `js_text.dfy` | `JsText` | the JavaScript string operations the code uses. `length` counts UTF-16 units. `split(" ")`, `charAt(0)`, `includes`, `padStart`, `String(n)` and ASCII `toUpperCase` are included. |
| `js_regex.dfy` | `JsRegex` | a small regular-expression language with anchored (`^…$`) and unanchored (`.test`) matching |
| `user_schema.dfy` | `UserSchema` | the validation schema, with its patterns written as data. Each rule is proved equal to a plain-words predicate. |
| `auth_refresh.dfy` | `AuthRefresh` | the request and response interceptors and the refresh coordinator |
| `tables.dfy` | `Tables` | shared pagination arithmetic: `Math.ceil`, `goToPage` clamping, `Array.prototype.slice` and the range label |
| `student_table.dfy`, `attendance_history.dfy`, `users_table.dfy` | `StudentTable`, `AttendanceHistory`, `UsersTable` | the three tables |
| `user_types.dfy`, `user_confirm.dfy`, `user_management.dfy`, `add_user.dfy` | `UserTypes`, `UserConfirm`, `UserManagement`, `AddUser` | the user records and the user-management page with its dialogs |
| `student_details.dfy` | `StudentDetails` | the student record and the details dialog |
| `attendance.dfy` | `Attendance` | the attendance tracker |

The refresh coordinator is modelled as a sequential state machine. JavaScript runs each interceptor segment to completion, so every event is atomic. The events are:
- a request passing the request interceptor;
- an error reaching the response interceptor;
- the refresh call returning;
- the refresh call throwing.

A caller that waits on the refresh holds a ticket, and its outcome is recorded once in a map from tickets to outcomes. The invariant `AuthRefresh.Inv` says that every ticket issued is either pending (queued or initiating) or settled, never both. It also says that the "refreshing" flag is up exactly while an initiator exists. The invariant holds over every trace.

Points where the code behaves in a way a reader might not expect. Each is modelled as the code has it:
- **Already-retried 401.** A 401 on a request already marked `_retry` is only rejected. The session is not cleared (`AuthRefresh.PassThrough`).
- **Refresh timeout.** The refresh call is sent with the plain `axios.get`, not the instance, so the instance's 10-second timeout does not apply to it. The model has no timeout event.
- **401 from the refresh call.** Because the refresh goes through plain `axios`, its own 401 never reaches the interceptor. It lands in the `catch` block.
- **Login URL.** A 401 on a URL containing "/auth/login" is rejected without a refresh.
- **Queued requests.** Only the request that starts a refresh is marked `_retry`. A queued request is replayed unmarked (`AuthRefresh.Replay`). If it fails with 401 again, it can start a new refresh.
- **Stale default header.** On success the code also sets the instance's default `Authorization` header, and `clearAuth` never removes it. When no token is stored, a later request sends the last refreshed bearer (`AuthRefresh.RequestInterceptor`, second case).

## Model

| member | source | states |
|---|---|---|
| AuthRefresh.SetToken | src/lib/axiosInstance.ts:31-35 | storing a token makes later reads return it; the stored user and the logout-event count are untouched |
| AuthRefresh.ClearAuth | src/lib/axiosInstance.ts:37-43 | the token and the user entry are removed, and exactly one logout event is emitted |
| AuthRefresh.ProcessQueue | src/lib/axiosInstance.ts:13-22 | every queued waiter is settled with the same outcome; callers settled earlier keep their outcome; no other caller is settled |
| AuthRefresh.RequestInterceptor | src/lib/axiosInstance.ts:45-59 | offline requests are refused with "No internet connection". Online, a stored non-empty token supplies `Bearer <token>`. Otherwise the request keeps its own header or the instance default. |
| AuthRefresh.PassThrough | src/lib/axiosInstance.ts:63-73 | no response, a non-401 status, or a request already marked `_retry` is rejected as is, and the coordinator does not change |
| AuthRefresh.RefreshEndpointUnauthorized | src/lib/axiosInstance.ts:75-79 | a 401 on a URL containing "/auth/refresh" clears the session with one logout event and is rejected, without queueing or a refresh |
| AuthRefresh.LoginUnauthorized | src/lib/axiosInstance.ts:81-84 | a 401 on a login URL is rejected and nothing changes |
| AuthRefresh.QueuedWhileRefreshing | src/lib/axiosInstance.ts:86-96 | while a refresh is in flight, a 401 appends exactly one unmarked waiter and makes no refresh call |
| AuthRefresh.StartsRefresh | src/lib/axiosInstance.ts:98-104 | from idle, the failing request is marked `_retry`, the flag goes up and exactly one refresh call is made |
| AuthRefresh.RefreshSucceeds | src/lib/axiosInstance.ts:106-115 | the new token is stored and made the default header. Every pending caller is resolved with that same token, and nothing settled earlier changes. The queue is empty and the flag is down. Every replay carries the new bearer. |
| AuthRefresh.RefreshFails | src/lib/axiosInstance.ts:119-125 | every pending caller is rejected with the refresh error; the session is cleared with one logout event; the queue is empty and the flag is down |
| AuthRefresh.MissingTokenIsFailure | src/lib/axiosInstance.ts:106-118 | a refresh response without an access token, or with an empty one, is handled exactly like a thrown refresh |
| AuthRefresh.InitInv | src/lib/axiosInstance.ts:10-11 | the initial state (not refreshing, empty queue) satisfies the coordinator invariant |
| AuthRefresh.ResponseErrorInv | src/lib/axiosInstance.ts:61-127 | every branch of the response interceptor preserves the invariant |
| AuthRefresh.FinishInv | src/lib/axiosInstance.ts:112-124 | settling the queue and the initiator preserves the invariant and leaves every issued ticket settled |
| AuthRefresh.StepInv | src/lib/axiosInstance.ts:45-127 | every event preserves the invariant |
| AuthRefresh.RunInv | src/lib/axiosInstance.ts:45-127 | the invariant holds after any sequence of events |
| AuthRefresh.RefreshOnlyFromIdle | src/lib/axiosInstance.ts:86-99 | one event makes at most one refresh call, and only when no refresh is in flight |
| AuthRefresh.AtMostOneRefreshInFlight | src/lib/axiosInstance.ts:86-125 | over any interleaving, refresh calls started exceed calls completed by at most one |
| AuthRefresh.SettledIsFinal | src/lib/axiosInstance.ts:13-22 | a caller's outcome, once settled, is never changed by a later event |
| AuthRefresh.SettledIsFinalOverTraces | src/lib/axiosInstance.ts:13-22 | the same over any sequence of events |
| AuthRefresh.IdleMeansAllSettled | src/lib/axiosInstance.ts:119-125 | whenever no refresh is in flight, every caller that was ever suspended has been settled |
| AuthRefresh.BurstIsQueued | src/lib/axiosInstance.ts:86-96 | during a refresh, any number of 401s are all queued, in arrival order, with consecutive tickets |
| AuthRefresh.ConcurrentFailuresThenSuccess | src/lib/axiosInstance.ts:86-115 | N requests failing with 401 from idle, then a successful refresh: exactly one refresh call, and all N callers are resolved with the new token |
| AuthRefresh.ConcurrentFailuresThenRefreshFails | src/lib/axiosInstance.ts:86-125 | the same burst followed by a failed refresh: one refresh call, all N callers rejected, the session cleared once |
| AuthRefresh.RunAppend | src/lib/axiosInstance.ts:45-127 | running two traces one after the other is running their concatenation |
| AuthRefresh.TicketsAppend | src/lib/axiosInstance.ts:89 | queueing a waiter adds exactly its ticket to the queue's tickets |
| AuthRefresh.Errors | src/lib/axiosInstance.ts:63 | a list of errors becomes the same-length list of response-error events, in order |
| JsText.Utf16Length | src/components/Settings/yup.ts:9 | the UTF-16 length lies between the number of characters and twice that, and equals it when no character is outside the Basic Multilingual Plane |
| JsText.FirstChar | src/components/Settings/UsersTable.tsx:272-273 | `charAt(0)` is empty exactly for the empty string, and is otherwise the first character |
| JsText.ContainsAt | src/lib/axiosInstance.ts:76 | `includes` holds exactly when the substring occurs at some position |
| JsText.Split | src/components/Students/StudentDetailsModal.tsx:60-62 | `split(" ")` returns at least one piece, and no piece contains a space |
| JsText.FirstLettersOfSplit | src/components/Students/StudentDetailsModal.tsx:60-65 | taking `n[0]` of every piece of `split(" ")` gives exactly the characters that start the string or follow a space |
| JsText.FirstLettersAppend | src/components/Students/StudentDetailsModal.tsx:63-64 | the first letters of two word lists joined are the two results joined |
| JsText.ToUpper | src/components/Students/StudentDetailsModal.tsx:65 | upper-casing keeps the length and maps each character by its ASCII upper case |
| JsText.AsciiUpper | src/components/Students/StudentDetailsModal.tsx:65 | lower-case ASCII letters move to their capitals, and everything else is unchanged |
| JsText.NatToString | src/components/Attendance/AttendanceTracker.tsx:42-43 | `String(n)` is a non-empty digit string without a leading zero, whose decimal value is n |
| JsText.PadStart | src/components/Attendance/AttendanceTracker.tsx:42-43 | `padStart` keeps the string as its suffix and fills up to the width with the fill character |
| JsText.LeadingZeros | src/components/Attendance/AttendanceTracker.tsx:42-43 | leading zeros do not change the value of a digit string |
| JsText.AllZeros | src/components/Attendance/AttendanceTracker.tsx:42-43 | a string of zeros is a digit string of value 0 |
| JsText.DigitChar | src/components/Attendance/AttendanceTracker.tsx:42-43 | a digit below 10 maps to the decimal character of that value |
| JsRegex.PowerOfClass | src/components/Settings/yup.ts:27 | a character class repeated n times matches exactly the strings of n class characters |
| JsRegex.PlusOfClass | src/components/Settings/yup.ts:8 | a class under `+` matches exactly the non-empty strings of class characters |
| JsRegex.TestOfClass | src/components/Settings/yup.ts:53-56 | an unanchored class test succeeds exactly when some character is in the class |
| UserSchema.DigitClass | src/components/Settings/yup.ts:27 | `[0-9]` admits exactly the decimal digits |
| UserSchema.SpaceClass | src/components/Settings/yup.ts:8 | the ranges written for `\s` admit exactly the JavaScript whitespace characters |
| UserSchema.NameClass | src/components/Settings/yup.ts:8 | `[aA-zZ\s]` admits whitespace and every character from 'A' to 'z', including `[ \ ] ^ _` and the backtick |
| UserSchema.NameRuleMeaning | src/components/Settings/yup.ts:5-15 | a first or last name passes exactly when it has 1 to 50 characters, each whitespace or between 'A' and 'z' |
| UserSchema.NicRuleMeaning | src/components/Settings/yup.ts:23-29 | a NIC passes exactly when it is nine digits and one of x, X, v, V, or twelve digits |
| UserSchema.PhoneRuleMeaning | src/components/Settings/yup.ts:31-34 | a phone passes exactly when it is ten digits |
| UserSchema.RoleRuleMeaning | src/components/Settings/yup.ts:36-40 | a role passes exactly when it is admin, warden or lecturer; "" never passes |
| UserSchema.LowerMeaning | src/components/Settings/yup.ts:53 | `/[a-z]/.test` holds exactly when some character is a lower-case ASCII letter |
| UserSchema.UpperMeaning | src/components/Settings/yup.ts:54 | `/[A-Z]/.test` holds exactly when some character is an upper-case ASCII letter |
| UserSchema.DigitMeaning | src/components/Settings/yup.ts:55 | `/\d/.test` holds exactly when some character is a decimal digit |
| UserSchema.SpecialChar | src/components/Settings/yup.ts:56 | the class `[@$!%*?&#]` admits exactly those eight characters |
| UserSchema.SpecialMeaning | src/components/Settings/yup.ts:56 | `/[@$!%*?&#]/.test` holds exactly when one of the eight special characters occurs |
| UserSchema.PasswordTestsMeaning | src/components/Settings/yup.ts:51-57 | the password tests pass exactly for passwords of at least 8 UTF-16 units with a lower-case letter, an upper-case letter, a digit and a special character |
| UserSchema.PasswordRuleMeaning | src/components/Settings/yup.ts:42-76 | in create mode the password must be strong; in edit mode it may be empty or strong |
| UserSchema.ConfirmRuleMeaning | src/components/Settings/yup.ts:78-85 | with a non-empty password the confirmation must equal it; with an empty password anything is accepted |
| UserSchema.ValidMeaning | src/components/Settings/yup.ts:3-86 | the whole form passes exactly when every field meets its plain-words rule for the given mode |
| Tables.TotalPages | src/components/Settings/UsersTable.tsx:35 | `Math.ceil(count / pageSize)` is the least number of pages that holds every row, and is 0 only for no rows |
| Tables.GoToPage | src/components/Settings/UsersTable.tsx:40-42 | the target page is clamped to 1..max(1, totalPages): kept when in range, the last page when above, 1 when below or when there are no pages |
| Tables.SliceIndex | src/components/Settings/UsersTable.tsx:38 | a slice bound is clamped into 0..length, and a bound already in range is kept |
| Tables.SliceLength | src/components/Settings/UsersTable.tsx:38 | a slice whose bounds are not split across zero has at most `end - start` elements |
| Tables.VisiblePage | src/components/Settings/UsersTable.tsx:36-38 | a page never shows more rows than the page size |
| Tables.PagesUpToIsPrefix | src/components/Settings/UsersTable.tsx:36-38 | the first k pages laid end to end are the first k·pageSize rows |
| Tables.AllPagesGiveBackData | src/components/Settings/UsersTable.tsx:35-38 | all the pages laid end to end give back exactly the whole list |
| Tables.PageInRange | src/components/Settings/UsersTable.tsx:35-38 | a page between 1 and totalPages shows a non-empty contiguous block starting at `(page-1)·pageSize` |
| Tables.SliceRangeLabel | src/components/Settings/UsersTable.tsx:396-398 | the label's total is the number of rows, and its upper bound never exceeds it |
| Tables.SliceRangeLabelMatchesPage | src/components/Settings/UsersTable.tsx:396-398 | on a page in range, "from to to" counts exactly the rows shown and names their 1-based positions |
| Tables.ToggleDropdown | src/components/Students/StudentTable.tsx:100-102 | a row's menu is open afterwards exactly when it was not open before; any other menu closes |
| Tables.ToggleTwice | src/components/Attendance/AttendanceHistoryDashboard.tsx:61-63 | from a closed menu, or with that same row's menu open, toggling a row twice returns to the starting state (with another row's menu open, the second toggle closes everything instead) |
| StudentTable.TotalStudents | src/components/Students/StudentTable.tsx:57 | a missing total counts as 0 |
| StudentTable.ServerRangeLabel | src/components/Students/StudentTable.tsx:59-60 | the label's total is the server's total, and its upper bound never exceeds it |
| StudentTable.ServerLabelMatchesFullList | src/components/Students/StudentTable.tsx:57-60 | the server-paged label equals the label a client-side table over the whole list would show, and names exactly the rows of that page |
| StudentTable.ShowsPageControls | src/components/Students/StudentTable.tsx:455 | the page buttons appear exactly when there are more students than fit on one page |
| StudentTable.GoTo | src/components/Students/StudentTable.tsx:67-69 | the page is clamped into range, an in-range target is kept, and nothing else changes |
| StudentTable.SetPageSize | src/components/Students/StudentTable.tsx:62-65 | changing the page size goes back to page 1 and changes nothing else |
| StudentTable.PageSizeChangeShowsFirstRows | src/components/Students/StudentTable.tsx:57-65 | after a page-size change the label starts at row 1 |
| StudentTable.HandleViewDetails | src/components/Students/StudentTable.tsx:71-75 | the details dialog opens on that student, the menu closes, and nothing else changes |
| StudentTable.HandleEdit | src/components/Students/StudentTable.tsx:77-81 | the edit dialog opens on that student, the menu closes, and nothing else changes |
| StudentTable.HandleDelete | src/components/Students/StudentTable.tsx:83-87 | the delete confirmation opens on that student, the menu closes, and nothing else changes |
| StudentTable.HandleConfirmDelete | src/components/Students/StudentTable.tsx:89-93 | a delete is issued exactly when a student is chosen, for that student's id |
| StudentTable.CloseDelete | src/components/Students/StudentTable.tsx:95-111 | cancelling, or a successful delete, closes the confirmation and forgets the student, and nothing else changes |
| StudentTable.Toggle | src/components/Students/StudentTable.tsx:100-102 | only the open-menu state changes |
| StudentTable.DeleteFlow | src/components/Students/StudentTable.tsx:83-111 | confirming deletes the student whose menu was used; after cancel or success there is nothing to confirm |
| StudentTable.RowActionsCloseMenu | src/components/Students/StudentTable.tsx:71-102 | opening a row's menu and then choosing any action leaves no menu open |
| StudentDetails.OrElse | src/components/Students/StudentDetailsModal.tsx:105-111 | `value \|\| fallback` gives the value when it is a non-empty string, otherwise the fallback |
| StudentDetails.InitialsAreWordStarts | src/components/Students/StudentDetailsModal.tsx:60-66 | the initials are the upper-cased characters that start the name or follow a space; a name not starting with a space starts its initials |
| StudentDetails.Compact | src/components/Students/StudentDetailsModal.tsx:231 | `filter(Boolean)` keeps only non-empty strings and never lengthens the list |
| StudentDetails.Join | src/components/Students/StudentDetailsModal.tsx:232 | joining one piece gives that piece, and joining none gives "" |
| StudentDetails.RegionLine | src/components/Students/StudentDetailsModal.tsx:227-233 | the region line is shown exactly when the district or the province is non-empty |
| StudentDetails.RegionLineCases | src/components/Students/StudentDetailsModal.tsx:227-233 | the region line is "district, province", or whichever one is present, with no stray comma |
| StudentDetails.IfTruthy | src/components/Students/StudentDetailsModal.tsx:189 | a value is shown exactly when it is a non-empty string |
| StudentDetails.ParentCardOf | src/components/Students/StudentDetailsModal.tsx:297-353 | a parent's card appears exactly when that parent has a name or a mobile |
| StudentDetails.Render | src/components/Students/StudentDetailsModal.tsx:58 | the dialog renders exactly when it is open and has a student |
| StudentDetails.RenderShowsRecord | src/components/Students/StudentDetailsModal.tsx:60-214 | the heading is the name and the initials are its word starts. The badge reads "Active" exactly when `isActive` is true. Class and dorm show the truthy value or "-", and the phone shows it or "Not provided". Siblings show the count or 0. The blood group appears exactly when truthy, with its value. The admission number is shown in decimal, or "undefined" when missing. |
| StudentDetails.RenderShowsCards | src/components/Students/StudentDetailsModal.tsx:214-353 | the address card appears exactly when the address is truthy, and carries it with the region line. The guardian card appears exactly when the guardian has a name, with the name and each truthy detail. Each parent card appears exactly when the parent has a name or a mobile, with the truthy ones. |
| StudentDetails.MissingFlagReadsInactive | src/components/Students/StudentDetailsModal.tsx:116-126 | a student without `isActive` is shown "Inactive", unlike a user without it (`UserTypes.IsActiveMeaning`) |
| AttendanceHistory.QueryDeterminesFilters | src/components/Attendance/AttendanceHistoryDashboard.tsx:33-37 | the history request names the date and session filters exactly: different filters give different requests |
| AttendanceHistory.Apply | src/components/Attendance/AttendanceHistoryDashboard.tsx:46-170 | the date picker sets the request's date, and Morning, Evening and Clear set its session to "morning", "evening" or "". The page-size menu sets the size. Each of these goes to page 1. Search changes only the search text, not the request or the page. Navigation stays in range. The menu toggle follows `toggleDropdown`, and viewing details closes the menu. Navigation, the menu and the page size leave the request alone. |
| AttendanceHistory.NewResultsStartAtPageOne | src/components/Attendance/AttendanceHistoryDashboard.tsx:121-170 | whenever an action changes what is fetched, or the page size, the dashboard is on page 1 |
| AttendanceHistory.ClearUndoesSessionChoice | src/components/Attendance/AttendanceHistoryDashboard.tsx:165-170 | "Clear" is shown exactly when a session is chosen, and pressing it restores the unfiltered request for the same date |
| AttendanceHistory.Visible | src/components/Attendance/AttendanceHistoryDashboard.tsx:41-44 | at most a page of sessions is shown, and none while the list is missing |
| AttendanceHistory.Label | src/components/Attendance/AttendanceHistoryDashboard.tsx:382-388 | a missing list counts as 0 sessions in the label |
| AttendanceHistory.FilterChangeShowsFirstPage | src/components/Attendance/AttendanceHistoryDashboard.tsx:121-170 | after a filter or page-size change the first sessions of the result are shown, labelled "1 to min(size, total)" |
| UserTypes.IsActiveMeaning | src/api/user/types.ts:9 | a user is active unless `isActive` is explicitly false; a missing flag means active |
| UsersTable.RoleMappingsAgree | src/components/Settings/UsersTable.tsx:45-70 | the avatar and the role badge always agree on the colour. The label, the colour and the schema agree on which roles are known, and every role the schema accepts gets its own label. |
| UsersTable.KnownRolesDistinct | src/components/Settings/UsersTable.tsx:45-70 | the three known roles get three different labels and three different colours |
| UsersTable.StatusBadge | src/components/Settings/UsersTable.tsx:289-294 | the badge reads "Active" exactly for active users, and "Inactive" otherwise |
| UsersTable.ToggleTitle | src/components/Settings/UsersTable.tsx:346 | the toggle button offers "Deactivate User" exactly for active users, and "Activate User" otherwise |
| UsersTable.AvatarInitials | src/components/Settings/UsersTable.tsx:272-273 | the avatar shows the first character of each non-empty name part, in order |
| UsersTable.Visible | src/components/Settings/UsersTable.tsx:36-38 | at most a page of users is shown |
| UsersTable.GoTo | src/components/Settings/UsersTable.tsx:40-42 | the page is clamped into range and the page size is kept |
| UsersTable.Label | src/components/Settings/UsersTable.tsx:396-398 | the label's total is the number of users |
| UsersTable.ChangePageSizeAsWritten | src/components/Settings/UsersTable.tsx:375-376 | as written, choosing a page size keeps the current page |
| UsersTable.ResizeAsWrittenCanShowNothing | src/components/Settings/UsersTable.tsx:35-42 | as written, 30 users on page 3 with size 10, resized to 25: page 3 of 2 shows no rows, the label reads "51 to 30 of 30", and "next page" stays enabled |
| UsersTable.ChangePageSize | src/components/Settings/UsersTable.tsx:375-376 | the corrected change sets the size and goes back to page 1 |
| UsersTable.ResizeShowsFirstPage | src/components/Settings/UsersTable.tsx:35-42 | after the corrected change the first rows are shown, never nothing when there are users, labelled from 1 |
| UsersTable.PageStaysInBounds | src/components/Settings/UsersTable.tsx:35-42 | navigation and the corrected size change keep the page within 1..max(1, totalPages) |
| UserConfirm.IntentOf | src/components/Settings/UserConfirmModal.tsx:25-27 | the dialog deletes exactly for the delete action, and deactivates exactly for a toggle of an active user |
| UserConfirm.Render | src/components/Settings/UserConfirmModal.tsx:23-124 | the dialog renders exactly when open with a user. The buttons are disabled exactly while pending. Idle, the confirm button names the intent's action ("Deactivate User", "Activate User", "Delete Permanently"). Pending, it reads "Updating..." or "Deleting...". The title, the message and the warning follow the intent. |
| UserConfirm.MessageNamesUser | src/components/Settings/UserConfirmModal.tsx:33-49 | the message names the user as "first last" and ends with the sentence for the intent |
| UserConfirm.ToggleMessageMatchesBadge | src/components/Settings/UserConfirmModal.tsx:25-49 | a toggle's message names the user. It says they cannot log in until reactivated exactly for the users the table shows "Active", and that they can log in again for those shown "Inactive". |
| JsText.ContainsInMiddle | src/components/Settings/UserConfirmModal.tsx:36-38 | a string placed between two others is found by `includes` |
| UserConfirm.ToggleDialogMatchesTable | src/components/Settings/UserConfirmModal.tsx:25-57 | the toggle dialog's confirm button names the same action as the table's toggle button, the title repeats it, and the warning names the status opposite to the table's badge |
| UserConfirm.IntentTextsDistinct | src/components/Settings/UserConfirmModal.tsx:29-57 | deactivate, activate and delete each have their own title, warning and confirm label |
| UserConfirm.DialogsAreDistinguishable | src/components/Settings/UserConfirmModal.tsx:29-57 | different intents get different titles, warnings and confirm labels |
| UserManagement.OrUndefined | src/components/Settings/UserManagement.tsx:38-39 | an empty filter is not sent, and reading a missing parameter as "" gives back the filter |
| UserManagement.QueryParamsOf | src/components/Settings/UserManagement.tsx:36-42 | the request carries the search term and the role, each omitted exactly when empty |
| UserManagement.QueryParamsInjective | src/components/Settings/UserManagement.tsx:36-42 | different filter settings give different requests |
| UserManagement.SetSearchTerm | src/components/Settings/UserManagement.tsx:166-170 | typing a search changes the request's search and leaves its role |
| UserManagement.SetRole | src/components/Settings/UserManagement.tsx:175-179 | choosing a role changes the request's role and leaves its search |
| UserManagement.HandleToggleStatus | src/components/Settings/UserManagement.tsx:77-79 | a toggle confirmation for that user is pending, and nothing else changes |
| UserManagement.HandleDeleteUser | src/components/Settings/UserManagement.tsx:81-83 | a delete confirmation for that user is pending, and nothing else changes |
| UserManagement.HandleConfirmAction | src/components/Settings/UserManagement.tsx:85-92 | a request is issued exactly when a confirmation is pending |
| UserManagement.ConfirmRunsChosenAction | src/components/Settings/UserManagement.tsx:77-92 | confirming runs exactly the action that was asked for, on the id of the user whose row it was |
| UserManagement.CloseConfirm | src/components/Settings/UserManagement.tsx:55-75 | a success handler, or closing the dialog, drops the pending confirmation and nothing else |
| UserManagement.ConfirmDialog | src/components/Settings/UserManagement.tsx:194-201 | the dialog is open exactly when a confirmation is pending, and busy while either mutation runs |
| UserManagement.SuccessClosesDialog | src/components/Settings/UserManagement.tsx:55-75 | after success the dialog is gone and confirming again issues nothing |
| UserManagement.ToggleOpensMatchingDialog | src/components/Settings/UserManagement.tsx:77-83 | the dialog a row's button opens shows that user and that action |
| UserManagement.ConvertUserResponseToUser | src/components/Settings/UserManagement.tsx:95-105 | the edit record has the response's `_id` as id and the same six profile fields |
| UserManagement.OpenEditModal | src/components/Settings/UserManagement.tsx:107-111 | the add/edit dialog opens on the converted user; the filters and the confirmation are untouched |
| UserManagement.OpenAddModal | src/components/Settings/UserManagement.tsx:153-154 | "New Entry" opens the dialog and does not touch the edited user |
| UserManagement.CloseAddModal | src/components/Settings/UserManagement.tsx:121-124 | closing forgets the edited user; the filters and the confirmation are untouched |
| UserManagement.EditRowRoundTrip | src/components/Settings/UserManagement.tsx:95-111 | editing a listed user and saving the untouched form updates that same user with the values the table showed, and no password |
| UserManagement.NewEntryAfterCloseCreates | src/components/Settings/UserManagement.tsx:121-154 | after the dialog closes, "New Entry" always opens it in create mode on a blank form |
| UserManagement.ViewFor | src/components/Settings/UserManagement.tsx:126-140 | the page is shown exactly with the "manage_users" permission; otherwise the restriction notice |
| AddUser.FormOnOpen | src/components/Settings/AddUserModal.tsx:64-92 | the opened form has empty password boxes; without a user it is the blank form |
| AddUser.OnSubmit | src/components/Settings/AddUserModal.tsx:117-142 | an update happens exactly in edit mode with a non-empty id, and goes to that id. The password is sent exactly when typed, and no status is sent. Anything else signs up the whole form. |
| AddUser.UpdateCarriesForm | src/components/Settings/AddUserModal.tsx:120-127 | the update carries the form's six profile fields |
| AddUser.HandleSubmit | src/components/Settings/AddUserModal.tsx:168 | the form is submitted exactly when the schema for the dialog's mode accepts it |
| AddUser.SubmittedPasswordIsStrong | src/components/Settings/AddUserModal.tsx:117-142 | a password that reaches the server is strong; a sign-up's confirmation equals its password; every role sent is a known one |
| AddUser.UnchangedEditRoundTrip | src/components/Settings/AddUserModal.tsx:64-134 | opening on a user and saving the untouched form sends back that user's six fields and no password |
| AddUser.OpenedFormPasswordRules | src/components/Settings/AddUserModal.tsx:64-92 | the opened edit form passes the password rules, so editing never forces a new password; the blank create form never validates |
| AddUser.HandleClose | src/components/Settings/AddUserModal.tsx:144-147 | `reset()` restores the default values that the last `reset(values)` installed, and keeps them as the defaults |
| AddUser.OnOpen | src/components/Settings/AddUserModal.tsx:64-92 | opening shows the form for the edited user, or the blank form, and makes it the new defaults |
| AddUser.CloseAfterEditKeepsUser | src/components/Settings/AddUserModal.tsx:64-147 | after editing a user, closing leaves that user's fields in the form, not the blank form, whatever was typed |
| AddUser.ReopenIgnoresClose | src/components/Settings/AddUserModal.tsx:64-149 | whatever closing left behind, the next opening shows what a freshly created form would, so the left-over values are never on screen |
| AddUser.Render | src/components/Settings/AddUserModal.tsx:149-394 | the dialog renders exactly when open, and is busy exactly while a sign-up or an update runs. The title is "Edit User" or "Add New User" by mode. The submit button reads "Updating..."/"Creating..." while busy and "Update User"/"Create User" otherwise. |
| AddUser.LabelsDistinguishState | src/components/Settings/AddUserModal.tsx:383-394 | the four submit labels tell apart mode and pending state, and the title tells apart mode |
| Attendance.SessionName | src/components/Attendance/AttendanceTracker.tsx:31 | both session names have seven characters |
| Attendance.ZeroPadded | src/components/Attendance/AttendanceTracker.tsx:42-43 | a number below 100, padded to two digits, is two digits with the same value |
| Attendance.LocalDateString | src/components/Attendance/AttendanceTracker.tsx:40-45 | the date string is the unpadded year, then "-MM-DD" |
| Attendance.LocalDateStringRoundTrip | src/components/Attendance/AttendanceTracker.tsx:40-45 | reading the date string back gives the date it was made from |
| Attendance.LocalDateStringInjective | src/components/Attendance/AttendanceTracker.tsx:40-45 | different dates give different strings |
| Attendance.SheetKeyInjective | src/components/Attendance/AttendanceTracker.tsx:105 | no two date and session pairs share an attendance sheet |
| Attendance.Initial | src/components/Attendance/AttendanceTracker.tsx:49-57 | the tracker opens with no sheets, no saved sheet, and no check running |
| Attendance.CurrentAttendance | src/components/Attendance/AttendanceTracker.tsx:127-132 | a missing sheet reads as an empty one |
| Attendance.AllPresent | src/components/Attendance/AttendanceTracker.tsx:109-115 | the initial sheet marks every student present |
| Attendance.AllPresentKeys | src/components/Attendance/AttendanceTracker.tsx:109-115 | the initial sheet has exactly the listed students |
| Attendance.InitEffect | src/components/Attendance/AttendanceTracker.tsx:103-118 | nothing happens before students load, when a saved sheet exists, or when the selected sheet already exists. Otherwise the selected sheet is added with every listed student present, and every other sheet is kept. |
| Attendance.InitEffectIdempotent | src/components/Attendance/AttendanceTracker.tsx:103-125 | running the effect again changes nothing |
| Attendance.HandleAttendanceChange | src/components/Attendance/AttendanceTracker.tsx:134-146 | one student's status is set on the selected sheet, and every other student and sheet is untouched |
| Attendance.DisplayStatus | src/components/Attendance/AttendanceTracker.tsx:414-415 | a row shows the sheet's status, or "present" when the sheet has none |
| Attendance.ChangeShowsOnItsRow | src/components/Attendance/AttendanceTracker.tsx:134-146 | a change shows at once on its row and on no other row |
| Attendance.StartCheck | src/components/Attendance/AttendanceTracker.tsx:74-78 | the check flag is up afterwards exactly when a date is selected or a check was already running |
| Attendance.OnCheckResult | src/components/Attendance/AttendanceTracker.tsx:79-96 | only an explicit `exists: true` blocks the sheet, and a failed check never does; checking ends |
| Attendance.SessionsKeepTheirSheets | src/components/Attendance/AttendanceTracker.tsx:127-146 | switching to the other session, marking there, and switching back finds the first sheet as it was left |
| Attendance.Count | src/components/Attendance/AttendanceTracker.tsx:191-199 | a status count never exceeds the number of marked students |
| Attendance.AttendanceStats | src/components/Attendance/AttendanceTracker.tsx:185-202 | all zero before the student list arrives. Otherwise present, absent and leave count the selected sheet's entries with that status and add up to the sheet's size, and the total is the number of listed students. |
| Attendance.CountsAddUp | src/components/Attendance/AttendanceTracker.tsx:191-199 | present, absent and leave together count every marked student exactly once |
| Attendance.FreshSheetAllPresent | src/components/Attendance/AttendanceTracker.tsx:103-118 | a freshly created sheet counts no absences and no leave, and at most the listed students present |
| Attendance.AllPresentSize | src/components/Attendance/AttendanceTracker.tsx:109-115 | the initial sheet has no more entries than students listed |
| Attendance.HandleSave | src/components/Attendance/AttendanceTracker.tsx:159-183 | a save is sent exactly when students are loaded and no saved sheet exists. It carries the selected date and session and one record per sheet entry, with that entry's status, each student once. |
| Attendance.SheetOfFacts | src/components/Attendance/AttendanceTracker.tsx:171-177 | a sheet rebuilt from distinct records has exactly their students, each with its record's status |
| Attendance.RecordsRoundTrip | src/components/Attendance/AttendanceTracker.tsx:171-177 | the records carry the whole sheet: rebuilding a sheet from them gives back the saved sheet |
| Attendance.SaveButtonOf | src/components/Attendance/AttendanceTracker.tsx:265-283 | the save button is disabled exactly while saving, before students load, when a saved sheet exists, or while checking. Its text is "Saving..." while saving, then "Attendance Exists", then "Checking...". It reads "Save Attendance" exactly when none of these three holds. |
| Attendance.SaveButtonHonest | src/components/Attendance/AttendanceTracker.tsx:159-166 | an enabled button always reads "Save Attendance" and a save would go out; every other label belongs to a disabled button |
| Attendance.ExistingSheetIsLocked | src/components/Attendance/AttendanceTracker.tsx:81-82 | once a saved sheet is reported, the editable sheet is hidden and saving is impossible |
| Attendance.RowInitials | src/components/Attendance/AttendanceTracker.tsx:425-428 | a row's avatar letters are the characters that start the name or follow a space, not upper-cased |

## Left out

- Network transport, promises and the query cache are abstracted. A request's fate is an event fed to the model, and a replayed request is not sent again.
- The server-side rendering path, where `window` is undefined and no storage exists, is left out. The model assumes a browser.
- Storage is a field of the coordinator state. The "auth:logout" event is counted, not dispatched.
- The refresh call has no timeout in the code, and none is modelled.
- The `.email()` format check belongs to the validation library. It is a parameter of `UserSchema.EmailRule`.
- yup's error messages, and the order in which it reports them, are left out. Only acceptance is modelled.
- JsText.ToUpper: upper-cases ASCII letters only, not the full Unicode case mapping of `toUpperCase`.
- JsText.FirstChar: takes the first character rather than the first UTF-16 unit, so astral characters are not split.
- JsText.Split: takes the first character of each piece, not the first UTF-16 unit.
- Dates are not computed: the local clock, `new Date(...)`, and `toLocaleDateString` are left out. `Attendance.Initial` takes today's date as a parameter.
- Object.entries ordering: `Attendance.HandleSave` picks keys in an unspecified order. The order JavaScript uses (integer-like keys first, then insertion order) is not modelled.
- StudentDetails.Render: the sibling count and the admission number are natural numbers, not JavaScript numbers. The record's type file is not part of this model, so their declared types are not known. The admission and birth dates are formatted through the locale and are left out.
- Styling: CSS class choices other than the role colours (row highlights, button colours, the dialog header gradient) are left out.
- Toast notifications, navigation after saving, and console logging are left out.
- Some components are not part of this model: the element components (Input, Select), the student delete confirmation dialog, the dashboard, and the user API hooks. The hooks appear only as the requests they issue: PATCH `/users/{id}/status`, DELETE `/users/{id}`, PUT `/users/{id}`.
- Attendance student-list and dorm filters are not modelled: `dorm` and `search` are passed to the server as they are.
- Edit mode with an empty id: the add/edit dialog falls through to a sign-up with the edit-mode schema. `AddUser.OnSubmit` models this as written. The role filter on the management page also offers "accountant" and "kitchen staff", which the schema rejects. Both are kept as written and not claimed as defects, because the server's behaviour decides whether they matter.

## Findings

| source | as written | input that shows it | evidently intended | confidence | as-written member | corrected member |
|---|---|---|---|---|---|---|
| src/components/Settings/UsersTable.tsx:375-376 | choosing a page size sets `pageSize` but keeps `currentPage`; the students table and the attendance history both go back to page 1 | 30 users, on page 3 at 10 per page, switch to 25 per page: page 3 of 2 shows no rows, the footer reads "51 to 30 of 30", and "next page" stays enabled | reset to page 1 on a page-size change, as the other two tables do | medium, not executed | UsersTable.ResizeAsWrittenCanShowNothing | UsersTable.ResizeShowsFirstPage |
