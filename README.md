# fittrack client pages, modelled in Dafny

This project models the browser-side logic of the fittrack client. Trainees
log meals and workouts; coaches read the trainees' entries and send them
feedback. The model covers eight pages:

- **Add entry** (`AddEntry`, `MealRows`). Covers the meal rows with their
  autocomplete and unit list, the submit handler's four checks and its
  request body, and the reset after a save.
- **Entries** (`Entries`). Covers the D/M/Y date text and the edit dialog:
  its meal rows, units prefilled by name, and the workout list with the
  current workout selected or appended. Also covers the delete dialog and
  the update request.
- **Register** (`Register`). Covers the role list, the coach-code field,
  the five field checks and the routing of a server refusal.
- **Login** (`Login`). Covers the role list with the role named in the URL
  locked, the three required fields, and the outcome of a reply: the
  stored credentials and the page opened, or the failure text.
- **Trainee profile** (`TraineeProfile`). Covers the gender list, the
  prefill from the stored profile, `markInvalid`/`clearValidation`, and the
  submit handler.
- **Coach history** (`CoachHistory`). Covers the trainee filter, the table
  rows (name, tips, read status), the edit dialog's checks and
  `addFieldError`, and the update request.
- **Coach feedback** (`CoachFeedback`). Covers the id-to-name map of the
  trainees, the trainee's entries newest first, the profile card with the
  weight history oldest first, and the feedback payload.
- **Entry details** (`EntryDetails`). Covers today's calories summed per
  meal name and their total, and the character steps of reading the
  token's payload: base64url to base64, and percent escapes.

Browser behaviour the pages rely on is modelled once, in `Dom`:

- `String.prototype.trim`, `split`, `join` and case changes;
- JavaScript truthiness and `String(x)` of parsed JSON values;
- the `<select>` element: which option is selected after `innerHTML`,
  `appendChild` or the `value` setter, and what `value` reads;
- error elements placed under a field's container.

`Sorting` models `Array.prototype.sort` with a comparator on date texts.
It is a stable insertion order on the text of the date.

Network replies, local storage and the current date are parameters. A
failed request is an absent (`None`) reply. Objects whose fields the page
updates in place are classes: the meal group, the entries page, the login
form, the profile form and the history page. Pure expressions are
functions, and each `forEach` loop that builds something is a method with
a loop.

## Model

| member | source | states |
|---|---|---|
| Dom.Trim | js/addentry.js:62 | the result has no white space at either end and is no longer than the input |
| Dom.TrimIsSlice | js/addentry.js:62 | the result is the input with only white space cut from its two ends |
| Dom.TrimStartDrops | js/addentry.js:62 | trimming the start drops exactly the leading white-space run |
| Dom.TrimEndDrops | js/addentry.js:62 | trimming the end drops exactly the trailing white-space run |
| Dom.TrimEmpty | js/traineeprofile.js:66-87 | a trimmed text is empty exactly when every character is white space, so a required check on a trimmed field rejects blank input |
| Dom.Split | js/entries.js:28 | `split` on one character always yields at least one piece |
| Dom.SplitJoin | js/entries.js:28 | splitting pieces joined by a separator none of them holds gives the pieces back |
| Dom.Lower | js/entries.js:114 | `toLowerCase` keeps the length and lowers each character |
| Dom.Capitalize | js/register.js:42 | the label is the first character upper-cased followed by the rest unchanged; an empty role gives an empty label |
| Dom.SetOf | js/traineeprofile.js:118 | the marked controls are exactly the fields a list names; the history dialog's marked inputs (js/coachhistory.js:239) use the same set |
| Dom.OrElse | js/entries.js:227 | `x \|\| fallback` on text: a present non-empty text, else the fallback |
| Dom.ContentText | js/coachfeedback.js:33 | `textContent` set to `null` or `undefined` shows ""; any other value shows its text |
| Dom.AssignedValue | js/traineeprofile.js:55 | an input's `value` set to `null` reads ""; any other value reads its text |
| Dom.Labelled | js/register.js:39-43 | one enabled option per item, in order, valued by the item and captioned by the caption function |
| Dom.FirstEnabled | js/entries.js:166-177 | the first option that is not disabled, or -1 when every option is disabled |
| Dom.FirstWithValue | js/entries.js:140 | the first option with the given value, or -1 when none has it |
| Dom.Parsed | js/addentry.js:44 | a one-option list is selected when the option carries `selected` or is enabled; otherwise its value reads "" |
| Dom.Append | js/addentry.js:99 | `appendChild` adds the option at the end |
| Dom.AppendAllShape | js/addentry.js:95-100 | appending keeps the old options first and the new ones after them in order; an existing selection stays; otherwise the first enabled option is selected |
| Dom.FirstEnabledPrefix | js/entries.js:166-177 | appending after an enabled option does not move the first enabled option |
| Dom.AppendOptions | js/addentry.js:95-100 | the `forEach` append loop leaves exactly the list appending one option at a time gives |
| Dom.SetValue | js/entries.js:139-141 | the `value` setter keeps the options; a value that an option carries reads back; a value no option carries leaves nothing selected, so `value` reads "" |
| Dom.FeedbackCount | js/traineeprofile.js:122 | the number of error elements under a container; it is 0 exactly when `querySelector` finds none |
| Dom.FeedbackCountAppend | js/traineeprofile.js:123 | appending an error element under one container adds one to that container's count and to no other |
| Dom.FeedbackCountUpdate | js/coachhistory.js:240-242 | rewriting an error element in place changes no container's count |
| Dom.FirstFeedback | js/coachhistory.js:238 | `querySelector(".invalid-feedback")` finds the first element under the container, or nothing exactly when it holds none |
| MealRows.WithoutMembers | js/addentry.js:52-54 | after a removal the list holds exactly the other rows, and never the removed one |
| MealRows.WithoutConcat | js/addentry.js:52-54 | removing a row from two lists joined is removing it from each, order kept |
| MealRows.WithoutAt | js/entries.js:75 | in a list without repeats, removing the row at position k deletes that position and nothing else |
| MealRows.WithoutOnce | js/entries.js:75 | removing a row that occurs once deletes that occurrence and keeps the rows before and after it, in order |
| MealRows.WithoutAbsent | js/entries.js:75 | removing a row that is not mounted changes nothing |
| MealRows.WithoutDistinct | js/addentry.js:52-54 | after a removal the list still holds each row at most once |
| MealRows.MealGroup.Add | js/addentry.js:49 | the row is appended at the end of the group |
| MealRows.MealGroup.Remove | js/addentry.js:52-54 | the group loses exactly that row, the others keep their order |
| MealRows.MealGroup.Clear | js/entries.js:228 | `innerHTML = ""` leaves the group empty |
| MealRows.FirstFive | js/addentry.js:78 | at most five results, exactly the first ones in server order; all of them when there are fewer than five |
| MealRows.Autocomplete | js/addentry.js:61-111 | the list is emptied; a trimmed query under two characters sends nothing; otherwise the query is the trimmed text and the list is the first five results, or stays empty on a failed reply |
| AddEntry.InitialUnitSelect | js/addentry.js:43-45 | a new row's unit list is the one disabled "Select unit" placeholder, and its value reads "" |
| AddEntry.CreateMealInput | js/addentry.js:35-54 | a fresh empty row is appended to the group and nothing else changes |
| AddEntry.UnitSelectAfter | js/addentry.js:92-104 | loaded units give the placeholder followed by the units in order, with the placeholder selected; a failed or unit-less reply gives the single disabled "No units" option; either way the value reads "" (corrected placeholder) |
| AddEntry.UnitSelectAsWritten | js/addentry.js:94-100 | as written, the placeholder has no `value` attribute, so the list reads "Select unit" |
| AddEntry.SelectSuggestion | js/addentry.js:81-105 | clicking a suggestion puts its name in the input, empties the list and rebuilds the unit list from the reply (corrected placeholder, see ## Findings) |
| AddEntry.MealsOf | js/addentry.js:161-167 | one meal per row, in order, with the trimmed name, the parsed amount and the unit value |
| AddEntry.Submit | js/addentry.js:145-208 | every check runs; the meal error appears iff the list is empty or a meal lacks a name, a truthy amount or a unit; the workout error appears iff the trimmed workout is empty; the date error is "required" when empty, else "must be today" when it is not today; the time error appears iff the time is empty; the request exists iff no error, and it is `{meals, workout, date, time}` |
| AddEntry.ResetAfterSave | js/addentry.js:222-226 | after a save the group holds exactly one fresh empty row |
| AddEntry.PlaceholderUnitPassesAsWritten | js/addentry.js:94 | as written, a row with loaded units and no unit chosen passes the meal check |
| AddEntry.UnchosenUnitRejected | js/addentry.js:92-104 | with the corrected placeholder, a row whose unit was never chosen fails the meal check, whatever the other rows hold |
| Entries.FormatDateDMYReorders | js/entries.js:27-30 | "Y-M-D" is shown as "D/M/Y" |
| Entries.InitialUnitSelect | js/entries.js:62-64 | a new edit row's unit list is the enabled "Select unit" option with value "" |
| Entries.CreateMealInput | js/entries.js:52-106 | the row shows the given name and amount, keeps the given unit for later, and is appended to the edit group |
| Entries.LoadUnits | js/entries.js:123-145 | a failed lookup leaves the list alone; otherwise the list is the "" placeholder and then the units in order (none when `possibleUnits` is missing); a given unit is selected when an option carries it, else the value reads "" |
| Entries.SelectSuggestion | js/entries.js:90-94 | clicking a suggestion takes its name, empties the list and reloads the units, reselecting the row's unit |
| Entries.FindByName | js/entries.js:114 | the first result whose name matches ignoring letter case, or none when no result matches |
| Entries.PrefillUnits | js/entries.js:108-120 | a row with a name searches by that name; units are loaded only for the first case-insensitive match and leave the list alone otherwise |
| Entries.LabelsOf | js/entries.js:172-177 | one workout label per workout, in order |
| Entries.FirstNormMatch | js/entries.js:180-182 | the first option whose lower-cased, trimmed value equals the current workout's, or none |
| Entries.WorkoutSelect | js/entries.js:162-193 | without a current workout the list is the placeholder and the labels, with the first label selected; with a match, the matching option is selected; otherwise the current workout is appended and selected |
| Entries.PopulateWorkoutSelect | js/entries.js:150-193 | on a list reply the building loop ends with the list `WorkoutSelect` describes; a reply that is not an array leaves only the disabled placeholder, reading "", and does not complete |
| Entries.EditMealsOf | js/entries.js:288-294 | one meal per edit row, in order, with name and unit trimmed |
| Entries.EntriesPage.OpenEdit | js/entries.js:224-233 | the entry's id becomes current, its time (or "") is shown, the rows are rebuilt with one row per stored meal in order; the dialog opens exactly when the workouts reply is a list, the workout list then being populated with the entry's workout, and otherwise holding only the placeholder |
| Entries.EntriesPage.OpenDelete | js/entries.js:239-243 | the entry's id becomes the delete target and nothing else changes |
| Entries.EntriesPage.DeleteSubmit | js/entries.js:254-265 | a delete is sent iff a non-empty id is current, for that id |
| Entries.EntriesPage.EditSubmit | js/entries.js:284-310 | nothing is sent without a current id; otherwise the body is the rows' meals, the trimmed workout and the time, with no date |
| Register.LoadRoles | js/register.js:32-50 | loaded roles give the disabled "Select Role" placeholder and one capitalised option per role, nothing chosen; a failed request leaves the list and shows "Unable to load roles" |
| Register.CoachCodeDisplay | js/register.js:52-54 | the coach-code field is shown iff the role is "coach" |
| Register.Submit | js/register.js:56-125 | every check runs on the trimmed fields; role and user name are required; the password is "required" when empty, else "at least 6" when shorter; the confirmation is "please confirm" when empty, else "do not match" when different; a coach needs code "123"; the request exists iff no error, iff the fields are acceptable, and is `{username, password, role, secretCode}` |
| Register.RouteError | js/register.js:130-137 | a refusal goes under the user name iff its error text contains "username" in any letter case; otherwise the page shows "Registration failed: " and the error, or "Unknown error" |
| Register.LowerOccurs | js/register.js:131 | lower-casing keeps an occurrence of a part at the same position |
| Register.RouteIgnoresCase | js/register.js:131-133 | an error holding "Username" in any letter case is routed to the user-name field |
| Login.LoadRoles | js/login.js:21-41 | loaded roles give the placeholder and the capitalised roles; the list is locked iff the URL names a listed role, and that role is then selected, otherwise nothing is; a failed request shows "Unable to load roles" |
| Login.FailureReason | js/login.js:101 | the server's `error`, else its `message`, else "Login failed" |
| Login.Outcome | js/login.js:100-118 | an ok reply stores token and user name and opens the coach dashboard iff the role is "coach", the trainee profile otherwise; any other reply fails with "Login failed: " and the reason |
| Login.LoginForm.ClearErrors | js/login.js:44-54 | the three field errors and the feedback line are hidden |
| Login.LoginForm.Submit | js/login.js:63-87 | role, trimmed user name and trimmed password are each required with their own message; the request exists iff none is missing, and carries the trimmed values |
| Login.LoginForm.ShowReply | js/login.js:98-118 | the feedback line shows success or the failure text; the field errors stay |
| TraineeProfile.LoadGenders | js/traineeprofile.js:21-32 | loaded genders give the enabled "Select" option, selected, then one capitalised option per gender; a failed request leaves the list alone |
| TraineeProfile.ProfileForm.MarkInvalid | js/traineeprofile.js:117-125 | the control is marked; its container gets an error element only when it has none |
| TraineeProfile.ProfileForm.ClearValidation | js/traineeprofile.js:126-131 | no control stays marked and every error element is removed |
| TraineeProfile.ProfileForm.Check | js/traineeprofile.js:72-75 | a failed check marks its own field and adds its one error element |
| TraineeProfile.ProfileForm.MarkFailed | js/traineeprofile.js:71-87 | the four checks in order leave one error element per missing field, in check order, and mark exactly those fields |
| TraineeProfile.ProfileForm.Submit | js/traineeprofile.js:61-91 | validation is cleared; each empty field (age, height and weight trimmed, the gender's value) is marked; any missing field shows "Please fill out all required fields." and sends nothing; otherwise the profile is sent with the stored user name and the trimmed values |
| TraineeProfile.ProfileForm.Prefill | js/traineeprofile.js:48-56 | without a profile nothing changes; age, gender and height are set only from truthy values; weight takes the last history entry's weight when there is one |
| TraineeProfile.MissingExactly | js/traineeprofile.js:71-87 | a field is marked exactly when its check failed, and at most once |
| TraineeProfile.AddIfDistinct | js/traineeprofile.js:71-87 | one more check on a field not yet marked keeps the marks free of repeats and adds that field exactly when the check failed |
| TraineeProfile.MarkKeepsOne | js/traineeprofile.js:122-124 | marking a field twice leaves exactly one error element in its container |
| TraineeProfile.Marks | js/traineeprofile.js:119-123 | one error element per marked field |
| TraineeProfile.MarksAt | js/traineeprofile.js:119-123 | the k-th error element is "This field is required" under the k-th marked field |
| TraineeProfile.MarksOnePerField | js/traineeprofile.js:61-91 | after a submit each missing field's container holds exactly one error element and every other container none |
| TraineeProfile.MarkNew | js/traineeprofile.js:122-123 | marking a field not yet marked appends its error element |
| TraineeProfile.LastWeight | js/traineeprofile.js:54-55 | the weight of the last history entry, present iff the history exists and is not empty |
| CoachHistory.TraineeOptions | js/coachhistory.js:37-42 | one option per trainee, in order, valued by id and labelled by user name |
| CoachHistory.LoadTrainees | js/coachhistory.js:26-46 | a parsed list gives "All Trainees" (value "", selected) and one option per trainee; a parsed body that is not an array leaves "All Trainees" alone; no token or a failed request or parse leaves the filter as it was |
| CoachHistory.Filtered | js/coachhistory.js:74-77 | no selection lists every feedback; a selection lists exactly the feedbacks whose expanded trainee has that id |
| CoachHistory.FilteredAppend | js/coachhistory.js:76 | the filter keeps the order of the feedbacks |
| CoachHistory.TraineeName | js/coachhistory.js:89 | the expanded trainee's user name, else "[object Object]" for an expanded trainee without one, else the raw id, else "Unknown" |
| CoachHistory.TipOr | js/coachhistory.js:92-94 | a truthy tip's text, else the fallback |
| CoachHistory.TipsTextLines | js/coachhistory.js:91-94 | the tips cell has exactly three lines: Nutrition, Exercise and General, each with its tip or "No feedback" |
| CoachHistory.RowOf | js/coachhistory.js:85-111 | a row carries the feedback's id, trainee name, tips text, and "Read" iff `readByTrainee` is truthy |
| CoachHistory.RowsOfNext | js/coachhistory.js:85 | each pass of the render loop appends the next feedback's row to the rows of those before it |
| CoachHistory.TableShape | js/coachhistory.js:73-85 | no selection shows every feedback's row; an empty filter result shows the single notice, and only then; every row of a selection is a feedback of the selected trainee |
| CoachHistory.WithFieldError | js/coachhistory.js:237-249 | an existing error element under the field is rewritten and shown; otherwise a new shown one is appended |
| CoachHistory.WithFieldErrorReuses | js/coachhistory.js:237-249 | no second error element is added to a container, and the field's error is then shown while other fields keep theirs |
| CoachHistory.HideAll | js/coachhistory.js:229-231 | every error element is kept and hidden |
| CoachHistory.HideAllKeeps | js/coachhistory.js:229-231 | hiding keeps each container's count and shows none |
| CoachHistory.WithFieldErrorsEffect | js/coachhistory.js:175-186 | after the checks on a cleared dialog exactly the failed fields show an error, each container holding at most one error element |
| CoachHistory.WithFieldErrorsShown | js/coachhistory.js:175-186 | on a dialog whose error elements are all hidden, a container shows an error after the checks exactly when its field failed |
| CoachHistory.WithFieldErrorsCount | js/coachhistory.js:175-186 | the checks add an error element to a container only when its field failed and it had none |
| CoachHistory.HistoryPage.RenderFeedbacks | js/coachhistory.js:73-132 | the loop builds exactly the table `Table` describes and changes nothing else |
| CoachHistory.HistoryPage.LoadFeedbacks | js/coachhistory.js:48-71 | without a token the login notice is shown; a failed request shows its error; a listed reply replaces the feedbacks and renders them; the filter, the current feedback and the whole edit dialog (inputs, marks and messages) are left as they were |
| CoachHistory.HistoryPage.ClearFormFeedback | js/coachhistory.js:227-235 | the form message goes, every error element is hidden, and no input stays marked |
| CoachHistory.HistoryPage.EditClick | js/coachhistory.js:114-123 | the feedback becomes current; the dialog shows its date, time and tips ("" for missing ones) and is cleared |
| CoachHistory.HistoryPage.DeleteClick | js/coachhistory.js:125-130 | the feedback becomes current and nothing else changes |
| CoachHistory.HistoryPage.AddFieldError | js/coachhistory.js:237-249 | the input is marked and its container's error element is rewritten or added |
| CoachHistory.HistoryPage.CheckTip | js/coachhistory.js:175-178 | an empty trimmed tip gets its field error |
| CoachHistory.HistoryPage.Submit | js/coachhistory.js:163-197 | the dialog is cleared; a missing date or time shows "Please fill in date and time"; each empty trimmed tip gets its error; the update exists iff nothing failed, with "date`T`time" and the trimmed tips |
| Sorting.LexTotal | js/coachfeedback.js:61 | any two date texts are ordered one way or the other |
| Sorting.LexTrans | js/coachfeedback.js:61 | the date-text order is transitive |
| Sorting.InsertKeeps | js/coachfeedback.js:61 | inserting adds exactly the one item |
| Sorting.InsertSorted | js/coachfeedback.js:61 | inserting into a sorted list keeps it sorted |
| Sorting.SortByCorrect | js/coachfeedback.js:61 | the sorted copy is in order and is a permutation of the input |
| CoachFeedback.MapOfKeys | js/coachfeedback.js:30-36 | after the load the map knows exactly the ids it knew and the loaded ones |
| CoachFeedback.MapOfLast | js/coachfeedback.js:34 | a loaded id maps to the user name of the last trainee with that id |
| CoachFeedback.BuildTraineeMap | js/coachfeedback.js:21-41 | each trainee in order is set in the map and gets an option; a failed request changes neither |
| CoachFeedback.MapOfNext | js/coachfeedback.js:30-34 | one pass of the loop sets the next trainee's id to its user name on top of the earlier ones |
| CoachFeedback.AppendNext | js/coachfeedback.js:30-35 | appending the next trainee's option and then the rest is appending all the remaining options |
| CoachFeedback.TraineeOptions | js/coachfeedback.js:31-35 | one option per trainee, valued by id and labelled by its user name ("" when missing) |
| CoachFeedback.ProfileTarget | js/coachfeedback.js:78-82 | the profile is requested iff the map holds a truthy user name for the id, and by that name |
| CoachFeedback.ProfileTargetOfLoaded | js/coachfeedback.js:76-84 | a loaded trainee with a truthy name is looked up by it; an id never loaded is not looked up |
| CoachFeedback.NewestFirstOrder | js/coachfeedback.js:61 | the listed entries are the loaded ones, each no older than the next, a missing time counting as 00:00 |
| CoachFeedback.MealNames | js/coachfeedback.js:66 | one name per meal, with `undefined` and `null` shown as "" |
| CoachFeedback.AllHaveMealsSorted | js/coachfeedback.js:61-66 | sorting neither adds nor drops an entry without a meal array |
| CoachFeedback.ViewsOf | js/coachfeedback.js:62-70 | one box per entry, in order |
| CoachFeedback.LoadTraineeData | js/coachfeedback.js:42-75 | no trainee shows a prompt and sends nothing; a failed request or an entry without meals shows the load error; an empty result says so; otherwise the boxes of the entries newest first |
| CoachFeedback.OldestFirstOrder | js/coachfeedback.js:105 | the chart's copy holds the history's points, oldest date first |
| CoachFeedback.LoadTraineeProfile | js/coachfeedback.js:76-102 | the request follows `ProfileTarget`; a skipped or failed load leaves the card as it was (shown or not); an ok reply without a trainee only rewrites the name; a full reply shows the card with the name, the fields' text and the weight history (none when missing) oldest first; the card is displayed afterwards exactly when it was before or the load was full |
| CoachFeedback.SubmitFeedback | js/coachfeedback.js:158-177 | an invalid form shows "Please complete all required fields." and sends nothing; otherwise the payload carries the trainee, "date`T`time" and the trimmed tips |
| EntryDetails.Today | js/entrydetails.js:38-39 | exactly the entries whose date is today's |
| EntryDetails.TodayCounts | js/entrydetails.js:38-39 | each of today's entries occurs as often as in the reply, and no other entry occurs |
| EntryDetails.TodayAppend | js/entrydetails.js:38-39 | the filter keeps the reply's order: one more entry read is appended when it is today's and dropped otherwise |
| EntryDetails.NamesExactly | js/entrydetails.js:57 | each meal name appears once among the labels, and only names of meals appear |
| EntryDetails.SumForAbsent | js/entrydetails.js:52 | a name no meal carries has an empty bucket |
| EntryDetails.SumOverAppend | js/entrydetails.js:52 | one more meal adds its calories to the buckets of distinct names exactly when its name is among them |
| EntryDetails.BucketsHoldTotal | js/entrydetails.js:57-59 | the buckets of the labels together hold every counted calorie |
| EntryDetails.Values | js/entrydetails.js:58 | one value per label |
| EntryDetails.SumOfValues | js/entrydetails.js:59 | reducing the values gives the sum of the labels' buckets |
| EntryDetails.ValuesAt | js/entrydetails.js:58 | the k-th value is the bucket of the k-th label |
| EntryDetails.NamesAppend | js/entrydetails.js:52 | a meal adds a label only for a name not seen before |
| EntryDetails.SumForAppend | js/entrydetails.js:52 | a meal adds its calories to its own name's bucket only |
| EntryDetails.AddMeal | js/entrydetails.js:50-52 | one meal keeps the buckets equal to the sums of the meals seen, keyed by their labels |
| EntryDetails.AddMeals | js/entrydetails.js:49-53 | the inner loop over one entry's meals keeps the buckets equal to the counts of every meal seen so far |
| EntryDetails.Aggregate | js/entrydetails.js:46-58 | the labels are the meal names in first-seen order (missing name "Unknown"), the keys are exactly the labels, and each bucket is the calories of that name's meals (missing calories 0); entries without meals add nothing |
| EntryDetails.LoadChart | js/entrydetails.js:16-101 | no token asks for a login; a failed request shows the load error; no entry today says so; otherwise one slice per meal name holding its calories, and the total of all of today's meal calories |
| EntryDetails.PayloadSegment | js/entrydetails.js:9 | the second dot-separated piece, present iff the token has a dot |
| EntryDetails.SplitPieceFree | js/entrydetails.js:9 | no piece of a split holds the separator |
| EntryDetails.PayloadOfToken | js/entrydetails.js:9 | header, payload and signature joined by dots give the payload back |
| EntryDetails.ReplaceAll | js/entrydetails.js:10 | every occurrence of the character is replaced and nothing else changes |
| EntryDetails.UrlToBase64Changes | js/entrydetails.js:10 | the length is kept, no '-' or '_' is left, other characters are unchanged, and the reverse change undoes it on base64url text |
| EntryDetails.Hex | js/entrydetails.js:12 | `toString(16)` has at least one digit |
| EntryDetails.HexLast | js/entrydetails.js:12 | the last hex digit is that of the value's low four bits |
| EntryDetails.SecondDigit | js/entrydetails.js:12 | the second hex digit from the right is that of the low byte |
| EntryDetails.PercentOfDigits | js/entrydetails.js:12 | each escape is '%' and exactly two lowercase hex digits of the code's low byte |
| EntryDetails.PercentEncode | js/entrydetails.js:11-13 | three characters per input character |
| EntryDetails.PercentOfBack | js/entrydetails.js:11-13 | a character below 256 is read back from its escape |
| EntryDetails.PercentRoundTrip | js/entrydetails.js:11-13 | text of codes below 256, which is all that `atob` yields, comes back unchanged from its escapes |

## Left out

- Network, `localStorage`, `window.location` and the current date are inputs. A failed or thrown request is an absent reply. Where a handler iterates a parsed body without checking the status (the history page's trainee list, the edit dialog's workout list), a body that is not an array is a case of its own; items of a list are taken to be objects.
- HTTP status texts are not modelled; the model distinguishes only an ok reply from a failed one.
- Async interleaving is left out: a stale autocomplete reply overwriting a newer one, and the 200 ms blur clear.
- Timers are left out: messages hidden after a delay and redirects after a delay.
- Modals, Chart.js charts, CSS classes and the markup around the option lists and error texts are left out.
- `atob`, `JSON.parse` and `decodeURIComponent` are foreign calls. The user id read from the token is not modelled, and `EntryDetails.PercentDecode` is a reference decoder, not the browser's UTF-8 decoding.
- `Date` arithmetic and locale formatting are not modelled: `toLocaleDateString`, `toTimeString`, `toISOString` and the `Date` built from "date`T`time". Dates are text, and the date shown in the history edit dialog is an input.
- Sorting: the comparator's `Date` difference is modelled as the character order of ISO date texts of one shape. Invalid dates (NaN) and dates of different shapes are not modelled.
- Sorting.SortByCorrect: the order and the permutation are proved, but stability is not.
- `parseFloat` and `Number` are abstracted. An amount is a number or NaN. A meal's calories are a number, or absent when falsy; non-numeric text (NaN) is not modelled.
- `toFixed` rounding is not modelled. Calories are exact reals.
- `String(n)` of a number is taken as given: `JsValue.JsNumber` carries its text.
- White space covers the ASCII and Latin-1 spaces and the byte-order mark; letter case covers ASCII A–Z only (so "É" is not lowered to "é", which bears on `Entries.FindByName`, `Entries.FirstNormMatch` and `Register.RouteError`); full Unicode `trim`, `toLowerCase` and `toUpperCase` are not modelled. JavaScript string lengths count UTF-16 code units; the model counts characters.
- `Object.keys` puts integer-like keys first; the model keeps insertion order for every meal name. Names that clash with `Object.prototype` members are not modelled.
- `coachForm.checkValidity()` (HTML `required` attributes) is a parameter of `CoachFeedback.SubmitFeedback`.
- AddEntry.Submit: models the handler as if it always runs. The rows carry `required` and `min="1"` (js/addentry.js:40-43); unless the page's form has `novalidate` (its markup is not part of this model), the browser's own constraint validation stops the submit before the handler, for example for an amount of 0.5 or an empty name.
- AddEntry.SelectSuggestion: ensures the corrected unit list (`UnitSelectAfter`, placeholder with `value=""`), not the list js/addentry.js:94 builds as written, whose value reads "Select unit"; see "## Findings".
- The coach feedback page is partly out of scope: the "show data" button, the select's initial markup, and the reset after a successful send (which also hides the profile card, js/coachfeedback.js:191-194).
- js/feedback.js is not part of this model.
- Other handlers are not part of this model: the add-entry workout list loader (`populateWorkoutOptions`), the entries table rendering (`loadEntries`), and the success and failure texts after a save, update or delete.
- Register and login: the server-reply texts after a network exception are not modelled.
- HTML injection through user names and tips placed in `innerHTML` is not modelled.
- CoachFeedback.NewestFirstOrder: `data.sort` sorts in place; the model sorts a value copy and uses it in its place.
- Each validated field sits in its own container, so `parentElement.querySelector` is modelled per field.

## Findings

| source | as written | input that shows it | evidently intended | confidence | as-written member | corrected member |
|---|---|---|---|---|---|---|
| js/addentry.js:94 | the unit list rebuilt after a lookup starts with `<option disabled selected>Select unit</option>`, without `value=""`, so the list's `value` reads "Select unit" and the meal check sees a unit | a row with a name and amount 1, whose suggestion loaded units `["g"]` and whose unit was never chosen, passes the meal check and is posted with unit "Select unit" | the placeholder carries `value=""`, like the initial row's (js/addentry.js:44), so an unchosen unit fails the check | not executed | AddEntry.PlaceholderUnitPassesAsWritten | AddEntry.UnchosenUnitRejected |
