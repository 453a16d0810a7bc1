# Event console and guest portal: a Dafny model

The system is a browser application for one in-person event. It has an
administration console and a public guest portal. The console handles guest
management, QR-code check-in, bulk spreadsheet import with a correction loop,
users, and settings. The portal lets a guest answer the invitation and register
plus-ones. A remote backend does every data operation. This project models the
client-side logic that decides what is sent, what is shown and how state
changes. Each piece is either a pure function or a small class whose methods
change its fields.

Inputs that come from outside the application are parameters:
- backend replies are input datatypes;
- the decoded token claims are the result of a `decode` parameter;
- the current time is `now`;
- the translation lookup `t` is an uninterpreted `string -> string`;
- a check-in's hour of day is part of the guest record.

Outputs are recorded in fields: alerts, sounds, navigations and requests issued.

Modules, one per source file, plus two shared ones:

- `Js`: JavaScript value semantics the components rely on. It covers `a || b`
  on strings, `trim` and the `\s` class, ASCII `toLowerCase`, `includes`,
  `startsWith`, `parseInt`, number-to-decimal and `padStart`.
- `Guests`: the guest record shared by the components.
- `BulkImport` and `ImportErrors` (`src/components/AdminSettings.js`):
  - the import correction loop: cell edits, header inference, the retry
    records, reconciliation and re-keying of edits by row number;
  - the error-cell marker and the row-tag parser of error messages.
- `AdminSettings` (`src/components/AdminSettings.js`): the volunteer list
  editor and the guest-type cap settings.
- `CheckIn` (`src/components/CheckIn.js`): the check-in station.
- `Session` (`src/App.js`): role gate, routes, token lifecycle, login.
- `Navbar` (`src/components/Navbar.js`): countdown, `mm:ss`, menu, language.
- `GuestRsvp` (`src/components/GuestRsvp.js`): chunking, RSVP answer,
  plus-one form.
- `Report` (`src/components/ParticipantsReport.js`): statistics and hourly
  buckets.
- `ParticipantList` (`src/components/ParticipantList.js`): the row-selection
  toggle, the bulk-delete guard, and the export filter and rows.
- `EventSettings` (`src/components/EventSettings.js`): form guards, the
  inviter picker, plus-one name lookup, and the inviter fetch.
- `Users` (`src/components/Users.js`): the user form.
- `ParticipantForm` (`src/components/ParticipantForm.js`): the participant
  form and its email pattern.
- `PlusOneModal` (`src/components/PlusOneModal.js`): the plus-one cap and
  the field guards.

The code behaves in some ways worth knowing:

- A Turkish `Ad` header is not recognised as the first name. None of the
  first-name keywords (`first`, `isim`, `prenom`) occurs in `ad`, so the
  column falls back to `First Name` (`BulkImport.TurkishHeaders`).
- Two clicks on a row restore the list exactly only for a row that was not
  selected. A selected row is selected again after the second click, but it
  comes back at the end of the list (`ParticipantList.ToggleTwiceMovesToEnd`).

- `/volunteers` is in the navigation menu but not among the valid routes, so
  following it redirects to `/not-found` (`Session.VolunteersPathRedirects`).
- The participant form spells the plus-one type `PlusOne`. The other screens
  spell it `PLUSONE`. Only `PlusOne` triggers the form's inviter check.
- In the event settings, the plus-one button is disabled only when the type's
  cap is exactly 0. For a type missing from the settings the button stays
  enabled, but the dialog treats the cap as 0
  (`EventSettings.UnlistedTypeOpensFullDialog`).

## Model

| member | source | states |
|---|---|---|
| BulkImport.ImportCorrection.constructor | src/components/AdminSettings.js:10-26 | the import starts with no failures, no edits and no headers, every modal and the table closed, and no error; this state satisfies the invariant that edits only name rows of the table. |
| BulkImport.EditCell | src/components/AdminSettings.js:450-459 | editing a cell sets that field of that row. Every other row, and every other field of the row, is unchanged. |
| BulkImport.ImportCorrection.RowEdit | src/components/AdminSettings.js:450-459 | the edit map becomes `EditCell` of the old map. The failure list and headers do not change. |
| BulkImport.ImportCorrection.RetryRequest | src/components/AdminSettings.js:461-509 | with no edits, no request is made. Otherwise the request holds exactly the retry records of the edited rows. The table, edits and headers read are returned as the snapshot the reply is reconciled against. |
| BulkImport.HeaderForIsFirstMatching | src/components/AdminSettings.js:479-483 | each field's column is the first header whose lower-cased, separator-free form contains one of the field's keywords. With no match it is the fixed default. |
| BulkImport.TurkishHeaders | src/components/AdminSettings.js:480-481 | `E-posta` is taken as the email column; `Ad` matches nothing, so the first name falls back to `First Name`. |
| BulkImport.FrenchPrenomAlsoLastName | src/components/AdminSettings.js:481-482 | `Prenom` is chosen as both the first-name and the last-name column, because `nom` occurs inside `prenom`. |
| BulkImport.Merge | src/components/AdminSettings.js:489-493 | a field's value is the trimmed edit if there is one, else the trimmed original value, else `''`. |
| BulkImport.RetryRowForFields | src/components/AdminSettings.js:489-502 | a retry record keeps the row's `row` number, and each of its five fields is the merged value of that field's column. |
| BulkImport.EditedIndices | src/components/AdminSettings.js:470 | the edited positions in ascending order, exactly the edit map's keys. |
| BulkImport.EditedIndicesCount | src/components/AdminSettings.js:470 | there are as many edited positions as keys in the edit map. |
| BulkImport.RetryRowsSpec | src/components/AdminSettings.js:470-504 | one record per edited position, in ascending order: the j-th record is built from the j-th edited row and its edits. |
| BulkImport.FindFailure | src/components/AdminSettings.js:538 | the new failure found has this row number; none is found exactly when no failure has it. |
| BulkImport.RebuiltDataFields | src/components/AdminSettings.js:547-553 | the rebuilt data of a row that failed again has distinct headers. Each field's column holds that field's merged value. |
| BulkImport.ReconcileSpec | src/components/AdminSettings.js:533-564 | rows that succeeded are removed and the others keep their order. A row that failed again gets the new errors and its rebuilt data. Every other row is unchanged. |
| BulkImport.ReconcileRowNumbers | src/components/AdminSettings.js:533-564 | the surviving row numbers are the old ones minus the successful ones, in order. |
| BulkImport.RemoveAll | src/components/AdminSettings.js:535-537 | a row number survives exactly when it was listed and did not succeed. |
| BulkImport.FirstIndexOfRow | src/components/AdminSettings.js:568 | `findIndex` by row number: the first position holding that number, or none. |
| BulkImport.RekeyedEdits | src/components/AdminSettings.js:566-572 | new position `idx` gets the edits of the old position that held the same row number, and nothing else. |
| BulkImport.RekeyEdits | src/components/AdminSettings.js:566-572 | the loop that writes the re-keyed map key by key produces exactly `RekeyedEdits`. |
| BulkImport.EditsFollowRows | src/components/AdminSettings.js:533-572 | with unique row numbers, each surviving row keeps exactly the edits made at its old position. No edit of a row that succeeded survives. |
| BulkImport.RetryExample | src/components/AdminSettings.js:533-572 | worked case: rows 3 and 7 failed and row 7 was edited and accepted. Row 3 remains untouched and no edit survives. |
| BulkImport.InFlightEditDropped | src/components/AdminSettings.js:533-578 | worked case: a reply accepting nothing, to a request posted with an edit only at position 0. The table is kept and the edits become exactly the posted one, so an edit made at position 1 during the request is lost. |
| BulkImport.Dedup | src/components/AdminSettings.js:581-582 | `[...new Set(keys)]` keeps the same headers, without repeats, first occurrence first. |
| BulkImport.DedupOfDistinct | src/components/AdminSettings.js:581-582 | a header list without repeats is left as it is. |
| BulkImport.ImportCorrection.ApplyRetryResponse | src/components/AdminSettings.js:531-589 | the failure list becomes the snapshot's list reconciled, and the edits become the snapshot's edits re-keyed. With survivors, the headers are the first survivor's deduplicated keys and the table stays open. With none, the table and the modals close. |
| BulkImport.ImportCorrection.RetryReplied | src/components/AdminSettings.js:513-594 | a reply shows its message and is applied to the request-time snapshot as above, whatever was edited while it was awaited. A failed request sets the server message or `retryFailed` as the error, opens the error modal and leaves the table as it is. |
| BulkImport.ImportCorrection.IgnoreErrors | src/components/AdminSettings.js:597-603 | failures and edits are cleared and the table and both modals close. |
| BulkImport.ImportCorrection.Drop | src/components/AdminSettings.js:178-220 | zero accepted files give `invalidFileType` and no request. A reply with errors installs them, takes the first row's keys as headers and empties the edits. A reply without errors closes the modals. |
| ImportErrors.InputClass | src/components/AdminSettings.js:759-789 | a row with no error fields marks no cell. A marked cell implies some error field was reported. |
| ImportErrors.MarkerAgreesWithRetry | src/components/AdminSettings.js:759-789 | a cell is marked exactly when a reported field's keywords match its header, the same keywords the retry uses. |
| ImportErrors.RetryColumnMarked | src/components/AdminSettings.js:759-789 | when a field is reported, the column the retry reads that field from is marked. |
| ImportErrors.ParseTaggedRoundTrip | src/components/AdminSettings.js:791-816 | a message tagged `(row: N)`, `(satır: N)` or `(ligne: N)` parses back to the message and the digits of N. |
| ImportErrors.TranslateTagged | src/components/AdminSettings.js:791-816 | a tagged message is translated through the key whose text contains the message, with the row number passed in. |
| ImportErrors.UntaggedLookedUpWhole | src/components/AdminSettings.js:791-816 | a message with no `(` is looked up whole, falling back to itself. |
| ImportErrors.TranslateErrors | src/components/AdminSettings.js:791-816 | one translation per error message, in order, each by `TranslateError`. |
| AdminSettings.FailureMessage | src/components/AdminSettings.js:697-706 | 401 gives `unauthorizedError`. 500 gives the server message or `serverError`. No response gives `networkError`. Anything else gives the fallback. |
| AdminSettings.VolunteerEditor.Open | src/components/AdminSettings.js:609-635 | without a token an error is shown and nothing opens. Otherwise the editor opens on the stored list, or on one blank entry when the list is empty or cannot be fetched. |
| AdminSettings.VolunteerEditor.Change | src/components/AdminSettings.js:643-647 | only the name at the index changes. |
| AdminSettings.AddKeepsOneBlank | src/components/AdminSettings.js:649-657 | add appends a blank entry only when no name is blank. It never creates a second blank one, and adding twice is the same as adding once. |
| AdminSettings.VolunteerEditor.Add | src/components/AdminSettings.js:649-657 | the list becomes `AfterAdd` of the old one. When a blank name exists, an alert is raised instead. |
| AdminSettings.Without | src/components/AdminSettings.js:659-662 | removing an index leaves the entries before and after it, in order. |
| AdminSettings.VolunteerEditor.Delete | src/components/AdminSettings.js:659-662 | exactly that index is removed. |
| AdminSettings.SavedNamesClean | src/components/AdminSettings.js:664-708 | the names sent are the trimmed names: non-empty, already trimmed, one per volunteer. |
| AdminSettings.VolunteerEditor.Save | src/components/AdminSettings.js:664-708 | a blank name refuses with an alert and sends nothing. Without a token an error is shown. Otherwise the trimmed names are sent, and success or failure updates the modal, alerts and error. |
| AdminSettings.SettingValueOfDecimal | src/components/AdminSettings.js:752-757 | `parseInt(v) \|\| 0` reads a decimal back as its value, a negative decimal as its negative, and a non-number as 0. |
| AdminSettings.GuestTypeSettings.Change | src/components/AdminSettings.js:752-757 | only that type's cap changes, to the parsed value. |
| AdminSettings.VolunteerEditor.constructor | src/components/AdminSettings.js:14-19 | the editor starts with no volunteers, both modals closed, no error and no alerts. |
| AdminSettings.GuestTypeSettings.constructor | src/components/AdminSettings.js:28-33 | the default caps are REGULAR 0, VIP 5, EMPLOYEE 5, PLUSONE 0. |
| CheckIn.Station.constructor | src/components/CheckIn.js:12-18 | the station starts with the camera off, an empty identifier, key and error, no participant, the modal closed, the flag off, and no sounds or requests. |
| CheckIn.Classify | src/components/CheckIn.js:34-95 | admitted exactly for a success reply with a guest id, or an `alreadyCheckedIn` failure carrying a guest id. In the second case `already` is set. Refusals carry the server message or `guestNotFound`. |
| CheckIn.OutcomeShown | src/components/CheckIn.js:45-95 | an admitted participant has an id, and a refusal has a non-empty message. |
| CheckIn.NoGuestRefused | src/components/CheckIn.js:54-63 | a reply without a resolvable guest is refused, with the rejected sound. |
| CheckIn.Station.CheckIn | src/components/CheckIn.js:25-97 | an empty id sets `qrIdEmpty`, plays the rejected sound and makes no request. Otherwise exactly one request and one sound, and the screen shows the classified outcome. |
| CheckIn.Station.Type | src/components/CheckIn.js:226 | typing sets the identifier. |
| CheckIn.Station.ManualCheckIn | src/components/CheckIn.js:99-110 | an empty identifier sets `qrIdEmpty`, plays the rejected sound, and keeps the request log, the participant, the modal and the flag. Otherwise the typed identifier is posted, the screen shows the classified outcome, and its sound plays. |
| CheckIn.Station.ToggleScanning | src/components/CheckIn.js:207 | the camera toggles. |
| CheckIn.Station.Scanned | src/components/CheckIn.js:133-164 | a decoded text that repeats the last key changes nothing, and neither does "not found". A new text becomes the typed identifier and the key, and is checked in as by `CheckIn`, with the outcome's sound. Another decode error sets the read error and plays the rejected sound, changing nothing else. |
| CheckIn.Station.CameraFailed | src/components/CheckIn.js:166-173 | a camera failure stops scanning, sets the error and plays the rejected sound. |
| CheckIn.Station.CloseParticipantModal | src/components/CheckIn.js:186-193 | closing clears participant, flag and error, and re-arms the same code by emptying the key. |
| Session.HasAccess | src/App.js:152-154 | true exactly when some held role is in the required list. |
| Session.HasAccessShared | src/App.js:152-154 | no roles give no access, and the test is symmetric. |
| Session.RedirectExactlyUnknown | src/App.js:156-187 | public routes are valid, and a path redirects to `/not-found` exactly when it is not valid and not `/not-found` itself. |
| Session.VolunteersPathRedirects | src/App.js:166-187 | `/volunteers`, listed in the menu, redirects to `/not-found`. |
| Session.KnownRoutesBehindLogin | src/App.js:189 | a known private route shows the login form exactly when there is no token. |
| Session.Shell.constructor | src/App.js:21-24 | no token and no roles at start, with the stored token as found. |
| Session.Shell.TimerEnd | src/App.js:76-82 | token, roles and stored token cleared, `session_expired` alerted, `/login` navigated to. |
| Session.Shell.InitializeToken | src/App.js:119-141 | an absent or empty stored token is falsy and changes nothing. An unexpired one is adopted with its roles. One that is expired or does not decode is removed and the app goes to `/login`. |
| Session.Shell.Refresh | src/App.js:96-116 | a refresh is requested exactly when a non-empty stored token decodes with under 300 seconds left. A failure, or a non-empty token that does not decode, tears the session down. Otherwise nothing changes. |
| Session.EmptyStoredTokenIgnored | src/App.js:96-141 | starting and refreshing with an empty stored token requests nothing, alerts nothing, navigates nowhere and keeps the entry. |
| Session.Shell.Intercept | src/App.js:84-94 | a 401 from any URL but the login URL tears the session down. Any other failure changes nothing. |
| Session.Shell.Login | src/App.js:40-70 | user `admin` is refused with no request. A 200 stores token and roles and goes to `/checkin`. Any other answer alerts a failure. |
| Session.LoginFailureText | src/App.js:62-68 | 401, a server error or a thrown request give `invalid_credentials`. Another status gives the message key's translation, or `Giriş başarısız` when there is no key or it translates to `''`. |
| Navbar.FormatTimeRoundTrip | src/components/Navbar.js:23-27 | for a non-negative count, `mm:ss` has at least two minute digits and exactly two seconds digits below 60, and minutes × 60 + seconds is the count. |
| Navbar.NegativeDisplay | src/components/Navbar.js:23-27 | a count already below zero shows both parts negative: -5 displays as `-1:-5`. |
| Navbar.JsRem | src/components/Navbar.js:25 | the remainder takes the sign of the dividend. |
| Navbar.Countdown.constructor | src/components/Navbar.js:13-20 | `exp - now` with a token, else 0. |
| Navbar.Countdown.Tick | src/components/Navbar.js:48-61 | a tick lowers the count by one. From at most 1 it sets 0, stops and ends the session, and each tick uses one remaining tick. |
| Navbar.Countdown.Reset | src/components/Navbar.js:30-45 | any interaction resets the count to 3600. |
| Navbar.VisibleMenu | src/components/Navbar.js:87-102 | an entry is shown exactly when its roles meet the token's. |
| Navbar.VisibleMenuAppend | src/components/Navbar.js:102 | filtering keeps the menu order. |
| Navbar.AdminSeesWholeMenu | src/components/Navbar.js:91-102 | an `Admin` sees every entry. |
| Navbar.LanguageName | src/components/Navbar.js:105-112 | `tr` and `fr` have their names, and every other code shows `English`. |
| GuestRsvp.ChunkArray | src/components/GuestRsvp.js:26-32 | the loop computes `Chunks`. |
| GuestRsvp.ChunksFlatten | src/components/GuestRsvp.js:26-32 | joining the chunks gives back the array. |
| GuestRsvp.ChunksCount | src/components/GuestRsvp.js:26-32 | no chunks exactly for an empty array. Otherwise the count is the ceiling of length / size. |
| GuestRsvp.ChunkLengths | src/components/GuestRsvp.js:26-32 | every chunk but the last has `size` elements, and the last has 1 to `size`. |
| GuestRsvp.AddGuestError | src/components/GuestRsvp.js:190-192 | with a non-empty message key, its translation, or the server's message when that is `''`. Without one, the translated retry-or-contact text, or its built-in wording when that is `''`; so never empty. |
| GuestRsvp.Page.constructor | src/components/GuestRsvp.js:62-92 | the loaded guest, its plus-ones and `maxGuests` (0 when absent). |
| GuestRsvp.Page.ShowGuestFormEffect | src/components/GuestRsvp.js:123-131 | for an attending guest while RSVP is open, the form is shown exactly when the guest is EMPLOYEE or VIP under the cap. |
| GuestRsvp.Page.Respond | src/components/GuestRsvp.js:133-161 | declining records the answer, shows the decline message, hides the form and empties the plus-ones. Accepting shows the form only under capacity. A failure alerts. |
| GuestRsvp.Page.SubmitGuest | src/components/GuestRsvp.js:168-197 | an added guest grows both lists by one. The handler leaves the form open exactly when the old length + 1 is below the cap, which for an inviter is when the add-guest button (line 605) shows. The effect then runs again on the changed guest and may override this (`GuestRsvp.StaleGuestsCloseForm`). |
| GuestRsvp.StaleGuestsCloseForm | src/components/GuestRsvp.js:123-182 | worked case: after a decline and an accept, a guest with two kept plus-ones and a cap of 3 adds a third. The handler opens the form from the emptied list, and the effect that follows closes it from the guest's own list. |
| Report.CountComplement | src/components/ParticipantsReport.js:59-60 | checked-in and not-checked-in counts add up to the list. |
| Report.TypeCountsPartition | src/components/ParticipantsReport.js:62-67 | the four exact-type counts and the guests of other types add up to the list. |
| Report.Statistics | src/components/ParticipantsReport.js:55-75 | checked-in + not = length. Each other count is at most the length, and so is the sum of the four type counts. |
| Report.ResponseParts | src/components/ParticipantsReport.js:253 | responded and not responded are non-negative and add up to the list. |
| Report.BucketsTotal | src/components/ParticipantsReport.js:177-185 | the 24 buckets together count each checked-in guest with a time exactly once. |
| Report.HourlyData | src/components/ParticipantsReport.js:177-185 | a fresh 24-bucket array whose bucket h counts the checked-in guests in hour h. |
| Report.ReportView.constructor | src/components/ParticipantsReport.js:11 | the report shows the `stats` its parent passes in. |
| Report.ReportView.Recompute | src/components/ParticipantsReport.js:55-56 | statistics are recomputed only when the report is open over a non-empty list. |
| ParticipantList.Toggle | src/components/ParticipantList.js:151-157 | a click selects an unselected row and deselects a selected one. The others are unaffected. |
| ParticipantList.ToggleTwice | src/components/ParticipantList.js:151-157 | two clicks restore which rows are selected. For a row not selected they restore the list exactly, and with no duplicates they restore the same multiset. |
| ParticipantList.ToggleTwiceMovesToEnd | src/components/ParticipantList.js:151-157 | two clicks on a selected row that is not last move it to the end. |
| ParticipantList.ToggleNoDuplicates | src/components/ParticipantList.js:151-157 | a selection without duplicates never gains one. |
| ParticipantList.RemoveIdMultiset | src/components/ParticipantList.js:154 | deselecting removes every copy of the id and nothing else. |
| ParticipantList.BulkDeleteConfirm | src/components/ParticipantList.js:124-127 | the confirmation opens only for a non-empty selection. |
| ParticipantList.ExportFilter | src/components/ParticipantList.js:164-167 | `ALL GUESTS` exports everyone; another choice exports exactly the guests of that type. |
| ParticipantList.OfTypeAppend | src/components/ParticipantList.js:167 | the filter keeps the list order. |
| ParticipantList.ExportMatchesReport | src/components/ParticipantList.js:164-167 | a type's export has as many rows as the report counts for that type. |
| ParticipantList.ExportRows | src/components/ParticipantList.js:169-179 | one row per kept guest, with its names, email, code and type, a plus-one count that is the list's length or 0, `yes`/`no` for attending and checked in, and the local check-in time or `none`. |
| EventSettings.Screen.constructor | src/components/EventSettings.js:18-44 | an empty new-guest form of type REGULAR with no inviter, no edit form, every dialog closed, no selection, no inviters or search term, no alerts, and the default caps REGULAR 0, VIP 5, EMPLOYEE 5, PLUSONE 0. |
| EventSettings.FormRefusal | src/components/EventSettings.js:208-216 | `empty_fields` exactly when a name, the email or the type is empty. `inviter_required` exactly when a PLUSONE has no inviter. Otherwise nothing. |
| EventSettings.Screen.AddGuest | src/components/EventSettings.js:208-217 | a refused form alerts and opens no confirmation. Otherwise the confirmation opens with the plus-one or the ordinary message. |
| EventSettings.Screen.UpdateGuest | src/components/EventSettings.js:300-309 | the same guard; otherwise the update confirmation opens. |
| EventSettings.Screen.Edit | src/components/EventSettings.js:287-298 | the form takes the guest's fields and its inviter only for PLUSONE. An empty plus-one id becomes null. |
| EventSettings.Screen.RowClick | src/components/EventSettings.js:466-470 | the selection toggles as in the participant list. |
| EventSettings.Screen.BulkDelete | src/components/EventSettings.js:432-455 | nothing for an empty selection; otherwise the confirmation opens. |
| EventSettings.InviterOptions | src/components/EventSettings.js:457-464 | one option per inviter, in order, valued by its id and labelled `first last (c/m)`. |
| EventSettings.InviterLabelReadsBack | src/components/EventSettings.js:457-464 | the label reads back as the inviter's name, its plus-one count and the type's cap (0 when unlisted). The cap text parses back to the cap for every cap: digits alone when it is not negative, a minus sign and the digits of its magnitude when it is. |
| EventSettings.UnlistedTypeOpensFullDialog | src/components/EventSettings.js:855 | a type missing from the settings leaves the button enabled, though the dialog's add button is then disabled. |
| EventSettings.Find | src/components/EventSettings.js:144-147 | `find` returns the first guest satisfying the test, or none when none does. |
| EventSettings.PlusOneName | src/components/EventSettings.js:131-165 | `''` for a missing id or `NA`. Otherwise a plus-one with that id is preferred, then any guest with it, then `unknownGuest`, which a failed request also gives. |
| EventSettings.Screen.InviterFetchEffect | src/components/EventSettings.js:168-178 | a search runs exactly while the add or edit form is open on a PLUSONE. Otherwise the inviters and the search term are cleared. |
| EventSettings.Screen.InvitersReceived | src/components/EventSettings.js:115-128 | the list is taken, empty when absent. A failure alerts and empties it. |
| Users.UserForm.constructor | src/components/Users.js:9-18 | an empty username, password and role list, no errors, no user being edited, and the dialog closed. |
| Users.ValidationErrors | src/components/Users.js:37-44 | a username error exactly for an empty username. A password error exactly when creating with an empty password. A roles error exactly for no roles. Nothing else. |
| Users.ValidIffNoErrors | src/components/Users.js:42-43 | the form is valid exactly when the error map is empty. |
| Users.UserForm.Validate | src/components/Users.js:37-44 | the errors built field by field are `ValidationErrors`, and valid means none. |
| Users.ToggleRole | src/components/Users.js:49-54 | checking appends the role. Unchecking removes every copy and leaves the other roles. |
| Users.CheckThenUncheck | src/components/Users.js:49-54 | checking then unchecking a role not held gives back the roles. |
| Users.UserForm.ChangeText | src/components/Users.js:46-59 | the field takes the value and only its error is emptied. |
| Users.UserForm.ChangeRole | src/components/Users.js:46-59 | the roles toggle and only the roles error is emptied. |
| Users.UserForm.Edit | src/components/Users.js:86-94 | the username and roles are copied, the password is blanked, and the dialog opens. |
| Users.EditedUserNeedsNoPassword | src/components/Users.js:40 | editing never requires a password. |
| ParticipantForm.Form.constructor | src/components/ParticipantForm.js:7-15 | empty names and email, type `Regular`, inviter `''`, and no errors. |
| ParticipantForm.EmailPatternIsShape | src/components/ParticipantForm.js:47-49 | `^[^\s@]+@[^\s@]+\.[^\s@]+$` accepts exactly the strings with no whitespace, one `@` that is not first, and a `.` after it that is neither the domain's first nor its last character. |
| ParticipantForm.PatternGivesShape | src/components/ParticipantForm.js:47-49 | a matching email has that shape. |
| ParticipantForm.ShapeGivesPattern | src/components/ParticipantForm.js:47-49 | an email of that shape matches. |
| ParticipantForm.ValidationErrors | src/components/ParticipantForm.js:43-55 | per-field errors for empty names and a non-matching email. A `PlusOne` without an inviter gets `inviterRequired`. Nothing else. |
| ParticipantForm.ValidIffNoErrors | src/components/ParticipantForm.js:53-54 | valid exactly when both names are given, the email has the accepted shape, and a `PlusOne` has an inviter. |
| ParticipantForm.Form.Validate | src/components/ParticipantForm.js:43-55 | the errors built field by field are `ValidationErrors`, and valid means none. |
| ParticipantForm.SetField | src/components/ParticipantForm.js:57-58 | only the changed field takes the value. |
| ParticipantForm.Form.Change | src/components/ParticipantForm.js:57-61 | only the changed field's error is emptied. The others stay. |
| ParticipantForm.Form.LoadEdit | src/components/ParticipantForm.js:17-27 | the participant's values, with the inviter `''` when it has none. |
| PlusOneModal.MaxPlusOnes | src/components/PlusOneModal.js:18-20 | the type's entry when settings, guest and entry exist, else 0. |
| PlusOneModal.NoEntryNoAdd | src/components/PlusOneModal.js:18-21 | with no entry for the type, the add button is disabled whatever the count. |
| PlusOneModal.AddStaysWithinCap | src/components/PlusOneModal.js:21 | the button is enabled exactly below the cap when nothing loads, so an allowed add never passes the cap. |
| PlusOneModal.AddRequest | src/components/PlusOneModal.js:46-51 | any empty field refuses with `empty_fields` before any request. Otherwise the typed data is sent. |
| PlusOneModal.UpdateRequest | src/components/PlusOneModal.js:72-77 | the same three-field guard; the payload is the three fields. |
| PlusOneModal.SameGuard | src/components/PlusOneModal.js:46-77 | adding and updating accept the same data. |
| PlusOneModal.CancelAdd | src/components/PlusOneModal.js:211-214 | cancel hides the form and empties the three fields. |
| PlusOneModal.CancelThenAddRefused | src/components/PlusOneModal.js:211-214 | after a cancel, submitting would be refused. |

## Left out

- Every request to the backend, `localStorage` and `jwtDecode` are left out.
  Replies, decoded claims and the stored token are inputs or fields. Requests
  are recorded as values.
- Camera capture and decoding are left out, and so is the canvas overlay. A
  decode result is an input event.
- Every handler is one atomic step: its state updates take effect at once,
  and a request and its reply happen together. React's deferred re-render is
  not modelled, so neither is the check-in scanner's callback comparing
  against the key of the previous render until it is re-subscribed
  (`src/components/CheckIn.js:184`). Neither are overlapping requests whose
  replies arrive out of order. The one exception is the import retry, whose
  reply is applied to the state read when the request was made.
- Audio playback is left out. A sound is an event appended to a list.
- `setInterval` and `setTimeout` are left out: a tick is a method call. The
  `showAlertOnce` debounce is also left out, and alerts are appended
  unconditionally.
- `toLocaleString`, `getHours` and the time zone are left out. A check-in's
  hour is an input, and the exported time is a `localTime` parameter.
- The report's percentages, floating-point formatting, charts and PDF page
  arithmetic are left out. So are the XLSX writing, ticket and PDF generation,
  and all JSX and CSS.
- BulkImport.Merge: the cells of an import row are strings. A number or a
  boolean cell, which `(value || '').toString()` turns into `''` when it is
  `0` or `false` (`src/components/AdminSettings.js:489-493`), is not
  modelled; the same holds for `BulkImport.RetryRowForFields`.
- Unicode case folding is left out. `toLowerCase` is modelled on ASCII letters
  only, and there is no diacritic folding.
- JavaScript object key order is not modelled. A row's data is an ordered list
  of cells, and integer-like keys are not sorted first.
- `Promise.all` bulk deletion and the requests after a confirmation are left
  out: add, update, delete and export calls are I/O.
- Navbar.Countdown.constructor: a token whose decoding fails or whose `exp` is
  missing is not modelled; the claims' `exp` is an input.
- CheckIn.Classify: an `alreadyCheckedIn` field that is absent is treated as
  false.
- EventSettings.Cap: a settings value that is not a number, for which
  `|| 0` would matter, is not modelled; caps are integers.
- EventSettings.PlusOneName: the contract says which kind of match the name
  comes from. The first-match order inside each kind is stated by
  `EventSettings.Find`, not repeated.
- GuestRsvp.AddGuestError: a server message that is absent when the key
  translates to `''` is modelled as `''`; the page would show `undefined`.
- GuestRsvp.Page.Respond requires a loaded guest. The page renders nothing
  that can answer before one is loaded.
- EventSettings.Screen.UpdateGuest requires an edit form that holds a guest.
  The form is shown only then.
- The export in `src/components/EventSettings.js` (with its responded column)
  is left out. It is the same mapping as the participant list's export over
  the backend's full list.
- The effect that loads the plus-one name into the edit form
  (`src/components/EventSettings.js:187-194`) is left out. It is only a call of
  `EventSettings.PlusOneName` under the same guard.
- Paging, searching, RSVP-link opening and the plus-one dialog's list loading
  and deleting are left out. Each is a backend request whose reply is shown
  unchanged.
