# Eco-Life core in Dafny

Eco-Life is a browser application that keeps one user record in local storage:
- the user's identity;
- a points balance;
- four collections: eco actions, challenges, achievements and friends.

This project models the code that creates, saves, imports, exports and clears that record. It also models the operations that change the record and the form checks that guard them. It then proves what those operations promise.

The model has seven modules:

- `Wrappers` (wrappers.dfy): the `Option` type.
- `Records` (records.dfy): the stored record and its entities.
  - The `Challenge` and `Achievement` constructors with their defaults.
  - The balance read `(points || 0)`.
- `Strings` (strings.dfy): the JavaScript string semantics the checks depend on.
  - `trim`, with ECMAScript's whitespace and line-terminator set, which is also the set `\s` matches.
  - `length` counted in UTF-16 code units.
- `UserData` (userdata.dfy): the storage slot `Store` and the class `User`.
  - Creating a user, saving it, importing a parsed file, exporting, and logging out.
  - The file name and the import/export round trip.
- `DataTypes` (datatypes.dfy): the static operations of `EcoAction` and `Challenge`, as module-level methods that take the `Store`.
  - Adding and deleting an action, the clamped point update, and the challenge status update.
  - Each is specified by a function on records, with lemmas about those functions.
- `FieldNames` (fieldnames.dfy): the field names each file uses for the collections container. This module backs the finding below.
- `FormValidation` (formvalidation.dfy): grouping a form's controls by type, the per-type rules, `validate` as an error list, and the subscription box.
  - The two regular expressions are string predicates, each proved equal to a direct reading of its pattern.

Modelling decisions:

- **Storage.** Local storage under the key `"user"` is one slot: empty, or one record.
  - `User.getUser` and `User.setUser` are not defined in the source files. They are read as reading and overwriting that slot.
  - JSON serialisation is the identity on the record datatypes.
  - A file whose text is not JSON is the `None` payload.
- **Field names.** js/userData.js writes the collections under `data` and the balance under `ecopoints`. js/dataTypes.js uses `ecoData` and `ecoPoints`.
  - The main model gives the record one container and one balance.
  - The as-written behaviour is kept apart in `FieldNames`; see Findings.
- **Inputs passed as parameters.** Timestamps (`now`, `today`) are opaque strings. The answer to the logout confirmation is a boolean.
- **Behaviour of the code that a reader might not expect:**
  - A user is refused only when the email or name is the empty string. A whitespace-only value is accepted.
  - A challenge moved from `"Completed"` to another status loses its date but keeps the points. Completing it again awards the reward a second time (`ReopenAwardsAgain`).
  - A challenge whose stored date is the empty string counts as undated, as `!challenge.dateCompleted` does. Completing it dates it and awards the reward (`EmptyDateCompletionAwards`). An imported file can carry such a date, because `importUser` stores its `data` verbatim.
  - The status update adds the reward without clamping. The balance is guaranteed non-negative only when the reward is non-negative.
  - An import keeps the file's `ecopoints` as it is, negative or not. A non-negative balance is guaranteed after add and delete, and after a status update only for a record whose balance was already non-negative (`PointsStayNonNegative`).

## Model

| member | source | states |
|---|---|---|
| Records.PointsOr0 | js/dataTypes.js:30 | an absent balance reads as 0 and a present one as itself |
| Records.NewChallenge | js/dataTypes.js:121-131 | the status defaults to "Not Started"; a missing or empty (falsy) completion date is stored as null, any other is kept |
| Records.NewChallengeDefaults | js/dataTypes.js:121 | a challenge made with the defaults is not started, undated, and so dated exactly when completed |
| Records.Undated | js/dataTypes.js:154 | a challenge has no completion date when the stored date is null or the empty string, both falsy |
| Records.NewAchievement | js/dataTypes.js:179-183 | an achievement is completed only when the caller passes `true` |
| Strings.IsWhitespace | js/formValidation.js:64 | the characters `trim` removes and `\s` matches: ECMAScript's WhiteSpace and LineTerminator code points |
| Strings.AllWhitespaceAt | js/formValidation.js:64 | a string is blank exactly when each of its characters is whitespace |
| Strings.TrimStartCut | js/dataTypes.js:49-54 | the leading cut leaves only whitespace before it and a non-whitespace character, or the end, at it |
| Strings.TrimEndCut | js/dataTypes.js:49-54 | the trailing cut leaves only whitespace after it and a non-whitespace character, or the start, before it |
| Strings.Trim | js/dataTypes.js:49-54 | the trimmed value is no longer than the input and neither starts nor ends with whitespace |
| Strings.TrimIsInnerSlice | js/formValidation.js:218 | the trimmed value is one contiguous slice of the input with only whitespace before and after it |
| Strings.TrimIdempotent | js/formValidation.js:64 | trimming twice changes nothing more |
| Strings.TrimAllWhitespace | js/formValidation.js:64 | a value trims to the empty string exactly when it is all whitespace |
| Strings.Utf16Length | js/formValidation.js:64 | the JavaScript length lies between the character count and twice it, and equals the count exactly when no character lies outside the Basic Multilingual Plane |
| Strings.Utf16AtLeastTwo | js/formValidation.js:64 | a string's length is at least 2 exactly when it has two characters or a single astral one |
| UserData.Store.GetUser | js/dataTypes.js:27 | reading returns the stored slot |
| UserData.Store.SetUser | js/dataTypes.js:38 | saving replaces the slot with the record, with no merge |
| UserData.Store.RemoveUser | js/userData.js:159 | removal leaves the slot empty |
| UserData.WellFormed | js/userData.js:128 | a file passes the import guard exactly when its email and name are present and non-empty and its `data` is present |
| UserData.ImportedRecord | js/userData.js:128-139 | a payload is accepted exactly when email and name are present and non-empty and data is present (an empty `data` object is accepted); an accepted payload gives a record with both identity fields set |
| UserData.ExportFileName | js/userData.js:89 | the file name is "Eco-Life_", then the email unchanged, then "_data.json" |
| UserData.ReadBack | js/userData.js:80-83 | an exported file carries no top-level field beyond the record's five |
| UserData.ExportImportRoundTrip | js/userData.js:128-142 | importing the export of a stored identified record restores exactly that record |
| UserData.ImportExportKeepsKnownFields | js/userData.js:65-71 | importing a file and exporting the result gives back the file's five known fields and drops every other one |
| UserData.User.constructor | js/userData.js:44-58 | a new user has the given email and name, today's date, zero points and four empty collections, and is saved at once |
| UserData.User.Snapshot | js/userData.js:65-71 | the object `saveToLocalStorage` serialises: the user's five fields and no others |
| UserData.User.SaveToLocalStorage | js/userData.js:64-73 | the slot becomes exactly the user's five fields |
| UserData.User.CreateUser | js/userData.js:40-59 | an empty email or name fails with nothing written; otherwise the slot holds the new user's record |
| UserData.User.ImportUser | js/userData.js:118-149 | unreadable and badly formed files fail and leave the slot untouched; an accepted file replaces the slot with its own five fields, points not recomputed |
| UserData.User.ExportUser | js/userData.js:78-97 | with a stored record the export carries it and names the file after its email; with none it fails |
| UserData.User.Logout | js/userData.js:155-167 | a confirmed logout empties the slot; a declined one changes nothing |
| DataTypes.ClampedPoints | js/dataTypes.js:30-35 | the new balance is old + 5·change when that is non-negative, and 0 otherwise |
| DataTypes.WithPoints | js/dataTypes.js:26-41 | the point update changes only the balance and leaves it non-negative |
| DataTypes.ActionsOf | js/dataTypes.js:67 | the action list as `add` reads it: the stored list, or the empty list when there is none |
| DataTypes.AddedRecord | js/dataTypes.js:56-74 | the record after `add`: the new action appended to the list (created when missing), then five points added, clamped at zero; AddAppendsOne states its contents |
| DataTypes.SpliceStart | js/dataTypes.js:98 | the splice position is the index when in range, the length when past the end, and counts from the end (floored at 0) when negative |
| DataTypes.Splice1 | js/dataTypes.js:98 | `splice(index, 1)`: the entry at the splice start removed when there is one, the list otherwise kept; DeleteRemovesOne and DeletePastEndKeepsList state its contents |
| DataTypes.DeletedRecord | js/dataTypes.js:92-104 | the record after `delete` on an existing list: the splice applied, then five points taken off, clamped |
| DataTypes.UpdateEcoPoints | js/dataTypes.js:26-41 | the stored record gets the clamped balance and nothing else changes |
| DataTypes.Add | js/dataTypes.js:47-83 | with no user the slot is unchanged; otherwise it holds the record with the trimmed action appended and five points added, clamped at zero |
| DataTypes.Delete | js/dataTypes.js:89-110 | with no user or no action list the slot is unchanged; otherwise it holds the record with the splice applied and five points taken off, clamped |
| DataTypes.AddAppendsOne | js/dataTypes.js:56-74 | adding appends exactly the new action (creating the list if missing), keeps earlier actions and every other field, and adds five points, clamped at zero |
| DataTypes.DeleteRemovesOne | js/dataTypes.js:98-104 | deleting at an in-range index removes exactly that entry, keeps the rest in order, and takes five points off, clamped |
| DataTypes.DeletePastEndKeepsList | js/dataTypes.js:98-104 | deleting past the end keeps the list yet still takes five points off, clamped at zero |
| DataTypes.AddThenDeleteRestores | js/dataTypes.js:47-110 | with a present non-negative balance and an existing action list, adding an action and deleting it at its new index restores the record |
| DataTypes.ClampIsLossy | js/dataTypes.js:30-35 | below five points, a delete and a re-add do not restore the balance |
| DataTypes.Awards | js/dataTypes.js:154-158 | the reward is awarded exactly when the new status is "Completed" and the challenge has a null or empty date |
| DataTypes.UpdatedChallenge | js/dataTypes.js:152-161 | the challenge keeps its name and reward and takes the new status; it gets the current date when the reward is awarded, loses its date when not completed, and otherwise keeps it |
| DataTypes.StatusUpdatedRecord | js/dataTypes.js:149-164 | the updated record still holds the challenge at that index, in a list of the same length, with the new status |
| DataTypes.UpdateStatus | js/dataTypes.js:140-169 | with no user or no challenge list nothing changes; an index outside the list throws before the save; otherwise the slot holds the updated record |
| DataTypes.UpdatedChallengeDatedIffCompleted | js/dataTypes.js:152-161 | with a non-empty current date, after an update the challenge has the new status and is dated exactly when completed |
| DataTypes.StatusUpdateFrame | js/dataTypes.js:149-164 | the update touches only the chosen challenge and the balance; the balance grows by the reward exactly when a challenge with a null or empty date is completed |
| DataTypes.EmptyDateCompletionAwards | js/dataTypes.js:154-158 | completing a challenge stored with an empty date dates it and awards its reward |
| DataTypes.CompleteTwiceAwardsOnce | js/dataTypes.js:154-158 | completing a challenge a second time changes nothing, so its reward is awarded once |
| DataTypes.ReopenAwardsAgain | js/dataTypes.js:152-161 | reopening a completed challenge keeps the points, and completing it again awards the reward a second time |
| DataTypes.PointsStayNonNegative | js/dataTypes.js:30-35 | add and delete always leave a non-negative balance; a status update keeps it non-negative when the reward is non-negative |
| FieldNames.AddEnding | js/dataTypes.js:67 | `add` reaches its save exactly when the container key is present, and throws otherwise |
| FieldNames.DeleteEnding | js/dataTypes.js:92-98 | `delete` throws exactly when the container key is missing and saves exactly when the key and the list are there |
| FieldNames.UpdateStatusEnding | js/dataTypes.js:144-152 | `updateStatus` returns exactly when the container or the list is missing, and saves exactly when the index is also in range |
| FieldNames.AsWrittenOperationsNeverSave | js/dataTypes.js:30-158 | under the names dataTypes.js uses, on a record userData.js saved, add and delete always throw, updateStatus always returns, and the balance key is absent |
| FieldNames.CorrectedOperationsSave | js/userData.js:65-71 | under the names the record is saved with, each operation reaches its save whenever its data is there |
| FormValidation.KindOf | js/formValidation.js:29 | a type without a rule keeps its name |
| FormValidation.KindOfTypeName | js/formValidation.js:29 | reading a type name as a kind and back loses nothing; every kind read from a type name is canonical, that is, `Other` never carries a type that has a rule |
| FormValidation.MessageText | js/formValidation.js:57-120 | the text of each of the six messages `validate` shows |
| FormValidation.EmailPattern | js/formValidation.js:55 | the regular expression read directly: a non-empty run without whitespace or '@', an '@', another such run, a '.', and a last such run |
| FormValidation.IsEmail | js/formValidation.js:55 | the email pattern as a string predicate; EmailRuleMatchesPattern relates it to the pattern |
| FormValidation.IsTelephone | js/formValidation.js:88 | the telephone pattern as a string predicate; TelephoneRuleMatchesPattern relates it to the pattern |
| FormValidation.Passes | js/formValidation.js:53-122 | whether a control passes its kind's rule: the email and telephone patterns, two characters after trimming for text and textarea, a non-empty value for date, at least one file for file, a value other than "default" for select, and always for the other kinds |
| FormValidation.EmailRuleSound | js/formValidation.js:55 | every value the checked email rule accepts matches the pattern |
| FormValidation.EmailRuleComplete | js/formValidation.js:55 | every value matching the pattern passes the checked email rule |
| FormValidation.EmailRuleMatchesPattern | js/formValidation.js:55 | the email rule accepts exactly a non-empty local part, one '@', and a domain with a '.' that has a character on each side, no part holding whitespace or '@' |
| FormValidation.TelephoneRuleMatchesPattern | js/formValidation.js:88 | a telephone value passes exactly when it is 7 to 15 digits, optionally after a single '+', and nothing else |
| FormValidation.LongEnough | js/formValidation.js:64-76 | the text and textarea rule: at least two UTF-16 code units once trimmed |
| FormValidation.ErrorMessage | js/formValidation.js:57-120 | the message of each checked type: email, text and textarea, telephone, date, file, and select each have their own |
| FormValidation.TextRuleInCharacters | js/formValidation.js:64-83 | text and textarea pass exactly when the trimmed value has two characters or one astral character; a blank value never passes |
| FormValidation.GroupErrors | js/formValidation.js:54-59 | one group yields one message per failing control |
| FormValidation.GroupErrorsSpec | js/formValidation.js:54-59 | a group shows no message exactly when all its controls pass; each message is about a failing control; every failing control gets one |
| FormValidation.GroupErrorsAbout | js/formValidation.js:54-59 | every message of a group names one of its controls that fails the rule, with the group's message |
| FormValidation.GroupErrorsCover | js/formValidation.js:54-59 | every control of a group that fails the rule gets the group's message |
| FormValidation.OfType | js/formValidation.js:27-33 | the group of one type: the form's controls of that type as they were pushed, in document order |
| FormValidation.Lookup | js/formValidation.js:53 | the group `validate` reads for a type: its group, or the empty list when no control has it |
| FormValidation.OfTypeMembers | js/formValidation.js:27-33 | the group of a type holds exactly the form's controls of that type |
| FormValidation.LookupIsOfType | js/formValidation.js:53 | looking a type up, with an empty list for a type not present, gives that type's controls in document order |
| FormValidation.GroupingKeepsCount | js/formValidation.js:26-33 | grouping loses and duplicates no control: the group sizes add up to the number of controls |
| FormValidation.ValidationErrors | js/formValidation.js:52-122 | the messages `validate` shows: those of the email, text, textarea, telephone, date, file and select groups, in that order |
| FormValidation.Checked | js/formValidation.js:53-116 | the seven types `validate` looks up: email, text, textarea, tel, date, file and select-one; every other type is never checked |
| FormValidation.KindErrors | js/formValidation.js:53-59 | one type's block of `validate`: the messages of that type's group, or none when the type has no group |
| FormValidation.KindErrorsEmptyIffPass | js/formValidation.js:53-59 | one type shows no message exactly when each of its controls passes |
| FormValidation.NoErrorsIffAllPass | js/formValidation.js:46-124 | the form shows no message exactly when every control of a checked type passes; controls of other types are never looked at |
| FormValidation.KindErrorsExact | js/formValidation.js:53-122 | each type's messages are about its failing controls with its message, one per failing control |
| FormValidation.KindErrorsAbout | js/formValidation.js:53-122 | each message of a type is about a control of that type that fails its rule, with that type's message |
| FormValidation.KindErrorsCover | js/formValidation.js:53-122 | every control of a type that fails its rule gets that type's message |
| FormValidation.ErrorCountIsFailureCount | js/formValidation.js:46-124 | `validate` shows exactly as many messages as there are failing controls |
| FormValidation.ErrorsAreAboutFailures | js/formValidation.js:46-124 | every message shown is about a failing control of the form and is that control's type's message |
| FormValidation.FailuresGetErrors | js/formValidation.js:46-124 | every failing control gets its type's message |
| FormValidation.Form.constructor | js/formValidation.js:24-33 | the form remembers its controls, its groups are exactly those controls by type in document order (`Valid`), and no message is shown |
| FormValidation.Form.ClearErrors | js/formValidation.js:142-145 | all shown messages are removed and the groups are unchanged |
| FormValidation.Form.DisplayError | js/formValidation.js:132-137 | exactly one message is added after the existing ones |
| FormValidation.Form.CheckGroup | js/formValidation.js:53-59 | one pass over a type appends that type's messages, and reports success exactly when it appended none |
| FormValidation.Form.Validate | js/formValidation.js:46-125 | earlier messages are gone, the shown messages are exactly those of all checked types in order, and the result is true exactly when none is shown, that is, exactly when every control of a checked type passes its rule |
| FormValidation.SubscriptionForm.HandleSubscription | js/formValidation.js:215-244 | the trimmed address subscribes exactly when it matches the email pattern; success empties the box, failure keeps it and shows "Please enter a valid email address." followed by four spaces (`SubscriptionErrorText`, the email message of `validate` padded) |

## Findings

| source | as written | input that shows it | evidently intended | confidence | as-written member | corrected member |
|---|---|---|---|---|---|---|
| js/dataTypes.js:67 | `add`, `delete` and `updateStatus` look the collections up under `ecoData` and the balance under `ecoPoints`, while the record is saved with `data` and `ecopoints` (js/userData.js:65-71), and js/uiManager.js reads those names too | any record saved by `createUser` or `importUser`: `updateStatus`, which reads storage directly at line 142, returns at line 144; and, taking the undefined `User.getUser` to return the parsed slot (as Modelling decisions says), `add` throws a TypeError at line 67 and `delete` at line 92. As written, the calls to `User.getUser` at lines 56 and 90 would throw first | one container and one balance under the names the record is saved with | not executed (high: the names differ in the text) | FieldNames.AsWrittenOperationsNeverSave | FieldNames.CorrectedOperationsSave |

The rest of the model uses the corrected reading: `DataTypes.Add`, `DataTypes.Delete` and `DataTypes.UpdateStatus` work on the single `data` container and `points` balance of `Records.UserRecord`.

## Left out

- Rendering, events and the DOM: js/uiManager.js, and the error nodes, which are modelled as a list of (control, message) pairs.
- `handleButtonClick`: it routes a submit to the operations modelled here once `validate` passes.
- `resetForm`: it clears every input of the form (unchecks checkboxes and radios, empties other values). Controls are immutable values here, so nothing is cleared.
- js/formUtils.js is not part of this model. It calls the `User` constructor with positional arguments and an `importData` function that does not exist.
- `alert`, `console.log` and `console.error`. The answer to `confirm` becomes a boolean parameter.
- The Blob and anchor download in `exportUser`. The export is the file name plus the record.
- The asynchronous `file.text()` in `importUser`. A failed read rejects before any write; the model folds it into the `None` payload. A missing file is not modelled.
- UserData.Store.SetUser: never fails, while `localStorage.setItem` can throw when the storage quota is exceeded. An `importUser` whose second save throws leaves the constructor's fresh empty user in the slot rather than the previous record; the model does not capture that.
- `JSON.parse` and `JSON.stringify`, which are the identity on the datatypes.
  - JSON text that is not an object, and fields of the wrong JSON type (a numeric email, say), are not modelled.
  - Only a parse failure (`None`) and missing fields are.
  - Unknown top-level fields are kept as opaque text.
- `new Date()` and `toLocaleDateString`: dates are opaque strings passed in.
  - `new Date(x)` normalises dates in the `EcoAction` and `Challenge` constructors. That normalisation is not modelled, and the `EcoAction` constructor is the datatype constructor.
- The JavaScript regular-expression engine: the two patterns are string predicates.
- Unpaired surrogates: a JavaScript string may hold a lone UTF-16 surrogate, while a Dafny `string` holds only Unicode scalar values. `trim`, `length` and both regular expressions are modelled for well-formed strings only.
- `NaN` and non-numeric balances or rewards: the balance is an unbounded integer and `(points || 0)` treats only a missing value as 0.
- Achievement completion with an award, and a seeded challenge catalog: neither appears in the source.
- DataTypes.UpdateEcoPoints: requires a stored user. Both callers have just saved one; without one the source throws a TypeError at js/dataTypes.js:30.
- FormValidation.Form.Validate: each control's value and file count are taken as they were when the Form was built. The source keeps references to the elements and reads `.value` and `.files.length` when `validate` runs, after the user has typed; the model stands for a form whose controls do not change between construction and `validate`.
- FormValidation.Form.constructor: the click listener on the submit button is not modelled. Neither are `select-multiple` or other element types beyond their `type` string.
- FormValidation.Form.ClearErrors: removes only the messages this form shows. The source removes every `.error-message` node inside the form element.
