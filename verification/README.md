# Altedy bot core in Dafny

Altedy is a Telegram bot for classrooms. Teachers register, create groups and hand out
tasks; students register and join groups. This project models the core of the bot:

- the two input validators, the conversation states and the id digest (`common/helper.py`);
- the MongoDB wrapper with its user, classroom and deadline collections (`database/database.py`);
- the teacher's task draft (`infrastructure/task.py`);
- the per-chat conversation handler (`infrastructure/message_handler.py`).

Modules and files:

- `wrappers.dfy` (`Wrappers`) holds `Option` and `Result`.
- `strings.dfy` (`Strings`) holds the Python string operations the bot relies on:
  - `str.split` with one separator and `sep.join`;
  - `str(int)` inside f-strings;
  - first and last index of a character.
- `helper.dfy` (`Helper`) holds `UserStatus`, the e-mail and full-name patterns and `get_md5`.
  - Each pattern is written twice: once as the regular expression read literally, as a grammar with choices, and once as a direct check.
  - The lemmas `EmailIff` and `FullNameIff` prove that the two agree on every string.
  - The quirks of the e-mail pattern are kept:
    - `[.-_]` is the character range from `.` to `_`, which includes `@` but not `-`;
    - `[A-Z|a-z]` also admits `|`.
- `store.dfy` (`Store`) holds one collection as a sequence of records in natural order.
  - Every write is given twice:
    - as a function from the old records to the new ones, or to the error raised;
    - as a method of the class `Database` that performs it in place.
  - Lemmas state what each write changes and what it leaves alone.
- `user_database.dfy`, `classroom_database.dfy` and `deadline_database.dfy` (`UserDb`, `ClassroomDb`, `DeadlineDb`) hold the three specialised collections.
  - `ClassroomDb.SubmitTask` keeps the source's index loop with `break`.
- `task.dfy` (`Tasks`) holds the class `Task`, the draft that `prepare` pushes into a classroom's `tasks`.
- `routing.dfy` (`Routing`) holds how aiogram picks a handler:
  - handlers are tried in registration order;
  - a handler registered without `state=` fires only while the chat has no state;
  - `UserStatus.all_states` does not include "no state";
  - the `commands=` filter compares the command case-insensitively and accepts an `@botname` mention.
- `message_handler.dfy` (`MessageHandler`) holds the class `Handler`, one chat's conversation.
  - It has fields for:
    - the FSM state and FSM data;
    - `last_msg_id`, `_cached_msgs` and `_user_type`;
    - an append-only log of what the bot sent, edited, deleted and answered.
  - Each handler is a method whose contract gives the complete new session and the new database records.
  - `Handle` dispatches one update as aiogram would.

## Model

| member | source | states |
|---|---|---|
| `Helper.Position` | common/helper.py:26-42 | `all_states` lists every one of the nine states exactly once |
| `Helper.LocalPartIff` | common/helper.py:50 | `([A-Za-z0-9]+[.-_])*[A-Za-z0-9]+` matches exactly the words that are alphanumeric at both ends and hold separators only between two alphanumerics |
| `Helper.LocalPartChecked` | common/helper.py:50 | every local part the grammar derives passes the direct check (induction on the grammar) |
| `Helper.CheckedLocalPart` | common/helper.py:50 | every word passing the direct check is derived by the grammar, split at its first separator |
| `Helper.TldGroupsIff` | common/helper.py:50 | `(\.[A-Z\|a-z]{2,})+` matches exactly the words that start with '.' and have two letters or '\|' after every '.' |
| `Helper.TldGroupsChecked` | common/helper.py:50 | every run of dot groups the grammar derives passes the direct check |
| `Helper.CheckedTldGroups` | common/helper.py:50 | every word passing the direct check splits into dot groups the grammar derives |
| `Helper.EmailTailHasNoAt` | common/helper.py:50 | neither the domain label nor the dot groups contain '@', and the label contains no '.', so the address splits at its last '@' |
| `Helper.EmailSplit` | common/helper.py:50 | an accepted address splits into local part, '@', domain label and dot groups, at the indices the direct checker `IsEmail` finds |
| `Helper.EmailPatternChecked` | common/helper.py:50 | every string `re.fullmatch` accepts with the e-mail pattern passes the direct checker `IsEmail` |
| `Helper.EmailCheckedPattern` | common/helper.py:50 | every string passing the direct checker `IsEmail` is matched by the e-mail pattern |
| `Helper.EmailIff` | common/helper.py:50 | the e-mail check accepts exactly what `re.fullmatch(VerifyString.EMAIL.value, w)` accepts |
| `Helper.SecondAtAccepted` | common/helper.py:50 | "a@b@c.com" is accepted, because `[.-_]` contains '@' |
| `Helper.HyphenInLocalPartRejected` | common/helper.py:50 | "john-doe@x.com" is rejected, because '-' lies outside `[.-_]` |
| `Helper.NoAtRejected` | common/helper.py:50 | a string without '@' is rejected |
| `Helper.TldGroupsEnd` | common/helper.py:50 | dot groups end in two letters or '\|' |
| `Helper.EmailEndsInTwoTldChars` | common/helper.py:50 | every accepted address ends in two letters or '\|' |
| `Helper.ShortLastGroupRejected` | common/helper.py:50 | "a@b.c" and "a@b." are rejected |
| `Helper.FullNameParsed` | common/helper.py:51 | every string passing the full-name check is matched by `VerifyString.FULL_NAME` |
| `Helper.FullNameIff` | common/helper.py:51 | `re.fullmatch(VerifyString.FULL_NAME.value, w)` succeeds exactly when `w` splits on single spaces into one to three tokens of 2 to 25 characters, and only the first token holds '-' |
| `Helper.HyphenInFirstTokenAccepted` | common/helper.py:51 | "Jean-Luc Picard" is accepted |
| `Helper.HyphenInLaterTokenRejected` | common/helper.py:51 | "Anna Smith-Jones" is rejected |
| `Helper.DoubleSpaceRejected` | common/helper.py:51 | "Ivan  Ivanov" is rejected |
| `Helper.GetMd5` | common/helper.py:54-61 | the digest is a function of `str(value)`, 32 lower-case hex digits, hence with no ':' and no '-' |
| `Strings.Split` | infrastructure/message_handler.py:340 | `str.split(':')` yields at least one part, no part contains the separator, and joining the parts gives the string back |
| `Strings.SplitOfJoin` | infrastructure/message_handler.py:322 | splitting a join of parts without separators gives the parts back |
| `Strings.IntToString` | infrastructure/message_handler.py:225 | `str(i)` is non-empty, starts with '-' exactly for negative `i`, and is digits otherwise |
| `Strings.IntToStringInjective` | infrastructure/message_handler.py:225 | distinct integers render differently |
| `Strings.IntDashPrefixInjective` | infrastructure/message_handler.py:225 | `f"{a}-{s}"` determines both `a` and `s` |
| `MessageHandler.ClassroomHashInputInjective` | infrastructure/message_handler.py:225 | the hashed texts of two (teacher, name) pairs are equal exactly when the pairs are, so one teacher and name always give the same classroom id |
| `MessageHandler.TaskHashInputCreator` | infrastructure/message_handler.py:385 | the creator can be recovered from the text hashed into a task id |
| `MessageHandler.DraftDescription` | infrastructure/message_handler.py:384-398 | a stored task always has a description: a non-empty text becomes it, and anything other than the default is the message's own text |
| `MessageHandler.DraftFiles` | infrastructure/message_handler.py:389-401 | a photo or document gives exactly one file entry, holding that file's bytes under the last component of its path and nothing else; a text gives none |
| `MessageHandler.GroupButtons` | infrastructure/message_handler.py:320-322 | the keyboard has one button per group, in order, or fails exactly when some group's button fails |
| `MessageHandler.GroupButtonsFirstFailure` | infrastructure/message_handler.py:320-322 | the keyboard's error is that of the first group that fails |
| `MessageHandler.ButtonDataSplit` | infrastructure/message_handler.py:322-340 | `f"{name}:{id}"` splits on ':' into exactly two parts iff the name has no ':', and the parts are then the name and the id |
| `MessageHandler.GroupButtonRoundTrip` | infrastructure/message_handler.py:225-340 | a created classroom yields a button whose data splits back into its name and id, unless the name holds ':' |
| `MessageHandler.Handler.constructor` | infrastructure/message_handler.py:34-41 | a new handler has no state, no FSM data, no last message, an empty cache and no user type |
| `MessageHandler.Handler.CleanChat` | infrastructure/message_handler.py:43-52 | every cached message is deleted, in order, and the cache is emptied; nothing else changes |
| `MessageHandler.Handler.Start` | infrastructure/message_handler.py:56-65 | the greeting is sent and becomes the last message |
| `MessageHandler.Handler.ChatHelp` | infrastructure/message_handler.py:67-72 | the guide is sent and nothing else changes |
| `MessageHandler.Handler.EmailHandler` | infrastructure/message_handler.py:86-112 | a valid address is stored with `$set`, the chat cleaned, the name requested and `WAIT_FULL_NAME` entered; an invalid one adds an apology to the cache and changes neither state nor store |
| `MessageHandler.Handler.AcceptEmail` | infrastructure/message_handler.py:98-107 | the accepting branch: store, clean, cache only the name request, `WAIT_FULL_NAME` |
| `MessageHandler.Handler.NameHandler` | infrastructure/message_handler.py:114-144 | a valid name is stored and the chat cleaned; a student reaches `MAIN_MENU` and anyone else `WAIT_CLASSROOM_NAME`; an invalid name changes neither state nor store |
| `MessageHandler.Handler.StoreName` | infrastructure/message_handler.py:124-127 | the message is cached and `full_name` is set on the user's record |
| `MessageHandler.Handler.NextAfterName` | infrastructure/message_handler.py:130-138 | on a clean chat a student gets the ready message and `MAIN_MENU`, anyone else the classroom-name request and `WAIT_CLASSROOM_NAME` |
| `MessageHandler.Handler.RegBeginRegistration` | infrastructure/message_handler.py:146-156 | the user's record is replaced by the raw record; the greeting is edited into the mode question and the query answered |
| `MessageHandler.Handler.RegSignIn` | infrastructure/message_handler.py:158-177 | the greeting is deleted with the cache; a known user with a type reaches `MAIN_MENU`; an unknown user gets the register keyboard as the last message; a record without a type raises |
| `MessageHandler.Handler.GreetKnownUser` | infrastructure/message_handler.py:167-177 | the lookup after the clean-up, with the same three outcomes |
| `MessageHandler.Handler.RegAskEmailPermission` | infrastructure/message_handler.py:179-192 | the chosen type is stored and remembered, and the last message is edited into the e-mail question |
| `MessageHandler.Handler.RegAskEmail` | infrastructure/message_handler.py:194-206 | the last message and the e-mail request are cached, and `WAIT_EMAIL` is entered |
| `MessageHandler.Handler.ClassroomNameHandler` | infrastructure/message_handler.py:213-240 | the classroom `md5("{chat}-{name}")` is uploaded with this teacher and name, and its id is pushed to `managed_classrooms`; the two notes and `MAIN_MENU` follow, unless the push raises |
| `MessageHandler.Handler.CreateClassroom` | infrastructure/message_handler.py:222-230 | the message is cached, then the two writes, and the push's error is returned |
| `MessageHandler.Handler.AnnounceClassroom` | infrastructure/message_handler.py:231-240 | a write error is raised with nothing sent; otherwise both notes are cached and `MAIN_MENU` is entered |
| `MessageHandler.Handler.AskClassroomName` | infrastructure/message_handler.py:242-259 | the request is cached, `WAIT_CLASSROOM_NAME` is entered, and a callback query is answered |
| `MessageHandler.Handler.StudentAddGroupHandler` | infrastructure/message_handler.py:265-272 | the chat is cleaned, the group-id request cached, and `STUDENT_ADD_GROUP` entered |
| `MessageHandler.Handler.ClassroomIdHandler` | infrastructure/message_handler.py:274-283 | when no group has that id, nothing changes; otherwise the student is appended, the chat cleaned and `MAIN_MENU` entered, or a missing name raises |
| `MessageHandler.Handler.JoinGroup` | infrastructure/message_handler.py:277-283 | the chat is cleaned; the group's name is announced and `MAIN_MENU` entered, or a missing name raises |
| `MessageHandler.Handler.TeacherCreateGroup` | infrastructure/message_handler.py:303-308 | the button message is deleted with the cache, the classroom name requested and `WAIT_CLASSROOM_NAME` entered |
| `MessageHandler.Handler.TeacherManagedGroups` | infrastructure/message_handler.py:310-328 | after the clean-up the menu of managed groups becomes the last message and `TEACHER_VIEW_GROUPS` is entered, or the lookup's error is raised with nothing sent |
| `MessageHandler.Handler.ShowGroups` | infrastructure/message_handler.py:324-328 | a failed keyboard is raised; a built one is sent and `TEACHER_VIEW_GROUPS` is entered |
| `MessageHandler.Handler.ReadKeyboard` | infrastructure/message_handler.py:316-322 | the two loops compute the keyboard of the user's `managed_classrooms`, or the error reading them raises |
| `MessageHandler.Handler.LookUpGroups` | infrastructure/message_handler.py:316-318 | `get_info` of every id, in order |
| `MessageHandler.Handler.CollectButtons` | infrastructure/message_handler.py:320-322 | the button loop yields the keyboard, stopping at the first group that fails |
| `MessageHandler.Handler.TeacherViewGroupActions` | infrastructure/message_handler.py:330-346 | data that does not split into two parts raises with nothing changed; otherwise the group id and teacher are stored, the actions menu shown and `TEACHER_GROUPS_ACTIONS` entered |
| `MessageHandler.Handler.BeginCreateTask` | infrastructure/message_handler.py:348-369 | the chat is cleaned, `TEACHER_CREATE_TASK` entered with the FSM data kept, and the request for a task becomes the last message |
| `MessageHandler.Handler.DraftTask` | infrastructure/message_handler.py:394-402 | the draft holds this user as creator, the message's text as description (or the default) and its file |
| `MessageHandler.Handler.HandleTaskDescription` | infrastructure/message_handler.py:371-410 | after the clean-up and the note with its id, exactly one entry with id `md5("{chat}-{text}-{mid}")` is pushed to the classroom's `tasks`, and the deadline is requested; a missing `classroom_id` or a failed push raises |
| `MessageHandler.Handler.HandleTaskDescriptionAsWritten` | infrastructure/message_handler.py:371-405 | as written, after the clean-up and the note with its id, the handler always raises: on the missing `classroom_id`, else in `Task(...)`; the classroom records and the state are unchanged |
| `MessageHandler.Handler.SubmitDraft` | infrastructure/message_handler.py:394-410 | the draft is pushed for the stored `classroom_id`, then its id and creator are stored and the deadline requested |
| `MessageHandler.Handler.PrepareDraft` | infrastructure/message_handler.py:394-403 | the draft's one entry is pushed, or the push's error is returned with nothing changed |
| `MessageHandler.Handler.AwaitDeadline` | infrastructure/message_handler.py:405-410 | the deadline state is entered with the draft's id and creator stored, and the request is cached |
| `MessageHandler.Handler.TaskDeadlineHandler` | infrastructure/message_handler.py:412-437 | text `parse` rejects adds an apology to the cache; for an accepted date the missing `task_id` or `classroom_id` raises, and otherwise `Task(...)` raises; the state and FSM data never change |
| `MessageHandler.Handler.TeacherSubmitTask` | infrastructure/message_handler.py:439-455 | after the clean-up "yes" raises, on a missing FSM key or else in `Task(...)`, and anything else gets the not-sent notice, cached |
| `MessageHandler.Handler.Handle` | infrastructure/message_handler.py:56-455 | the log only grows; the chat never returns to no state nor enters `REGISTRATION`; an unhandled update changes nothing; "Create group", wherever it is handled, leads to `WAIT_CLASSROOM_NAME` |
| `MessageHandler.Handler.HandleText` | infrastructure/message_handler.py:56-437 | text messages, with the same guarantees as `Handle` |
| `MessageHandler.Handler.RunSetupStep` | infrastructure/message_handler.py:56-240 | the commands and registration steps keep the log growing and the state off none and `REGISTRATION` |
| `MessageHandler.Handler.RunMenuStep` | infrastructure/message_handler.py:265-437 | the menu steps keep the same guarantees; no target means no change; "Create group" leads to `WAIT_CLASSROOM_NAME` |
| `MessageHandler.Handler.RunStudentStep` | infrastructure/message_handler.py:265-298 | the student's buttons and group-id step keep the same guarantees |
| `MessageHandler.Handler.RunTeacherStep` | infrastructure/message_handler.py:303-437 | the teacher's buttons and task steps keep them, and "Create group" leads to `WAIT_CLASSROOM_NAME` |
| `MessageHandler.Handler.HandleMedia` | infrastructure/message_handler.py:371 | a photo or document is taken only in `TEACHER_CREATE_TASK`, and changes nothing elsewhere |
| `MessageHandler.Handler.HandleCallback` | infrastructure/message_handler.py:146-455 | callback queries keep the same guarantees, and an unmatched one changes nothing |
| `Routing.NotCommand` | infrastructure/message_handler.py:56-67 | a text that starts with neither whitespace (Python's `isspace`, Unicode spaces included) nor '/' is neither command |
| `Routing.MentionCommand` | infrastructure/message_handler.py:56 | "/command@mention" is the command exactly when the name matches case-insensitively and the mention is empty or this bot's name, also compared case-insensitively |
| `Routing.StartCommandPlain` | infrastructure/message_handler.py:56 | "/start" reaches `start` |
| `Routing.StartCommandCapitals` | infrastructure/message_handler.py:56 | "/START" is the same command |
| `Routing.StartCommandMention` | infrastructure/message_handler.py:56 | "/start@" plus this bot's name is the command |
| `Routing.StartCommandOtherBot` | infrastructure/message_handler.py:56 | "/start@other" is not a command for this bot |
| `Routing.StartCommandUnicodeSpace` | infrastructure/message_handler.py:56 | a no-break space also ends the command word: "/start\u00a0now" reaches `start` |
| `Routing.StartCommandAfterUnicodeSpace` | infrastructure/message_handler.py:56 | leading Unicode whitespace is skipped before the command |
| `Routing.StartThenSpace` | infrastructure/message_handler.py:56 | "/start" followed by any whitespace character and any text reaches `start` |
| `Routing.CommandBeforeSpace` | infrastructure/message_handler.py:56-67 | what follows the first whitespace after a command word does not matter |
| `Routing.CommandAfterSpace` | infrastructure/message_handler.py:56-67 | whitespace before a command does not change it |
| `Routing.FirstWordBeforeSpace` | infrastructure/message_handler.py:56-67 | the first word of `w + space + tail` is `w` |
| `Routing.FirstWordAfterSpace` | infrastructure/message_handler.py:56-67 | a leading whitespace character does not change the first word |
| `Routing.TextTarget` | infrastructure/message_handler.py:56-437 | the handler a text reaches is a message handler whose `state=` filter admits the chat's state |
| `Routing.Dispatch` | infrastructure/message_handler.py:56-455 | the handler an update reaches admits the chat's state; callback queries reach only callback handlers and messages only message handlers; a photo or document is taken only in `TEACHER_CREATE_TASK`, and other content never |
| `Routing.WaitingStatesTakeAnyText` | infrastructure/message_handler.py:86-274 | `WAIT_EMAIL`, `WAIT_FULL_NAME`, `WAIT_CLASSROOM_NAME` and `STUDENT_ADD_GROUP` take every text, whatever it says |
| `Routing.CreateGroupRoute` | infrastructure/message_handler.py:303 | "Create group" reaches its handler exactly in `REGISTRATION`, `MAIN_MENU`, `TEACHER_VIEW_GROUPS`, `TEACHER_GROUPS_ACTIONS`, `TEACHER_CREATE_TASK` and the deadline-wait state, and never without a state |
| `Routing.AddGroupNeedsNoState` | infrastructure/message_handler.py:265 | "Add group" is handled exactly while the chat has no state, so never from `MAIN_MENU` |
| `Routing.CallbacksNeedNoState` | infrastructure/message_handler.py:146-242 | the registration and create-classroom callbacks are ignored once the chat has a state |
| `Store.FindOne` | database/database.py:95-116 | `find_one` returns a matching record, and None exactly when no record matches |
| `Store.Find` | database/database.py:75-93 | `find` returns exactly the records the query selects, and no more than the collection holds |
| `Store.FindConcat` | database/database.py:75-93 | `find` keeps natural order |
| `Store.Uploaded` | database/database.py:41-56 | the upload inserts a record exactly when none matches, and the data is stored |
| `Store.UploadedKeepsOthers` | database/database.py:55 | only the first matching record is replaced, wholesale; every other record keeps its place and value |
| `Store.UploadedFindOne` | database/database.py:41-56 | after an upload of data that carries its key, `find_one` on the key returns that data |
| `Store.UploadedUnique` | database/database.py:55 | uploads keep the key field unique |
| `Store.FieldsSet` | database/database.py:131 | `$set` with upsert inserts a record exactly when none matches |
| `Store.UpdateSetsFields` | database/database.py:118-136 | the given fields are written into the matched record and its other fields are kept; without a match the key's field and the given fields are inserted; other records are untouched |
| `Store.UpdateAlwaysFinds` | database/database.py:131-136 | after `update` the key finds a record, so `update` returns true |
| `Store.WithNestedArrayFrame` | database/database.py:365-367 | writing `students.{i}.tasks` changes only that field of that element |
| `Store.Removed` | database/database.py:153 | `$pull` leaves exactly the elements that do not match |
| `Store.RemovedConcat` | database/database.py:153 | `$pull` keeps the order of what it leaves |
| `Store.RemovedNothing` | database/database.py:153 | with nothing matching, `$pull` leaves the array as it was |
| `Store.BsonMillis` | database/database.py:392-395 | a stored date is the instant cut down to its whole millisecond |
| `Store.AddedToSet` | database/database.py:206 | `$addToSet` appends the element only when no equal element is present |
| `Store.PushAppendsAtEnd` | database/database.py:161-182 | `$push` appends the elements at the end of the array, in order; only that array of the first match changes; without a match nothing changes |
| `Store.PushKeepsFirstMatch` | database/database.py:176 | a push that leaves the key field alone keeps the same record the first match |
| `Store.PushSucceeds` | database/database.py:176 | a push succeeds when the named array can be followed in the matched record |
| `Store.PushTwiceDuplicates` | database/database.py:161-182 | pushing the same element twice leaves it twice at the end |
| `Store.PullRemovesAll` | database/database.py:138-159 | `$pull` removes every matching element and keeps the rest in order; without a match nothing changes |
| `Store.PyIndex` | database/database.py:202 | Python indexing succeeds exactly for `-len <= i < len` and yields an element of the array |
| `Store.MoveSpec` | database/database.py:184-213 | a successful move pulls every copy of the indexed element from `array_from`, adds it to `array_to` unless an equal element is there, and changes nothing else |
| `Store.MoveToSameArrayFails` | database/database.py:204-207 | moving within one array is the server's conflicting-path error |
| `Store.Database.constructor` | database/database.py:36-39 | a collection starts with the given records |
| `Store.Database.Upload` | database/database.py:41-56 | the records become the upload of the data on the key |
| `Store.Database.Update` | database/database.py:118-136 | the records become the `$set` upsert, and the call returns true |
| `Store.Database.ArrayAppend` | database/database.py:161-182 | the records become the push, returning true iff a record matched; or the error is returned with nothing changed |
| `Store.Database.ArrayRemove` | database/database.py:138-159 | the records become the pull, returning true iff a record matched; or the error is returned with nothing changed |
| `Store.Database.MoveElement` | database/database.py:184-213 | the records become the move, or its error is returned with nothing changed |
| `UserDb.RawUser` | database/database.py:265-268 | the raw record holds `user_id` and the additional fields, later keys winning |
| `UserDb.AddRaw` | database/database.py:256-270 | `add_raw` uploads the raw record on the user's key |
| `UserDb.AddRawDiscardsEarlierFields` | database/database.py:256-270 | registering again leaves exactly `{user_id} ∪ additional`, dropping an earlier e-mail, name or type |
| `UserDb.Exists` | database/database.py:238-245 | `exists` holds iff some record has the user's id |
| `UserDb.GetType` | database/database.py:247-254 | `get_type` returns the stored type, or raises when there is no record or no type |
| `UserDb.Update` | database/database.py:228-236 | `update` is the `$set` upsert on the user's key |
| `UserDb.UpdateKeepsUser` | database/database.py:228-236 | after `update` the user exists, holds the given fields and keeps its other fields |
| `UserDb.TypeAfterRegistration` | database/database.py:228-270 | `add_raw` followed by setting the type makes `get_type` return that type |
| `ClassroomDb.GetInfo` | database/database.py:285-293 | `get_info` returns the classroom's record, or None when none has the id |
| `ClassroomDb.RawClassroom` | database/database.py:305-308 | a new classroom record holds its id, `teachers = [teacher_id]` and the additional fields |
| `ClassroomDb.AddRaw` | database/database.py:295-310 | `add_raw` uploads that record on the classroom's key |
| `ClassroomDb.AddRawCreates` | database/database.py:295-310 | a created classroom reads back with its id, name and one teacher |
| `ClassroomDb.AddStudent` | database/database.py:312-321 | `{"id": student}` is pushed to `students` |
| `ClassroomDb.AddTeacher` | database/database.py:323-332 | `{"id": teacher}` is pushed to `teachers` |
| `ClassroomDb.AddStudentTwice` | database/database.py:312-321 | adding a student twice lists the student twice |
| `ClassroomDb.TaskEntry` | database/database.py:345-346 | an entry of `tasks` holds the id, the creator and the info |
| `ClassroomDb.AddTask` | database/database.py:334-346 | that entry is pushed to `tasks` |
| `ClassroomDb.IdOf` | database/database.py:361 | `student["id"]` succeeds exactly for an entry that has an id |
| `ClassroomDb.StudentIndex` | database/database.py:358-363 | the search loop finds the first entry with the student's id, None when there is none, or the KeyError of a malformed entry met first |
| `ClassroomDb.PushAfterPull` | database/database.py:365-367 | once the pull on a path succeeded, the push on it cannot fail |
| `ClassroomDb.SubmitTask` | database/database.py:348-367 | the loop and the two writes compute `submit_task`'s records, or its error |
| `ClassroomDb.SubmittedRewrites` | database/database.py:348-367 | only the student's submissions change: the old ones without those for `info["task_id"]`, then `info` |
| `ClassroomDb.SubmissionUnique` | database/database.py:348-367 | afterwards the student holds exactly one submission for `info["task_id"]`, namely `info`, last; other submissions keep their order; other students and records are unchanged |
| `ClassroomDb.SubmittedSucceeds` | database/database.py:348-367 | `submit_task` succeeds once the classroom, the student and the submissions array can be found |
| `ClassroomDb.SubmitTwice` | database/database.py:348-367 | submitting the same answer twice is submitting it once |
| `DeadlineDb.DeadlineRecord` | database/database.py:392-395 | the record holds task id, classroom id and the date in whole milliseconds, with the additional fields winning |
| `DeadlineDb.AddDeadline` | database/database.py:382-397 | `add_deadline` uploads on the `task_id` key |
| `DeadlineDb.AddDeadlineReplaces` | database/database.py:397 | at most one record per task survives, and it is the one just added |
| `DeadlineDb.LatestDeadlineWins` | database/database.py:382-397 | of two calls for the same task the later one is what `find_one` sees |
| `DeadlineDb.DeadlinesBetween` | database/database.py:399-408 | exactly the records with `date_from <= date < date_to`, both bounds sent in whole milliseconds |
| `DeadlineDb.AddedDeadlineInWindow` | database/database.py:399-408 | a deadline just added is reported exactly when its stored date lies in the stored window, and, for bounds on whole milliseconds, exactly when its date lies in the window |
| `DeadlineDb.AdjacentWindows` | database/database.py:399-408 | two adjacent windows report together what the spanning window reports, in order |
| `DeadlineDb.TodayWindow` | database/database.py:417-419 | today's window starts at local midnight and ends 23:59:59.000999 later |
| `DeadlineDb.TodayWindowMillis` | database/database.py:417-419 | as sent to the server, today's window runs from midnight to 23:59:59.000 |
| `DeadlineDb.TodayDeadlines` | database/database.py:410-420 | exactly the deadlines stored from local midnight up to, not including, 23:59:59.000 |
| `DeadlineDb.TodayMissesLastSecond` | database/database.py:419 | a deadline in the last second of the day, from 23:59:59.000 on, is not reported |
| `DeadlineDb.TodayReportsSameDay` | database/database.py:410-420 | any deadline stored earlier on the same day is reported |
| `Tasks.NameComponents` | infrastructure/task.py:37 | the kept path components are non-empty, not ".", and taken from the path in order |
| `Tasks.NameComponentsAppend` | infrastructure/task.py:37 | components of a concatenated path are the concatenation of components |
| `Tasks.FileName` | infrastructure/task.py:37 | `Path(p).name` contains no '/' and is empty or a kept component |
| `Tasks.FileNameOfChild` | infrastructure/task.py:37 | the name of `dir/name` is `name` |
| `Tasks.FileNameIgnoresTrailing` | infrastructure/task.py:37 | a trailing "/" or "/." does not change the name |
| `Tasks.FileEntry` | infrastructure/task.py:37-42 | the entry holds exactly a name and the file's bytes, and the name is a bare path component without '/' |
| `Tasks.FileEntryOfChild` | infrastructure/task.py:37-42 | a file at `dir/name` is stored under `name` |
| `Tasks.PreparedEntry` | infrastructure/task.py:60-65 | the pushed entry holds exactly id, creator, files and description |
| `Tasks.Task.constructor` | infrastructure/task.py:17-26 | a new draft has no files and the description "See attachments" |
| `Tasks.Task.AddFile` | infrastructure/task.py:28-42 | one entry is appended at the end; earlier entries and the description are unchanged |
| `Tasks.Task.AddTextDescription` | infrastructure/task.py:44-51 | the description is overwritten and the files stay |
| `Tasks.Task.Prepare` | infrastructure/task.py:53-65 | one entry is pushed into the classroom's `tasks`, or the error is returned; the draft is unchanged |
| `Tasks.PrepareAppendsOne` | infrastructure/task.py:53-65 | on an existing classroom, `prepare` appends exactly one entry at the end of `tasks`, and nothing else changes |
| `Tasks.PrepareTwice` | infrastructure/task.py:53-65 | preparing twice leaves two entries with the same id |

## Left out

- Telegram is reduced to a log of what the bot does:
  - sent, edited and deleted messages and answered callbacks are recorded there;
  - sent messages get fresh increasing ids;
  - a failing Telegram call and the `error` handler, which only logs, are not modelled;
  - asyncio scheduling is not modelled: updates are handled one at a time.
- `chat_help` sends an empty text, which Telegram refuses. The model records the guide as sent.
- The libraries and the clock are parameters of the model:
  - `get_md5` is a function from text to a digest; MD5 itself is not modelled;
  - `dateutil.parser.parse` is a function from text to an optional instant;
  - Python's `str()` of a non-scalar value is a function from the value to text;
  - `datetime.today()` is a parameter;
  - time is integer microseconds of local time, and time zones are not modelled;
  - a stored date keeps whole milliseconds, as a BSON date does; the driver's encoding is otherwise not modelled.
- Files on disk are not modelled:
  - `get_temp_dir`, the downloads, the glob over the temporary directory, `os.remove` and the reading in `add_file` are left out;
  - a photo or document contributes exactly its own file, with its bytes given;
  - files left in the temporary directory by earlier messages are not modelled.
- The MongoDB client and `_load_from_json` are not modelled:
  - each collection is an in-memory sequence in natural order;
  - `Database.aggregate` is not used by the handlers and is not modelled;
  - MongoDB's query language is limited to the queries the bot issues.
- `move_element` calls the legacy `collection.update`. It is modelled as one update on the first matching record.
- Helper.GetMd5: determinism and format only; two different texts may share a digest.
- As written, `Handler.__init__` raises at infrastructure/message_handler.py:412.
  - `UserStatus` declares neither `TEACHER_WAIT_TASK_DEADLINE` nor `TEACHER_SEND_TASK`.
  - The model adds a deadline-wait state, so the handlers registered after that line can be modelled.
- MessageHandler.Handler.HandleTaskDescription follows the evident intent, not the code as written.
  - At infrastructure/message_handler.py:395, `Task(...)` is called without `creator_id`.
  - At line 403, `prepare(user_id)` is called against `def prepare(self)`.
  - At line 405, the state does not exist.
  - The model passes the user as creator, calls `prepare()` and enters the deadline-wait state.
  - The code as written is `HandleTaskDescriptionAsWritten`; see "## Findings".
- MessageHandler.Handler.DraftTask: models the corrected `Task(...)` call with `creator_id`; as written the call raises.
- MessageHandler.Handler.SubmitDraft: models the corrected calls, `prepare()` without argument and the deadline-wait state; as written they raise or fail.
- MessageHandler.Handler.PrepareDraft: models `prepare()` called without argument; as written `prepare(user_id)` raises a TypeError.
- MessageHandler.Handler.constructor: models one chat's handler. The bot builds one `MessageHandler` for all chats, so `last_msg_id`, `_cached_msgs` and `_user_type` are shared between chats.
  - The model does not capture what that sharing does: `clean_chat` deleting ids cached by another chat, another chat's mode choice deciding a user's branch, or an edit aimed at another chat's last message.
- Store.AddedToSet: compares documents as maps. MongoDB's `$addToSet` also compares field order, so an element with the same fields in another order is added again there but not in the model.
- Routing.MentionCommand: folds ASCII letters to lower case only. Python's `str.lower` also folds non-ASCII letters, which the model does not.
- MessageHandler.Handler.TaskDeadlineHandler is modelled as written.
  - `Task(...)` at line 425 raises a TypeError, which `except ValueError` does not catch.
  - No deadline is ever stored, and `Task.set_deadline` does not exist.
  - `DeadlineDatabase.add_deadline` is therefore modelled on its own.
- MessageHandler.Handler.TeacherSubmitTask is modelled as written.
  - It is registered as the callback handler of the deadline-wait state.
  - On "yes", `Task(...)` at line 444 raises, and `send_students` does not exist.
- "Create group" does not lead to `WAIT_CLASSROOM_NAME` from every state.
  - In `WAIT_EMAIL`, `WAIT_FULL_NAME`, `WAIT_CLASSROOM_NAME` and `STUDENT_ADD_GROUP` the text goes to that state's own handler.
  - With no state, nothing handles it.
  - The deadline-wait state counts as one of `UserStatus.all_states`, as it must once declared. There "Create group" and "Managed groups" reach their own handlers, which are registered before `task_deadline_handler`.
- The "My groups", "My marks" and "Deadlines" handlers are stubs that only clean the chat. They are modelled as that.
- The classroom record keeps its teacher as a bare id in `teachers`, while `add_teacher` appends `{"id": ...}`. Both are modelled as written.
- MessageHandler.Handler.Handle: states only what every update keeps, with the unhandled and "Create group" cases; the effect of each handler is stated by the handler method it calls.
- MessageHandler.Handler.HandleText: the same as `Handle`, for text messages.
- MessageHandler.Handler.HandleCallback: the same as `Handle`, for callback queries.
- MessageHandler.Handler.HandleMedia: the same as `Handle`, for photos and documents.
- MessageHandler.Handler.RunSetupStep: only what every update keeps.
- MessageHandler.Handler.RunMenuStep: only what every update keeps, plus the unhandled and "Create group" cases.
- MessageHandler.Handler.RunStudentStep: only what every update keeps.
- MessageHandler.Handler.RunTeacherStep: only what every update keeps, plus the "Create group" case.

## Findings

| source | as written | input that shows it | evidently intended | confidence | as-written member | corrected member |
|---|---|---|---|---|---|---|
| infrastructure/message_handler.py:395-405 | `Task(...)` is called without `creator_id`, then `prepare(user_id)` against `def prepare(self)`, then a state `UserStatus` lacks | a teacher in `TEACHER_CREATE_TASK`, with `classroom_id` stored, sends a description: `TypeError`, no task stored | store the task with the teacher as creator and ask for the deadline | high, not executed | `MessageHandler.Handler.HandleTaskDescriptionAsWritten` | `MessageHandler.Handler.HandleTaskDescription` |
