# Workshop: a verified model of the classroom scheduling core

Workshop is a plugin for a game server used to run classes: staff create classrooms, give
them schedules of appointments, register students as participants, and manage a few
classroom tools (freezing players, banning items, teleport requests, menus, command
parameters). This project models the in-memory core of that plugin in Dafny and proves
properties of the model.

What is modelled, module by module:

- `Appointments` (appointment.dfy): an appointment is an immutable closed interval of instants.
  It covers the throwing constructor, the inclusive `includes` test, the one-directional
  `overlaps` test, `shifted`, the start-only order, `copy`, and the record form.
- `ScheduleSpec` (schedule_spec.dfy): what a schedule is as a value.
  - The invariant `add` actually keeps (`WellOrdered`): starts strictly ascending, and no later
    appointment overlaps an earlier one. This is weaker than pairwise disjointness: a short
    appointment strictly inside a longer, earlier one is accepted.
  - `add` as sorted insertion, proved equal to any start-sorted permutation.
  - A replay of `add` that stops at the first refusal without rollback (`AddAll`). Repeating
    runs, `combine`, `repeat`, `repeatComponent` and the reload are all defined through it.
  - The binary-search `includes` query, and the status and overlap queries the callers use.
- `Schedules` (schedule.dfy): the `Schedule` class. Each mutating method and each loop is proved
  against the value-level definitions above.
- `Participants`, `Registration`, `Classrooms`, `ClassroomManagers`: the participant record, the
  two-stage registration form, the classroom (participant list, registration forms) and the
  registry of classrooms and schedule drafts.
- `ScheduleCommands` (schedule_command.dfy): the schedule editing commands.
  - The cross-classroom conflict rule (`attemptToAddSchedule`).
  - The 1-based removal number.
  - The periodic count, with Java's truncating `long` division and 32-bit `intValue`, and its limit of 30.
  - The one-day end wrap of a single appointment.
- `Teleports`, `Freezing`, `FeatureFreezing`, `Noitem`, `Menus`, `Inventories`: the teleport
  request table, the two freeze managers, the item ban set, and the two slot-array menus.
- `Parameters` (parameter.dfy): command parameters.
  - The in-place `chain` of linked parameter lists.
  - The recursive completion query `nextAllowedInputs`.
  - The usage loop `getFullUsage`.
  - The supplier's case-insensitive `matches`.
- `Text`, `Wrappers`: ASCII case handling, and the Option/Result/Outcome types with the error
  kinds: invalid interval, overlapping appointment, invalid argument, index out of range,
  malformed record, null reference.

Conventions:

- Instants are whole seconds; durations are signed seconds.
- Thrown exceptions become `Failure` or `Fail` values.
- The current time, the online players, the sender's permissions and the timestamp
  formatter/parser are parameters.

Where the source is inconsistent:

- `Schedule.java` does not define several members its callers use: `overlaps(Schedule)`,
  `cancel`, `getStatus`, `getAppointments`, `add(Schedule)`, `Schedule.empty()` and
  `OverlappingAppointmentException`.
- The model gives them these meanings, taken from their call sites:
  - two schedules overlap when some appointment of one overlaps some appointment of the other, in
    either direction;
  - `cancel(i)` removes index `i`, counted from 0, and refuses an index outside the schedule;
  - the status is EMPTY without appointments, PRE before the first start, DURING before the end
    of the last appointment, and POST otherwise;
  - adding a schedule adds its appointments one by one;
  - `empty()` is the private constructor.
- `add` throws `IllegalArgumentException` in `Schedule.java`, but the callers catch
  `OverlappingAppointmentException`. The model follows the callers: a refused `add` is the
  overlapping-appointment error. So a periodic run that overlaps itself makes the periodic
  command answer false. A count below 1 is an invalid argument the command does not catch.
- The help text of the periodic schedule command (`ScheduleCommand.java:179`) promises dates
  inclusive, but the count at line 210 is the number of whole periods between the first and
  the last start. The model follows the code: `ScheduleCommands.PeriodicCountWhole` shows that k
  whole periods ask for exactly k appointments, so the last date gets none.
  `ScheduleCommands.PeriodicSameDateRefused` shows that equal dates ask for zero appointments,
  which `repeating` refuses.

## Model

| member | source | states |
|---|---|---|
| Appointments.Make | src/main/java/com/pietersvenson/workshop/features/classes/Appointment.java:43-50 | construction fails (invalid interval) exactly when the start is after the end; start == end is allowed; a success keeps both bounds |
| Appointments.IncludesIffWithin | src/main/java/com/pietersvenson/workshop/features/classes/Appointment.java:52-54 | `includes(t)` holds iff start <= t <= end, so an appointment includes its own start and end |
| Appointments.Includes | src/main/java/com/pietersvenson/workshop/features/classes/Appointment.java:52-54 | `includes(t)`: the instant is neither after the end nor before the start; IncludesIffWithin states it as start <= t <= end |
| Appointments.OverlapsIffBoundWithin | src/main/java/com/pietersvenson/workshop/features/classes/Appointment.java:56-58 | `a.overlaps(o)` holds iff o's start or o's end lies within a |
| Appointments.Overlaps | src/main/java/com/pietersvenson/workshop/features/classes/Appointment.java:56-58 | `overlaps(o)`: this appointment includes o's start or o's end, a one-way test (OverlapsNotSymmetric) |
| Appointments.OverlapsNotSymmetric | src/main/java/com/pietersvenson/workshop/features/classes/Appointment.java:56-58 | an appointment strictly inside another is overlapped by it, but does not overlap it |
| Appointments.SameStartOverlaps | src/main/java/com/pietersvenson/workshop/features/classes/Appointment.java:56-58 | two appointments with the same start overlap in both directions |
| Appointments.Shifted | src/main/java/com/pietersvenson/workshop/features/classes/Appointment.java:61-63 | the shift by d has start + d and end + d, hence the same length |
| Appointments.ShiftedTwice | src/main/java/com/pietersvenson/workshop/features/classes/Appointment.java:61-63 | shifting by d then by e is shifting by d + e |
| Appointments.CompareTo | src/main/java/com/pietersvenson/workshop/features/classes/Appointment.java:65-68 | the order compares starts only: 0 iff the starts are equal, negative iff this starts earlier, whatever the ends |
| Appointments.CompareToAntisymmetric | src/main/java/com/pietersvenson/workshop/features/classes/Appointment.java:65-68 | compare(a, o) == -compare(o, a) |
| Appointments.Copy | src/main/java/com/pietersvenson/workshop/features/classes/Appointment.java:85-87 | the copy has identical bounds |
| Appointments.Serialize | src/main/java/com/pietersvenson/workshop/features/classes/Appointment.java:74-79 | the record has exactly the keys start and end, each the formatted bound |
| Appointments.Deserialize | src/main/java/com/pietersvenson/workshop/features/classes/Appointment.java:81-83 | a missing key or unparsable text is a malformed record; a success is an appointment with the parsed bounds |
| Appointments.DeserializeSerialize | src/main/java/com/pietersvenson/workshop/features/classes/Appointment.java:74-83 | reading back a serialized appointment gives it back, when the parser undoes the formatter |
| Text.UpperChar | src/main/java/com/pietersvenson/workshop/features/noitem/NoitemManager.java:73 | ASCII upper-casing of a character: lower-case letters move down 32 code points, others are unchanged |
| Text.Upper | src/main/java/com/pietersvenson/workshop/features/noitem/NoitemManager.java:73 | upper-casing keeps the length and upper-cases each character |
| Text.UpperIdempotent | src/main/java/com/pietersvenson/workshop/features/noitem/NoitemManager.java:86-88 | upper-casing twice equals upper-casing once |
| Text.EqualsIgnoreCaseIffSameUpper | src/main/java/com/pietersvenson/workshop/command/common/Parameter.java:152-154 | two strings are equal ignoring case iff their upper-cased forms are equal |
| ScheduleSpec.CountBeforeSplit | src/main/java/com/pietersvenson/workshop/features/classes/Schedule.java:105-113 | on a start-sorted list, the count is the insertion point: every earlier entry starts before t and no later one does |
| ScheduleSpec.CountBeforeIs | src/main/java/com/pietersvenson/workshop/features/classes/Schedule.java:105-113 | any index that splits a start-sorted list this way is the count |
| ScheduleSpec.InsertContents | src/main/java/com/pietersvenson/workshop/features/classes/Schedule.java:83-84 | the new list holds the old appointments plus the new one, as a multiset |
| ScheduleSpec.InsertLast | src/main/java/com/pietersvenson/workshop/features/classes/Schedule.java:83-84 | an appointment starting after all others goes at the end |
| ScheduleSpec.NoConflictDistinctStart | src/main/java/com/pietersvenson/workshop/features/classes/Schedule.java:78-82 | an appointment that passes the overlap check shares its start with no existing appointment |
| ScheduleSpec.InsertWellOrdered | src/main/java/com/pietersvenson/workshop/features/classes/Schedule.java:77-85 | adding an appointment that passes the overlap check keeps the list sorted by start, with no later appointment overlapping an earlier one |
| ScheduleSpec.SortedUnique | src/main/java/com/pietersvenson/workshop/features/classes/Schedule.java:84 | two start-sorted lists holding the same appointments are equal, so the sort's result is determined |
| ScheduleSpec.InsertIsSorting | src/main/java/com/pietersvenson/workshop/features/classes/Schedule.java:83-84 | every start-sorted arrangement of the old list plus the new appointment is exactly Insert |
| ScheduleSpec.Insert | src/main/java/com/pietersvenson/workshop/features/classes/Schedule.java:83-84 | the list after add appends and stable-sorts by start: one appointment longer; InsertContents, InsertWellOrdered and InsertIsSorting state its contents, invariant and sortedness |
| ScheduleSpec.AddAll | src/main/java/com/pietersvenson/workshop/features/classes/Schedule.java:93-98 | replaying add over a list adds at most all of it |
| ScheduleSpec.AddAllStep | src/main/java/com/pietersvenson/workshop/features/classes/Schedule.java:95-98 | one more appointment either extends the replay or stops it |
| ScheduleSpec.AddAllStopped | src/main/java/com/pietersvenson/workshop/features/classes/Schedule.java:93-98 | after the first refused appointment, later ones change nothing (no rollback and no further adds) |
| ScheduleSpec.AddAllWhole | src/main/java/com/pietersvenson/workshop/features/classes/Schedule.java:93-98 | replaying the whole list equals replaying its full prefix |
| ScheduleSpec.ReplayOne | src/main/java/com/pietersvenson/workshop/features/classes/Schedule.java:63-66 | an appointment that passes the check extends the replay; a refused one ends the whole replay |
| ScheduleSpec.AddAllAppend | src/main/java/com/pietersvenson/workshop/features/classes/Schedule.java:61-69 | replaying xs then ys is replaying ys from where a complete replay of xs ended |
| ScheduleSpec.AddAllWellOrdered | src/main/java/com/pietersvenson/workshop/features/classes/Schedule.java:77-98 | a replay that stops early or not keeps the schedule invariant |
| ScheduleSpec.AddAllContents | src/main/java/com/pietersvenson/workshop/features/classes/Schedule.java:93-98 | after the replay, the list holds the old appointments plus exactly the prefix that was added |
| ScheduleSpec.AddAllStopsAtConflict | src/main/java/com/pietersvenson/workshop/features/classes/Schedule.java:78-82 | a replay that stops does so at an appointment that overlaps the list built so far |
| ScheduleSpec.AddAllCompletes | src/main/java/com/pietersvenson/workshop/features/classes/Schedule.java:77-85 | a replay adds everything when nothing overlaps the existing list or an earlier new appointment |
| ScheduleSpec.ReplayWellOrdered | src/main/java/com/pietersvenson/workshop/features/classes/Schedule.java:144-148 | replaying a list that keeps the invariant into an empty schedule rebuilds it exactly |
| ScheduleSpec.RunNext | src/main/java/com/pietersvenson/workshop/features/classes/Schedule.java:95-97 | each appointment of a run is the previous one shifted by one period |
| ScheduleSpec.RepeatingSucceedsIff | src/main/java/com/pietersvenson/workshop/features/classes/Schedule.java:50-59 | a repeating schedule succeeds iff count >= 1 and either count is 1 or the period, in either direction, is longer than the appointment |
| ScheduleSpec.RepeatingSpacedApart | src/main/java/com/pietersvenson/workshop/features/classes/Schedule.java:87-99 | with a period longer than the appointment, the run is added exactly as generated |
| ScheduleSpec.ConcatNext | src/main/java/com/pietersvenson/workshop/features/classes/Schedule.java:63-67 | the inputs up to i + 1 are those up to i followed by input i |
| ScheduleSpec.ConcatStep | src/main/java/com/pietersvenson/workshop/features/classes/Schedule.java:63-67 | input i sits in the concatenation right after the inputs before it |
| ScheduleSpec.ConcatPrefix | src/main/java/com/pietersvenson/workshop/features/classes/Schedule.java:63-67 | the first n inputs form a prefix of the concatenation |
| ScheduleSpec.CombineOne | src/main/java/com/pietersvenson/workshop/features/classes/Schedule.java:63-67 | adding input i either extends the combination or ends it at its first refused appointment |
| ScheduleSpec.CombinedWellOrdered | src/main/java/com/pietersvenson/workshop/features/classes/Schedule.java:61-69 | a successful combination keeps the schedule invariant |
| ScheduleSpec.CombinedSingleRun | src/main/java/com/pietersvenson/workshop/features/classes/Schedule.java:120-126 | combining the single run of one appointment gives that run back |
| ScheduleSpec.RepeatedSingle | src/main/java/com/pietersvenson/workshop/features/classes/Schedule.java:120-126 | repeating a one-appointment schedule is the repeating schedule of that appointment |
| ScheduleSpec.RemoveAt | src/main/java/com/pietersvenson/workshop/features/classes/Schedule.java:135 | removing index i keeps the entries before i and shifts the later ones down by one |
| ScheduleSpec.RemoveAtWellOrdered | src/main/java/com/pietersvenson/workshop/features/classes/Schedule.java:135 | removing an appointment keeps the schedule invariant |
| ScheduleSpec.RepeatedComponentOnce | src/main/java/com/pietersvenson/workshop/features/classes/Schedule.java:128-138 | repeating one appointment of a pairwise disjoint schedule once gives the schedule back |
| ScheduleSpec.IncludesAtFailsIff | src/main/java/com/pietersvenson/workshop/features/classes/Schedule.java:101-114 | the query fails exactly when the instant precedes the first start (binary search insertion point 0, index -1) |
| ScheduleSpec.IncludesAtSound | src/main/java/com/pietersvenson/workshop/features/classes/Schedule.java:101-114 | a true answer means some appointment includes the instant |
| ScheduleSpec.IncludesAtDisjoint | src/main/java/com/pietersvenson/workshop/features/classes/Schedule.java:101-114 | on a pairwise disjoint schedule the answer is exactly whether some appointment includes the instant |
| ScheduleSpec.IncludesAtMissesNested | src/main/java/com/pietersvenson/workshop/features/classes/Schedule.java:113 | with [0,100] and [10,20], the instant 50 is reported as not included, though [0,100] includes it |
| ScheduleSpec.IncludesAtAfterEnd | src/main/java/com/pietersvenson/workshop/features/classes/Schedule.java:113 | after the last appointment has ended the answer is false |
| ScheduleSpec.StatusAt | src/main/java/com/pietersvenson/workshop/features/classes/command/ClassroomListCommand.java:70-80 | the status is EMPTY iff there are no appointments |
| ScheduleSpec.StatusMonotone | src/main/java/com/pietersvenson/workshop/features/classes/command/ClassroomListCommand.java:70-80 | as time passes, the status of a non-empty schedule only moves forward: PRE, DURING, POST |
| ScheduleSpec.StatusPreIffIncludesFails | src/main/java/com/pietersvenson/workshop/features/classes/command/ClassroomListCommand.java:70-80 | PRE holds exactly when the includes query fails |
| ScheduleSpec.SchedulesOverlapSymmetric | src/main/java/com/pietersvenson/workshop/features/classes/command/edit/ScheduleCommand.java:282 | schedule overlap, unlike appointment overlap, is symmetric |
| ScheduleSpec.MergeCompletes | src/main/java/com/pietersvenson/workshop/features/classes/command/edit/ScheduleCommand.java:298 | merging a schedule that does not overlap the target adds all of its appointments |
| ScheduleSpec.SerializeAll | src/main/java/com/pietersvenson/workshop/features/classes/Schedule.java:140-142 | one record per appointment, in schedule order |
| ScheduleSpec.LoadStopped | src/main/java/com/pietersvenson/workshop/features/classes/Schedule.java:144-148 | once a prefix of the records fails to load, the later records change nothing |
| ScheduleSpec.LoadSerialize | src/main/java/com/pietersvenson/workshop/features/classes/Schedule.java:140-148 | loading a serialized schedule gives it back, when the parser undoes the formatter |
| Schedules.Schedule.constructor | src/main/java/com/pietersvenson/workshop/features/classes/Schedule.java:74-75 | a new schedule is empty |
| Schedules.Schedule.Single | src/main/java/com/pietersvenson/workshop/features/classes/Schedule.java:44-48 | a fresh schedule holding just the appointment |
| Schedules.Schedule.Add | src/main/java/com/pietersvenson/workshop/features/classes/Schedule.java:77-85 | add is refused iff the new appointment overlaps an existing one, and the list is then unchanged; otherwise the list is the sorted insertion, with one more appointment; the invariant is kept |
| Schedules.Schedule.AddRepeating | src/main/java/com/pietersvenson/workshop/features/classes/Schedule.java:87-99 | count < 1 fails before any change; otherwise the list is the replay of the run (k-th = shifted k periods), stopping at the first refusal with earlier adds kept |
| ScheduleSpec.RepeatingFrom | src/main/java/com/pietersvenson/workshop/features/classes/Schedule.java:87-99 | the value addRepeating leaves: a count below 1 is an invalid argument, otherwise the replay of the run, failing unless all count appointments were added (RepeatingSucceedsIff) |
| Schedules.Schedule.Repeating | src/main/java/com/pietersvenson/workshop/features/classes/Schedule.java:50-59 | the result is the repeating run added to an empty schedule, or its failure |
| Schedules.Schedule.Combine | src/main/java/com/pietersvenson/workshop/features/classes/Schedule.java:61-69 | the result is every input's appointments, in order, added to an empty schedule; the first refusal fails the whole combination |
| ScheduleSpec.Combined | src/main/java/com/pietersvenson/workshop/features/classes/Schedule.java:61-69 | the value combine yields: the replay of every input's appointments in order from an empty list, failing with an overlap unless all were added (CombinedWellOrdered, CombineOne) |
| Schedules.Schedule.MergePart | src/main/java/com/pietersvenson/workshop/features/classes/Schedule.java:63-67 | after the appointments of input i, either the replay of all inputs up to i is complete or the whole combination fails with an overlap |
| Schedules.Schedule.Includes | src/main/java/com/pietersvenson/workshop/features/classes/Schedule.java:101-114 | false on an empty schedule; true on an exact start; a true answer is always correct; fails with an index error iff the instant precedes the first start |
| ScheduleSpec.IncludesAt | src/main/java/com/pietersvenson/workshop/features/classes/Schedule.java:101-114 | the binary-search answer of includes on a list: false when empty, true on an exact start, otherwise the answer of the appointment before the insertion point, an index error at point 0 (IncludesAtFailsIff, IncludesAtSound, IncludesAtDisjoint) |
| Schedules.Schedule.IsContinuous | src/main/java/com/pietersvenson/workshop/features/classes/Schedule.java:116-118 | holds iff there is at most one appointment |
| Schedules.Schedule.Repeat | src/main/java/com/pietersvenson/workshop/features/classes/Schedule.java:120-126 | a new schedule: each appointment's run combined in schedule order, or the first failure; the receiver is unchanged |
| ScheduleSpec.Repeated | src/main/java/com/pietersvenson/workshop/features/classes/Schedule.java:120-126 | the value repeat yields: a count below 1 fails on a non-empty schedule, a failing run fails, otherwise the combination of the runs (RepeatedSingle) |
| Schedules.Schedule.RepeatComponent | src/main/java/com/pietersvenson/workshop/features/classes/Schedule.java:128-138 | an index outside [0, size) fails; otherwise a new schedule with that appointment replaced by its run; the receiver is unchanged |
| ScheduleSpec.RepeatedComponent | src/main/java/com/pietersvenson/workshop/features/classes/Schedule.java:128-138 | the value repeatComponent yields: an index error outside the list, otherwise the run replayed onto the list without that appointment (RepeatedComponentOnce) |
| Schedules.Schedule.Cancel | src/main/java/com/pietersvenson/workshop/features/classes/command/edit/ScheduleCommand.java:122-129 | removes the appointment at a 0-based index; an index outside the schedule is refused and nothing changes |
| Schedules.Schedule.OverlapsWith | src/main/java/com/pietersvenson/workshop/features/classes/command/edit/ScheduleCommand.java:282 | true iff some appointment of one schedule overlaps some appointment of the other, in either direction |
| ScheduleSpec.SchedulesOverlap | src/main/java/com/pietersvenson/workshop/features/classes/command/edit/ScheduleCommand.java:282 | schedule overlap as its caller uses it: some pair of appointments overlaps in either direction (SchedulesOverlapSymmetric) |
| Schedules.Schedule.AddAllFrom | src/main/java/com/pietersvenson/workshop/features/classes/command/edit/ScheduleCommand.java:298 | the other schedule's appointments are added in order, with the result and error of the replay |
| Schedules.Schedule.AddStep | src/main/java/com/pietersvenson/workshop/features/classes/Schedule.java:63-67 | offering the next appointment either extends the replay of add by one or ends it with an overlap error, leaving the schedule as it was |
| Schedules.Schedule.Serialize | src/main/java/com/pietersvenson/workshop/features/classes/Schedule.java:140-142 | one record per appointment, in schedule order |
| Schedules.Schedule.Deserialize | src/main/java/com/pietersvenson/workshop/features/classes/Schedule.java:144-148 | the records are read and added in turn; the first that does not read or is refused fails the load |
| ScheduleSpec.Load | src/main/java/com/pietersvenson/workshop/features/classes/Schedule.java:144-148 | the value deserialize yields: records read and added in turn, the first unreadable or refused one deciding the failure (LoadStopped, LoadSerialize) |
| Participants.Serialize | src/main/java/com/pietersvenson/workshop/features/classes/Participant.java:45-51 | the record has exactly the keys first_name, last_name and mc_uuid, holding the fields |
| Participants.Deserialize | src/main/java/com/pietersvenson/workshop/features/classes/Participant.java:53-58 | succeeds iff the three keys are present and the UUID parses, and yields exactly those fields |
| Participants.DeserializeSerialize | src/main/java/com/pietersvenson/workshop/features/classes/Participant.java:45-58 | reading back a stored participant gives it back, when the UUID parser undoes the printer |
| Registration.RegistrationForm.constructor | src/main/java/com/pietersvenson/workshop/features/classes/RegistrationForm.java:48-50 | a fresh form is at stage 0 with no names |
| Registration.RegistrationForm.Message | src/main/java/com/pietersvenson/workshop/features/classes/RegistrationForm.java:52-54 | the first-name prompt at stage 0, the last-name prompt at stage 1, an index error once done |
| Registration.RegistrationForm.Input | src/main/java/com/pietersvenson/workshop/features/classes/RegistrationForm.java:56-58 | stores the text in the current stage's name and advances the cursor by exactly one, also when the form is done and the stage lookup fails |
| Registration.RegistrationForm.Complete | src/main/java/com/pietersvenson/workshop/features/classes/RegistrationForm.java:64-66 | a participant with the two recorded names and the given UUID; a missing name is a null reference; a completed form always succeeds |
| Registration.RegistrationForm.IsDone | src/main/java/com/pietersvenson/workshop/features/classes/RegistrationForm.java:60-62 | done once the cursor has passed both stages; a valid done form always completes (Complete) |
| Registration.FillIn | src/main/java/com/pietersvenson/workshop/features/classes/RegistrationForm.java:36-66 | two inputs into a fresh form complete it with exactly those names |
| Classrooms.HasUuid | src/main/java/com/pietersvenson/workshop/features/classes/Classroom.java:99-102 | holds iff some participant has the UUID |
| Classrooms.HasUuidSnoc | src/main/java/com/pietersvenson/workshop/features/classes/Classroom.java:99-102 | appending a participant brings the player in iff it is that player |
| Classrooms.WithoutUuid | src/main/java/com/pietersvenson/workshop/features/classes/Classroom.java:95-97 | no kept participant has the UUID, and nothing is added |
| Classrooms.WithoutUuidSnoc | src/main/java/com/pietersvenson/workshop/features/classes/Classroom.java:95-97 | a participant appended at the end is kept iff it is not the player |
| Classrooms.WithoutUuidCounts | src/main/java/com/pietersvenson/workshop/features/classes/Classroom.java:95-97 | every other participant keeps its number of entries; the length is unchanged iff the player was absent |
| Classrooms.WithoutAbsentUuid | src/main/java/com/pietersvenson/workshop/features/classes/Classroom.java:95-97 | removing an absent player changes nothing |
| Classrooms.AllNameChars | src/main/java/com/pietersvenson/workshop/features/classes/Classroom.java:161-163 | holds iff every character is an ASCII letter, digit or space |
| Classrooms.IsValidName | src/main/java/com/pietersvenson/workshop/features/classes/Classroom.java:161-163 | holds iff the name is non-empty and every character is an ASCII letter, digit or space |
| Classrooms.Classroom.constructor | src/main/java/com/pietersvenson/workshop/features/classes/Classroom.java:65-79 | name = id, curriculum NONE, an empty schedule, no participants, no forms, not public |
| Classrooms.Classroom.AddParticipant | src/main/java/com/pietersvenson/workshop/features/classes/Classroom.java:81-83 | appends the participant (duplicates allowed) and answers true |
| Classrooms.Classroom.AddParticipants | src/main/java/com/pietersvenson/workshop/features/classes/Classroom.java:85-87 | appends all of them in order; true iff there was any |
| Classrooms.Classroom.RemoveParticipant | src/main/java/com/pietersvenson/workshop/features/classes/Classroom.java:95-97 | removes every participant with the UUID, keeping the others in order; true iff any was removed |
| Classrooms.Classroom.InClass | src/main/java/com/pietersvenson/workshop/features/classes/Classroom.java:99-102 | holds iff some participant has the UUID (isRegistered, lines 112-114, is the same test) |
| Classrooms.Classroom.InSession | src/main/java/com/pietersvenson/workshop/features/classes/Classroom.java:104-106 | the schedule's includes query at the given instant: fails iff the instant precedes the first start; true only when some appointment includes it |
| Classrooms.Classroom.Conflicts | src/main/java/com/pietersvenson/workshop/features/classes/Classroom.java:108-110 | holds iff the two schedules overlap |
| Classrooms.Classroom.Equals | src/main/java/com/pietersvenson/workshop/features/classes/Classroom.java:121-127 | two classrooms are equal iff their ids are |
| Classrooms.Classroom.GetRegistrationForm | src/main/java/com/pietersvenson/workshop/features/classes/Classroom.java:165-167 | the player's form if present, otherwise none |
| Classrooms.Classroom.IsRegistering | src/main/java/com/pietersvenson/workshop/features/classes/Classroom.java:169-171 | holds iff a form is present |
| Classrooms.Classroom.StartRegistering | src/main/java/com/pietersvenson/workshop/features/classes/Classroom.java:173-175 | installs a fresh form for the player, replacing any earlier one; the other forms are unchanged |
| Classrooms.Classroom.CompleteRegistration | src/main/java/com/pietersvenson/workshop/features/classes/Classroom.java:177-186 | without a form: empty and no change; otherwise the participant is appended and the form removed |
| ClassroomManagers.Draft.constructor | src/main/java/com/pietersvenson/workshop/features/classes/ClassroomManager.java:103-105 | a new draft has no schedule |
| ClassroomManagers.ClassroomManager.constructor | src/main/java/com/pietersvenson/workshop/features/classes/ClassroomManager.java:76-88 | no classrooms and no drafts |
| ClassroomManagers.ClassroomManager.AddClassroom | src/main/java/com/pietersvenson/workshop/features/classes/ClassroomManager.java:76-78 | stores the classroom under its id and answers the previous classroom for that id, or null |
| ClassroomManagers.ClassroomManager.RemoveClassroom | src/main/java/com/pietersvenson/workshop/features/classes/ClassroomManager.java:86-88 | deletes the id and answers what was there, or null |
| ClassroomManagers.ClassroomManager.AnyRegistered | src/main/java/com/pietersvenson/workshop/features/classes/ClassroomManager.java:90-92 | holds iff some id is registered |
| ClassroomManagers.ClassroomManager.Count | src/main/java/com/pietersvenson/workshop/features/classes/ClassroomManager.java:146-148 | the number of registered ids |
| ClassroomManagers.ClassroomManager.AnyRegisteredIffCount | src/main/java/com/pietersvenson/workshop/features/classes/ClassroomManager.java:90-92 | a classroom is registered iff the count is positive |
| ClassroomManagers.ClassroomManager.GetInSession | src/main/java/com/pietersvenson/workshop/features/classes/ClassroomManager.java:95-97 | exactly the registered classrooms whose schedule includes the instant; fails iff some classroom's query fails |
| ClassroomManagers.ClassroomManager.HasDraft | src/main/java/com/pietersvenson/workshop/features/classes/ClassroomManager.java:99-101 | holds iff the operator has a draft |
| ClassroomManagers.ClassroomManager.StartDraft | src/main/java/com/pietersvenson/workshop/features/classes/ClassroomManager.java:103-105 | installs a fresh draft and answers the previous one (not the new one), or null |
| ClassroomManagers.ClassroomManager.GetDraft | src/main/java/com/pietersvenson/workshop/features/classes/ClassroomManager.java:107-109 | the operator's draft, or null when there is none |
| ClassroomManagers.ClassroomManager.Repeat | src/main/java/com/pietersvenson/workshop/features/classes/ClassroomManager.java:111-121 | a missing draft is a null reference; no schedule or more than one appointment gives false with no change; otherwise the schedule is replaced by its repetition |
| ClassroomManagers.ClassroomManager.RepeatAt | src/main/java/com/pietersvenson/workshop/features/classes/ClassroomManager.java:123-144 | no schedule or a negative index gives false; a continuous schedule accepts only index 1 and delegates; otherwise the schedule becomes repeatComponent's result |
| ScheduleCommands.TruncDiv | src/main/java/com/pietersvenson/workshop/features/classes/command/edit/ScheduleCommand.java:210 | Java long division: the remainder is smaller than the divisor and has the dividend's sign |
| ScheduleCommands.ToInt32 | src/main/java/com/pietersvenson/workshop/features/classes/command/edit/ScheduleCommand.java:210 | intValue of a long: within the 32-bit range, congruent mod 2^32, and the identity inside the range |
| ScheduleCommands.DivUnique | src/main/java/com/pietersvenson/workshop/features/classes/command/edit/ScheduleCommand.java:210 | a quotient whose remainder lies in range is the quotient |
| ScheduleCommands.DivScale | src/main/java/com/pietersvenson/workshop/features/classes/command/edit/ScheduleCommand.java:210 | dividing milliseconds by milliseconds is dividing seconds by seconds |
| ScheduleCommands.PeriodicCountSeconds | src/main/java/com/pietersvenson/workshop/features/classes/command/edit/ScheduleCommand.java:210 | the count is the truncated quotient of the seconds between the two starts by the period |
| ScheduleCommands.PeriodicCount | src/main/java/com/pietersvenson/workshop/features/classes/command/edit/ScheduleCommand.java:210 | the requested count is a 32-bit int: the millisecond gap divided by the period, truncated, then cut to 32 bits |
| ScheduleCommands.PeriodicCountWhole | src/main/java/com/pietersvenson/workshop/features/classes/command/edit/ScheduleCommand.java:210-216 | a last start k periods after the first gives count k |
| ScheduleCommands.PeriodicSameDateRefused | src/main/java/com/pietersvenson/workshop/features/classes/Schedule.java:90-92 | when the first and last dates coincide the count is 0, and the repeating schedule fails with an invalid argument |
| ScheduleCommands.PeriodicBackwardsRefused | src/main/java/com/pietersvenson/workshop/features/classes/command/edit/ScheduleCommand.java:210 | a last start before the first, by less than 2^31 seconds, gives a count of at most 0 |
| ScheduleCommands.SingleEndValid | src/main/java/com/pietersvenson/workshop/features/classes/command/edit/ScheduleCommand.java:268-270 | an end before the start moves one day later; the appointment is then valid iff the start is at most a day after the end |
| ScheduleCommands.SingleEnd | src/main/java/com/pietersvenson/workshop/features/classes/command/edit/ScheduleCommand.java:268-270 | the end is kept or moved one day later, and it is then no earlier than the start exactly when the start is at most a day after the end |
| ScheduleCommands.NoRegisteredConflict | src/main/java/com/pietersvenson/workshop/features/classes/command/edit/ScheduleCommand.java:286-297 | true iff no registered classroom's schedule overlaps the candidate |
| ScheduleCommands.AttemptToAddSchedule | src/main/java/com/pietersvenson/workshop/features/classes/command/edit/ScheduleCommand.java:280-300 | true iff the candidate overlaps neither the target nor any registered classroom; on false nothing changes; on true every candidate appointment is in the target |
| ScheduleCommands.RemoveAppointment | src/main/java/com/pietersvenson/workshop/features/classes/command/edit/ScheduleCommand.java:117-129 | an unknown class or an empty schedule is refused; otherwise number n cancels index n - 1, and a number outside 1..size is refused with no change |
| ScheduleCommands.AddPeriodic | src/main/java/com/pietersvenson/workshop/features/classes/command/edit/ScheduleCommand.java:192-221 | unknown class or start after end gives false; count above 30 gives false; count below 1 is an uncaught invalid argument; otherwise the run goes through the conflict rule |
| ScheduleCommands.AddSingle | src/main/java/com/pietersvenson/workshop/features/classes/command/edit/ScheduleCommand.java:258-272 | unknown class gives false; the end is wrapped one day; an interval still reversed is an uncaught error; otherwise the appointment goes through the conflict rule and is inserted |
| Teleports.TeleportManager.constructor | src/main/java/com/pietersvenson/workshop/features/teleport/TeleportManager.java:45 | an empty request table |
| Teleports.TeleportManager.HasRequest | src/main/java/com/pietersvenson/workshop/features/teleport/TeleportManager.java:47-49 | holds iff the table has an entry for (requester, destination) |
| Teleports.TeleportManager.Request | src/main/java/com/pietersvenson/workshop/features/teleport/TeleportManager.java:51-55 | sets the entry to the current time, overwriting any earlier one |
| Teleports.TeleportManager.Expired | src/main/java/com/pietersvenson/workshop/features/teleport/TeleportManager.java:57-61 | true without an entry; otherwise whether time + timeout is after now, as written |
| Teleports.TeleportManager.Accept | src/main/java/com/pietersvenson/workshop/features/teleport/TeleportManager.java:63-78 | true only with an entry whose time + timeout is not after now; the entry is never removed |
| Teleports.TeleportManager.AcceptIffExpired | src/main/java/com/pietersvenson/workshop/features/teleport/TeleportManager.java:57-78 | accept succeeds iff there is an entry, expired answers false for it, and both players are online |
| Teleports.TeleportManager.FreshRequestNotAccepted | src/main/java/com/pietersvenson/workshop/features/teleport/TeleportManager.java:51-78 | with a positive timeout, expired answers true for a request made now, and it cannot be accepted now |
| Teleports.TeleportManager.Deny | src/main/java/com/pietersvenson/workshop/features/teleport/TeleportManager.java:80-87 | false without an entry; otherwise removes it and answers true |
| Freezing.UuidsOf | src/main/java/com/pietersvenson/workshop/freeze/FreezeManager.java:41 | exactly the UUIDs of the listed players |
| Freezing.FreezeManager.constructor | src/main/java/com/pietersvenson/workshop/freeze/FreezeManager.java:37-38 | nobody frozen, the flag clear |
| Freezing.FreezeManager.FreezeAll | src/main/java/com/pietersvenson/workshop/freeze/FreezeManager.java:40-43 | adds every online player to the frozen set and sets the flag |
| Freezing.FreezeManager.UnfreezeAll | src/main/java/com/pietersvenson/workshop/freeze/FreezeManager.java:45-48 | empties the set and clears the flag |
| Freezing.FreezeManager.Freeze | src/main/java/com/pietersvenson/workshop/freeze/FreezeManager.java:50-52 | true iff the player was not frozen; afterwards the player is frozen |
| Freezing.FreezeManager.Unfreeze | src/main/java/com/pietersvenson/workshop/freeze/FreezeManager.java:54-56 | true iff the player was frozen; afterwards the player is not |
| Freezing.FreezeManager.IsAllFrozen | src/main/java/com/pietersvenson/workshop/freeze/FreezeManager.java:58-60 | the flag |
| Freezing.FreezeManager.IsFrozen | src/main/java/com/pietersvenson/workshop/freeze/FreezeManager.java:62-64 | set membership |
| FeatureFreezing.NonStaffUuids | src/main/java/com/pietersvenson/workshop/features/freeze/FreezeManager.java:47-50 | exactly the UUIDs of the non-staff listed players |
| FeatureFreezing.AllUuids | src/main/java/com/pietersvenson/workshop/features/freeze/FreezeManager.java:52-56 | exactly the UUIDs of the listed players |
| FeatureFreezing.FreezeManager.constructor | src/main/java/com/pietersvenson/workshop/features/freeze/FreezeManager.java:44-45 | nobody frozen, the flag clear |
| FeatureFreezing.FreezeManager.Freeze | src/main/java/com/pietersvenson/workshop/features/freeze/FreezeManager.java:64-73 | a staff player gives false and no change; otherwise true iff newly added, and the player is frozen |
| FeatureFreezing.FreezeManager.Unfreeze | src/main/java/com/pietersvenson/workshop/features/freeze/FreezeManager.java:81-87 | true iff the player was removed; afterwards the player is not frozen |
| FeatureFreezing.FreezeManager.FreezeAll | src/main/java/com/pietersvenson/workshop/features/freeze/FreezeManager.java:47-50 | every online non-staff player is frozen, and nobody else is added; the flag is set |
| FeatureFreezing.FreezeManager.UnfreezeAll | src/main/java/com/pietersvenson/workshop/features/freeze/FreezeManager.java:52-56 | the set is empty and the flag clear |
| FeatureFreezing.FreezeManager.IsAllFrozen | src/main/java/com/pietersvenson/workshop/features/freeze/FreezeManager.java:89-91 | the flag |
| FeatureFreezing.FreezeManager.IsFrozen | src/main/java/com/pietersvenson/workshop/features/freeze/FreezeManager.java:93-95 | set membership |
| Noitem.NoitemManager.constructor | src/main/java/com/pietersvenson/workshop/features/noitem/NoitemManager.java:55 | an empty ban set |
| Noitem.NoitemManager.IsBanned | src/main/java/com/pietersvenson/workshop/features/noitem/NoitemManager.java:86-88 | membership of the upper-cased name |
| Noitem.NoitemManager.Ban | src/main/java/com/pietersvenson/workshop/features/noitem/NoitemManager.java:63-74 | a non-item gives false and no change; otherwise stores the upper-cased name, true iff newly added, and the item is then banned |
| Noitem.NoitemManager.Unban | src/main/java/com/pietersvenson/workshop/features/noitem/NoitemManager.java:82-84 | removes the upper-cased name, true iff it was present; the item is then not banned |
| Noitem.NoitemManager.IsBannedIgnoresCase | src/main/java/com/pietersvenson/workshop/features/noitem/NoitemManager.java:86-88 | names that differ only in case are banned alike |
| Menus.Others | src/main/java/com/pietersvenson/workshop/features/menu/InventoryMenu.java:119-120 | the online players other than the menu's player, each kept |
| Menus.Limit | src/main/java/com/pietersvenson/workshop/features/menu/InventoryMenu.java:121 | the first min(n, size) items, unchanged |
| Menus.EasyLayoutBottom | src/main/java/com/pietersvenson/workshop/features/menu/InventoryMenu.java:133-138 | slots 27 on hold the teleport items in order, then placeholders up to slot 53 |
| Menus.InventoryMenu.constructor | src/main/java/com/pietersvenson/workshop/features/menu/InventoryMenu.java:145-152 | rows * 9 slots, all EMPTY |
| Menus.InventoryMenu.Create | src/main/java/com/pietersvenson/workshop/features/menu/InventoryMenu.java:145-152 | fails (index error) iff the rows are outside 1..6 |
| Menus.InventoryMenu.PutItem | src/main/java/com/pietersvenson/workshop/features/menu/InventoryMenu.java:154-160 | a slot outside the menu fails with no change; otherwise only that slot is set, and the same menu is answered |
| Menus.InventoryMenu.GetItem | src/main/java/com/pietersvenson/workshop/features/menu/InventoryMenu.java:162-170 | slot -999 gives empty; another slot outside the menu fails; a slot inside gives its item |
| Menus.EasyMenu | src/main/java/com/pietersvenson/workshop/features/menu/InventoryMenu.java:74-140 | the menu's slots are exactly the standard layout for the player |
| Menus.FillEasy | src/main/java/com/pietersvenson/workshop/features/menu/InventoryMenu.java:74-139 | a fresh six-row menu, after the puts, holds exactly the standard layout for the given teleport items |
| Inventories.InventoryMenu.constructor | src/main/java/com/pietersvenson/workshop/inventory/InventoryMenu.java:68-72 | exactly 27 slots, all unset |
| Inventories.InventoryMenu.PutItem | src/main/java/com/pietersvenson/workshop/inventory/InventoryMenu.java:74-80 | a slot outside [0, 27) fails with no change; otherwise only that slot is set, and this menu is answered |
| Inventories.InventoryMenu.GetItem | src/main/java/com/pietersvenson/workshop/inventory/InventoryMenu.java:82-87 | a slot outside [0, 27) fails; otherwise the slot's content, empty when unset |
| Inventories.StudentMenu | src/main/java/com/pietersvenson/workshop/inventory/InventoryMenu.java:48-66 | items at slots 12 and 14 and nothing elsewhere |
| Parameters.GetAllowedEntries | src/main/java/com/pietersvenson/workshop/command/common/Parameter.java:148-150 | the supplier's entries, or none when there is no supplier function |
| Parameters.AnyEqualsIgnoreCase | src/main/java/com/pietersvenson/workshop/command/common/Parameter.java:153 | holds iff some entry equals the input ignoring case |
| Parameters.Matches | src/main/java/com/pietersvenson/workshop/command/common/Parameter.java:152-154 | case-insensitive membership in the allowed entries; a null reference without a supplier function |
| Parameters.MatchesIgnoresCase | src/main/java/com/pietersvenson/workshop/command/common/Parameter.java:152-154 | inputs equal ignoring case match alike |
| Parameters.Parameter.constructor | src/main/java/com/pietersvenson/workshop/command/common/Parameter.java:47-50 | a parameter with the given supplier and permission, linked to nothing |
| Parameters.Parameter.GetSupplier | src/main/java/com/pietersvenson/workshop/command/common/Parameter.java:59-64 | the supplier, or NONE when it is unset |
| Parameters.Parameter.GetFullUsage | src/main/java/com/pietersvenson/workshop/command/common/Parameter.java:125-140 | empty without the sender's permission; otherwise the usages joined by spaces, for as far as each next parameter has a permission the sender holds |
| Parameters.Extent | src/main/java/com/pietersvenson/workshop/command/common/Parameter.java:132-134 | the usage stops at the first next parameter without a held permission |
| Parameters.FullUsageStopsAtUnrestricted | src/main/java/com/pietersvenson/workshop/command/common/Parameter.java:132-134 | a next parameter with no permission ends the usage after the first parameter |
| Parameters.NextAllowedWalk | src/main/java/com/pietersvenson/workshop/command/common/Parameter.java:82-95 | the suggestions are the entries of the parameter the tokens lead to (all permitted, each token matched); any non-empty answer means the tokens led there |
| Parameters.Parameter.NextAllowedInputs | src/main/java/com/pietersvenson/workshop/command/common/Parameter.java:82-95 | the suggestions for the next token: empty without permission, a null-supplier failure, the entries at the end of the tokens, otherwise the next parameter's answer after a match (NextAllowedWalk) |
| Parameters.FlattenLinked | src/main/java/com/pietersvenson/workshop/command/common/Parameter.java:109-115 | chains linked tail to head form one linked list from the first head to the last tail |
| Parameters.Tail | src/main/java/com/pietersvenson/workshop/command/common/Parameter.java:110-113 | following the links from a chain's head ends at its last parameter |
| Parameters.Chain | src/main/java/com/pietersvenson/workshop/command/common/Parameter.java:104-117 | answers the first argument, which heads all the argument chains concatenated in order, ending in null |
| Parameters.LinkTail | src/main/java/com/pietersvenson/workshop/command/common/Parameter.java:109-115 | one step of chain: the last parameter of chain i now links to the head of chain i + 1; every inner link and every other last parameter stays as it was |

## Left out

- Date and time parsing and formatting: the commands receive instants, and the record formatter and parser are function parameters; the commands' parse-error paths are not modelled.
- Instants are unbounded integers, so the overflow `Instant.plus` can raise is not modelled.
- Case handling is ASCII only; Java's full Unicode upper-casing is not modelled.
- Game-server effects are not modelled: chat messages, the teleport itself, inventory clearing on ban, opening inventories, kicking players.
- The online players, staff permission and player lookups are parameters or flags instead.
- The clock is a parameter `now`; `Instant.now()` is not read.
- Persistence is not part of this model: `dumpState`/`loadState`, the YAML files, and the map plumbing of `Classroom.serialize`/`deserialize`.
- Event listeners, command dispatch, argument-count checks and usage messages are not part of this model.
- Classroom setters and getters, `setPublic`/`isPublic`, `toString`, `hashCode` and `giveNickname` are not modelled.
- The participant's last known user name is not modelled; it is filled in by an asynchronous web lookup.
- Classrooms.Classroom.Equals: compares with another classroom only; `equals` on an object of another type (false) is not modelled.
- Classrooms.Classroom.InSession: takes the instant as a parameter instead of reading the clock.
- Participants.Deserialize: a record missing first_name or last_name is refused, where `Participant.java` would build a participant with a null name; names here are non-null strings.
- Participants: `Participant.java` and the nested `Classroom.Participant` are one datatype here. The nested class's refusal of null names is modelled in `Registration.RegistrationForm.Complete`.
- ClassroomManagers.ClassroomManager.GetInSession: answers a set, so the `HashMap` iteration order of the returned list is not modelled.
- ClassroomManagers.Draft: the classroom builder is modelled by its schedule only.
- `getClassroom` and `getClassroomIds` are direct lookups in the registry map.
- `Appointment.repeat` is not a member of its own; it only delegates to `Schedule.repeating`, which `Schedules.Schedule.Repeating` models.
- ScheduleCommands.RemoveAppointment: takes the number as an integer; a non-numeric argument (`NumberFormatException`) is not modelled.
- ScheduleCommands.AddPeriodic: requires a positive period. The two presets, one day and seven days, are positive.
- Teleports.TeleportManager.Accept: the player lookups are two online flags, and the teleport is left out. The request is not removed, as in the source.
- Teleports: the configured timeout is the constructor argument; the configuration's default is 30 seconds.
- Noitem: `getBanned` and the ban set's persistence are not modelled.
- Menus.EasyMenu: the teleport item for each player is a parameter, as is the accept item. The random concrete colour and the latest-requester label are not modelled.
- Menus, Inventories: item actions and enablers (code run on click) are not modelled.
- Parameters.Chain: requires the argument chains to share no parameter (equivalently, distinct last parameters). When chains share a parameter, the walk over chains 0 to n-2 in Parameter.java:109-115 can link a chain back into itself. `chain` itself loops forever only when a later step walks into a cycle an earlier step closed. Otherwise, for instance `chain(a, b)` with b inside a's chain, `chain` returns a cyclic list, and the hang comes later, in the usage walk of Parameter.java:132-138.
- Parameters.Parameter.constructor: the builder's null check on the supplier is not modelled, so `GetSupplier`'s fallback to NONE is reachable here.
- Parameters: the supplier function is modelled as the list it currently yields, and the sender's permissions as a set of names.
- Parameters: the chain a parameter heads is passed as a ghost list of its nodes.
