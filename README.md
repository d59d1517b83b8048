# School timetable generator — a Dafny model

This project models the core of a Django application that builds a weekly
school timetable with the CP-SAT solver, and it proves properties of that
model. The application's database holds:

- school classes, each with a grade, a letter, a shift and a study plan;
- study-plan entries: a subject and its hours per week;
- per-class `SubjectHours` rows;
- teachers, with their qualified subjects and a `work_time` JSON object;
- rooms, holidays and the generated `Lesson` rows.

The model covers these parts of the application:

- **Data validation** before any solving. No class-subject requirement may exceed the weekly slots of the class's shift (42 in the first shift, 36 in the second). Every subject needs a qualified teacher, and the teachers' summed `max_hours_per_week` (default 36) must cover the subject's demand. Every problem is collected before the run is rejected (module `Validator`). `work_time` is a free JSON object, so a stored `max_hours_per_week` may be a list: the capacity sum, or later the weekly-load constraint, then raises `TypeError` and ends the run.
- **The constraint model** of the wired-in generator: the variable universe, every hard constraint and the balancing bounds (modules `Constraints` and `ModelBuilder`). A key `y` is `(class, subject, teacher, weekday, slot)`, and a binding `z` is `(class, subject, teacher)`.
- **The run**: clear the lessons, validate, build the model, solve and save, in the service function and in the management command (`Scheduler`, `ManagementCommand`). The other generators are the `vrodeNorm` command (`VrodeNorm`), the `fiftyfifty1` generator (`FiftyFifty`, `FiftyFiftyRun`) and the `old` generator (`OldGenerator`).
- **The tables these runs change**, as classes with the rows in a sequence field: lessons, per-class hours, study-plan entries, holidays and school classes (`Tables`, `Views`, `Forms`).
- **The dashboard**: the study-plan, holiday and timetable pages (`Views`), the template filters (`Filters`), and the two forms that do more than copy fields (`Forms`).

The CP-SAT search itself is not modelled. Each generator receives the solver's answer as a parameter. The only thing required of that answer is the generator's contract: an accepted status comes with an assignment that satisfies every constraint the generator posts. All the properties below are stated for every answer that meets this contract.

Where the wording of the application's documentation and its code differ, the model follows the code:

- The validator checks every `SubjectHours` row, including rows with zero hours.
- The `z` bindings exist for zero-hour rows too, so such a row still gets exactly one teacher bound.

## Model

| member | source | states |
|---|---|---|
| Calendar.TotalSlots | backend/schedule/or_tools_scheduler.py:42-45 | A class has 6 weekdays × 7 slots = 42 lessons a week in the first shift and 6 × 6 = 36 in the second |
| Calendar.SlotFacts | backend/schedule/or_tools_scheduler.py:12-14 | Lesson number l is a first-shift slot iff 1 ≤ l ≤ 7 and a second-shift slot iff 8 ≤ l ≤ 13; the slot lists and the weekdays have no repeats and are consecutive |
| Calendar.ShiftOfSlot | backend/schedule/or_tools_scheduler.py:13-14 | The two shifts share no lesson number, so a lesson number determines its shift |
| Calendar.Weekday | backend/schedule/generator/old.py:40 | Python's `date.weekday()` of a valid date lies in 0..6 |
| Calendar.NextDayWeekday | backend/schedule/generator/old.py:40 | Within a month the next day's weekday is the next one, Sunday (6) wrapping to Monday (0) |
| Calendar.WeekdayRepeatsEvery400Years | backend/schedule/generator/old.py:40 | The Gregorian calendar repeats every 400 years: a date 400 years on is valid and falls on the same weekday |
| Models.ShiftCodes | backend/schedule/models.py:4-6 | The stored shift codes are exactly "1" and "2", and code and enumeration convert into each other both ways |
| Models.DifficultyFromCode | backend/schedule/models.py:9-12 | A difficulty is read back from its stored code; exactly "easy", "medium" and "hard" are accepted, and the stored code round-trips |
| Models.NatToStringRoundTrip | backend/schedule/models.py:80-81 | Parsing `str(n)` of a grade number gives n back |
| Models.ClassDisplayInjective | backend/schedule/models.py:69-81 | With a one-character letter, two classes display the same string iff their (grade, letter) pairs are equal |
| Models.UniqueClassesDisplayDistinct | backend/schedule/models.py:77-81 | Distinct classes of a table that keeps (grade, letter) unique display distinct strings |
| Validator.FindClass | backend/schedule/or_tools_scheduler.py:51 | `next(...)` finds a class with the row's id, and finds none exactly when no class has that id |
| Validator.FindClassLoop | backend/schedule/or_tools_scheduler.py:51 | The search loop returns the class `FindClass` specifies |
| Validator.QualifiedMembers | backend/schedule/or_tools_scheduler.py:67 | The qualified list holds exactly the teachers whose subject set contains the subject |
| Validator.CheckHours | backend/schedule/or_tools_scheduler.py:50-58 | The row loop reports a row exactly when its hours exceed its class's weekly slots, in table order |
| Validator.AccumulateDemand | backend/schedule/or_tools_scheduler.py:63-65 | The `subj_hours` dictionary has one key per subject of the rows, in order of first appearance, holding the subject's summed hours |
| Validator.DemandOfAbsentSubject | backend/schedule/or_tools_scheduler.py:63-65 | A subject with no hours rows has zero demand |
| Validator.QualifiedLoop | backend/schedule/or_tools_scheduler.py:67 | The comprehension keeps the teachers qualified for the subject, in table order |
| Validator.SumCapacities | backend/schedule/or_tools_scheduler.py:73-76 | `sum` raises `TypeError` iff some stored `max_hours_per_week` is not a number; otherwise it is the sum of the capacities, 36 where the key is absent |
| Validator.QualifiedCapacity | backend/schedule/or_tools_scheduler.py:67-76 | The qualified teachers, and the sum of their capacities unless a non-number among them makes the sum raise |
| Validator.CheckSubject | backend/schedule/or_tools_scheduler.py:67-82 | One subject: raises iff a qualified teacher stores a non-number; otherwise no qualified teacher, or demand above the summed capacity, is reported |
| Validator.CheckSubjects | backend/schedule/or_tools_scheduler.py:66-82 | Raises iff some checked subject has a qualified teacher with a non-number capacity; otherwise, per subject in `subj_hours` order, no qualified teacher is reported (and the capacity check skipped), else demand above capacity is reported |
| Validator.Validate | backend/schedule/or_tools_scheduler.py:48-85 | Raises exactly when a capacity sum does; otherwise both checks run to the end and collect every violation, and `errors` holds iff the list is non-empty |
| Validator.CapacitySumRaisesIff | backend/schedule/or_tools_scheduler.py:66-76 | The validator raises iff a teacher qualified for some subject of the hours table stores a non-number; other teachers are never summed |
| Validator.SubjectOrderMembership | backend/schedule/or_tools_scheduler.py:63-66 | A subject is checked iff some hours row names it |
| Validator.HoursViolationsEmpty | backend/schedule/or_tools_scheduler.py:50-58 | The first check reports nothing iff every row's hours fit its class's weekly slots |
| Validator.SubjectViolationsEmpty | backend/schedule/or_tools_scheduler.py:66-82 | The second check reports nothing iff no checked subject is reported |
| Validator.ValidatorAcceptsIff | backend/schedule/or_tools_scheduler.py:48-85 | Validation passes iff every row fits its shift and every row's subject has a qualified teacher whose summed capacity covers the subject's demand |
| Validator.HoursViolationListed | backend/schedule/or_tools_scheduler.py:53-58 | A row whose hours exceed its slots appears in the report with its class, subject, hours and available slots |
| Validator.SubjectViolationListed | backend/schedule/or_tools_scheduler.py:66-82 | Every problem found for a checked subject appears in the report |
| Validator.EveryProblemReported | backend/schedule/or_tools_scheduler.py:48-85 | Every over-long row, every subject without a teacher and every capacity shortfall is in the report; none stops the collection |
| Validator.OverlongRequirementRejected | backend/schedule/or_tools_scheduler.py:50-82 | A first-shift class asking more than 42 hours of a subject whose one teacher has the default capacity gets exactly two reports, in order: hours above the 42 slots, then demand above the capacity of 36 |
| Constraints.UniverseKey | backend/schedule/or_tools_scheduler.py:92-106 | A created y key combines a class, an hours row of that class, a teacher qualified for the subject, a weekday and a slot of the class's shift |
| Constraints.UniverseKeySlot | backend/schedule/or_tools_scheduler.py:92-106 | The slot of a created key lies in the shift of the key's class |
| Constraints.OneTeacherForAllLessons | backend/schedule/or_tools_scheduler.py:100-114 | `y ≤ z` together with exactly one true `z` per (class, subject) means all lessons of a class-subject pair share one teacher |
| Constraints.CountsDecrease | backend/schedule/or_tools_scheduler.py:171-187 | Under the no-gap constraint, a class's lesson count never increases from an earlier slot of the day to a later one |
| Constraints.OccupiedSlotsFormPrefix | backend/schedule/or_tools_scheduler.py:171-187 | With at most one lesson per class slot and no gaps, a class's occupied slots each day are a prefix of the shift's slots |
| Constraints.SlotAtMostOne | backend/schedule/or_tools_scheduler.py:139-149 | A class has at most one lesson in each (day, slot) of its shift |
| Constraints.ClassSubjectByDay | backend/schedule/or_tools_scheduler.py:117-135 | A class-subject pair's weekly lesson count is the sum of its per-day counts |
| Constraints.FullWeekSubjectDaily | backend/schedule/or_tools_scheduler.py:117-137 | Exact hours plus at most one a day already force exactly one a day when hours equal 6; the second `Add` at line 137 is implied |
| Constraints.ClassSlotKeyUnique | backend/schedule/or_tools_scheduler.py:139-149 | Two true keys of the same class, day and slot are the same key, so the saved lessons respect the lesson table's unique (class, weekday, lesson number) |
| Constraints.TeacherNeverDoubleBooked | backend/schedule/or_tools_scheduler.py:151-166 | Two true keys of the same teacher, day and slot are the same key |
| Constraints.DayBySlot | backend/schedule/or_tools_scheduler.py:196-201 | A class's day load is the sum of its per-slot counts |
| Constraints.DayLoadBounded | backend/schedule/or_tools_scheduler.py:139-149 | A class's lessons on one day never exceed its shift's slot count |
| Constraints.BalanceAlwaysAttainable | backend/schedule/or_tools_scheduler.py:189-203 | For any assignment with one lesson per class slot there are `Lmax`/`Lmin` values within `0..len(slots)` that bound every day's load, so the balance bounds never make a model infeasible |
| Constraints.FindClassUnique | backend/schedule/or_tools_scheduler.py:51 | With unique class ids, the class lookup returns the class itself |
| Constraints.ObjectiveNonNegative | backend/schedule/or_tools_scheduler.py:204 | The minimised sum of `Lmax - Lmin` over the classes is never negative |
| ModelBuilder.AddRow | backend/schedule/or_tools_scheduler.py:94-107 | One hours row's loop adds a z binding for each qualified teacher and a y key for each (teacher, weekday, shift slot) |
| ModelBuilder.AddClass | backend/schedule/or_tools_scheduler.py:92-107 | One class's loop adds the keys and bindings of its hours rows |
| ModelBuilder.BuildVariables | backend/schedule/or_tools_scheduler.py:88-107 | The nested loops create exactly the y and z variables of the universe |
| ModelBuilder.PostTeacherLoads | backend/schedule/or_tools_scheduler.py:151-166 | Posting the weekly load of every teacher succeeds iff every stored `max_hours_per_week` is absent or a number |
| ModelBuilder.NonNumberTeacherIdle | backend/schedule/or_tools_scheduler.py:151-166 | Once the validator's sums pass, a teacher with a non-number capacity owns no variable, so its failing comparison is `0 <= max_h` |
| Tables.LessonTable.DeleteAll | backend/schedule/or_tools_scheduler.py:25 | `Lesson.objects.all().delete()` empties the table and reports how many rows it removed |
| Tables.LessonTable.DeleteForClass | backend/schedule/generator/fiftyfifty1.py:35 | Deleting a class's lessons keeps exactly the other classes' lessons |
| Tables.LessonTable.Create | backend/schedule/models.py:108-109 | A create succeeds iff no stored lesson has the same (class, weekday, lesson number); on failure nothing changes |
| Tables.LessonTable.SaveAtomic | backend/schedule/or_tools_scheduler.py:218-230 | The atomic block saves all true keys iff they are pairwise free and clash with no stored row; otherwise it rolls back to the old rows |
| Tables.OtherClassLessons | backend/schedule/generator/fiftyfifty1.py:35 | The survivors of a class's delete are exactly the other classes' lessons |
| Tables.UniqueOtherClassLessons | backend/schedule/models.py:108-109 | Deleting a class's lessons keeps the (class, weekday, lesson number) key unique |
| Tables.ConflictBreaksSave | backend/schedule/or_tools_scheduler.py:218-230 | A key that meets a stored or already created lesson makes the batch unsaveable |
| Tables.NewKeyKeepsInvariant | backend/schedule/or_tools_scheduler.py:219-230 | Creating the lesson of a fresh, free key extends the saved rows by exactly that lesson and keeps the batch free |
| Tables.OtherClassRows | backend/dashboard/forms.py:31 | `SubjectHours.objects.filter(school_class=c).delete()` keeps exactly the other classes' rows |
| Tables.ClassRows | backend/schedule/generator/fiftyfifty1.py:50 | The rows of one class are exactly the rows naming it |
| Tables.PlanEntries | backend/dashboard/forms.py:32 | `study_plan.entries.all()` holds exactly the entries of the plan |
| Tables.PlanRows | backend/dashboard/forms.py:32-38 | The copy makes one hours row per entry, with the entry's subject and hours, in entry order |
| Tables.PlanEntriesDistinctSubjects | backend/schedule/models.py:60-61 | The unique (plan, subject) key gives one plan's entries distinct subjects |
| Tables.RebuiltHours | backend/dashboard/forms.py:31-38 | After delete-and-copy, the class's rows are exactly the plan's rows and other classes' rows are untouched |
| Tables.SubjectHoursTable.DeleteForClass | backend/dashboard/forms.py:31 | The loop keeps exactly the other classes' rows and the table stays unique on (class, subject) |
| Tables.SubjectHoursTable.CopyPlan | backend/dashboard/forms.py:32-38 | The create loop appends the plan's rows and no create breaks the (class, subject) key |
| Tables.UniqueSubsequence | backend/schedule/models.py:96-97 | Deleting a class's rows keeps (class, subject) unique |
| Scheduler.FirstRoom | backend/schedule/or_tools_scheduler.py:222 | Every lesson gets the first room, or none when there are no rooms |
| Scheduler.LessonImageSize | backend/schedule/or_tools_scheduler.py:219-230 | One lesson is saved per true y key |
| Scheduler.ValidateAndBuild | backend/schedule/or_tools_scheduler.py:48-166 | The validator, the variables and the weekly loads end the run exactly as `PreSolveFailure` says (a raising sum, failed validation, a raising weekly load, in that order); otherwise the variables are the whole universe |
| Scheduler.GenerateSchedule | backend/schedule/or_tools_scheduler.py:17-231 | As written: clears, then validates, builds, solves and saves; the outcome is a `TypeError`, validation failure, no solution or the saved timetable, and after a failure the table is empty |
| Scheduler.GenerateScheduleDeferred | backend/schedule/or_tools_scheduler.py:17-231 | Corrected order: a failed run leaves the old lessons in place; a successful one replaces them with the new timetable |
| Scheduler.FailedRunWipesTimetable | backend/schedule/or_tools_scheduler.py:24-25 | For data that fails validation (a first-shift class asking more than 42 hours), the run as written leaves the lesson table empty whatever it held, and the corrected order leaves it as it was |
| Scheduler.TypeErrorIffNonNumber | backend/schedule/or_tools_scheduler.py:66-166 | The run raises `TypeError` iff some teacher stores a non-number and the run reaches a sum or the weekly loads that read it; a saved timetable always comes from numeric capacities |
| Scheduler.GeneratedTimetableProperties | backend/schedule/or_tools_scheduler.py:100-187 | A saved timetable has one lesson per class slot, one teacher per class-subject, no teacher in two places at once, weekdays 1..6, lesson numbers in the class's shift and only qualified teachers |
| Scheduler.PairLessons | backend/schedule/or_tools_scheduler.py:219-230 | The saved lessons of one class-subject pair are the images of its true keys |
| Scheduler.PairDayLessons | backend/schedule/or_tools_scheduler.py:219-230 | The same holds for one class-subject pair on one day |
| Scheduler.GeneratedHours | backend/schedule/or_tools_scheduler.py:116-123 | A saved timetable gives each class-subject pair exactly its weekly hours |
| Scheduler.GeneratedFullWeek | backend/schedule/or_tools_scheduler.py:125-137 | A subject with 6 hours is taught exactly once every weekday |
| ManagementCommand.Report | backend/core/management/commands/generate_schedule.py:86-215 | Each of the three handled outcomes writes its own final line: success, `Data validation failed...` or `No solution found.`; a `TypeError` escapes `handle` and writes none |
| ManagementCommand.Handle | backend/core/management/commands/generate_schedule.py:25-215 | The command runs the same pipeline as the service, returns instead of raising on failed validation or solving, and leaves the lesson table empty after any failure |
| VrodeNorm.WiredModelIsStricter | backend/schedule/generator/vrodeNorm.py:72-128 | Every assignment the wired-in model accepts satisfies the variant's constraints |
| VrodeNorm.SplitPairViolatesBinding | backend/schedule/or_tools_scheduler.py:100-114 | Two lessons of one class-subject pair with different teachers cannot satisfy the z binding |
| VrodeNorm.SplitWithinUniverse | backend/schedule/generator/vrodeNorm.py:72-88 | The witness keys lie in the variant's universe and meet its exact-hours constraint |
| VrodeNorm.SplitSlotsFree | backend/schedule/generator/vrodeNorm.py:90-128 | The witness keys meet the one-per-class-slot and no-gap constraints |
| VrodeNorm.SplitTeachersFree | backend/schedule/generator/vrodeNorm.py:103-115 | The witness keys meet the per-slot teacher and weekly-cap constraints |
| VrodeNorm.VrodeAllowsSplitTeachers | backend/schedule/generator/vrodeNorm.py:72-128 | Some assignment satisfies the variant while no z binding makes it valid for the wired-in model: one class-subject pair taught by two teachers |
| VrodeNorm.Handle | backend/schedule/generator/vrodeNorm.py:25-156 | The variant's run: cleared first, then validated, built and saved, with the same outcomes as the wired-in run, the `TypeError` of a non-number capacity included |
| FiftyFifty.SubjectIndex | backend/schedule/generator/fiftyfifty1.py:20 | `subject_index` maps each subject id to a position holding that subject |
| FiftyFifty.IndexRoundTrip | backend/schedule/generator/fiftyfifty1.py:20-22 | With distinct ids, id → index → subject gives the subject back, and the fake index `len(subjects)` is no subject's index |
| FiftyFifty.DayCells | backend/schedule/generator/fiftyfifty1.py:67-73 | One variable per slot of the shift on a day, in slot order |
| FiftyFifty.DayCellsMembers | backend/schedule/generator/fiftyfifty1.py:67-73 | A day's cells are exactly (day, slot of the shift) |
| FiftyFifty.CellsFromMembers | backend/schedule/generator/fiftyfifty1.py:67-73 | The cells from a day onward are exactly the later days' shift slots |
| FiftyFifty.CellsDistinct | backend/schedule/generator/fiftyfifty1.py:67-73 | The variables of a class are created once each, for days 0..5 and the shift's slots |
| FiftyFifty.Domain | backend/schedule/generator/fiftyfifty1.py:58-64 | A class's domain holds the fake index and the indexes of its plan subjects, nothing else |
| FiftyFifty.ClashSumIsOne | backend/schedule/generator/fiftyfifty1.py:138-146 | Each teacher-clash sum counts only its own variable, so it is always 1 |
| FiftyFifty.ClashConstraintsVacuous | backend/schedule/generator/fiftyfifty1.py:138-146 | The teacher-clash constraints hold for every assignment: they constrain nothing |
| FiftyFifty.FirstTrue | backend/schedule/generator/fiftyfifty1.py:181-184 | The decode loop picks the first true binding, or none when all are false |
| FiftyFifty.FirstTrueOfExactlyOne | backend/schedule/generator/fiftyfifty1.py:107 | Under `AddExactlyOne`, the first true binding is the only one |
| FiftyFifty.AssignedTeacher | backend/schedule/generator/fiftyfifty1.py:178-184 | A decoded teacher is bound for the pair and qualified for the subject |
| FiftyFifty.CountSubjectAppend | backend/schedule/generator/fiftyfifty1.py:172-191 | Lesson counts per subject add over concatenation |
| FiftyFifty.DraftOrigin | backend/schedule/generator/fiftyfifty1.py:172-191 | Each decoded lesson comes from a non-fake cell: its subject is the cell's value, weekday `day + 1`, lesson number the slot, teacher the first bound one |
| FiftyFifty.DecodeCount | backend/schedule/generator/fiftyfifty1.py:91-97 | The number of decoded lessons of a subject equals the number of cells holding its index |
| FiftyFifty.DecodeKeysDistinct | backend/schedule/generator/fiftyfifty1.py:172-191 | Decoded lessons of one class have distinct (weekday, lesson number) |
| FiftyFifty.CountSubjectPositive | backend/schedule/generator/fiftyfifty1.py:172-191 | A subject with a positive count has a decoded lesson |
| FiftyFifty.BoundTeacher | backend/schedule/generator/fiftyfifty1.py:99-108 | A pair with qualified teachers always decodes a teacher; a pair without any decodes none |
| FiftyFifty.ConstrainedIsValued | backend/schedule/generator/fiftyfifty1.py:67-73 | Every cell of a class takes a value within the subject indexes or the fake index |
| FiftyFifty.DecodedPlacement | backend/schedule/generator/fiftyfifty1.py:185-191 | A decoded lesson is in its class, on weekday 1..6, in a slot of its shift, with a subject of the class's plan |
| FiftyFifty.CellPlacement | backend/schedule/generator/fiftyfifty1.py:189-190 | A cell's weekday `day + 1` is in 1..6 and its lesson number is a slot of the shift |
| FiftyFifty.DecodedClassProperties | backend/schedule/generator/fiftyfifty1.py:58-97 | A solved class decodes to lessons of its plan subjects only, one per slot, each subject exactly its weekly hours; the fake index leaves slots empty |
| FiftyFifty.DecodedTeachers | backend/schedule/generator/fiftyfifty1.py:99-108 | All decoded lessons of a pair share one qualified teacher; a pair with no qualified teacher and hours > 0 decodes a lesson without a teacher |
| FiftyFiftyRun.ContractValued | backend/schedule/generator/fiftyfifty1.py:67-73 | An accepted answer gives every class a value in every cell |
| FiftyFiftyRun.SurvivorsMembers | backend/schedule/generator/fiftyfifty1.py:33-35 | After the class loop, exactly the lessons of classes outside the loop survive |
| FiftyFiftyRun.OtherRowsKeepClass | backend/schedule/generator/fiftyfifty1.py:34 | Deleting one class's hours leaves another class's hours as they were |
| FiftyFiftyRun.PlanRowsOtherClass | backend/schedule/generator/fiftyfifty1.py:39-44 | The rows copied for one class hold no rows of another class |
| FiftyFiftyRun.ResetStep | backend/schedule/generator/fiftyfifty1.py:34-44 | After a class is reset, its hours are its plan's rows and other classes' hours are unchanged |
| FiftyFiftyRun.UniqueClassesPrefix | backend/schedule/models.py:77-78 | A prefix of a table with unique classes has unique classes |
| FiftyFiftyRun.RebuiltRowsOfClass | backend/schedule/generator/fiftyfifty1.py:33-44 | After the loop, each class's hours are exactly its plan's rows (none without a plan) |
| FiftyFiftyRun.RebuiltRowsOfOtherClass | backend/schedule/generator/fiftyfifty1.py:33-44 | Hours of classes outside the loop are untouched |
| FiftyFiftyRun.ResetClass | backend/schedule/generator/fiftyfifty1.py:34-44 | One class's delete-and-copy: hours rebuilt from its plan, lessons of the class deleted |
| FiftyFiftyRun.ResetClasses | backend/schedule/generator/fiftyfifty1.py:33-44 | The class loop rebuilds all hours and deletes the lessons of every class |
| FiftyFiftyRun.FirstBound | backend/schedule/generator/fiftyfifty1.py:181-184 | The loop with `break` returns the first true binding |
| FiftyFiftyRun.LessonsOf | backend/schedule/generator/fiftyfifty1.py:185-191 | Each decoded lesson with a teacher becomes one lesson row, in order |
| FiftyFiftyRun.SaveClass | backend/schedule/generator/fiftyfifty1.py:173-191 | One class's save loop writes its decoded lessons in cell order and fails at the first lesson without a teacher |
| FiftyFiftyRun.SaveCells | backend/schedule/generator/fiftyfifty1.py:173-191 | The cell loop saves a prefix of the decoded lessons and fails iff some decoded lesson lacks a teacher |
| FiftyFiftyRun.DecodeCell | backend/schedule/generator/fiftyfifty1.py:174-184 | Decoding one cell yields nothing for the fake index, else one lesson with the first bound teacher |
| FiftyFiftyRun.DecodePrefix | backend/schedule/generator/fiftyfifty1.py:173-191 | Decoding one more cell appends that cell's lesson |
| FiftyFiftyRun.DecodeMonotone | backend/schedule/generator/fiftyfifty1.py:173-191 | Decoding a longer prefix extends the decoded lessons |
| FiftyFiftyRun.NewDraftIsFree | backend/schedule/models.py:108-109 | A newly decoded lesson clashes with no row saved before it |
| FiftyFiftyRun.PerClass | backend/schedule/generator/fiftyfifty1.py:172-191 | The decoded lessons per class, in class order |
| FiftyFiftyRun.EarlierDraftsClasses | backend/schedule/generator/fiftyfifty1.py:172-191 | Lessons decoded for the first i classes belong to those classes |
| FiftyFiftyRun.LaterClassesAbsent | backend/schedule/generator/fiftyfifty1.py:172-191 | Before class i is saved, no saved lesson belongs to it |
| FiftyFiftyRun.SaveNextClass | backend/schedule/generator/fiftyfifty1.py:172-191 | Saving class i appends its lessons, up to the first lesson without a teacher |
| FiftyFiftyRun.SaveAll | backend/schedule/generator/fiftyfifty1.py:172-191 | The save loop writes all decoded lessons iff every one has a teacher; otherwise it stops at the first without one, keeping what was written |
| FiftyFiftyRun.GenerateFifty | backend/schedule/generator/fiftyfifty1.py:15-191 | Every class's hours are rebuilt from its plan whatever happens; an unaccepted status raises after the rebuild; otherwise the decoded timetable is saved up to the first lesson without a teacher |
| OldGenerator.HolidayWeekdays | backend/schedule/generator/old.py:38-41 | The excluded weekdays are exactly the weekdays 0..4 on which some holiday falls |
| OldGenerator.OldDayCellsFacts | backend/schedule/generator/old.py:48-54 | A day has variables only when it is not excluded, one per shift slot |
| OldGenerator.OldCellsFromMembers | backend/schedule/generator/old.py:48-54 | The variables from a day onward are exactly the non-excluded days' shift slots |
| OldGenerator.OldCellsFacts | backend/schedule/generator/old.py:45-54 | A class has one variable per (day 0..4 not excluded, shift slot), each created once |
| OldGenerator.SubjectIndexOfIds | backend/schedule/generator/old.py:24 | The subject index depends only on the subjects' ids |
| OldGenerator.ClassConstraintsOfIds | backend/schedule/generator/old.py:57-68 | A class's constraints depend only on the subjects' ids |
| OldGenerator.TeacherBoundOfIds | backend/schedule/generator/old.py:87-106 | The teacher-count bound depends only on the subjects' ids |
| OldGenerator.DifficultyIgnored | backend/schedule/generator/old.py:71-84 | Making every subject hard leaves the posted model unchanged: the daily hard-subject limit is never added |
| OldGenerator.RoomFor | backend/schedule/generator/old.py:33-35 | A subject's room is, among the rooms whose name contains the subject's name (case ignored), the one with the least id, since `.first()` orders an unordered query by primary key; none when no room matches |
| OldGenerator.RoomForOrderFree | backend/schedule/generator/old.py:33-35 | The order in which the rooms are listed does not change the room found |
| OldGenerator.RoomForCaseBlind | backend/schedule/generator/old.py:33-35 | Two subject names that differ only in letter case find the same room |
| OldGenerator.PhysicsRoomFound | backend/schedule/generator/old.py:33-35 | The subject "физика" finds the room "Физика 101" |
| OldGenerator.LeastIdRoomFound | backend/schedule/generator/old.py:33-35 | Of the rooms 7 "Физика 202" and 3 "Физика 101", listed in that order, the subject "физика" finds room 3 |
| OldGenerator.OldLessonOrigin | backend/schedule/generator/old.py:147-163 | A saved lesson comes from a cell: weekday `day + 1`, the slot, the cell's subject, its first qualified teacher and its room |
| OldGenerator.CountLessonsAppend | backend/schedule/generator/old.py:147-163 | Lesson counts per subject add over concatenation |
| OldGenerator.OldCount | backend/schedule/generator/old.py:147-163 | A subject's saved count equals its cell count when it has a teacher, and is 0 when it has none |
| OldGenerator.OldClassKeysDistinct | backend/schedule/generator/old.py:147-163 | One class's saved lessons have distinct (weekday, lesson number) |
| OldGenerator.OldCellStep | backend/schedule/generator/old.py:148-163 | Saving one more cell appends its lesson, which clashes with none saved before |
| OldGenerator.SaveOldCells | backend/schedule/generator/old.py:148-163 | The cell loop appends exactly the class's lessons; cells whose subject has no teacher are skipped |
| OldGenerator.EarlierLessonsClasses | backend/schedule/generator/old.py:147-163 | Lessons saved for the first i classes belong to those classes |
| OldGenerator.LaterClassAbsent | backend/schedule/generator/old.py:147-163 | Before class i is saved, no saved lesson belongs to it |
| OldGenerator.SaveOldClass | backend/schedule/generator/old.py:147-163 | Saving class i appends its lessons |
| OldGenerator.OldPerClass | backend/schedule/generator/old.py:147-163 | The lessons per class, in class order |
| OldGenerator.SaveOld | backend/schedule/generator/old.py:144-163 | The save loop writes the lessons of all classes in order and counts them |
| OldGenerator.ContractValues | backend/schedule/generator/old.py:52-54 | An accepted answer gives every variable a value in `0..len(subjects)-1` |
| OldGenerator.GenerateOldAsWritten | backend/schedule/generator/old.py:57-163 | As written: raises `TypeError` before the solve iff some class with cells has an hours row, or some class has a cell and some subject a qualified teacher; else raises for every status but FEASIBLE; both leave the lessons; otherwise deletes all lessons and saves none |
| OldGenerator.GenerateOld | backend/schedule/generator/old.py:57-163 | The intended run, each `var == k` counted as 0/1: never a `TypeError`; raises, leaving the lessons, iff the status is neither OPTIMAL nor FEASIBLE; otherwise replaces all lessons by the ones decoded from the solution |
| OldGenerator.OldLessonsPlacement | backend/schedule/generator/old.py:147-163 | A saved lesson lies in its class's shift, on weekday 1..5 not excluded, with the first qualified teacher and the subject's room |
| OldGenerator.OldSavedHours | backend/schedule/generator/old.py:57-68 | In the intended model (each `var == k` counted as 0/1), each plan subject of a solved class is saved exactly its weekly hours, or never when it has no teacher |
| OldGenerator.ClassesAtBound | backend/schedule/generator/old.py:99-106 | The number of classes holding a subject at a slot is at most the number of classes |
| OldGenerator.OldLessonSaved | backend/schedule/generator/old.py:147-163 | Every cell's lesson, when there is one, is among the saved lessons |
| OldGenerator.PairWithinBound | backend/schedule/generator/old.py:87-106 | The two-teacher witness meets the teacher-count bound |
| OldGenerator.SameSubjectSameTeacher | backend/schedule/generator/old.py:151-152 | Two classes with the same subject in the same cell get the same first teacher at the same time |
| OldGenerator.FirstTeacherTwiceInOneSlot | backend/schedule/generator/old.py:87-163 | In the intended model, the per-slot bound lets two classes take a two-teacher subject in one slot, yet both lessons go to the first teacher: a double booking |
| OldGenerator.CountTwoValues | backend/schedule/generator/old.py:52-54 | With two subjects, every cell holds one of the two |
| OldGenerator.CountLessonsPositive | backend/schedule/generator/old.py:147-163 | A positive lesson count means a lesson of that subject was saved |
| OldGenerator.SpareCellsSaved | backend/schedule/generator/old.py:52-68 | In the intended model, with two subjects, a one-hour plan of the first and at least two cells, every solution saves a lesson whose subject is outside the plan |
| OldGenerator.UnplannedSubjectSaved | backend/schedule/generator/old.py:52-68 | In the intended model, every solution for a class with a free Monday and that one-hour plan saves a lesson of a subject outside the plan |
| OldGenerator.OldCellsNonEmpty | backend/schedule/generator/old.py:45-54 | A class has a variable whenever some non-excluded weekday 0..4 and slot of its shift exist |
| OldGenerator.SavedLessonNeedsTeacherSum | backend/schedule/generator/old.py:87-106 | If any lesson would be saved, the teacher sums are not empty, so the script as written raises before the save |
| OldGenerator.LessonMeansTeacherSum | backend/schedule/generator/old.py:87-106 | A lesson decoded from a solution lies in a cell of some class and has a subject with a teacher, which makes a teacher sum non-empty |
| OldGenerator.TeacherSumAt | backend/schedule/generator/old.py:87-106 | A class cell and a subject with a qualified teacher make the teacher sum at that cell non-empty |
| OldGenerator.SpareRunRaises | backend/schedule/generator/old.py:57-68 | One first-shift class, subjects math and art with one teacher, one hour of math and no holidays: both the hours sum and the teacher sums are non-empty, so the script as written raises |
| Filters.GetItem | backend/dashboard/templatetags/dashboard_filters.py:7-8 | The list under the key, or an empty list when the key is missing |
| Filters.DictGet | backend/dashboard/templatetags/dashboard_filters.py:17-18 | The string under the key, or "" when the key is missing |
| Filters.ToRange | backend/dashboard/templatetags/dashboard_filters.py:12-13 | `end - start + 1` numbers from `start`, ascending, both ends included |
| Filters.ToRangeMembers | backend/dashboard/templatetags/dashboard_filters.py:12-13 | x is in the range iff start ≤ x ≤ end, and the range ascends strictly |
| Filters.ParseInt | backend/dashboard/templatetags/dashboard_filters.py:41 | `int()` succeeds iff the text, stripped of Python whitespace, is an optional sign and a run of digits with single underscores between digits |
| Filters.ParseIntPadded | backend/dashboard/templatetags/dashboard_filters.py:41 | Surrounding whitespace does not change the number `int()` reads |
| Filters.ParseIntDigits | backend/dashboard/templatetags/dashboard_filters.py:41 | A digit string reads as its decimal value |
| Filters.ParseIntGrouped | backend/dashboard/templatetags/dashboard_filters.py:41 | An underscore between two digit groups is ignored |
| Filters.GroupedTen | backend/dashboard/templatetags/dashboard_filters.py:41 | `int("1_0")` is 10 |
| Filters.MisplacedUnderscores | backend/dashboard/templatetags/dashboard_filters.py:41 | A leading, trailing or doubled underscore makes `int()` fail |
| Filters.PaddedLessonNumber | backend/dashboard/templatetags/dashboard_filters.py:41-44 | A padded lesson number in text gets the time of the number itself |
| Filters.PaddedThree | backend/dashboard/templatetags/dashboard_filters.py:22-44 | The text " 3" in the first shift shows lesson 3's time, 09:50–10:30 |
| Filters.LessonTime | backend/dashboard/templatetags/dashboard_filters.py:22-44 | The result is "" iff the conversion fails or the number is not in the shift's table |
| Filters.TablesMatchSlots | backend/dashboard/templatetags/dashboard_filters.py:23-39 | The first table is keyed by exactly the first shift's slots, the second by the second's |
| Filters.LessonTimeOfSlot | backend/dashboard/templatetags/dashboard_filters.py:42 | With the class's shift code, a lesson in the shift always gets a time; any code other than "1" reads the second table |
| Filters.NatToStringDigits | backend/dashboard/templatetags/dashboard_filters.py:41 | `str(n)` is all digits |
| Filters.TextArgAsNumber | backend/dashboard/templatetags/dashboard_filters.py:41 | A lesson number passed as text gets the same time as the number itself |
| Views.IndexOfId | backend/dashboard/views.py:28 | Finds the entry with the primary key, or none when no entry has it |
| Views.IndexOfPair | backend/dashboard/views.py:37-39 | Finds the plan's entry for the subject, or none when there is none |
| Views.RemoveAt | backend/dashboard/views.py:29 | The table without one position, the rest in order |
| Views.DeletedEntryFacts | backend/dashboard/views.py:27-30 | Deleting an entry removes exactly the entry with that id and keeps the table unique |
| Views.UpsertedFacts | backend/dashboard/views.py:37-46 | After adding, the plan has one entry for the subject with the new hours; other entries are kept; the table grows only when the subject was new |
| Views.StudyPlanEntryTable.Delete | backend/dashboard/views.py:27-30 | The delete reports whether the entry existed and leaves the table without it |
| Views.StudyPlanEntryTable.Upsert | backend/dashboard/views.py:37-46 | An existing (plan, subject) entry gets the new hours; otherwise a new entry is created |
| Views.StudyPlansPost | backend/dashboard/views.py:26-48 | A delete redirects, or 404s for a missing id; an invalid form changes nothing; a valid one upserts and redirects |
| Views.KeepSelected | backend/dashboard/views.py:222 | `exclude(date__in=selected).delete()` keeps exactly the holidays on selected dates |
| Views.AddMissing | backend/dashboard/views.py:223-224 | `get_or_create` adds an undescribed holiday for each missing date and keeps existing ones |
| Views.UniqueAppend | backend/schedule/models.py:116 | Adding a holiday on a new date keeps dates unique |
| Views.KeepSelectedUnique | backend/schedule/models.py:116 | Keeping selected holidays keeps dates unique |
| Views.AddMissingFacts | backend/dashboard/views.py:223-224 | After the loop the dates are the old ones plus the selected ones, still unique |
| Views.ReplacedHolidays | backend/dashboard/views.py:222-224 | After a post, the holiday dates are exactly the selected ones, kept holidays keep their descriptions, new ones have none |
| Views.HolidayTable.GetOrCreate | backend/dashboard/views.py:224 | A date is added only when missing |
| Views.HolidayTable.Replace | backend/dashboard/views.py:222-224 | The post's delete and loop leave the table the selected holidays |
| Views.GenerateView | backend/dashboard/views.py:256-263 | The success message iff the run saved a timetable; otherwise the error message carries the exception text and the timetable is empty |
| Views.KeysOfStep | backend/dashboard/views.py:279-281 | Each lesson adds its class's display key |
| Views.RowStep | backend/dashboard/views.py:279-286 | One loop step appends the lesson to its class's group, updates that class's maximum and shift, and leaves other keys alone |
| Views.AppendToGroup | backend/dashboard/views.py:281 | `setdefault(key, []).append(lesson)` keeps the grouping invariant |
| Views.UpdateMax | backend/dashboard/views.py:283-284 | The maximum update keeps the maximum invariant |
| Views.SetShift | backend/dashboard/views.py:286 | The shift update keeps the shift invariant |
| Views.GroupLessons | backend/dashboard/views.py:275-286 | The loop builds, per displayed class, its lessons in query order, its largest lesson number and its shift |
| Views.GroupOfMembers | backend/dashboard/views.py:279-281 | A group holds exactly the lessons of rows with that key, and a key is present iff its group is non-empty |
| Views.MaxOfIsMax | backend/dashboard/views.py:283-284 | The stored maximum bounds every lesson number of the group and is attained |
| Views.GroupOrdered | backend/dashboard/views.py:266-281 | Rows in (weekday, lesson number) order give each group in that order |
| Views.ShiftOfIsClassShift | backend/dashboard/views.py:280-286 | With unique (grade, letter) and one-letter classes, a key's rows are one class's, and its stored shift is that class's |
| Views.ShiftOfSameClass | backend/dashboard/views.py:286 | When a key's rows are one class's, the stored shift is that class's |
| Views.TemplateLookups | backend/dashboard/views.py:288-291 | `get_item` on the grouping returns the key's group, and every lesson number ≥ 1 in it lies in `to_range(1, max)` |
| Forms.SavedClasses | backend/dashboard/forms.py:29 | The saved class is in the table, replacing the row with its id or appended when new; other rows are kept |
| Forms.UniqueClassesTail | backend/schedule/models.py:77-78 | The rest of a unique class table is unique and apart from its first row |
| Forms.UniqueClassesCons | backend/schedule/models.py:77-78 | A class apart from every row of a unique table can be put before it |
| Forms.SavedClassesUnique | backend/schedule/models.py:77-78 | Saving a class that passed the form's (grade, letter) check keeps the table unique |
| Forms.SchoolClassTable.Save | backend/dashboard/forms.py:29 | The class row is inserted or updated and the table stays unique |
| Forms.PlanHoursCopied | backend/dashboard/forms.py:32-38 | The copied rows are exactly the plan's (subject, hours) pairs for this class, with distinct subjects |
| Forms.SaveSchoolClass | backend/dashboard/forms.py:28-39 | The class row is saved and its hours deleted; with a plan, the class's hours become exactly the plan's rows; without one, the save fails at `.entries` with no hours left; other classes' hours are untouched |
| Forms.DayLessons | backend/dashboard/forms.py:83-86 | A lesson is in a day's list iff it is a lesson code whose `wt_<day>_<lesson>` box was posted |
| Forms.CheckedLessons | backend/dashboard/forms.py:83-86 | The inner loop builds that list |
| Forms.CleanWorkTime | backend/dashboard/forms.py:81-88 | The outer loop builds one list per weekday |
| Forms.WorkTimeKeys | backend/dashboard/forms.py:81-88 | The cleaned `work_time` has exactly the six weekday keys and no `max_hours_per_week`, so the generators give the teacher the default capacity of 36 |
| Forms.WorkTimeMembers | backend/dashboard/forms.py:83-87 | A day's list holds a lesson iff it is in `LESSONS` and its box was posted |
| Forms.Position | backend/users/models.py:12-26 | The first position of a code in `LESSONS` |
| Forms.DayLessonsOrdered | backend/dashboard/forms.py:84-86 | Over distinct codes the list keeps their order and repeats none |
| Forms.WorkTimeOrdered | backend/users/models.py:12-26 | Each day's list follows the order of `LESSONS` |
| Forms.BlankPasswordClears | backend/dashboard/forms.py:44-52 | As written, an edit with the password box left empty stores "" in place of the stored hash, against the help text |
| Forms.PasswordIntendedChanges | backend/dashboard/forms.py:96-99 | Under the intended rule the password changes only when one is typed, and then to its hash; it agrees with the code as written exactly when a password is typed or none was stored |
| Forms.TeacherRecord.SaveAsWritten | backend/dashboard/forms.py:92-105 | The listed fields are copied, the password by the model form's rule, then hashed when non-empty; `work_time` is replaced; only with `commit` is the row stored and the subject set replaced |
| Forms.TeacherRecord.Save | backend/dashboard/forms.py:92-105 | The same save with the password left unchanged unless one is typed |

## Left out

- Logging, `print` and the stdout/stderr lines other than the command's final report are not modelled. They are I/O.
- The CP-SAT search, its time limits and worker counts, and the optimality of the balance objective are not modelled. The solver's answer is a parameter. Only the bounds the objective works on (`Balanced`) are stated, not that their difference is minimal.
- `Subject.objects.get` lookups of names for error messages are not modelled: a violation carries ids and numbers only.
- Validator.AvailableFor: an hours row whose class does not exist would make `next(...)` raise StopIteration. The model gives such a row 0 available slots, and `WellFormed` (foreign keys) excludes it.
- `TeacherForm.__init__` (subjects grouped by area, initial values), `SubjectForm`, `StudyPlanEntryForm`, the CRUD views `home`, `subjects_view`, `teachers_view` and `classes_view`, `generate_months`, and the REST serializers, API views and URL tables are form and UI plumbing outside the core.
- Authentication, JWT and password hashing are not modelled. `make_password` is foreign: its result is the `hashed` parameter of the teacher save.
- Forms.SchoolClassTable.Save: the `commit=False` path of `SchoolClassForm.save` is not modelled. The only caller saves with the default.
- Forms.SaveSchoolClass: the model keeps the class row and the deleted hours after the failure at `.entries`. Whether the request is wrapped in a transaction is a settings question, and settings are not part of this model.
- Forms.TeacherRecord.SaveAsWritten: the framework's copy of the listed fields is written out as the password rule only. Other framework behaviour of `ModelForm.save` (validation, many-to-many deferral) is not modelled.
- `or_tools_combined_final.py`, `init_levels.py` and the notification app are not part of this model.
- Integer columns are unbounded here. `PositiveSmallIntegerField` limits are not modelled because no operation depends on them.
- Models.WorkValue: a `work_time` value is a list of lesson codes or an integer. JSON strings, floats, booleans, null and nested objects are not represented; with them Python's `sum` and comparisons behave in ways (a float capacity, `True` counting as 1) this model does not state.
- ModelBuilder.PostTeacherLoads: comparing a linear expression with a list is modelled as raising `TypeError`; `NonNumberTeacherIdle` shows the expression compared is always the plain `0` of an empty `sum`, so the exact OR-Tools behaviour on a non-empty expression is never needed.
- Filters.ParseInt: decimal digits of other scripts (Unicode category Nd), which `int()` also accepts, are refused.
- OldGenerator.RoomFor: only Latin and Russian Cyrillic capitals are folded. The case pairs of other scripts and any locale rules of the database's `UPPER` are not folded.
- OldGenerator.OldSavedHours: states the weekly hours of the intended model, where each `var == k` is counted as 0/1. As written, `sum` over those comparisons raises `TypeError` (old.py:68), so the script never reaches the solve for such a class; `GenerateOldAsWritten` states that run.
- OldGenerator.FirstTeacherTwiceInOneSlot: the double booking is one of the intended model. As written, the teacher sums (old.py:106) raise `TypeError` for these inputs before any lesson is saved.
- OldGenerator.SpareCellsSaved: states the intended counts. As written, the hours sum over comparisons raises `TypeError` for this input (`SpareRunRaises`).
- OldGenerator.UnplannedSubjectSaved: states the intended counts. As written, the hours sum over comparisons raises `TypeError` for this input (`SpareRunRaises`).
- OldGenerator: the commented-out limit of two hard subjects a day (old.py:84) is modelled as absent, as the code runs. `DifficultyIgnored` states this.
- FiftyFifty: the per-(cell, subject, teacher) booleans `b` of fiftyfifty1.py:125-136 (`OnlyEnforceIf([assign_var, b])`, `AddImplication`) are not modelled. Every `b` may be false, so they restrict neither a cell's value nor the teacher bindings, and the busy flags they imply feed only the vacuous clash sums.
- FiftyFiftyRun: `Lesson.objects.create(teacher=None)` is modelled as a failing create that stops the run (the teacher column is not nullable). What was written before the failure stays, because the loop runs outside any transaction.

## Findings

| source | as written | input that shows it | evidently intended | confidence | as-written member | corrected member |
|---|---|---|---|---|---|---|
| backend/schedule/or_tools_scheduler.py:24-25 | All lessons are deleted before validation and solving, so a rejected run leaves the timetable empty | One first-shift class asking 50 hours of a subject, with any stored lessons: validation fails and the lessons are gone | Clear the old lessons only when a new timetable is about to be saved | not executed; high | Scheduler.GenerateSchedule (Scheduler.FailedRunWipesTimetable) | Scheduler.GenerateScheduleDeferred |
| backend/schedule/generator/old.py:68 | `sum(slots)` adds comparisons `var == k`, which OR-Tools cannot add, so `model.Add(sum(slots) == hours)` raises `TypeError` for any class with a cell and an hours row; the teacher sum at line 106 raises the same way. No run with something to schedule reaches the solve | One first-shift class, subjects math and art with one teacher, one hour of math, no holidays | Count each comparison as a 0/1 boolean (`NewBoolVar` with `OnlyEnforceIf`), as fiftyfifty1.py does at lines 93-97 | not executed; high | OldGenerator.GenerateOldAsWritten (OldGenerator.SpareRunRaises) | OldGenerator.GenerateOld (OldGenerator.OldSavedHours) |
| backend/schedule/generator/old.py:141-142 | Only status FEASIBLE is accepted. CP-SAT reports OPTIMAL for a model without an objective once it proves the solution, so in the intended model, with the sums counted, a solved model raises | A solver answer with status OPTIMAL and a valid assignment | Accept OPTIMAL and FEASIBLE, as the other generators do | not executed; medium | OldGenerator.GenerateOldAsWritten | OldGenerator.GenerateOld |
| backend/schedule/generator/old.py:52-68 | Every slot variable ranges over the subject indexes only, with no empty value. In the intended model, with the sums counted, the slots beyond the plan's hours are filled with arbitrary subjects, even subjects outside the class's plan | Two subjects, a plan of one hour of subject 1: every other cell must hold subject 2, which is saved | An empty value for free slots, and slots restricted to the plan's subjects, as in the fiftyfifty generator | not executed; high | OldGenerator.UnplannedSubjectSaved | FiftyFifty.DecodedClassProperties |
| backend/dashboard/forms.py:44-52 | `password` is among the model form's fields, so saving an edited teacher with the password box left empty copies "" over the stored hash; lines 97-99 only add hashing for a non-empty value | Edit a teacher whose stored password is a hash and submit the form with the password box empty | Leave the stored password unchanged when the box is empty, as the help text on line 47 says | not executed; medium | Forms.TeacherRecord.SaveAsWritten (Forms.BlankPasswordClears) | Forms.TeacherRecord.Save (Forms.PasswordIntendedChanges) |
