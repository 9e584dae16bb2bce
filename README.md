# DigitSchool services — a Dafny model

DigitSchool is a school-records platform built from small HTTP services over
PostgreSQL and Redis. This project models the request handlers of four of
them:

- **academic**: the grade ledger, the cached per-student average, class
  statistics and teacher progress;
- **report**: student bulletins, class reports, the report catalog, downloads
  and term statistics, together with the PDF generator's content (file names,
  subject grouping, means, orientation, class summary);
- **timetable**: schedule slots, the overlap rule, the cached week view per
  class, and the filtered listing;
- **user**: classes, class membership, class details and the users available
  for assignment.

Each handler is modelled as one atomic step. It returns a status code and a
payload (`Result`). Tables a service writes are fields of a class: the
academic `GradeBook`, the report `ReportService`, the timetable `Planner` and
the user `Roster`. Tables owned by another service are passed in as
sequences. A Redis cache is a `map` field. Pure queries (ordering, grouping,
means, filters) are functions over sequences.

The five-band orientation is defined once (`Orientation.Classify`). The
bulletin's if-chain, the web client's ternary chain and the SQL CASE are
each modelled separately and proved to agree with it. The SQL CASE is
written out twice with the same text: in the academic class statistics
(services/academic/src/routes.js:172-178) and in the class report's query
(services/report/src/routes.js:95-101). One model covers both:
`Orientation.SqlCaseOrientation`, which `Academic.ClassStatisticsRows` uses
and `Reporting.ReportService.GenerateClass` reuses. A third CASE, in the
statistics distribution query (services/report/src/routes.js:230-247), sits
in a query PostgreSQL rejects. The corrected distribution classifies with
`Classify` inside `Reporting.BandOf` instead.

Identifiers are uuids. PostgreSQL stores and returns a uuid in lower case
and compares uuids regardless of case. The grade, average and teacher
progress handlers of the academic service model this with
`Common.CanonicalId`. The academic class statistics and the other services
compare ids as strings (see "Left out").

Modules:

- `Common`: Option/Result, status codes, uuid shape, decimal rendering, the
  user, class and membership rows.
- `Collections`: filter, distinct, a stable insertion sort under a total
  preorder, take, and lexicographic string order.
- `Orientation`: the bands.
- `Grades`: grade records, sums, means, per-subject grouping.
- `Academic`: the academic service.
- `PdfReport`: the PDF generator's content.
- `Reporting`: the report service.
- `Timetable`: the timetable service.
- `Roster`: the user service.

## Model

| member | source | states |
|---|---|---|
| Orientation.Classify | services/report/src/pdfGenerator.js:77-82 | the band is the highest whose threshold (10, 12, 14, 16) the average reaches; every higher band's threshold is not reached |
| Orientation.ClassifyMonotone | services/report/src/pdfGenerator.js:77-82 | a higher average never gets a lower band |
| Orientation.SqlCaseOrientation | services/academic/src/routes.js:172-178 | the SQL CASE agrees with Classify; a NULL average (no grades) gets 'Insuffisant' |
| Orientation.PdfOrientation | services/report/src/pdfGenerator.js:77-82 | the bulletin's if-chain assigns the label of Classify of the overall average |
| Orientation.ReportViewOrientation | frontend/src/components/ReportView.jsx:174-177 | the client's ternary chain gives the label of Classify of the figure it is shown |
| Orientation.DisplayedBand | frontend/src/components/ReportView.jsx:174-177 | classifying the two-decimal figure equals classifying the exact average plus 0.005 |
| Orientation.DisplayedBandCanDiffer | frontend/src/components/ReportView.jsx:174-177 | an average of 15.996 shows as Excellent in the client and is Très bien on the bulletin |
| Common.DecimalRoundTrip | services/report/src/pdfGenerator.js:19 | the decimal rendering of the timestamp in a file name reads back as the same number |
| Common.DecimalInjective | services/report/src/pdfGenerator.js:19 | distinct timestamps render as distinct digit strings |
| Common.UuidHasNoColon | services/academic/src/routes.js:11 | a string passing the uuid check contains no ':' |
| Common.CanonicalUuid | services/academic/src/routes.js:28-31 | the lower-case spelling the uuid column stores is again a uuid, and is its own canonical spelling |
| Grades.MeanInRange | services/academic/src/routes.js:14 | the mean of scores within [0, 20] lies within [0, 20] |
| Grades.ScoresOfPresent | services/report/src/pdfGenerator.js:50-56 | a subject has scores exactly when some grade carries it |
| Grades.SubjectsInOrder | services/report/src/pdfGenerator.js:50-56 | subjects in order of first appearance: each subject of the grades once, and nothing else |
| Grades.RecordsFor | services/academic/src/routes.js:99-103 | the rows selected by student and term are exactly the ledger's rows for that pair |
| Grades.PermutationKeepsTotal | services/report/src/routes.js:34-39 | reordering the grades (ORDER BY) does not change the sum of their scores |
| Grades.PermutationKeepsSubjectSums | services/report/src/routes.js:34-39 | reordering the grades changes neither the sum nor the count of any subject's scores |
| Grades.SubjectPartition | services/academic/src/routes.js:87-97 | the per-subject groups together hold every score once: their totals add up to the overall total and their counts to the record count |
| Grades.OverallIsRecordWeighted | services/academic/src/routes.js:99-109 | the overall average is the subject averages weighted by each subject's record count, not their plain mean |
| Academic.GradeBook.AddGrade | services/academic/src/routes.js:24-44 | 400 and nothing changes exactly when the score is outside [0, 20], subject or term is empty or the student id is not a uuid; otherwise one record is appended with the id in its stored lower-case spelling, the key of that student and term is dropped, and every remaining cached average still equals the ledger's |
| Academic.GradeBook.Average | services/academic/src/routes.js:71-124 | 400 without a term, touching nothing; a hit returns the stored snapshot unchanged; a miss with an id the uuid column refuses answers 500 and caches nothing; any other miss stores, with TTL 3600, exactly the snapshot it returns; every answer is the ledger's aggregate for the pair its key names, and for a uuid in any spelling that pair is the student and the term asked for |
| Academic.CacheStoreKeepsCoherent | services/academic/src/routes.js:117 | filing a freshly computed snapshot with TTL 3600 keeps every cached entry equal to the aggregate of the current ledger |
| Academic.RedisKeyInjective | services/academic/src/routes.js:81 | keys spelled from uuids are equal only for the same student id and term |
| Academic.MalformedIdSpellsPairKey | services/academic/src/routes.js:81-84 | a path id made of a uuid, ':' and more text is not a uuid, yet it spells the key of that uuid under a longer term, so a cached average is served for it before the database could refuse it |
| Academic.AverageKeySpellings | services/academic/src/routes.js:34 | two spellings of one uuid share a key, and that key names the canonical id and the term |
| Academic.OtherKeyOtherPair | services/academic/src/routes.js:34 | a grade belongs to no cached pair other than the one its own key names, so dropping that key is enough |
| Academic.MixedCaseGradeLeavesStaleAverage | services/academic/src/routes.js:34 | as written: after an average read under one spelling of a uuid, a grade posted under another spelling leaves that read's entry in place, one grade short of the ledger |
| Academic.Aggregate | services/academic/src/routes.js:87-114 | total_grades counts the student's records for the term; overall_average is their mean, or 0 without records; subjects come from SubjectBreakdown |
| Academic.SubjectBreakdown | services/academic/src/routes.js:87-97 | exactly the slice's subjects, each once, each with the mean of its scores |
| Academic.SubjectBreakdownSorted | services/academic/src/routes.js:87-97 | the breakdown lists its subjects in name order |
| Academic.AggregateSubjects | services/academic/src/routes.js:87-97 | the subjects listed are exactly those of the student's records for the term |
| Academic.AggregateInRange | services/academic/src/routes.js:14 | with every stored score in [0, 20], the overall and every subject average lie in [0, 20] |
| Academic.AggregateUnaffected | services/academic/src/routes.js:28-34 | a grade for another student or term leaves the snapshot unchanged |
| Academic.AggregateSum | services/academic/src/routes.js:99-109 | overall_average times total_grades is the sum of the scores |
| Academic.AggregateAfterAppend | services/academic/src/routes.js:28-34 | appending a grade adds one to the count and its score to average times count |
| Academic.EnrolledStudents | services/academic/src/routes.js:179-183 | a user is listed only if enrolled in the class as a student, and every enrolled student with an account is listed |
| Academic.StudentStatIsFor | services/academic/src/routes.js:166-183 | a student's row has a NULL average and total 0 without grades, else the mean and count of the term's grades, and the CASE orientation |
| Academic.ClassStatisticsRows | services/academic/src/routes.js:166-185 | one row per enrolled student (students without grades included), ordered by average descending with NULLs last |
| Academic.ClassStatistics | services/academic/src/routes.js:157-192 | 400 exactly when no term is given |
| Academic.StudentGrades | services/academic/src/routes.js:47-68 | exactly the student's grades (of the term, when given), newest first |
| Academic.Upsert | services/academic/src/routes.js:199-205 | at most one row per (teacher, class); the posted row replaces that pair's row and every other row stays |
| Academic.ProgressRowOf | services/academic/src/routes.js:199-205 | the row written carries both ids in the canonical spelling the uuid columns store, with the posted coverage and the given time |
| Academic.GradeBook.PostProgress | services/academic/src/routes.js:195-215 | 400 exactly when coverage is outside [0, 100] or an id is not a uuid, and nothing changes; otherwise the upsert of the canonically spelled row, stamped with the given time, keeping one row per pair and every stored id canonical |
| Academic.ProgressSpellingsShareRow | services/academic/src/routes.js:199-205 | posting for two spellings of the same teacher and class leaves one row for the pair, the later post's |
| Academic.TeacherProgress | services/academic/src/routes.js:218-235 | 500 exactly when the id is not a uuid; otherwise the rows of that uuid, in any spelling, whose class exists, joined with the class, most recently updated first |
| Academic.PostedProgressListed | services/academic/src/routes.js:218-235 | a posted row whose class exists is listed for its teacher under any spelling of the teacher's uuid |
| Academic.GradeBook.Grades | services/academic/src/routes.js:47-68 | 500 exactly when the id is not a uuid; otherwise the stored grades of that uuid, in any spelling, and of the term when one is given, newest first |
| PdfReport.StudentFilename | services/report/src/pdfGenerator.js:19 | a bulletin file name starts with `bulletin_` and ends with `.pdf` |
| PdfReport.StudentFilenameDistinctTimes | services/report/src/pdfGenerator.js:19 | two bulletins of one student and term made at different times get different names |
| PdfReport.ClassFilename | services/report/src/pdfGenerator.js:97 | a class report file name starts with `rapport_classe_` and ends with `.pdf` |
| PdfReport.ClassFilenameDistinctTimes | services/report/src/pdfGenerator.js:97 | two class reports made at different times get different names |
| PdfReport.FilenamesOfKindsDiffer | services/report/src/pdfGenerator.js:19-97 | a bulletin name never equals a class report name |
| PdfReport.GroupBySubject | services/report/src/pdfGenerator.js:50-56 | the loop's keys are the subjects in first-appearance order, each mapped to that subject's scores in row order, never empty |
| PdfReport.FiledGroups | services/report/src/pdfGenerator.js:50-56 | filing the records one at a time lists each subject once, in first-appearance order, mapped to all its scores in row order |
| PdfReport.GroupStep | services/report/src/pdfGenerator.js:51-55 | filing one more record keeps the subject list and the map in step with the records read |
| PdfReport.WriteLines | services/report/src/pdfGenerator.js:58-65 | the line loop writes, for each grouped subject in order, its scores and their mean |
| PdfReport.LinesFor | services/report/src/pdfGenerator.js:58-65 | line j names subject j, carries that subject's scores in row order, never empty, and their mean |
| PdfReport.GenerateStudentReport | services/report/src/pdfGenerator.js:17-93 | one line per subject with its scores and their mean; the overall figure is the mean of all scores and the orientation its band |
| PdfReport.BulletinMatchesAggregate | services/report/src/pdfGenerator.js:68 | for the term's grades in any order, the bulletin's overall mean is the average endpoint's overall_average and its count total_grades |
| PdfReport.BulletinSubjectsMatchAggregate | services/report/src/pdfGenerator.js:58-65 | each subject mean on the bulletin equals the average endpoint's figure for that subject |
| PdfReport.StudentsWithGradesAsWritten | services/report/src/pdfGenerator.js:118 | counts the rows whose average is positive; at most the row count |
| PdfReport.StudentsWithGrades | services/report/src/pdfGenerator.js:117-118 | counts the rows with at least one grade; at most the row count |
| PdfReport.AsWrittenCountsPositiveAverages | services/report/src/pdfGenerator.js:118 | the as-written count misses exactly the graded students whose average is 0 |
| PdfReport.ZeroAverageNotCounted | services/report/src/pdfGenerator.js:118 | a class whose one student has a single 0 reports no student with grades |
| PdfReport.ClassAverage | services/report/src/pdfGenerator.js:119 | defined exactly for a non-empty class; average times class size is the sum of averages, a student without grades counting 0 |
| PdfReport.ClassAverageInRange | services/report/src/pdfGenerator.js:119 | with averages in [0, 20], the class average is in [0, 20] |
| PdfReport.AverageCell | services/report/src/pdfGenerator.js:145 | a missing or zero average prints N/A; any other is printed |
| PdfReport.OrientationCell | services/report/src/pdfGenerator.js:146 | an empty orientation prints N/A; any other is printed as is |
| PdfReport.GenerateClassReport | services/report/src/pdfGenerator.js:95-157 | the summary holds the row count, the graded-student count and the class average; one line per row, in order, with its e-mail, average cell and orientation cell |
| Reporting.ReportUrl | services/report/src/routes.js:57-61 | the url is `/reports/` followed by the file name, which can be read back from it |
| Reporting.BulletinRows | services/report/src/routes.js:34-39 | exactly the student's records for the term, ordered by subject then creation time |
| Reporting.RenderBulletin | services/report/src/routes.js:46-50 | on those rows the bulletin has one line per subject, in order of first appearance, with its scores and their mean; its overall figure and orientation are the average endpoint's overall_average and its band |
| Reporting.ReportService.GenerateStudent | services/report/src/routes.js:19-71 | 400 for a malformed body or no student id, 404 for an unknown student or no grades in the term, and then no file and no catalog row; on success one file is stored, holding the student's e-mail, the term, one line per subject of the term's rows with its scores and mean, and the average endpoint's overall figure and band; one catalog row (student, term, url) is appended, and download_url is that row's url; repeats append again |
| Reporting.ReportService.GenerateClass | services/report/src/routes.js:74-135 | 400 for a malformed body or no class id, 404 for an unknown class or a class without students; on success the report file is stored, holding the class name, level and term, the summary, and one line per statistics row with its e-mail, average cell and orientation cell; the catalog is not touched and the student count is the row count |
| Reporting.JoinCatalog | services/report/src/routes.js:162-181 | exactly the catalog rows matching the optional student and term filters whose student exists, each with its e-mail |
| Reporting.ReportService.ListReports | services/report/src/routes.js:158-191 | the matching catalog rows, newest first |
| Reporting.ReportService.Download | services/report/src/routes.js:138-155 | 404 exactly when no file of that name exists; otherwise that file |
| Reporting.ReportService.ListedReportsDownload | services/report/src/routes.js:57-61 | every listed report's url names a file the download finds |
| Reporting.TermGeneralStats | services/report/src/routes.js:203-211 | students_with_grades is the number of distinct students graded in the term and subjects_count the number of distinct subjects; total_grades counts the term's grades; the average exists exactly when some grade does, and is their mean |
| Reporting.GradedUsers | services/report/src/routes.js:214-225 | the users with at least one grade in the term |
| Reporting.TopRows | services/report/src/routes.js:214-225 | one row per graded user, in order, holding that user's mean and count |
| Reporting.TopCandidatesAreGradedUsers | services/report/src/routes.js:214-225 | every candidate row belongs to a user with grades in the term and carries that user's mean and count; every such user has a row |
| Reporting.TopFive | services/report/src/routes.js:214-225 | at most five rows (all when fewer), by average descending, each a different candidate row (a sub-multiset of the candidates); no left-out row has a higher average than a kept one |
| Reporting.StudentBands | services/report/src/routes.js:228-248 | one band per student graded in the term: band c occurs exactly as often as there are such students whose average is in c |
| Reporting.NonEmptyRows | services/report/src/routes.js:243-247 | GROUP BY yields a row only for a band with students, and dropping the empty ones keeps the total |
| Reporting.Distribution | services/report/src/routes.js:228-248 | at most five rows, each with a positive count |
| Reporting.DistributionRows | services/report/src/routes.js:228-248 | a row per band that some student is in, labelled as the CASE labels it, with that band's number of students, and no other row |
| Reporting.DistributionTotal | services/report/src/routes.js:228-248 | the counts add up to the number of students |
| Reporting.BandCountsCover | services/report/src/routes.js:228-248 | every student falls in exactly one band: the five band multiplicities add up to the number of students |
| Reporting.StatsAsWritten | services/report/src/routes.js:194-260 | 400 without a term; with one, the rejected distribution query makes the handler answer 500 |
| Reporting.Stats | services/report/src/routes.js:194-260 | 400 exactly when no term is given; otherwise the general figures, the top five, and a distribution with one row per occupied band counting that band's distinct students, the counts adding up to students_with_grades |
| Reporting.StatsAlwaysFails | services/report/src/routes.js:228-248 | for every term the handler as written answers 500 where the corrected one succeeds |
| Timetable.ClockKeyInjective | services/timetable/src/routes.js:13-14 | distinct HH:MM strings have distinct numeric keys |
| Timetable.ConflictsIsOverlap | services/timetable/src/routes.js:38-50 | for slots that start before they end, the three-way test is exactly overlap of half-open intervals |
| Timetable.BackToBackAllowed | services/timetable/src/routes.js:38-50 | a slot starting when another ends does not conflict with it |
| Timetable.AppendKeepsNoOverlaps | services/timetable/src/routes.js:38-64 | adding a slot that passed the conflict test keeps every class and day free of overlaps |
| Timetable.ReplaceKeepsNoOverlaps | services/timetable/src/routes.js:164-188 | rewriting a slot that passed the conflict test (itself excluded) keeps every class and day free of overlaps |
| Timetable.RoomOrNull | services/timetable/src/routes.js:60 | an empty or missing room is stored as NULL, any other as given |
| Timetable.OnDayInStartOrder | services/timetable/src/routes.js:92-111 | rows ordered by day then start leave each day's bucket in start order |
| Timetable.BucketsPartition | services/timetable/src/routes.js:108-111 | with days in 1..7 the seven buckets together hold every row once |
| Timetable.OrderedSorted | services/timetable/src/routes.js:92 | ORDER BY day_of_week, start_time yields the rows in that order, as a permutation of them |
| Timetable.BucketStep | services/timetable/src/routes.js:108-111 | pushing one more row onto its day's array keeps every array equal to that day's rows read so far |
| Timetable.BucketByDay | services/timetable/src/routes.js:96-111 | the loop leaves in bucket d exactly the rows of day d + 1, in arrival order |
| Timetable.WeekOfMembers | services/timetable/src/routes.js:86-111 | a class's bucket for a day holds exactly that class's slots on that day |
| Timetable.WeekOfInStartOrder | services/timetable/src/routes.js:86-111 | each bucket of the week view is in start order |
| Timetable.WeekOfOtherClass | services/timetable/src/routes.js:63-64 | a new slot of another class leaves a class's view unchanged |
| Timetable.DayNameAsWritten | services/timetable/src/routes.js:106-110 | the sunday-first name array has a name exactly for 0..6 |
| Timetable.DayName | services/timetable/src/routes.js:96-104 | days 1..7 name monday..sunday |
| Timetable.DayNamesAgreeExceptSunday | services/timetable/src/routes.js:106-110 | the two lookups agree on days 1..6; day 7 has no name as written and is sunday as intended |
| Timetable.SundaySlotBreaksRead | services/timetable/src/routes.js:106-111 | a class with a day-7 slot gets 500 on every uncached read |
| Timetable.UpdateAsWritten | services/timetable/src/routes.js:181-190 | the update drops only the new class's cached view and keeps every other key |
| Timetable.UpdateLeavesStaleView | services/timetable/src/routes.js:181-190 | moving a slot to another class leaves the old class's cached view listing a slot the class no longer has |
| Timetable.ListEntries | services/timetable/src/routes.js:224-264 | exactly the slots whose class exists (the inner join) and that pass every filter given, ordered by day then start time |
| Timetable.Planner.Create | services/timetable/src/routes.js:21-72 | fails only with 400, 404 or 409: 400 exactly for a malformed slot, 404 exactly for an unknown class or a teacher id that is not a teacher's, 409 exactly for a conflict once those pass, and then nothing changes; otherwise the slot is appended, its class's view dropped, and the table stays overlap-free with a coherent cache |
| Timetable.Planner.Update | services/timetable/src/routes.js:152-200 | fails only with 400, 404 or 409: 400 exactly for a malformed slot, 404 exactly for an unknown id, 409 exactly for a conflict with another slot once those pass; otherwise the slot is rewritten in place and the views of its old and new class are dropped, keeping the table overlap-free and the cache coherent |
| Timetable.Planner.Delete | services/timetable/src/routes.js:203-221 | 404 exactly when no slot has the id; otherwise that slot is removed and its class's view dropped |
| Timetable.Planner.ReadClass | services/timetable/src/routes.js:75-128 | a hit returns the cached view unchanged; a miss computes, caches and returns the class's week view; either way the result is the view of the current slots |
| Roster.RoleMatches | services/user/src/routes.js:108-112 | the handler's two-case role test is role equality for the two admitted roles |
| Roster.ClassMembers | services/user/src/routes.js:70-76 | exactly the memberships of the class whose user exists, joined with that user |
| Roster.ClassDetails | services/user/src/routes.js:60-87 | 404 exactly for an unknown class; otherwise the class and its joined members, ordered by role then e-mail |
| Roster.AvailableUsers | services/user/src/routes.js:155-183 | exactly the users with the given role (if any) that are not members of the given class (if any), ordered by e-mail |
| Roster.AvailableIsComplementOfMembers | services/user/src/routes.js:155-183 | with unique user ids, a user is available for a class exactly when the class details do not list them |
| Roster.Roster.CreateClass | services/user/src/routes.js:40-57 | 400 unless name and level are non-empty; otherwise one class is appended |
| Roster.Roster.AddMember | services/user/src/routes.js:90-131 | guards in order: 400 malformed body, 404 unknown class (the path id), 404 unknown user, 400 role mismatch, 409 existing pair; otherwise exactly one membership is appended; pairs stay unique |
| Roster.Roster.RemoveMember | services/user/src/routes.js:134-152 | 404 exactly when the pair is not a member; otherwise exactly that membership is removed and every other stays |

## Left out

- GET /grades/class/:classId, GET /classes and GET /entries/teacher/:teacherId are plain joins outside the modelled core.
- Redis TTL expiry: the TTL (3600) is recorded with each cached average; entries never expire in the model, since no clock is modelled.
- `toFixed(2)` in the average payload: the cached snapshot holds exact averages. The rounding is modelled only where it changes a band (Orientation.Round2, DisplayedBand).
- The PostgreSQL driver returns AVG and COUNT as strings. In the class report that would make the sum a string concatenation and leave `toFixed` undefined. The model uses numbers throughout.
- String order is character-code order. Database collation is not modelled.
- `Object.entries` lists integer-like keys first, and a subject named like an `Object.prototype` member (e.g. `constructor`) is treated as already present by `!subjectAverages[...]`. PdfReport.GroupBySubject uses first-appearance order and a plain map.
- Malformed path or query ids that PostgreSQL rejects (a non-uuid id compared to a uuid column) answer 500 in the services. The grade, average and teacher progress handlers model this (Average, Grades, TeacherProgress). The other handlers compare ids as strings and answer 404 or an empty result instead.
- Academic.ClassStatistics: the class id is compared with the memberships' class ids as a string. The query compares a uuid column, so it would list the students for an upper-case spelling of the class uuid and answer 500 for an id that is not a uuid. The model answers 200 with no rows in both cases. The memberships come from the user service, which compares ids as strings too.
- Upper-case spellings of uuids: outside the grade, average and teacher progress handlers, ids are compared as strings. Where the database would match `A0EE…` with `a0ee…`, those handlers treat them as different ids.
- PostgreSQL also accepts uuids in braces or without hyphens. The model treats any id outside the 8-4-4-4-12 form as one the column refuses.
- Reporting.Distribution: the distribution query as written is rejected by PostgreSQL. The corrected distribution counts each student with grades in the term once, by the band of their average.
- Download: path traversal through the file name and the byte stream are not modelled. Files are a map from name to document content.
- PDF layout (fonts, positions, streams, directories), `Date.now()` and `toLocaleDateString` are not modelled. The time is a parameter.
- Concurrency between requests: each handler is one atomic step.
- Authentication and the web client are not modelled. Only the client's orientation thresholds are.
- Timetable.WeekOf: the week view omits class_name, level and teacher_email. Its rows are not filtered by the join with the class table.
- Timetable.Planner.Update: the update, like the source, does not check that the class or the teacher exists.
- Timetable clock strings: the schema admits any two-digit pair, such as "25:99". Times compare by their HHMM digits, as strings of that shape do. The column type is not modelled.
- Timetable.ListEntries: a day filter that does not parse as an integer (NaN) is not modelled. The parameter is the parsed integer.
- Roster.Roster.AddMember: the 409 is the unique constraint on (class_id, user_id). The schema file is not part of this model; the constraint is taken to be that pair.
- Roster.Roster.CreateClass: the generated class id is a parameter that must be fresh. The created_at column is not modelled.
- Academic.GradeBook.AddGrade: ids and creation times come from counters and a time parameter, not from the database.

## Findings

| source | as written | input that shows it | evidently intended | confidence | as-written member | corrected member |
|---|---|---|---|---|---|---|
| services/academic/src/routes.js:34 | the cache keys are spelled with the id as the request gives it, while the database stores the id in lower case and matches any spelling | GET /grades/a0eebc99-9c0b-4ef8-bb6d-6bb9bd380a11/average?term=T1, then POST /grades for `A0EEBC99-9C0B-4EF8-BB6D-6BB9BD380A11` in T1, then the same GET: it is served the cached average without the new grade | one cache entry per student and term, which every new grade for them drops; the key and the payload carry the canonical spelling | not executed | Academic.MixedCaseGradeLeavesStaleAverage | Academic.GradeBook.AddGrade |
| frontend/src/components/ReportView.jsx:174-177 | the client classifies the average endpoint's figure after toFixed(2), while the bulletin classifies the exact mean | an overall average of 15.996: the client shows Excellent, the bulletin Très bien | the same band on the screen and on the bulletin, from the exact average | not executed | Orientation.DisplayedBandCanDiffer | Orientation.ReportViewOrientation |
| services/timetable/src/routes.js:106-110 | `dayNames` starts at sunday, so `dayNames[7]` is undefined and the push throws | a slot with day_of_week 7, then an uncached read of its class | day 7 is sunday, as the schema's 1..7 range implies | not executed | Timetable.SundaySlotBreaksRead | Timetable.Planner.ReadClass |
| services/timetable/src/routes.js:190 | PUT drops only the new class's cached view | a cached class A whose slot is moved to class B | both the old and the new class's views are dropped | not executed | Timetable.UpdateLeavesStaleView | Timetable.Planner.Update |
| services/report/src/pdfGenerator.js:118 | "students with grades" counts averages greater than 0 | a class whose one student has the single grade 0 | students with at least one grade | not executed | PdfReport.ZeroAverageNotCounted | PdfReport.GenerateClassReport |
| services/report/src/routes.js:228-248 | the distribution query groups by an expression containing AVG, which PostgreSQL rejects, so /stats answers 500 | any term | the general figures, the top five and a per-band count of students | not executed | Reporting.StatsAlwaysFails | Reporting.Stats |
