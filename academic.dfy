/**
 * The academic service: an append-only grade ledger, the per-student
 * average served through a read-through / write-invalidate cache, class
 * statistics with an orientation per student, and the teacher-progress
 * upsert. The ledger, the cache and the progress table are the fields of a
 * GradeBook; the roster tables it joins against are parameters.
 */
module Academic {
  import opened Common
  import opened Collections
  import opened Grades
  import opened Orientation

  /** Seconds a computed average stays in the cache. */
  const AVERAGE_TTL: nat := 3600

  // ---- POST /grades: the request schema ----

  datatype GradeInput = GradeInput(student_id: string, subject: string, term: string, score: real)

  predicate ValidGrade(g: GradeInput) {
    IsUuid(g.student_id) && |g.subject| >= 1 && |g.term| >= 1 && InScoreRange(g.score)
  }

  /**
   * What every stored record satisfies: it passed the schema, got a fresh
   * id, and its student id is in the canonical spelling the uuid column keeps.
   */
  predicate LedgerWellFormed(ledger: seq<GradeRecord>, nextId: nat) {
    forall i :: 0 <= i < |ledger| ==>
      && ledger[i].id < nextId && InScoreRange(ledger[i].score)
      && IsUuid(ledger[i].student_id) && CanonicalId(ledger[i].student_id) == ledger[i].student_id
  }

  // ---- the average snapshot ----

  datatype SubjectAverage = SubjectAverage(subject: string, average: real)

  datatype Snapshot = Snapshot(
    student_id: string, term: string, overall_average: real, total_grades: nat,
    subjects: seq<SubjectAverage>)

  function SubjectNames(subjects: seq<SubjectAverage>): (r: seq<string>)
    ensures |r| == |subjects|
    ensures forall i :: 0 <= i < |r| ==> r[i] == subjects[i].subject
  {
    if subjects == [] then [] else SubjectNames(subjects[..|subjects| - 1]) + [subjects[|subjects| - 1].subject]
  }

  /** The given subjects, in the given order, each with the mean of its scores. */
  function SubjectMeans(recs: seq<GradeRecord>, names: seq<string>): (subjects: seq<SubjectAverage>)
    requires forall s :: s in names ==> ScoresOf(recs, s) != []
    ensures SubjectNames(subjects) == names
    ensures forall i :: 0 <= i < |subjects| ==>
      ScoresOf(recs, subjects[i].subject) != [] && subjects[i].average == Mean(ScoresOf(recs, subjects[i].subject))
  {
    if names == [] then []
    else
      var last := names[|names| - 1];
      SubjectMeans(recs, names[..|names| - 1]) + [SubjectAverage(last, Mean(ScoresOf(recs, last)))]
  }

  /**
   * One entry per subject of a ledger slice, sorted by name, holding the
   * mean of that subject's scores.
   */
  function SubjectBreakdown(recs: seq<GradeRecord>): (subjects: seq<SubjectAverage>)
    ensures NoDuplicates(SubjectNames(subjects))
    ensures forall s :: s in SubjectNames(subjects) <==> exists i :: 0 <= i < |recs| && recs[i].subject == s
    ensures forall i :: 0 <= i < |subjects| ==>
      ScoresOf(recs, subjects[i].subject) != [] && subjects[i].average == Mean(ScoresOf(recs, subjects[i].subject))
  {
    var names := SortBy(SubjectsInOrder(recs), StrLeq);
    assert forall s :: s in names ==> ScoresOf(recs, s) != [] by {
      forall s | s in names ensures ScoresOf(recs, s) != [] {
        ScoresOfPresent(recs, s);
      }
    }
    SubjectMeans(recs, names)
  }

  /** The breakdown lists its subjects in name order. */
  lemma SubjectBreakdownSorted(recs: seq<GradeRecord>)
    ensures SortedBy(SubjectNames(SubjectBreakdown(recs)), StrLeq)
  {
    StrLeqIsTotalPreorder();
    SortBySorted(SubjectsInOrder(recs), StrLeq);
  }

  /**
   * The snapshot the average endpoint computes on a miss: the record count,
   * the record-weighted mean (0 when there is nothing to average) and the
   * per-subject breakdown.
   */
  function Aggregate(ledger: seq<GradeRecord>, student: string, term: string): (snap: Snapshot)
    ensures snap.student_id == student && snap.term == term
    ensures snap.total_grades == |RecordsFor(ledger, student, term)|
    ensures snap.total_grades == 0 ==> snap.overall_average == 0.0
    ensures snap.total_grades > 0 ==> snap.overall_average == Mean(Scores(RecordsFor(ledger, student, term)))
    ensures snap.subjects == SubjectBreakdown(RecordsFor(ledger, student, term))
  {
    var recs := RecordsFor(ledger, student, term);
    Snapshot(student, term, if recs == [] then 0.0 else Mean(Scores(recs)), |recs|, SubjectBreakdown(recs))
  }

  /**
   * The subjects of a snapshot are exactly those the student was graded in
   * that term, each listed once, in name order; none when there are no grades.
   */
  lemma AggregateSubjects(ledger: seq<GradeRecord>, student: string, term: string)
    ensures var names := SubjectNames(Aggregate(ledger, student, term).subjects);
      && SortedBy(names, StrLeq) && NoDuplicates(names)
      && (forall s :: s in names <==> exists x :: x in ledger && IsFor(x, student, term) && x.subject == s)
      && (Aggregate(ledger, student, term).total_grades == 0 ==> names == [])
  {
    var recs := RecordsFor(ledger, student, term);
    SubjectBreakdownSorted(recs);
    var names := SubjectNames(SubjectBreakdown(recs));
    forall s ensures s in names <==> exists x :: x in ledger && IsFor(x, student, term) && x.subject == s {
      SliceSubject(ledger, student, term, s);
    }
  }

  /** A subject occurs in a student's term slice iff one of their records for that term has it. */
  lemma SliceSubject(ledger: seq<GradeRecord>, student: string, term: string, s: string)
    ensures var recs := RecordsFor(ledger, student, term);
      (exists i :: 0 <= i < |recs| && recs[i].subject == s)
      <==> exists x :: x in ledger && IsFor(x, student, term) && x.subject == s
  {
    var recs := RecordsFor(ledger, student, term);
    if exists i :: 0 <= i < |recs| && recs[i].subject == s {
      var i :| 0 <= i < |recs| && recs[i].subject == s;
      assert recs[i] in recs;
    }
    if exists x :: x in ledger && IsFor(x, student, term) && x.subject == s {
      var x :| x in ledger && IsFor(x, student, term) && x.subject == s;
      var i :| 0 <= i < |recs| && recs[i] == x;
      assert recs[i].subject == s;
    }
  }

  /** With scores held to [0, 20], every average in a snapshot is on the same scale. */
  lemma AggregateInRange(ledger: seq<GradeRecord>, nextId: nat, student: string, term: string)
    requires LedgerWellFormed(ledger, nextId)
    ensures InScoreRange(Aggregate(ledger, student, term).overall_average)
    ensures forall i :: 0 <= i < |Aggregate(ledger, student, term).subjects| ==>
      InScoreRange(Aggregate(ledger, student, term).subjects[i].average)
  {
    var recs := RecordsFor(ledger, student, term);
    forall i | 0 <= i < |recs| ensures InScoreRange(recs[i].score) {
      assert recs[i] in ledger;
    }
    if recs != [] {
      MeanInRange(Scores(recs), MIN_SCORE, MAX_SCORE);
    }
    SubjectBreakdownInRange(recs);
  }

  lemma SubjectBreakdownInRange(recs: seq<GradeRecord>)
    requires forall i :: 0 <= i < |recs| ==> InScoreRange(recs[i].score)
    ensures forall i :: 0 <= i < |SubjectBreakdown(recs)| ==> InScoreRange(SubjectBreakdown(recs)[i].average)
  {
    var subjects := SubjectBreakdown(recs);
    forall i | 0 <= i < |subjects| ensures InScoreRange(subjects[i].average) {
      var xs := ScoresOf(recs, subjects[i].subject);
      ScoresOfInRange(recs, subjects[i].subject);
      MeanInRange(xs, MIN_SCORE, MAX_SCORE);
    }
  }

  /** An appended record only changes the snapshot of its own student and term. */
  lemma AggregateUnaffected(ledger: seq<GradeRecord>, x: GradeRecord, student: string, term: string)
    requires !IsFor(x, student, term)
    ensures Aggregate(ledger + [x], student, term) == Aggregate(ledger, student, term)
  {
    RecordsForAppend(ledger, x, student, term);
  }

  /** A snapshot's average times its count is its ledger slice's sum of scores. */
  lemma AggregateSum(ledger: seq<GradeRecord>, student: string, term: string, snap: Snapshot)
    requires snap == Aggregate(ledger, student, term)
    ensures snap.overall_average * snap.total_grades as real == Sum(Scores(RecordsFor(ledger, student, term)))
  {
    AverageTimesCount(snap.overall_average, snap.total_grades, Scores(RecordsFor(ledger, student, term)));
  }

  lemma AverageTimesCount(avg: real, n: nat, xs: seq<real>)
    requires n == |xs|
    requires n == 0 ==> avg == 0.0
    requires n > 0 ==> avg == Mean(xs)
    ensures avg * n as real == Sum(xs)
  {
    if n > 0 {
      MeanTimesCount(xs);
    }
  }

  /**
   * Appending a record to the ledger: the next snapshot of its student and
   * term counts one more grade, and the sum of scores behind its average
   * grows by exactly the new score.
   */
  lemma AggregateAfterAppend(ledger: seq<GradeRecord>, x: GradeRecord, before: Snapshot, after: Snapshot)
    requires before == Aggregate(ledger, x.student_id, x.term)
    requires after == Aggregate(ledger + [x], x.student_id, x.term)
    ensures after.total_grades == before.total_grades + 1
    ensures after.overall_average * after.total_grades as real
         == before.overall_average * before.total_grades as real + x.score
  {
    var recs := RecordsFor(ledger, x.student_id, x.term);
    RecordsForAppend(ledger, x, x.student_id, x.term);
    var recs' := recs + [x];
    assert recs'[..|recs'| - 1] == recs;
    assert Scores(recs') == Scores(recs) + [x.score];
    AggregateSum(ledger, x.student_id, x.term, before);
    AggregateSum(ledger + [x], x.student_id, x.term, after);
  }

  // ---- the average cache ----

  /** The Redis key the service spells out for a student id and a term. */
  function RedisKey(studentId: string, term: string): string {
    "grades:" + studentId + ":" + term
  }

  /**
   * The key under which the grade book files the average of a student id
   * and a term: a uuid in its canonical spelling, any other id as given.
   */
  function AverageKey(studentId: string, term: string): string {
    if IsUuid(studentId) then RedisKey(CanonicalId(studentId), term) else RedisKey(studentId, term)
  }

  /** The student and term parts of a key whose student part is a uuid. */
  function KeyStudent(key: string): string
    requires |key| >= 44
  {
    key[7..43]
  }

  function KeyTerm(key: string): string
    requires |key| >= 44
  {
    key[44..]
  }

  /** A key spelled from a canonical uuid and a term. */
  predicate PairKey(key: string) {
    && |key| >= 44 && key[..7] == "grades:" && key[43] == ':'
    && IsUuid(KeyStudent(key)) && CanonicalId(KeyStudent(key)) == KeyStudent(key)
  }

  /** A uuid's key reads back as that uuid and that term. */
  lemma RedisKeyParts(id: string, term: string)
    requires IsUuid(id)
    ensures var key := RedisKey(id, term);
      && |key| >= 44 && key[..7] == "grades:" && key[43] == ':'
      && KeyStudent(key) == id && KeyTerm(key) == term
  {
    var key := RedisKey(id, term);
    assert key == "grades:" + id + ":" + term;
    assert key[..7] == "grades:";
    assert key[7..43] == id;
    assert key[44..] == term;
  }

  /** Keys spelled from uuids name one (student, term) pair each. */
  lemma RedisKeyInjective(a: string, s: string, b: string, t: string)
    requires IsUuid(a) && IsUuid(b) && RedisKey(a, s) == RedisKey(b, t)
    ensures a == b && s == t
  {
    RedisKeyParts(a, s);
    RedisKeyParts(b, t);
  }

  /** A pair key is the key of its own parts. */
  lemma PairKeySpelled(key: string)
    requires PairKey(key)
    ensures key == RedisKey(KeyStudent(key), KeyTerm(key))
  {
    assert key == key[..7] + key[7..43] + key[43..44] + key[44..];
    assert key[43..44] == ":";
  }

  /** Two spellings of one uuid share their key. */
  lemma AverageKeySpellings(a: string, b: string, term: string)
    requires IsUuid(a) && IsUuid(b) && CanonicalId(a) == CanonicalId(b)
    ensures AverageKey(a, term) == AverageKey(b, term)
    ensures PairKey(AverageKey(a, term))
    ensures KeyStudent(AverageKey(a, term)) == CanonicalId(a) && KeyTerm(AverageKey(a, term)) == term
  {
    CanonicalUuid(a);
    RedisKeyParts(CanonicalId(a), term);
  }

  /**
   * A path id made of a uuid, ':' and more text is no uuid, yet it spells
   * the key of that uuid under a longer term.
   */
  lemma MalformedIdSpellsPairKey(id: string, x: string, term: string)
    requires IsUuid(id)
    ensures !IsUuid(id + ":" + x)
    ensures RedisKey(id + ":" + x, term) == RedisKey(id, x + ":" + term)
  {
    assert |id + ":" + x| > 36;
    assert "grades:" + (id + ":" + x) + ":" + term == "grades:" + id + ":" + (x + ":" + term);
  }

  datatype CacheEntry = CacheEntry(snapshot: Snapshot, ttl: nat)

  /**
   * Every cached average sits under the key of a canonical uuid and a term,
   * and is what a fresh computation over the ledger gives for that pair.
   */
  ghost predicate CacheCoherent(ledger: seq<GradeRecord>, cache: map<string, CacheEntry>) {
    forall key :: key in cache ==>
      PairKey(key) && cache[key] == CacheEntry(Aggregate(ledger, KeyStudent(key), KeyTerm(key)), AVERAGE_TTL)
  }

  /** Storing a freshly computed snapshot keeps the cache coherent. */
  lemma CacheStoreKeepsCoherent(ledger: seq<GradeRecord>, cache: map<string, CacheEntry>, studentId: string, term: string)
    requires CacheCoherent(ledger, cache) && IsUuid(studentId)
    ensures CacheCoherent(ledger, cache[AverageKey(studentId, term) :=
      CacheEntry(Aggregate(ledger, CanonicalId(studentId), term), AVERAGE_TTL)])
  {
    AverageKeySpellings(studentId, studentId, term);
  }

  /** A record cannot belong to the pair of a key other than the record's own. */
  lemma OtherKeyOtherPair(key: string, rec: GradeRecord)
    requires PairKey(key) && key != RedisKey(rec.student_id, rec.term)
    ensures !IsFor(rec, KeyStudent(key), KeyTerm(key))
  {
    PairKeySpelled(key);
  }

  /**
   * POST /grades as written drops the key spelled with the body's id, while
   * PostgreSQL files the grade under the id's canonical spelling. After a
   * read of the average under another spelling of the same uuid, that
   * read's key survives the insert and holds a count one grade short.
   */
  lemma MixedCaseGradeLeavesStaleAverage(ledger: seq<GradeRecord>, cache: map<string, CacheEntry>, readId: string,
                                         input: GradeInput, rec: GradeRecord)
    requires IsUuid(readId) && ValidGrade(input)
    requires CanonicalId(readId) == CanonicalId(input.student_id) && readId != input.student_id
    requires rec.student_id == CanonicalId(input.student_id) && rec.term == input.term
    requires RedisKey(readId, input.term) in cache
    requires cache[RedisKey(readId, input.term)].snapshot.total_grades
          == |RecordsFor(ledger, CanonicalId(readId), input.term)|
    ensures var after := cache - {RedisKey(input.student_id, input.term)};
      && RedisKey(readId, input.term) in after
      && after[RedisKey(readId, input.term)].snapshot.total_grades + 1
         == |RecordsFor(ledger + [rec], CanonicalId(readId), input.term)|
  {
    if RedisKey(readId, input.term) == RedisKey(input.student_id, input.term) {
      RedisKeyInjective(readId, input.term, input.student_id, input.term);
    }
    RecordsForAppend(ledger, rec, CanonicalId(readId), input.term);
  }

  // ---- class statistics ----

  /** The student members of a class that exist as users, in membership order. */
  function EnrolledStudents(users: seq<User>, members: seq<Member>, classId: string): (r: seq<User>)
    ensures forall u :: u in r ==>
      (u in users && exists m :: m in members && m.class_id == classId && m.role == "student" && m.user_id == u.id)
    ensures forall m :: (m in members && m.class_id == classId && m.role == "student" &&
      FindUser(users, m.user_id).Some?) ==> FindUser(users, m.user_id).value in r
  {
    if members == [] then []
    else
      var m := members[|members| - 1];
      var rest := EnrolledStudents(users, members[..|members| - 1], classId);
      assert forall m' :: m' in members ==> m' in members[..|members| - 1] || m' == m;
      if m.class_id == classId && m.role == "student" && FindUser(users, m.user_id).Some? then
        rest + [FindUser(users, m.user_id).value]
      else rest
  }

  datatype StatRow = StatRow(
    student_id: string, student_email: string, average: Option<real>, total_grades: nat,
    orientation: string)

  /** One student's line: NULL average without grades, and the CASE orientation. */
  function StudentStat(ledger: seq<GradeRecord>, u: User, term: string): StatRow {
    var recs := RecordsFor(ledger, u.id, term);
    var average := if recs == [] then None else Some(Mean(Scores(recs)));
    StatRow(u.id, u.email, average, |recs|, SqlCaseOrientation(average))
  }

  /** What a statistics row promises about the ledger. */
  predicate StatRowFor(ledger: seq<GradeRecord>, term: string, row: StatRow) {
    var recs := RecordsFor(ledger, row.student_id, term);
    && row.total_grades == |recs|
    && (row.average.None? <==> row.total_grades == 0)
    && (row.average.Some? ==> recs != [] && row.average.value == Mean(Scores(recs)))
    && (row.average.None? ==> row.orientation == Label(Insuffisant))
    && (row.average.Some? ==> row.orientation == Label(Classify(row.average.value)))
  }

  lemma StudentStatIsFor(ledger: seq<GradeRecord>, u: User, term: string)
    ensures StatRowFor(ledger, term, StudentStat(ledger, u, term))
  {
  }

  /** ORDER BY average DESC NULLS LAST */
  predicate AverageDescNullsLast(a: StatRow, b: StatRow) {
    b.average.None? || (a.average.Some? && a.average.value >= b.average.value)
  }

  lemma AverageDescNullsLastIsTotalPreorder()
    ensures TotalPreorder(AverageDescNullsLast)
  {
  }

  function StudentStats(ledger: seq<GradeRecord>, students: seq<User>, term: string): (r: seq<StatRow>)
    ensures |r| == |students|
    ensures forall i :: 0 <= i < |r| ==> r[i] == StudentStat(ledger, students[i], term)
  {
    if students == [] then []
    else StudentStats(ledger, students[..|students| - 1], term) + [StudentStat(ledger, students[|students| - 1], term)]
  }

  /**
   * The statistics rows of a class for a term: one row per enrolled student,
   * graded or not, ordered by average with the ungraded last.
   */
  function ClassStatisticsRows(ledger: seq<GradeRecord>, users: seq<User>, members: seq<Member>,
                               classId: string, term: string): (r: seq<StatRow>)
    ensures |r| == |EnrolledStudents(users, members, classId)|
    ensures multiset(r) == multiset(StudentStats(ledger, EnrolledStudents(users, members, classId), term))
    ensures SortedBy(r, AverageDescNullsLast)
    ensures forall row :: row in r ==> StatRowFor(ledger, term, row)
  {
    var students := EnrolledStudents(users, members, classId);
    var rows := StudentStats(ledger, students, term);
    AverageDescNullsLastIsTotalPreorder();
    var r := SortBy(rows, AverageDescNullsLast);
    SortBySorted(rows, AverageDescNullsLast);
    SortByPermutes(rows, AverageDescNullsLast);
    StudentStatsAreFor(ledger, students, term);
    r
  }

  lemma StudentStatsAreFor(ledger: seq<GradeRecord>, students: seq<User>, term: string)
    ensures forall row :: row in StudentStats(ledger, students, term) ==> StatRowFor(ledger, term, row)
  {
    var rows := StudentStats(ledger, students, term);
    forall row | row in rows ensures StatRowFor(ledger, term, row) {
      var i :| 0 <= i < |rows| && rows[i] == row;
      StudentStatIsFor(ledger, students[i], term);
    }
  }

  /** GET /grades/class/:classId/statistics */
  function ClassStatistics(ledger: seq<GradeRecord>, users: seq<User>, members: seq<Member>,
                           classId: string, term: Option<string>): (r: Result<seq<StatRow>>)
    ensures r.Failure? <==> !Truthy(term)
    ensures r.Failure? ==> r.status == BAD_REQUEST
    ensures r.Success? ==> r.status == OK && r.value == ClassStatisticsRows(ledger, users, members, classId, term.value)
  {
    if !Truthy(term) then Failure(BAD_REQUEST)
    else Success(OK, ClassStatisticsRows(ledger, users, members, classId, term.value))
  }

  // ---- GET /grades/:studentId ----

  predicate NewestFirst(a: GradeRecord, b: GradeRecord) {
    a.created_at >= b.created_at
  }

  lemma NewestFirstIsTotalPreorder()
    ensures TotalPreorder(NewestFirst)
  {
  }

  predicate GradeMatches(x: GradeRecord, student: string, term: Option<string>) {
    x.student_id == student && (Truthy(term) ==> x.term == term.value)
  }

  /** A student's grades, in every term or, when a term is given, in that one; newest first. */
  function StudentGrades(ledger: seq<GradeRecord>, student: string, term: Option<string>): (r: seq<GradeRecord>)
    ensures SortedBy(r, NewestFirst)
    ensures multiset(r) == multiset(Filter(ledger, (x: GradeRecord) => GradeMatches(x, student, term)))
    ensures forall x :: x in r <==> x in ledger && GradeMatches(x, student, term)
  {
    NewestFirstIsTotalPreorder();
    var selected := Filter(ledger, (x: GradeRecord) => GradeMatches(x, student, term));
    SortBySorted(selected, NewestFirst);
    SortByPermutes(selected, NewestFirst);
    SortBy(selected, NewestFirst)
  }

  // ---- teacher progress ----

  datatype ProgressInput = ProgressInput(teacher_id: string, class_id: string, coverage_percent: real)

  predicate ValidProgress(p: ProgressInput) {
    IsUuid(p.teacher_id) && IsUuid(p.class_id) && 0.0 <= p.coverage_percent <= 100.0
  }

  datatype ProgressRow = ProgressRow(teacher_id: string, class_id: string, coverage_percent: real, updated_at: int)

  predicate SameProgressKey(a: ProgressRow, b: ProgressRow) {
    a.teacher_id == b.teacher_id && a.class_id == b.class_id
  }

  /**
   * The row the upsert writes: both ids in the lower-case spelling the uuid
   * columns store, so that the ON CONFLICT test is PostgreSQL's uuid equality.
   */
  function ProgressRowOf(input: ProgressInput, now: int): (row: ProgressRow)
    requires ValidProgress(input)
    ensures IsUuid(row.teacher_id) && CanonicalId(row.teacher_id) == row.teacher_id
    ensures IsUuid(row.class_id) && CanonicalId(row.class_id) == row.class_id
    ensures row.coverage_percent == input.coverage_percent && row.updated_at == now
  {
    CanonicalUuid(input.teacher_id);
    CanonicalUuid(input.class_id);
    ProgressRow(CanonicalId(input.teacher_id), CanonicalId(input.class_id), input.coverage_percent, now)
  }

  /** Every stored progress row spells its ids canonically. */
  predicate ProgressCanonical(rows: seq<ProgressRow>) {
    forall p :: p in rows ==> CanonicalId(p.teacher_id) == p.teacher_id && CanonicalId(p.class_id) == p.class_id
  }

  /** The (teacher_id, class_id) uniqueness the ON CONFLICT clause relies on. */
  predicate ProgressKeysUnique(rows: seq<ProgressRow>) {
    forall i, j :: 0 <= i < j < |rows| ==> !SameProgressKey(rows[i], rows[j])
  }

  function FindProgress(rows: seq<ProgressRow>, row: ProgressRow): (r: Option<nat>)
    ensures r.Some? ==> r.value < |rows| && SameProgressKey(rows[r.value], row)
    ensures r.None? ==> forall i :: 0 <= i < |rows| ==> !SameProgressKey(rows[i], row)
  {
    if rows == [] then None
    else if SameProgressKey(rows[|rows| - 1], row) then Some(|rows| - 1)
    else FindProgress(rows[..|rows| - 1], row)
  }

  /**
   * INSERT ... ON CONFLICT (teacher_id, class_id) DO UPDATE: afterwards the
   * pair has exactly one row, the new one; every other row is untouched.
   */
  function Upsert(rows: seq<ProgressRow>, row: ProgressRow): (r: seq<ProgressRow>)
    requires ProgressKeysUnique(rows)
    ensures ProgressKeysUnique(r)
    ensures row in r
    ensures forall x :: x in r && SameProgressKey(x, row) ==> x == row
    ensures forall x :: x in rows && !SameProgressKey(x, row) ==> x in r
    ensures forall x :: x in r && !SameProgressKey(x, row) ==> x in rows
    ensures |r| == if FindProgress(rows, row).Some? then |rows| else |rows| + 1
  {
    match FindProgress(rows, row)
    case Some(i) =>
      var r := rows[i := row];
      assert r[i] == row;
      assert forall x :: x in rows && !SameProgressKey(x, row) ==> x in r by {
        forall x | x in rows && !SameProgressKey(x, row) ensures x in r {
          var j :| 0 <= j < |rows| && rows[j] == x;
          assert j != i && r[j] == x;
        }
      }
      assert forall x :: x in r && SameProgressKey(x, row) ==> x == row by {
        forall x | x in r && SameProgressKey(x, row) ensures x == row {
          var j :| 0 <= j < |r| && r[j] == x;
          if j != i {
            assert SameProgressKey(rows[j], rows[i]);
          }
        }
      }
      r
    case None =>
      rows + [row]
  }

  datatype ProgressView = ProgressView(
    teacher_id: string, class_id: string, coverage_percent: real, updated_at: int,
    class_name: string, level: string)

  predicate RecentlyUpdatedFirst(a: ProgressView, b: ProgressView) {
    a.updated_at >= b.updated_at
  }

  lemma RecentlyUpdatedFirstIsTotalPreorder()
    ensures TotalPreorder(RecentlyUpdatedFirst)
  {
  }

  /** The teacher's rows joined with their class (rows without a class drop out). */
  function JoinProgress(rows: seq<ProgressRow>, classes: seq<ClassRow>, teacherId: string): (r: seq<ProgressView>)
    ensures forall v :: v in r <==>
      exists p, c :: p in rows && c in classes && p.teacher_id == teacherId && c.id == p.class_id &&
        FindClass(classes, p.class_id) == Some(c) &&
        v == ProgressView(p.teacher_id, p.class_id, p.coverage_percent, p.updated_at, c.name, c.level)
  {
    if rows == [] then []
    else
      var p := rows[|rows| - 1];
      var rest := JoinProgress(rows[..|rows| - 1], classes, teacherId);
      assert forall q :: q in rows <==> q in rows[..|rows| - 1] || q == p;
      var found := FindClass(classes, p.class_id);
      if p.teacher_id == teacherId && found.Some? then
        rest + [ProgressView(p.teacher_id, p.class_id, p.coverage_percent, p.updated_at,
                             found.value.name, found.value.level)]
      else rest
  }

  /**
   * GET /progress/:teacherId, most recently updated first. An id the uuid
   * column refuses makes the query fail with 500; any spelling of a uuid
   * selects the rows of that teacher.
   */
  function TeacherProgress(rows: seq<ProgressRow>, classes: seq<ClassRow>, teacherId: string): (r: Result<seq<ProgressView>>)
    ensures r.Failure? <==> !IsUuid(teacherId)
    ensures r.Failure? ==> r.status == SERVER_ERROR
    ensures r.Success? ==>
      && r.status == OK && SortedBy(r.value, RecentlyUpdatedFirst)
      && multiset(r.value) == multiset(JoinProgress(rows, classes, CanonicalId(teacherId)))
  {
    if !IsUuid(teacherId) then Failure(SERVER_ERROR)
    else
      var joined := JoinProgress(rows, classes, CanonicalId(teacherId));
      RecentlyUpdatedFirstIsTotalPreorder();
      SortBySorted(joined, RecentlyUpdatedFirst);
      SortByPermutes(joined, RecentlyUpdatedFirst);
      Success(OK, SortBy(joined, RecentlyUpdatedFirst))
  }

  /**
   * Posting progress for two spellings of the same teacher and class keeps
   * one row for the pair: the second post updates the first one's row.
   */
  lemma ProgressSpellingsShareRow(rows: seq<ProgressRow>, a: ProgressInput, b: ProgressInput, t: int, u: int)
    requires ProgressKeysUnique(rows) && ValidProgress(a) && ValidProgress(b)
    requires CanonicalId(a.teacher_id) == CanonicalId(b.teacher_id)
    requires CanonicalId(a.class_id) == CanonicalId(b.class_id)
    ensures var first := Upsert(rows, ProgressRowOf(a, t));
      && |Upsert(first, ProgressRowOf(b, u))| == |first|
      && forall x :: x in Upsert(first, ProgressRowOf(b, u)) && SameProgressKey(x, ProgressRowOf(a, t)) ==>
           x == ProgressRowOf(b, u)
  {
    var first := Upsert(rows, ProgressRowOf(a, t));
    var i :| 0 <= i < |first| && first[i] == ProgressRowOf(a, t);
    assert SameProgressKey(first[i], ProgressRowOf(b, u));
  }

  /**
   * A posted row is listed for its teacher under any spelling of the
   * teacher's uuid, as long as its class exists.
   */
  lemma PostedProgressListed(rows: seq<ProgressRow>, classes: seq<ClassRow>, input: ProgressInput, now: int,
                             teacherId: string)
    requires ProgressKeysUnique(rows) && ValidProgress(input) && IsUuid(teacherId)
    requires CanonicalId(teacherId) == CanonicalId(input.teacher_id)
    requires FindClass(classes, CanonicalId(input.class_id)).Some?
    ensures var row, c := ProgressRowOf(input, now), FindClass(classes, CanonicalId(input.class_id)).value;
      ProgressView(row.teacher_id, row.class_id, row.coverage_percent, now, c.name, c.level) in
        TeacherProgress(Upsert(rows, row), classes, teacherId).value
  {
    var row, c := ProgressRowOf(input, now), FindClass(classes, CanonicalId(input.class_id)).value;
    var after := Upsert(rows, row);
    var v := ProgressView(row.teacher_id, row.class_id, row.coverage_percent, now, c.name, c.level);
    assert v in JoinProgress(after, classes, CanonicalId(teacherId));
    assert v in multiset(TeacherProgress(after, classes, teacherId).value);
  }

  // ---- the service state ----

  class GradeBook {
    var ledger: seq<GradeRecord>
    var cache: map<string, CacheEntry>
    var progress: seq<ProgressRow>
    var nextId: nat

    ghost predicate Valid()
      reads this
    {
      LedgerWellFormed(ledger, nextId) && CacheCoherent(ledger, cache) && ProgressKeysUnique(progress) &&
      ProgressCanonical(progress)
    }

    constructor ()
      ensures Valid()
      ensures ledger == [] && cache == map[] && progress == []
    {
      ledger, cache, progress, nextId := [], map[], [], 0;
    }

    /**
     * POST /grades: validate, append the record with the student id in its
     * canonical spelling, then drop the cached average of that student and
     * term before acknowledging.
     */
    method AddGrade(input: GradeInput, now: int) returns (result: Result<GradeRecord>)
      requires Valid()
      modifies this
      ensures Valid()
      ensures progress == old(progress)
      ensures result.Failure? <==> !ValidGrade(input)
      ensures result.Failure? ==>
        result.status == BAD_REQUEST && ledger == old(ledger) && cache == old(cache)
      ensures result.Success? ==>
        && result.status == CREATED
        && result.value.student_id == CanonicalId(input.student_id) && result.value.subject == input.subject
        && result.value.term == input.term && result.value.score == input.score
        && result.value.created_at == now
        && ledger == old(ledger) + [result.value]
        && cache == old(cache) - {AverageKey(input.student_id, input.term)}
    {
      if !ValidGrade(input) {
        return Failure(BAD_REQUEST);
      }
      CanonicalUuid(input.student_id);
      var rec := GradeRecord(nextId, CanonicalId(input.student_id), input.subject, input.term, input.score, now);
      ghost var before := ledger;
      ledger := ledger + [rec];
      nextId := nextId + 1;
      var key := AverageKey(input.student_id, input.term);
      cache := cache - {key};
      forall k | k in cache
        ensures cache[k] == CacheEntry(Aggregate(ledger, KeyStudent(k), KeyTerm(k)), AVERAGE_TTL)
      {
        OtherKeyOtherPair(k, rec);
        AggregateUnaffected(before, rec, KeyStudent(k), KeyTerm(k));
      }
      result := Success(CREATED, rec);
    }

    /**
     * GET /grades/:studentId/average: the term is required; a cached snapshot
     * is returned as stored. On a miss the database must accept the id as a
     * uuid, or the handler answers 500 and caches nothing; otherwise the
     * snapshot is computed, cached for an hour and returned.
     */
    method Average(studentId: string, term: Option<string>) returns (result: Result<Snapshot>)
      requires Valid()
      modifies this
      ensures Valid()
      ensures ledger == old(ledger) && progress == old(progress)
      ensures result.Failure? <==>
        !Truthy(term) || (AverageKey(studentId, term.value) !in old(cache) && !IsUuid(studentId))
      ensures result.Failure? ==>
        cache == old(cache) && result.status == if Truthy(term) then SERVER_ERROR else BAD_REQUEST
      ensures result.Success? && AverageKey(studentId, term.value) in old(cache) ==>
        result == Success(OK, old(cache)[AverageKey(studentId, term.value)].snapshot) && cache == old(cache)
      ensures result.Success? && AverageKey(studentId, term.value) !in old(cache) ==>
        && result.status == OK
        && cache == old(cache)[AverageKey(studentId, term.value) := CacheEntry(result.value, AVERAGE_TTL)]
      ensures result.Success? ==>
        var key := AverageKey(studentId, term.value);
        PairKey(key) && result.value == Aggregate(ledger, KeyStudent(key), KeyTerm(key))
      ensures result.Success? && IsUuid(studentId) ==>
        result.value == Aggregate(ledger, CanonicalId(studentId), term.value)
    {
      if !Truthy(term) {
        return Failure(BAD_REQUEST);
      }
      var key := AverageKey(studentId, term.value);
      if IsUuid(studentId) {
        AverageKeySpellings(studentId, studentId, term.value);
      }
      if key in cache {
        return Success(OK, cache[key].snapshot);
      }
      if !IsUuid(studentId) {
        return Failure(SERVER_ERROR);
      }
      var snap := Aggregate(ledger, CanonicalId(studentId), term.value);
      cache := cache[key := CacheEntry(snap, AVERAGE_TTL)];
      result := Success(OK, snap);
    }

    /** POST /progress: validate, then upsert on (teacher_id, class_id), both ids as the uuid columns store them. */
    method PostProgress(input: ProgressInput, now: int) returns (result: Result<ProgressRow>)
      requires Valid()
      modifies this
      ensures Valid()
      ensures ledger == old(ledger) && cache == old(cache)
      ensures result.Failure? <==> !ValidProgress(input)
      ensures result.Failure? ==> result.status == BAD_REQUEST && progress == old(progress)
      ensures result.Success? ==>
        && result.status == CREATED
        && result.value == ProgressRowOf(input, now)
        && progress == Upsert(old(progress), result.value)
    {
      if !ValidProgress(input) {
        return Failure(BAD_REQUEST);
      }
      var row := ProgressRowOf(input, now);
      progress := Upsert(progress, row);
      result := Success(CREATED, row);
    }

    /**
     * GET /grades/:studentId: an id the uuid column refuses makes the query
     * fail with 500; any spelling of a uuid selects that student's grades.
     */
    function Grades(studentId: string, term: Option<string>): (r: Result<seq<GradeRecord>>)
      reads this
      ensures r.Failure? <==> !IsUuid(studentId)
      ensures r.Failure? ==> r.status == SERVER_ERROR
      ensures r.Success? ==>
        && r.status == OK && SortedBy(r.value, NewestFirst)
        && multiset(r.value) == multiset(Filter(ledger, (x: GradeRecord) => GradeMatches(x, CanonicalId(studentId), term)))
        && forall x :: x in r.value <==> x in ledger && GradeMatches(x, CanonicalId(studentId), term)
    {
      if !IsUuid(studentId) then Failure(SERVER_ERROR)
      else Success(OK, StudentGrades(ledger, CanonicalId(studentId), term))
    }
  }
}
