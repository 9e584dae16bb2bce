/**
 * The PDF generator of the report service, reduced to what a document
 * says: its file name, and for a bulletin the subject lines, the overall
 * average and the orientation; for a class report the summary figures and
 * one line per student. Page layout is not modelled.
 */
module PdfReport {
  import opened Common
  import opened Collections
  import opened Grades
  import opened Orientation
  import opened Academic

  // ---- file names ----

  function StudentFilename(email: string, term: string, now: nat): (f: string)
    ensures "bulletin_" <= f && |f| >= 4 && f[|f| - 4..] == ".pdf"
  {
    "bulletin_" + email + "_" + term + "_" + Decimal(now) + ".pdf"
  }

  function ClassFilename(name: string, term: string, now: nat): (f: string)
    ensures "rapport_classe_" <= f && |f| >= 4 && f[|f| - 4..] == ".pdf"
  {
    "rapport_classe_" + name + "_" + term + "_" + Decimal(now) + ".pdf"
  }

  /** Two strings that end alike after a common prefix of known length differ in their tails. */
  lemma SameLengthTail(p: string, d1: string, d2: string, q: string)
    requires p + d1 + q == p + d2 + q
    ensures d1 == d2
  {
    var s := p + d1 + q;
    assert |d1| == |d2|;
    assert s[|p|..|p| + |d1|] == d1;
    assert (p + d2 + q)[|p|..|p| + |d2|] == d2;
  }

  /** Bulletins of one student and term generated at different instants get different files. */
  lemma StudentFilenameDistinctTimes(email: string, term: string, t1: nat, t2: nat)
    requires t1 != t2
    ensures StudentFilename(email, term, t1) != StudentFilename(email, term, t2)
  {
    if StudentFilename(email, term, t1) == StudentFilename(email, term, t2) {
      SameLengthTail("bulletin_" + email + "_" + term + "_", Decimal(t1), Decimal(t2), ".pdf");
      DecimalInjective(t1, t2);
    }
  }

  lemma ClassFilenameDistinctTimes(name: string, term: string, t1: nat, t2: nat)
    requires t1 != t2
    ensures ClassFilename(name, term, t1) != ClassFilename(name, term, t2)
  {
    if ClassFilename(name, term, t1) == ClassFilename(name, term, t2) {
      SameLengthTail("rapport_classe_" + name + "_" + term + "_", Decimal(t1), Decimal(t2), ".pdf");
      DecimalInjective(t1, t2);
    }
  }

  /** A bulletin file name never reads as a class report's, and vice versa. */
  lemma FilenamesOfKindsDiffer(email: string, name: string, term1: string, term2: string, t1: nat, t2: nat)
    ensures StudentFilename(email, term1, t1) != ClassFilename(name, term2, t2)
  {
    var f, g := StudentFilename(email, term1, t1), ClassFilename(name, term2, t2);
    assert f[0] == 'b' && g[0] == 'r';
  }

  // ---- the student bulletin ----

  datatype SubjectLine = SubjectLine(subject: string, scores: seq<real>, average: real)

  /** overall is None where the source divides by zero (NaN) on an empty grade list. */
  datatype Bulletin = Bulletin(
    email: string, term: string, lines: seq<SubjectLine>, overall: Option<real>, orientation: string)

  /**
   * The forEach that files each score under its subject: the subjects come
   * out in order of first appearance, each with its scores in arrival order.
   */
  method GroupBySubject(grades: seq<GradeRecord>) returns (order: seq<string>, groups: map<string, seq<real>>)
    ensures order == SubjectsInOrder(grades)
    ensures forall s :: s in groups <==> s in order
    ensures forall s :: s in groups ==> groups[s] == ScoresOf(grades, s) && groups[s] != []
  {
    order, groups := [], map[];
    for i := 0 to |grades|
      invariant (order, groups) == Filed(grades[..i])
    {
      var g := grades[i];
      assert grades[..i + 1][..i] == grades[..i];
      if g.subject in groups {
        groups := groups[g.subject := groups[g.subject] + [g.score]];
      } else {
        order := order + [g.subject];
        groups := groups[g.subject := [g.score]];
      }
    }
    assert grades[..|grades|] == grades;
    FiledGroups(grades);
  }

  /** The subjects and the map the loop of GroupBySubject holds after reading rs, one record at a time. */
  function Filed(rs: seq<GradeRecord>): (seq<string>, map<string, seq<real>>) {
    if rs == [] then ([], map[])
    else
      var (order, groups) := Filed(rs[..|rs| - 1]);
      var g := rs[|rs| - 1];
      if g.subject in groups then (order, groups[g.subject := groups[g.subject] + [g.score]])
      else (order + [g.subject], groups[g.subject := [g.score]])
  }

  /** Filing every record lists each subject once, in order of first appearance, with all its scores in order. */
  lemma {:induction false} FiledGroups(rs: seq<GradeRecord>)
    ensures Grouped(rs, Filed(rs).0, Filed(rs).1)
  {
    if rs != [] {
      var init, g := rs[..|rs| - 1], rs[|rs| - 1];
      FiledGroups(init);
      var (order, groups) := Filed(init);
      assert rs == init + [g];
      assert [] + [g.score] == [g.score];
      GroupStep(init, g, rs, order, groups, Filed(rs).0, Filed(rs).1);
    }
  }

  /** What the loop of GroupBySubject has built after reading rs. */
  ghost predicate Grouped(rs: seq<GradeRecord>, order: seq<string>, groups: map<string, seq<real>>) {
    && order == SubjectsInOrder(rs)
    && (forall s :: s in groups <==> s in order)
    && (forall s :: s in groups ==> groups[s] == ScoresOf(rs, s) && groups[s] != [])
  }

  /** Filing one more record keeps the grouping in step with the records read. */
  lemma GroupStep(rs: seq<GradeRecord>, g: GradeRecord, next: seq<GradeRecord>,
                  order: seq<string>, groups: map<string, seq<real>>,
                  order': seq<string>, groups': map<string, seq<real>>)
    requires Grouped(rs, order, groups) && next == rs + [g]
    requires order' == if g.subject in groups then order else order + [g.subject]
    requires groups' == groups[g.subject := (if g.subject in groups then groups[g.subject] else []) + [g.score]]
    ensures Grouped(next, order', groups')
  {
    SubjectsInOrderStep(rs, g);
    var prior := if g.subject in groups then groups[g.subject] else [];
    assert prior == ScoresOf(rs, g.subject) by {
      if g.subject !in groups {
        ScoresOfPresent(rs, g.subject);
      }
    }
    forall s | s in groups' ensures groups'[s] == ScoresOf(next, s) && groups'[s] != [] {
      ScoresOfStep(rs, g, s);
      if s != g.subject {
        assert groups'[s] == groups[s];
      }
    }
  }

  /** The bulletin line of each named subject: its scores in arrival order and their mean. */
  function LinesFor(grades: seq<GradeRecord>, names: seq<string>): (lines: seq<SubjectLine>)
    requires forall s :: s in names ==> ScoresOf(grades, s) != []
    ensures |lines| == |names|
    ensures forall j :: 0 <= j < |lines| ==>
      && lines[j].subject == names[j]
      && lines[j].scores == ScoresOf(grades, names[j])
      && lines[j].scores != []
      && lines[j].average == Mean(lines[j].scores)
  {
    if names == [] then []
    else
      var s := names[|names| - 1];
      LinesFor(grades, names[..|names| - 1]) + [SubjectLine(s, ScoresOf(grades, s), Mean(ScoresOf(grades, s)))]
  }

  /**
   * The subject lines of a bulletin built from grades: one per subject, in
   * order of first appearance, with its scores in arrival order and their mean.
   */
  predicate ShowsSubjects(lines: seq<SubjectLine>, grades: seq<GradeRecord>) {
    && |lines| == |SubjectsInOrder(grades)|
    && forall j :: 0 <= j < |lines| ==>
      && lines[j].subject == SubjectsInOrder(grades)[j]
      && lines[j].scores == ScoresOf(grades, lines[j].subject)
      && lines[j].scores != []
      && lines[j].average == Mean(lines[j].scores)
  }

  /** The loop that writes one line per subject of the grouping, in its order. */
  method WriteLines(grades: seq<GradeRecord>, order: seq<string>, groups: map<string, seq<real>>)
    returns (lines: seq<SubjectLine>)
    requires forall s :: s in groups <==> s in order
    requires forall s :: s in groups ==> groups[s] == ScoresOf(grades, s) && groups[s] != []
    ensures lines == LinesFor(grades, order)
  {
    lines := [];
    for k := 0 to |order|
      invariant lines == LinesFor(grades, order[..k])
    {
      assert order[k] in order && order[..k + 1][..k] == order[..k];
      var scores := groups[order[k]];
      lines := lines + [SubjectLine(order[k], scores, Sum(scores) / |scores| as real)];
    }
    assert order[..|order|] == order;
  }

  /**
   * generateStudentReport: one line per subject in order of first
   * appearance with its scores and their mean, the mean of all scores, and
   * the orientation of that mean. An empty list yields no overall figure and
   * the lowest band, since every comparison with NaN fails.
   */
  method GenerateStudentReport(email: string, grades: seq<GradeRecord>, term: string, now: nat)
    returns (filename: string, doc: Bulletin)
    ensures filename == StudentFilename(email, term, now)
    ensures doc.email == email && doc.term == term
    ensures ShowsSubjects(doc.lines, grades)
    ensures grades == [] ==> doc.overall.None? && doc.orientation == Label(Insuffisant)
    ensures grades != [] ==>
      && doc.overall == Some(Mean(Scores(grades)))
      && doc.orientation == Label(Classify(Mean(Scores(grades))))
  {
    filename := StudentFilename(email, term, now);
    var order, groups := GroupBySubject(grades);
    var lines := WriteLines(grades, order, groups);
    var overall: Option<real> := None;
    var orientation := Label(Insuffisant);
    if grades != [] {
      var average := Sum(Scores(grades)) / |grades| as real;
      overall := Some(average);
      orientation := PdfOrientation(average);
    }
    doc := Bulletin(email, term, lines, overall, orientation);
  }

  /**
   * A bulletin built from the rows of a student and term, in whatever order
   * they arrive, shows the overall average that the average endpoint
   * computes for that student and term, over the same number of grades.
   */
  lemma BulletinMatchesAggregate(ledger: seq<GradeRecord>, grades: seq<GradeRecord>, student: string, term: string)
    requires multiset(grades) == multiset(RecordsFor(ledger, student, term))
    requires grades != []
    ensures Aggregate(ledger, student, term).total_grades == |grades|
    ensures Mean(Scores(grades)) == Aggregate(ledger, student, term).overall_average
  {
    var recs := RecordsFor(ledger, student, term);
    assert |grades| == |multiset(grades)| == |multiset(recs)| == |recs|;
    PermutationKeepsTotal(grades, recs);
  }

  /** Likewise every subject line agrees with the snapshot's mean for that subject. */
  lemma BulletinSubjectsMatchAggregate(ledger: seq<GradeRecord>, grades: seq<GradeRecord>, student: string, term: string)
    requires multiset(grades) == multiset(RecordsFor(ledger, student, term))
    ensures forall i :: 0 <= i < |Aggregate(ledger, student, term).subjects| ==>
      var line := Aggregate(ledger, student, term).subjects[i];
      ScoresOf(grades, line.subject) != [] && Mean(ScoresOf(grades, line.subject)) == line.average
  {
    var recs := RecordsFor(ledger, student, term);
    var subjects := Aggregate(ledger, student, term).subjects;
    forall i | 0 <= i < |subjects|
      ensures ScoresOf(grades, subjects[i].subject) != []
      ensures Mean(ScoresOf(grades, subjects[i].subject)) == subjects[i].average
    {
      PermutationKeepsSubjectSums(grades, recs, subjects[i].subject);
    }
  }

  // ---- the class report ----

  /** `average > 0`: NULL compares as 0 and fails, as does an average of exactly 0. */
  predicate PositiveAverage(s: StatRow) {
    s.average.Some? && s.average.value > 0.0
  }

  predicate ZeroAverage(s: StatRow) {
    s.average == Some(0.0)
  }

  predicate Graded(s: StatRow) {
    s.total_grades > 0
  }

  /** The summary's count as written: rows whose average is a positive number. */
  function StudentsWithGradesAsWritten(stats: seq<StatRow>): (n: nat)
    ensures n <= |stats|
  {
    Count(stats, PositiveAverage)
  }

  /** The number of students with at least one grade. */
  function StudentsWithGrades(stats: seq<StatRow>): (n: nat)
    ensures n <= |stats|
  {
    Count(stats, Graded)
  }

  /** Sum of the per-student averages, a student without one counting 0 (`s.average || 0`). */
  function SumAverages(stats: seq<StatRow>): real {
    if stats == [] then 0.0
    else SumAverages(stats[..|stats| - 1]) + AverageOrZero(stats[|stats| - 1])
  }

  function AverageOrZero(s: StatRow): real {
    if s.average.Some? then s.average.value else 0.0
  }

  /** The class average: the per-student averages over the number of students (NaN for none). */
  function ClassAverage(stats: seq<StatRow>): (r: Option<real>)
    ensures r.Some? <==> stats != []
    ensures r.Some? ==> r.value * |stats| as real == SumAverages(stats)
  {
    if stats == [] then None else Some(SumAverages(stats) / |stats| as real)
  }

  lemma {:induction false} SumAveragesBounds(stats: seq<StatRow>)
    requires forall i :: 0 <= i < |stats| ==> stats[i].average.Some? ==> InScoreRange(stats[i].average.value)
    ensures 0.0 <= SumAverages(stats) <= |stats| as real * MAX_SCORE
  {
    if stats != [] {
      SumAveragesBounds(stats[..|stats| - 1]);
    }
  }

  /** With every student average on the 0-20 scale, so is the class average. */
  lemma ClassAverageInRange(stats: seq<StatRow>)
    requires stats != []
    requires forall i :: 0 <= i < |stats| ==> stats[i].average.Some? ==> InScoreRange(stats[i].average.value)
    ensures InScoreRange(ClassAverage(stats).value)
  {
    SumAveragesBounds(stats);
    var n := |stats| as real;
    var avg := ClassAverage(stats).value;
    assert avg * n == SumAverages(stats);
  }

  datatype ClassSummary = ClassSummary(total_students: nat, with_grades: nat, class_average: Option<real>)

  datatype Cell = Figure(value: real) | NotAvailable

  datatype ClassLine = ClassLine(email: string, average: Cell, orientation: string)

  datatype ClassDocument = ClassDocument(
    name: string, level: string, term: string, summary: ClassSummary, lines: seq<ClassLine>)

  /** `average ? average.toFixed(2) : 'N/A'`: NULL and 0 both print as N/A. */
  function AverageCell(average: Option<real>): (c: Cell)
    ensures c.Figure? <==> average.Some? && average.value != 0.0
    ensures c.Figure? ==> c.value == average.value
  {
    if average.Some? && average.value != 0.0 then Figure(average.value) else NotAvailable
  }

  /** `orientation || 'N/A'` */
  function OrientationCell(orientation: string): (text: string)
    ensures orientation != "" ==> text == orientation
    ensures orientation == "" ==> text == "N/A"
  {
    if orientation != "" then orientation else "N/A"
  }

  /**
   * generateClassReport, with the summary counting students who have at
   * least one grade; the rows keep the order of the statistics query.
   */
  method GenerateClassReport(classRow: ClassRow, stats: seq<StatRow>, term: string, now: nat)
    returns (filename: string, doc: ClassDocument)
    ensures filename == ClassFilename(classRow.name, term, now)
    ensures doc.name == classRow.name && doc.level == classRow.level && doc.term == term
    ensures doc.summary == ClassSummary(|stats|, StudentsWithGrades(stats), ClassAverage(stats))
    ensures |doc.lines| == |stats|
    ensures forall j :: 0 <= j < |stats| ==>
      doc.lines[j] == ClassLine(stats[j].student_email, AverageCell(stats[j].average),
                                OrientationCell(stats[j].orientation))
  {
    filename := ClassFilename(classRow.name, term, now);
    var lines: seq<ClassLine> := [];
    for k := 0 to |stats|
      invariant |lines| == k
      invariant forall j :: 0 <= j < k ==>
        lines[j] == ClassLine(stats[j].student_email, AverageCell(stats[j].average),
                              OrientationCell(stats[j].orientation))
    {
      var s := stats[k];
      lines := lines + [ClassLine(s.student_email, AverageCell(s.average), OrientationCell(s.orientation))];
    }
    var summary := ClassSummary(|stats|, StudentsWithGrades(stats), ClassAverage(stats));
    doc := ClassDocument(classRow.name, classRow.level, term, summary, lines);
  }

  /**
   * On rows that keep the statistics query's promise, the as-written count
   * never exceeds the number of graded students, and it misses exactly the
   * graded students whose average is 0.
   */
  lemma {:induction false} AsWrittenCountsPositiveAverages(stats: seq<StatRow>)
    requires forall i :: 0 <= i < |stats| ==> (stats[i].average.None? <==> stats[i].total_grades == 0)
    requires forall i :: 0 <= i < |stats| ==> stats[i].average.Some? ==> stats[i].average.value >= 0.0
    ensures StudentsWithGradesAsWritten(stats) + Count(stats, ZeroAverage) == StudentsWithGrades(stats)
  {
    if stats != [] {
      AsWrittenCountsPositiveAverages(stats[..|stats| - 1]);
    }
  }

  /** The rows of a graded student whose every score is 0: the as-written summary reports no graded student. */
  lemma ZeroAverageNotCounted()
    ensures var stats := [StatRow("s", "s@school", Some(0.0), 1, "Insuffisant")];
      StudentsWithGradesAsWritten(stats) == 0 && StudentsWithGrades(stats) == 1
  {
    var stats := [StatRow("s", "s@school", Some(0.0), 1, "Insuffisant")];
    assert stats[..0] == [];
  }
}
