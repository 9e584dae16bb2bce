/**
 * The report service: generation of student bulletins (rendered, stored
 * and catalogued) and class reports (rendered and stored only), the
 * catalog listing, download by file name and the term statistics. The
 * catalog table and the stored files are the fields of a ReportService;
 * the tables of the other services are parameters.
 */
module Reporting {
  import opened Common
  import opened Collections
  import opened Grades
  import opened Orientation
  import opened Academic
  import opened PdfReport

  // ---- the request schema ----

  datatype ReportRequest = ReportRequest(student_id: Option<string>, class_id: Option<string>, term: Option<string>)

  /** Optional identifiers must be UUIDs when present; the term is required and non-empty. */
  predicate ValidRequest(r: ReportRequest) {
    && (r.student_id.Some? ==> IsUuid(r.student_id.value))
    && (r.class_id.Some? ==> IsUuid(r.class_id.value))
    && r.term.Some? && |r.term.value| >= 1
  }

  // ---- the catalog ----

  const REPORTS_PREFIX: string := "/reports/"

  function ReportUrl(filename: string): (url: string)
    ensures |url| == |REPORTS_PREFIX| + |filename|
    ensures url[..|REPORTS_PREFIX|] == REPORTS_PREFIX && url[|REPORTS_PREFIX|..] == filename
  {
    REPORTS_PREFIX + filename
  }

  /** report.generated_reports; created_at is the clock value of the insert. */
  datatype CatalogRow = CatalogRow(id: nat, student_id: string, term: string, url: string, created_at: int)

  datatype Document = StudentDocument(bulletin: Bulletin) | ClassReportDocument(report: ClassDocument)

  /** A catalog url names a stored file. */
  predicate Resolves(url: string, files: map<string, Document>) {
    |url| >= |REPORTS_PREFIX| && url[..|REPORTS_PREFIX|] == REPORTS_PREFIX && url[|REPORTS_PREFIX|..] in files
  }

  /** Every catalogued report can be downloaded, and catalog ids are below the next one. */
  predicate CatalogValid(catalog: seq<CatalogRow>, files: map<string, Document>, nextId: nat) {
    forall i :: 0 <= i < |catalog| ==> catalog[i].id < nextId && Resolves(catalog[i].url, files)
  }

  /** Storing a file never breaks a link. */
  lemma StoreKeepsCatalogValid(catalog: seq<CatalogRow>, files: map<string, Document>, nextId: nat,
                               filename: string, doc: Document)
    requires CatalogValid(catalog, files, nextId)
    ensures CatalogValid(catalog, files[filename := doc], nextId)
  {
  }

  /** A row with the next id that links to the file just stored keeps the catalog valid. */
  lemma AppendKeepsCatalogValid(catalog: seq<CatalogRow>, files: map<string, Document>, nextId: nat,
                                filename: string, doc: Document, row: CatalogRow)
    requires CatalogValid(catalog, files, nextId)
    requires row.id == nextId && row.url == ReportUrl(filename)
    ensures CatalogValid(catalog + [row], files[filename := doc], nextId + 1)
  {
  }

  datatype StudentReportCreated = StudentReportCreated(report: CatalogRow, download_url: string)

  datatype ClassReportCreated = ClassReportCreated(
    download_url: string, class_name: string, term: string, student_count: nat)

  /** ORDER BY subject, created_at */
  predicate SubjectThenTime(a: GradeRecord, b: GradeRecord) {
    if a.subject != b.subject then StrLeq(a.subject, b.subject) else a.created_at <= b.created_at
  }

  lemma SubjectThenTimeIsTotalPreorder()
    ensures TotalPreorder(SubjectThenTime)
  {
    forall a, b ensures SubjectThenTime(a, b) || SubjectThenTime(b, a) {
      StrLeqTotal(a.subject, b.subject);
    }
    forall a, b, c | SubjectThenTime(a, b) && SubjectThenTime(b, c) ensures SubjectThenTime(a, c) {
      if a.subject != b.subject && b.subject != c.subject {
        StrLeqTransitive(a.subject, b.subject, c.subject);
        if a.subject == c.subject {
          StrLeqAntisymmetric(a.subject, b.subject);
        }
      }
    }
  }

  /** The rows the bulletin query hands to the renderer. */
  function BulletinRows(ledger: seq<GradeRecord>, student: string, term: string): (r: seq<GradeRecord>)
    ensures SortedBy(r, SubjectThenTime)
    ensures multiset(r) == multiset(RecordsFor(ledger, student, term))
    ensures |r| == |RecordsFor(ledger, student, term)|
  {
    SubjectThenTimeIsTotalPreorder();
    SortBySorted(RecordsFor(ledger, student, term), SubjectThenTime);
    SortByPermutes(RecordsFor(ledger, student, term), SubjectThenTime);
    SortBy(RecordsFor(ledger, student, term), SubjectThenTime)
  }

  /**
   * The rendering step of POST /generate/student: the bulletin of the rows
   * handed over has a line per subject, in the order the rows bring them,
   * with that subject's scores and their mean, and shows the snapshot's
   * overall average and its orientation.
   */
  method RenderBulletin(ledger: seq<GradeRecord>, student: string, term: string, email: string,
                        grades: seq<GradeRecord>, now: nat)
    returns (filename: string, doc: Bulletin)
    requires grades == BulletinRows(ledger, student, term) && grades != []
    ensures filename == StudentFilename(email, term, now)
    ensures doc.email == email && doc.term == term
    ensures ShowsSubjects(doc.lines, grades)
    ensures doc.overall == Some(Aggregate(ledger, student, term).overall_average)
    ensures doc.orientation == Label(Classify(Aggregate(ledger, student, term).overall_average))
  {
    filename, doc := GenerateStudentReport(email, grades, term, now);
    BulletinMatchesAggregate(ledger, grades, student, term);
  }

  // ---- GET /reports ----

  datatype ListedReport = ListedReport(report: CatalogRow, student_email: string)

  predicate ListedMatches(row: CatalogRow, studentId: Option<string>, term: Option<string>) {
    && (Truthy(studentId) ==> row.student_id == studentId.value)
    && (Truthy(term) ==> row.term == term.value)
  }

  /** The catalog joined with the users table, keeping the rows that pass both filters. */
  function JoinCatalog(catalog: seq<CatalogRow>, users: seq<User>, studentId: Option<string>, term: Option<string>)
    : (r: seq<ListedReport>)
    ensures forall v :: v in r <==>
      exists row, u :: row in catalog && ListedMatches(row, studentId, term) &&
        FindUser(users, row.student_id) == Some(u) && v == ListedReport(row, u.email)
  {
    if catalog == [] then []
    else
      var row := catalog[|catalog| - 1];
      var rest := JoinCatalog(catalog[..|catalog| - 1], users, studentId, term);
      assert forall q :: q in catalog <==> q in catalog[..|catalog| - 1] || q == row;
      var found := FindUser(users, row.student_id);
      if ListedMatches(row, studentId, term) && found.Some? then rest + [ListedReport(row, found.value.email)]
      else rest
  }

  /** ORDER BY created_at DESC */
  predicate NewestReportFirst(a: ListedReport, b: ListedReport) {
    a.report.created_at >= b.report.created_at
  }

  lemma NewestReportFirstIsTotalPreorder()
    ensures TotalPreorder(NewestReportFirst)
  {
  }

  // ---- GET /stats ----

  datatype GeneralStats = GeneralStats(
    students_with_grades: nat, total_grades: nat, overall_average: Option<real>, subjects_count: nat)

  datatype TopRow = TopRow(student_email: string, average: real, total_grades: nat)

  datatype TermStats = TermStats(term: string, general: GeneralStats, top_students: seq<TopRow>,
                                 distribution: seq<BandCount>)

  datatype BandCount = BandCount(orientation: string, count: nat)

  predicate InTerm(g: GradeRecord, term: string) {
    g.term == term
  }

  function StudentIds(rs: seq<GradeRecord>): (r: seq<string>)
    ensures |r| == |rs|
    ensures forall i :: 0 <= i < |rs| ==> r[i] == rs[i].student_id
  {
    if rs == [] then [] else StudentIds(rs[..|rs| - 1]) + [rs[|rs| - 1].student_id]
  }

  /** The students with at least one grade in the term. */
  ghost function TermStudents(ledger: seq<GradeRecord>, term: string): set<string> {
    set g | g in ledger && InTerm(g, term) :: g.student_id
  }

  /** The subjects graded in the term. */
  ghost function TermSubjects(ledger: seq<GradeRecord>, term: string): set<string> {
    set g | g in ledger && InTerm(g, term) :: g.subject
  }

  /** COUNT(DISTINCT student_id), COUNT(id), AVG(score), COUNT(DISTINCT subject) over one term. */
  function TermGeneralStats(ledger: seq<GradeRecord>, term: string): (r: GeneralStats)
    ensures r.students_with_grades == |TermStudents(ledger, term)|
    ensures r.subjects_count == |TermSubjects(ledger, term)|
    ensures r.total_grades == |Filter(ledger, (g: GradeRecord) => InTerm(g, term))|
    ensures r.overall_average.None? <==> r.total_grades == 0
    ensures r.overall_average.Some? ==>
      r.overall_average.value == Mean(Scores(Filter(ledger, (g: GradeRecord) => InTerm(g, term))))
  {
    var graded := Filter(ledger, (g: GradeRecord) => InTerm(g, term));
    var students := Distinct(StudentIds(graded));
    var subjects := Distinct(Subjects(graded));
    TermStudentsListed(ledger, term, graded, students);
    TermSubjectsListed(ledger, term, graded, subjects);
    GeneralStats(|students|, |graded|,
                 if graded == [] then None else Some(Mean(Scores(graded))),
                 |subjects|)
  }

  lemma TermStudentsListed(ledger: seq<GradeRecord>, term: string, graded: seq<GradeRecord>, students: seq<string>)
    requires forall g :: g in graded <==> g in ledger && InTerm(g, term)
    requires NoDuplicates(students) && forall s :: s in students <==> s in StudentIds(graded)
    ensures |students| == |TermStudents(ledger, term)|
  {
    var ids := StudentIds(graded);
    assert (set s | s in students) == TermStudents(ledger, term) by {
      forall s | s in TermStudents(ledger, term) ensures s in students {
        var g :| g in ledger && InTerm(g, term) && g.student_id == s;
        var i :| 0 <= i < |graded| && graded[i] == g;
        assert ids[i] == s;
      }
      forall s | s in students ensures s in TermStudents(ledger, term) {
        var i :| 0 <= i < |ids| && ids[i] == s;
        assert graded[i] in graded;
      }
    }
    NoDuplicatesCard(students);
  }

  lemma TermSubjectsListed(ledger: seq<GradeRecord>, term: string, graded: seq<GradeRecord>, subjects: seq<string>)
    requires forall g :: g in graded <==> g in ledger && InTerm(g, term)
    requires NoDuplicates(subjects) && forall s :: s in subjects <==> s in Subjects(graded)
    ensures |subjects| == |TermSubjects(ledger, term)|
  {
    var names := Subjects(graded);
    assert (set s | s in subjects) == TermSubjects(ledger, term) by {
      forall s | s in TermSubjects(ledger, term) ensures s in subjects {
        var g :| g in ledger && InTerm(g, term) && g.subject == s;
        var i :| 0 <= i < |graded| && graded[i] == g;
        assert names[i] == s;
      }
      forall s | s in subjects ensures s in TermSubjects(ledger, term) {
        var i :| 0 <= i < |names| && names[i] == s;
        assert graded[i] in graded;
      }
    }
    NoDuplicatesCard(subjects);
  }

  /** A user's row of the top-students query: the mean and count of their grades in the term. */
  function TopRowOf(ledger: seq<GradeRecord>, u: User, term: string): TopRow
    requires RecordsFor(ledger, u.id, term) != []
  {
    var recs := RecordsFor(ledger, u.id, term);
    TopRow(u.email, Mean(Scores(recs)), |recs|)
  }

  /** The users with at least one grade in the term, in table order. */
  function GradedUsers(ledger: seq<GradeRecord>, users: seq<User>, term: string): (r: seq<User>)
    ensures forall u :: u in r <==> u in users && RecordsFor(ledger, u.id, term) != []
  {
    if users == [] then []
    else
      var init, u := users[..|users| - 1], users[|users| - 1];
      assert users == init + [u];
      GradedUsers(ledger, init, term) + (if RecordsFor(ledger, u.id, term) != [] then [u] else [])
  }

  /** One row per graded user, in the same order. */
  function TopRows(ledger: seq<GradeRecord>, graded: seq<User>, term: string): (r: seq<TopRow>)
    requires forall u :: u in graded ==> RecordsFor(ledger, u.id, term) != []
    ensures |r| == |graded|
    ensures forall i :: 0 <= i < |r| ==> r[i] == TopRowOf(ledger, graded[i], term)
  {
    if graded == [] then []
    else TopRows(ledger, graded[..|graded| - 1], term) + [TopRowOf(ledger, graded[|graded| - 1], term)]
  }

  /** The rows of the top-students query before ORDER BY and LIMIT. */
  function TopCandidates(ledger: seq<GradeRecord>, users: seq<User>, term: string): seq<TopRow> {
    TopRows(ledger, GradedUsers(ledger, users, term), term)
  }

  /**
   * The candidates are exactly the users with grades in the term, each with
   * the mean and count of those grades.
   */
  lemma TopCandidatesAreGradedUsers(ledger: seq<GradeRecord>, users: seq<User>, term: string)
    ensures var r := TopCandidates(ledger, users, term);
      && (forall row :: row in r ==>
            exists u :: u in users && RecordsFor(ledger, u.id, term) != [] && row == TopRowOf(ledger, u, term))
      && (forall u :: u in users && RecordsFor(ledger, u.id, term) != [] ==> TopRowOf(ledger, u, term) in r)
  {
    var g := GradedUsers(ledger, users, term);
    var r := TopCandidates(ledger, users, term);
    forall row | row in r
      ensures exists u :: u in users && RecordsFor(ledger, u.id, term) != [] && row == TopRowOf(ledger, u, term)
    {
      var i :| 0 <= i < |r| && r[i] == row;
      assert g[i] in g;
    }
    forall u | u in users && RecordsFor(ledger, u.id, term) != [] ensures TopRowOf(ledger, u, term) in r {
      var i :| 0 <= i < |g| && g[i] == u;
      assert r[i] == TopRowOf(ledger, u, term);
    }
  }

  /** ORDER BY average DESC */
  predicate HigherAverageFirst(a: TopRow, b: TopRow) {
    a.average >= b.average
  }

  lemma HigherAverageFirstIsTotalPreorder()
    ensures TotalPreorder(HigherAverageFirst)
  {
  }

  /**
   * ORDER BY average DESC LIMIT 5: at most five rows, best first, and no
   * candidate left out has a higher average than one kept.
   */
  function TopFive(candidates: seq<TopRow>): (r: seq<TopRow>)
    ensures |r| <= 5
    ensures |r| == if |candidates| < 5 then |candidates| else 5
    ensures SortedBy(r, HigherAverageFirst)
    ensures forall row :: row in r ==> row in candidates
    ensures multiset(r) <= multiset(candidates)
    ensures forall x, y :: x in candidates && x !in r && y in r ==> y.average >= x.average
  {
    HigherAverageFirstIsTotalPreorder();
    var sorted := SortBy(candidates, HigherAverageFirst);
    SortBySorted(candidates, HigherAverageFirst);
    SortByPermutes(candidates, HigherAverageFirst);
    var r := Take(sorted, 5);
    assert sorted == r + sorted[|r|..];
    assert multiset(sorted) == multiset(r) + multiset(sorted[|r|..]);
    assert forall x, y :: x in candidates && x !in r && y in r ==> y.average >= x.average by {
      forall x, y | x in candidates && x !in r && y in r ensures y.average >= x.average {
        var k :| 0 <= k < |sorted| && sorted[k] == x;
        var i :| 0 <= i < |r| && r[i] == y;
        assert sorted[i] == y;
        if k < |r| {
          assert r[k] == x;
        }
        assert HigherAverageFirst(sorted[i], sorted[k]);
      }
    }
    r
  }

  function BandOf(ledger: seq<GradeRecord>, student: string, term: string): Band {
    var recs := RecordsFor(ledger, student, term);
    if recs == [] then Insuffisant else Classify(Mean(Scores(recs)))
  }

  /** The students of the term whose average falls in band c. */
  ghost function StudentsInBand(ledger: seq<GradeRecord>, term: string, c: Band): set<string> {
    set s | s in TermStudents(ledger, term) && BandOf(ledger, s, term) == c
  }

  /**
   * The students with grades in the term, each classified by the mean of
   * those grades: band c occurs once per such student whose average is in c.
   */
  function StudentBands(ledger: seq<GradeRecord>, term: string): (r: seq<Band>)
    ensures |r| == |TermStudents(ledger, term)|
    ensures forall c :: multiset(r)[c] == |StudentsInBand(ledger, term, c)|
  {
    var graded := Filter(ledger, (g: GradeRecord) => InTerm(g, term));
    var ids := Distinct(StudentIds(graded));
    var band := (s: string) => BandOf(ledger, s, term);
    TermStudentsListed(ledger, term, graded, ids);
    forall c ensures multiset(MapSeq(ids, band))[c] == |StudentsInBand(ledger, term, c)| {
      StudentsInBandListed(ledger, term, graded, ids, band, c);
      MapSeqMultiplicity(ids, band, c, StudentsInBand(ledger, term, c));
    }
    MapSeq(ids, band)
  }

  lemma StudentsInBandListed(ledger: seq<GradeRecord>, term: string, graded: seq<GradeRecord>, ids: seq<string>,
                             band: string -> Band, c: Band)
    requires forall g :: g in graded <==> g in ledger && InTerm(g, term)
    requires forall s :: s in ids <==> s in StudentIds(graded)
    requires forall s :: band(s) == BandOf(ledger, s, term)
    ensures forall s :: s in StudentsInBand(ledger, term, c) <==> s in ids && band(s) == c
  {
    var names := StudentIds(graded);
    forall s | s in StudentsInBand(ledger, term, c) ensures s in ids {
      var g :| g in ledger && InTerm(g, term) && g.student_id == s;
      var i :| 0 <= i < |graded| && graded[i] == g;
      assert names[i] == s;
    }
    forall s | s in ids ensures s in TermStudents(ledger, term) {
      var i :| 0 <= i < |names| && names[i] == s;
      assert graded[i] in graded;
    }
  }

  /** Every student falls in exactly one band: the five multiplicities add up to the count. */
  lemma {:induction false} BandCountsCover(bands: seq<Band>)
    ensures multiset(bands)[Excellent] + multiset(bands)[TresBien] + multiset(bands)[Bien]
          + multiset(bands)[Passable] + multiset(bands)[Insuffisant] == |bands|
  {
    if bands != [] {
      var init, x := bands[..|bands| - 1], bands[|bands| - 1];
      assert bands == init + [x];
      BandCountsCover(init);
      var m, m' := multiset(init), multiset(bands);
      assert m' == m + multiset{x};
      assert |bands| == |init| + 1;
      match x
      case Excellent => assert m'[Excellent] == m[Excellent] + 1;
      case TresBien => assert m'[TresBien] == m[TresBien] + 1;
      case Bien => assert m'[Bien] == m[Bien] + 1;
      case Passable => assert m'[Passable] == m[Passable] + 1;
      case Insuffisant => assert m'[Insuffisant] == m[Insuffisant] + 1;
    }
  }

  /** The sum of a distribution's counts. */
  function TotalCount(rows: seq<BandCount>): nat {
    if rows == [] then 0 else TotalCount(rows[..|rows| - 1]) + rows[|rows| - 1].count
  }

  /** GROUP BY yields no group for a band nobody is in. */
  function NonEmptyRows(rows: seq<BandCount>): (r: seq<BandCount>)
    ensures |r| <= |rows|
    ensures forall row :: row in r <==> row in rows && row.count > 0
    ensures TotalCount(r) == TotalCount(rows)
  {
    if rows == [] then []
    else
      var init, last := rows[..|rows| - 1], rows[|rows| - 1];
      assert rows == init + [last];
      var rest := NonEmptyRows(init);
      if last.count > 0 then
        assert (rest + [last])[..|rest|] == rest;
        rest + [last]
      else rest
  }

  /** One row per band, labelled as the CASE labels it, with the band's multiplicity. */
  function BandRows(m: multiset<Band>): (r: seq<BandCount>)
    ensures TotalCount(r) == m[Excellent] + m[TresBien] + m[Bien] + m[Passable] + m[Insuffisant]
  {
    var r := [BandCount(Label(Excellent), m[Excellent]), BandCount(Label(TresBien), m[TresBien]),
              BandCount(Label(Bien), m[Bien]), BandCount(Label(Passable), m[Passable]),
              BandCount(Label(Insuffisant), m[Insuffisant])];
    assert r[..1][..0] == [] && r[..2][..1] == r[..1] && r[..3][..2] == r[..2];
    assert r[..4][..3] == r[..3] && r[..4] == r[..|r| - 1];
    assert TotalCount(r[..1]) == m[Excellent];
    assert TotalCount(r[..2]) == m[Excellent] + m[TresBien];
    assert TotalCount(r[..3]) == m[Excellent] + m[TresBien] + m[Bien];
    assert TotalCount(r[..4]) == m[Excellent] + m[TresBien] + m[Bien] + m[Passable];
    r
  }

  /** Each band has its row, and every row is some band's. */
  lemma BandRowsMembers(m: multiset<Band>)
    ensures forall row :: row in BandRows(m) <==> exists c :: row == BandCount(Label(c), m[c])
  {
    var r := BandRows(m);
    forall row | row in r ensures exists c :: row == BandCount(Label(c), m[c]) {
      var i :| 0 <= i < 5 && r[i] == row;
      if i == 0 {
        assert row == BandCount(Label(Excellent), m[Excellent]);
      } else if i == 1 {
        assert row == BandCount(Label(TresBien), m[TresBien]);
      } else if i == 2 {
        assert row == BandCount(Label(Bien), m[Bien]);
      } else if i == 3 {
        assert row == BandCount(Label(Passable), m[Passable]);
      } else {
        assert row == BandCount(Label(Insuffisant), m[Insuffisant]);
      }
    }
    forall c ensures BandCount(Label(c), m[c]) in r {
      match c
      case Excellent => assert r[0] == BandCount(Label(c), m[c]);
      case TresBien => assert r[1] == BandCount(Label(c), m[c]);
      case Bien => assert r[2] == BandCount(Label(c), m[c]);
      case Passable => assert r[3] == BandCount(Label(c), m[c]);
      case Insuffisant => assert r[4] == BandCount(Label(c), m[c]);
    }
  }

  /**
   * The distribution the third statistics query is after, grouped per
   * student: the bands some student is in, each with its multiplicity.
   * DistributionRows and DistributionTotal state what it holds.
   */
  function Distribution(bands: seq<Band>): (r: seq<BandCount>)
    ensures forall row :: row in r ==> row.count > 0
    ensures |r| <= 5
  {
    NonEmptyRows(BandRows(multiset(bands)))
  }

  /**
   * One row per band that some student is in, labelled as the CASE labels
   * it and counting that band's students.
   */
  lemma DistributionRows(bands: seq<Band>)
    ensures forall row :: row in Distribution(bands) <==>
      exists c :: multiset(bands)[c] > 0 && row == BandCount(Label(c), multiset(bands)[c])
  {
    var m := multiset(bands);
    var r := Distribution(bands);
    BandRowsMembers(m);
    forall row | row in r ensures exists c :: m[c] > 0 && row == BandCount(Label(c), m[c]) {
      var c :| row == BandCount(Label(c), m[c]);
    }
    forall row | exists c :: m[c] > 0 && row == BandCount(Label(c), m[c]) ensures row in r {
      var c :| m[c] > 0 && row == BandCount(Label(c), m[c]);
    }
  }

  /** The counts of the distribution add up to the number of students. */
  lemma DistributionTotal(bands: seq<Band>)
    ensures TotalCount(Distribution(bands)) == |bands|
  {
    BandCountsCover(bands);
  }

  /**
   * GET /stats as written: the term is required; with one, the third query
   * groups by an expression holding AVG, which PostgreSQL refuses, so the
   * handler ends in its error branch.
   */
  function StatsAsWritten(term: Option<string>): (r: Result<TermStats>)
    ensures r.Failure?
    ensures r.status == BAD_REQUEST <==> !Truthy(term)
    ensures Truthy(term) ==> r.status == SERVER_ERROR
  {
    if !Truthy(term) then Failure(BAD_REQUEST) else Failure(SERVER_ERROR)
  }

  /**
   * GET /stats with the distribution taken per student: the term is
   * required; the general figures, the top five and one count per band.
   */
  function Stats(ledger: seq<GradeRecord>, users: seq<User>, term: Option<string>): (r: Result<TermStats>)
    ensures r.Failure? <==> !Truthy(term)
    ensures r.Failure? ==> r.status == BAD_REQUEST
    ensures r.Success? ==>
      && r.status == OK
      && r.value.general == TermGeneralStats(ledger, term.value)
      && r.value.top_students == TopFive(TopCandidates(ledger, users, term.value))
      && (forall row :: row in r.value.distribution <==>
            exists c :: |StudentsInBand(ledger, term.value, c)| > 0 &&
              row == BandCount(Label(c), |StudentsInBand(ledger, term.value, c)|))
      && TotalCount(r.value.distribution) == r.value.general.students_with_grades
  {
    if !Truthy(term) then Failure(BAD_REQUEST)
    else
      var t := term.value;
      var bands := StudentBands(ledger, t);
      DistributionRows(bands);
      DistributionTotal(bands);
      Success(OK, TermStats(t, TermGeneralStats(ledger, t), TopFive(TopCandidates(ledger, users, t)),
                            Distribution(bands)))
  }

  /** With a term, the handler as written never answers with statistics, where Stats does. */
  lemma StatsAlwaysFails(ledger: seq<GradeRecord>, users: seq<User>, term: Option<string>)
    requires Truthy(term)
    ensures StatsAsWritten(term).status == SERVER_ERROR && Stats(ledger, users, term).Success?
  {
  }

  // ---- the service state ----

  class ReportService {
    var catalog: seq<CatalogRow>
    var files: map<string, Document>
    var nextId: nat

    ghost predicate Valid()
      reads this
    {
      CatalogValid(catalog, files, nextId)
    }

    constructor ()
      ensures Valid()
      ensures catalog == [] && files == map[]
    {
      catalog, files, nextId := [], map[], 0;
    }

    /**
     * POST /generate/student: 400 on a malformed body or a missing
     * student id, 404 for an unknown student, 404 when the term has no
     * grades; only then is the bulletin rendered, stored and catalogued.
     */
    method GenerateStudent(req: ReportRequest, users: seq<User>, ledger: seq<GradeRecord>, now: nat)
      returns (result: Result<StudentReportCreated>)
      requires Valid()
      modifies this
      ensures Valid()
      ensures result.Failure? ==> catalog == old(catalog) && files == old(files)
      ensures result.Failure? && result.status == BAD_REQUEST <==> !ValidRequest(req) || req.student_id.None?
      ensures result.Failure? && result.status == NOT_FOUND <==>
        ValidRequest(req) && req.student_id.Some? &&
        (FindUser(users, req.student_id.value).None? ||
         RecordsFor(ledger, req.student_id.value, req.term.value) == [])
      ensures result.Failure? ==> result.status in {BAD_REQUEST, NOT_FOUND}
      ensures result.Success? ==>
        var student, term := req.student_id.value, req.term.value;
        var email := FindUser(users, student).value.email;
        var filename := StudentFilename(email, term, now);
        var snap := Aggregate(ledger, student, term);
        && result.status == CREATED
        && result.value.report == CatalogRow(old(nextId), student, term, ReportUrl(filename), now)
        && result.value.download_url == result.value.report.url
        && catalog == old(catalog) + [result.value.report]
        && filename in files && files == old(files)[filename := files[filename]]
        && files[filename].StudentDocument?
        && files[filename].bulletin.email == email && files[filename].bulletin.term == term
        && ShowsSubjects(files[filename].bulletin.lines, BulletinRows(ledger, student, term))
        && files[filename].bulletin.overall == Some(snap.overall_average)
        && files[filename].bulletin.orientation == Label(Classify(snap.overall_average))
    {
      if !ValidRequest(req) || req.student_id.None? {
        return Failure(BAD_REQUEST);
      }
      var student, term := req.student_id.value, req.term.value;
      var found := FindUser(users, student);
      if found.None? {
        return Failure(NOT_FOUND);
      }
      var grades := BulletinRows(ledger, student, term);
      if grades == [] {
        return Failure(NOT_FOUND);
      }
      var filename, doc := RenderBulletin(ledger, student, term, found.value.email, grades, now);
      var row := CatalogRow(nextId, student, term, ReportUrl(filename), now);
      AppendKeepsCatalogValid(catalog, files, nextId, filename, StudentDocument(doc), row);
      files := files[filename := StudentDocument(doc)];
      catalog := catalog + [row];
      nextId := nextId + 1;
      result := Success(CREATED, StudentReportCreated(row, row.url));
    }

    /**
     * POST /generate/class: 400 on a malformed body or a missing class id,
     * 404 for an unknown class, 404 when it has no enrolled student; then
     * the report is rendered and stored, and the catalog is left alone.
     */
    method GenerateClass(req: ReportRequest, classes: seq<ClassRow>, users: seq<User>, members: seq<Member>,
                         ledger: seq<GradeRecord>, now: nat)
      returns (result: Result<ClassReportCreated>)
      requires Valid()
      modifies this
      ensures Valid()
      ensures catalog == old(catalog) && nextId == old(nextId)
      ensures result.Failure? ==> files == old(files)
      ensures result.Failure? && result.status == BAD_REQUEST <==> !ValidRequest(req) || req.class_id.None?
      ensures result.Failure? && result.status == NOT_FOUND <==>
        ValidRequest(req) && req.class_id.Some? &&
        (FindClass(classes, req.class_id.value).None? ||
         EnrolledStudents(users, members, req.class_id.value) == [])
      ensures result.Failure? ==> result.status in {BAD_REQUEST, NOT_FOUND}
      ensures result.Success? ==>
        var classId, term := req.class_id.value, req.term.value;
        var row := FindClass(classes, classId).value;
        var filename := ClassFilename(row.name, term, now);
        var stats := ClassStatisticsRows(ledger, users, members, classId, term);
        && result.status == CREATED
        && result.value == ClassReportCreated(ReportUrl(filename), row.name, term,
                                              |EnrolledStudents(users, members, classId)|)
        && filename in files && files == old(files)[filename := files[filename]]
        && files[filename].ClassReportDocument?
        && files[filename].report.summary == ClassSummary(|stats|, StudentsWithGrades(stats), ClassAverage(stats))
        && files[filename].report.name == row.name && files[filename].report.level == row.level
        && files[filename].report.term == term
        && |files[filename].report.lines| == |stats|
        && (forall j :: 0 <= j < |stats| ==>
              files[filename].report.lines[j] ==
                ClassLine(stats[j].student_email, AverageCell(stats[j].average), OrientationCell(stats[j].orientation)))
    {
      if !ValidRequest(req) || req.class_id.None? {
        return Failure(BAD_REQUEST);
      }
      var classId, term := req.class_id.value, req.term.value;
      var found := FindClass(classes, classId);
      if found.None? {
        return Failure(NOT_FOUND);
      }
      var stats := ClassStatisticsRows(ledger, users, members, classId, term);
      if stats == [] {
        return Failure(NOT_FOUND);
      }
      var filename, doc := GenerateClassReport(found.value, stats, term, now);
      StoreKeepsCatalogValid(catalog, files, nextId, filename, ClassReportDocument(doc));
      files := files[filename := ClassReportDocument(doc)];
      result := Success(CREATED, ClassReportCreated(ReportUrl(filename), found.value.name, term, |stats|));
    }

    /** GET /reports: the joined catalog rows passing both filters, newest first. */
    function ListReports(users: seq<User>, studentId: Option<string>, term: Option<string>): (r: seq<ListedReport>)
      reads this
      ensures SortedBy(r, NewestReportFirst)
      ensures multiset(r) == multiset(JoinCatalog(catalog, users, studentId, term))
      ensures forall v :: v in r ==> v.report in catalog && ListedMatches(v.report, studentId, term)
    {
      NewestReportFirstIsTotalPreorder();
      var joined := JoinCatalog(catalog, users, studentId, term);
      SortBySorted(joined, NewestReportFirst);
      SortByPermutes(joined, NewestReportFirst);
      SortBy(joined, NewestReportFirst)
    }

    /** GET /reports/:filename: the stored document, or 404. */
    function Download(filename: string): (r: Result<Document>)
      reads this
      ensures r.Success? <==> filename in files
      ensures r.Success? ==> r.status == OK && r.value == files[filename]
      ensures r.Failure? ==> r.status == NOT_FOUND
    {
      if filename in files then Success(OK, files[filename]) else Failure(NOT_FOUND)
    }

    /** The download link of every listed report resolves. */
    lemma ListedReportsDownload(users: seq<User>, studentId: Option<string>, term: Option<string>, v: ListedReport)
      requires Valid()
      requires v in ListReports(users, studentId, term)
      ensures |v.report.url| >= |REPORTS_PREFIX|
      ensures Download(v.report.url[|REPORTS_PREFIX|..]).Success?
    {
      var i :| 0 <= i < |catalog| && catalog[i] == v.report;
      assert Resolves(catalog[i].url, files);
    }
  }
}
