/**
 * The grade ledger's rows (academic.grades) and the one grouping/averaging
 * vocabulary that both the average endpoint and the bulletin generator use:
 * sums and means of scores, the scores of one subject, the subjects in order
 * of first appearance, and the proof that the overall mean is weighted by
 * record rather than by subject.
 */
module Grades {
  import opened Common
  import opened Collections

  const MIN_SCORE: real := 0.0
  const MAX_SCORE: real := 20.0

  /** created_at is the clock value the ledger received with the insert. */
  datatype GradeRecord = GradeRecord(
    id: nat, student_id: string, subject: string, term: string, score: real, created_at: int)

  predicate InScoreRange(x: real) {
    MIN_SCORE <= x <= MAX_SCORE
  }

  function Sum(xs: seq<real>): real {
    if xs == [] then 0.0 else Sum(xs[..|xs| - 1]) + xs[|xs| - 1]
  }

  lemma {:induction false} SumAppend(a: seq<real>, b: seq<real>)
    ensures Sum(a + b) == Sum(a) + Sum(b)
  {
    if b != [] {
      assert (a + b)[..|a + b| - 1] == a + b[..|b| - 1];
      SumAppend(a, b[..|b| - 1]);
    } else {
      assert a + b == a;
    }
  }

  lemma {:induction false} SumBounds(xs: seq<real>, lo: real, hi: real)
    requires forall i :: 0 <= i < |xs| ==> lo <= xs[i] <= hi
    ensures |xs| as real * lo <= Sum(xs) <= |xs| as real * hi
  {
    if xs != [] {
      SumBounds(xs[..|xs| - 1], lo, hi);
    }
  }

  /** Arithmetic mean; every caller has established that xs is not empty. */
  function Mean(xs: seq<real>): real
    requires |xs| > 0
  {
    Sum(xs) / |xs| as real
  }

  lemma MeanTimesCount(xs: seq<real>)
    requires |xs| > 0
    ensures Mean(xs) * |xs| as real == Sum(xs)
  {
  }

  lemma MeanInRange(xs: seq<real>, lo: real, hi: real)
    requires |xs| > 0
    requires forall i :: 0 <= i < |xs| ==> lo <= xs[i] <= hi
    ensures lo <= Mean(xs) <= hi
  {
    SumBounds(xs, lo, hi);
    var n := |xs| as real;
    assert Mean(xs) * n == Sum(xs);
  }

  function Scores(rs: seq<GradeRecord>): (r: seq<real>)
    ensures |r| == |rs|
    ensures forall i :: 0 <= i < |rs| ==> r[i] == rs[i].score
  {
    if rs == [] then [] else Scores(rs[..|rs| - 1]) + [rs[|rs| - 1].score]
  }

  /** The scores of one subject, in ledger order. */
  function ScoresOf(rs: seq<GradeRecord>, subject: string): seq<real> {
    if rs == [] then []
    else if rs[|rs| - 1].subject == subject then ScoresOf(rs[..|rs| - 1], subject) + [rs[|rs| - 1].score]
    else ScoresOf(rs[..|rs| - 1], subject)
  }

  lemma {:induction false} ScoresOfPresent(rs: seq<GradeRecord>, subject: string)
    ensures ScoresOf(rs, subject) != [] <==> exists i :: 0 <= i < |rs| && rs[i].subject == subject
  {
    if rs != [] {
      var init := rs[..|rs| - 1];
      ScoresOfPresent(init, subject);
      if exists i :: 0 <= i < |init| && init[i].subject == subject {
        var i :| 0 <= i < |init| && init[i].subject == subject;
        assert rs[i].subject == subject;
      }
      if exists i :: 0 <= i < |rs| && rs[i].subject == subject {
        var i :| 0 <= i < |rs| && rs[i].subject == subject;
        if i < |init| { assert init[i].subject == subject; }
      }
    }
  }

  lemma {:induction false} ScoresOfInRange(rs: seq<GradeRecord>, subject: string)
    requires forall i :: 0 <= i < |rs| ==> InScoreRange(rs[i].score)
    ensures forall k :: 0 <= k < |ScoresOf(rs, subject)| ==> InScoreRange(ScoresOf(rs, subject)[k])
  {
    if rs != [] {
      ScoresOfInRange(rs[..|rs| - 1], subject);
    }
  }

  /** The subject column. */
  function Subjects(rs: seq<GradeRecord>): (r: seq<string>)
    ensures |r| == |rs|
    ensures forall i :: 0 <= i < |rs| ==> r[i] == rs[i].subject
  {
    if rs == [] then [] else Subjects(rs[..|rs| - 1]) + [rs[|rs| - 1].subject]
  }

  /** Each subject once, in order of first appearance. */
  function SubjectsInOrder(rs: seq<GradeRecord>): (r: seq<string>)
    ensures NoDuplicates(r)
    ensures forall s :: s in r <==> exists i :: 0 <= i < |rs| && rs[i].subject == s
  {
    var subjects := Subjects(rs);
    var r := Distinct(subjects);
    assert forall s :: s in subjects <==> exists i :: 0 <= i < |rs| && rs[i].subject == s by {
      forall s ensures s in subjects <==> exists i :: 0 <= i < |rs| && rs[i].subject == s {
        if s in subjects {
          var i :| 0 <= i < |subjects| && subjects[i] == s;
          assert rs[i].subject == s;
        }
      }
    }
    r
  }

  /** Filing one more record: its subject joins the list unless already there. */
  lemma SubjectsInOrderStep(rs: seq<GradeRecord>, x: GradeRecord)
    ensures SubjectsInOrder(rs + [x])
         == if x.subject in SubjectsInOrder(rs) then SubjectsInOrder(rs) else SubjectsInOrder(rs) + [x.subject]
  {
    assert Subjects(rs + [x]) == Subjects(rs) + [x.subject];
    assert (Subjects(rs) + [x.subject])[..|Subjects(rs)|] == Subjects(rs);
  }

  lemma ScoresOfStep(rs: seq<GradeRecord>, x: GradeRecord, subject: string)
    ensures ScoresOf(rs + [x], subject)
         == if x.subject == subject then ScoresOf(rs, subject) + [x.score] else ScoresOf(rs, subject)
  {
    assert (rs + [x])[..|rs|] == rs;
  }

  predicate IsFor(r: GradeRecord, student: string, term: string) {
    r.student_id == student && r.term == term
  }

  /** The ledger slice of one student in one term, in ledger order. */
  function RecordsFor(ledger: seq<GradeRecord>, student: string, term: string): (r: seq<GradeRecord>)
    ensures forall x :: x in r <==> x in ledger && IsFor(x, student, term)
  {
    Filter(ledger, (x: GradeRecord) => IsFor(x, student, term))
  }

  lemma RecordsForAppend(ledger: seq<GradeRecord>, x: GradeRecord, student: string, term: string)
    ensures RecordsFor(ledger + [x], student, term)
         == RecordsFor(ledger, student, term) + (if IsFor(x, student, term) then [x] else [])
  {
    var keep := (y: GradeRecord) => IsFor(y, student, term);
    FilterAppend(ledger, [x], keep);
    assert [x][..0] == [];
  }

  lemma ScoresAppend(a: seq<GradeRecord>, b: seq<GradeRecord>)
    ensures Scores(a + b) == Scores(a) + Scores(b)
  {
    assert forall i :: 0 <= i < |a + b| ==> Scores(a + b)[i] == (Scores(a) + Scores(b))[i];
  }

  lemma {:induction false} ScoresOfAppend(a: seq<GradeRecord>, b: seq<GradeRecord>, subject: string)
    ensures ScoresOf(a + b, subject) == ScoresOf(a, subject) + ScoresOf(b, subject)
  {
    if b != [] {
      assert (a + b)[..|a + b| - 1] == a + b[..|b| - 1];
      ScoresOfAppend(a, b[..|b| - 1], subject);
    } else {
      assert a + b == a;
    }
  }

  lemma SpliceScores(left: seq<GradeRecord>, x: GradeRecord, right: seq<GradeRecord>)
    ensures Sum(Scores(left + [x] + right)) == Sum(Scores(left + right)) + x.score
  {
    ScoresAppend(left, [x]);
    ScoresAppend(left + [x], right);
    ScoresAppend(left, right);
    SumAppend(Scores(left), [x.score]);
    SumAppend(Scores(left) + [x.score], Scores(right));
    SumAppend(Scores(left), Scores(right));
  }

  lemma SpliceScoresOf(left: seq<GradeRecord>, x: GradeRecord, right: seq<GradeRecord>, subject: string)
    ensures Sum(ScoresOf(left + [x] + right, subject))
         == Sum(ScoresOf(left + right, subject)) + (if x.subject == subject then x.score else 0.0)
    ensures |ScoresOf(left + [x] + right, subject)|
         == |ScoresOf(left + right, subject)| + (if x.subject == subject then 1 else 0)
  {
    ScoresOfAppend(left, [x], subject);
    ScoresOfAppend(left + [x], right, subject);
    ScoresOfAppend(left, right, subject);
    var mid := ScoresOf([x], subject);
    assert [x][..0] == [];
    SumAppend(ScoresOf(left, subject), mid);
    SumAppend(ScoresOf(left, subject) + mid, ScoresOf(right, subject));
    SumAppend(ScoresOf(left, subject), ScoresOf(right, subject));
  }

  /**
   * The order in which a ledger slice arrives does not matter to its sum:
   * two slices holding the same records have the same total.
   */
  lemma {:induction false} PermutationKeepsTotal(a: seq<GradeRecord>, b: seq<GradeRecord>)
    requires multiset(a) == multiset(b)
    ensures Sum(Scores(a)) == Sum(Scores(b))
  {
    if a == [] {
      assert |multiset(b)| == 0;
    } else {
      var init, x := a[..|a| - 1], a[|a| - 1];
      var left, right := SplitAtLast(a, b);
      calc {
        Sum(Scores(a));
        { assert a == init + [x] + [] && init + [] == init; SpliceScores(init, x, []); }
        Sum(Scores(init)) + x.score;
        { PermutationKeepsTotal(init, left + right); }
        Sum(Scores(left + right)) + x.score;
        { SpliceScores(left, x, right); }
        Sum(Scores(b));
      }
    }
  }

  /** Likewise for the total and the count of each subject. */
  lemma {:induction false} PermutationKeepsSubjectSums(a: seq<GradeRecord>, b: seq<GradeRecord>, subject: string)
    requires multiset(a) == multiset(b)
    ensures Sum(ScoresOf(a, subject)) == Sum(ScoresOf(b, subject))
    ensures |ScoresOf(a, subject)| == |ScoresOf(b, subject)|
  {
    if a == [] {
      assert |multiset(b)| == 0;
    } else {
      var init, x := a[..|a| - 1], a[|a| - 1];
      var left, right := SplitAtLast(a, b);
      PermutationKeepsSubjectSums(init, left + right, subject);
      SpliceScoresOf(left, x, right, subject);
      SpliceScoresOf(init, x, [], subject);
      assert init + [x] + [] == a && init + [] == init;
    }
  }

  // ---- the overall mean is record-weighted ----

  /** Sum over the subjects D of the scores recorded under each. */
  function SubjectTotals(d: seq<string>, rs: seq<GradeRecord>): real {
    if d == [] then 0.0 else Sum(ScoresOf(rs, d[0])) + SubjectTotals(d[1..], rs)
  }

  /** Number of records filed under the subjects D. */
  function SubjectCounts(d: seq<string>, rs: seq<GradeRecord>): nat {
    if d == [] then 0 else |ScoresOf(rs, d[0])| + SubjectCounts(d[1..], rs)
  }

  lemma {:induction false} SubjectTotalsEmpty(d: seq<string>)
    ensures SubjectTotals(d, []) == 0.0 && SubjectCounts(d, []) == 0
  {
    if d != [] {
      SubjectTotalsEmpty(d[1..]);
    }
  }

  lemma {:induction false} SubjectTotalsStep(d: seq<string>, rs: seq<GradeRecord>, x: GradeRecord)
    requires NoDuplicates(d)
    ensures SubjectTotals(d, rs + [x]) == SubjectTotals(d, rs) + (if x.subject in d then x.score else 0.0)
    ensures SubjectCounts(d, rs + [x]) == SubjectCounts(d, rs) + (if x.subject in d then 1 else 0)
  {
    if d != [] {
      var rs' := rs + [x];
      assert rs'[..|rs'| - 1] == rs;
      assert NoDuplicates(d[1..]);
      SubjectTotalsStep(d[1..], rs, x);
      if x.subject == d[0] {
        assert x.subject !in d[1..];
        assert ScoresOf(rs', d[0]) == ScoresOf(rs, d[0]) + [x.score];
        assert Sum(ScoresOf(rs', d[0])) == Sum(ScoresOf(rs, d[0])) + x.score;
      } else {
        assert x.subject in d <==> x.subject in d[1..];
      }
    }
  }

  /**
   * Filing every record under its subject, with each subject listed once,
   * neither loses nor repeats a record: the subject totals add up to the
   * ledger slice's sum and the subject counts to its length.
   */
  lemma {:induction false} SubjectPartition(d: seq<string>, rs: seq<GradeRecord>)
    requires NoDuplicates(d)
    requires forall i :: 0 <= i < |rs| ==> rs[i].subject in d
    ensures SubjectTotals(d, rs) == Sum(Scores(rs))
    ensures SubjectCounts(d, rs) == |rs|
  {
    if rs == [] {
      SubjectTotalsEmpty(d);
    } else {
      var init, x := rs[..|rs| - 1], rs[|rs| - 1];
      assert rs == init + [x];
      SubjectPartition(d, init);
      SubjectTotalsStep(d, init, x);
    }
  }

  /** Sum over the subjects D of (number of grades) x (subject mean). */
  function WeightedSubjectTotal(d: seq<string>, rs: seq<GradeRecord>): real {
    if d == [] then 0.0
    else
      var xs := ScoresOf(rs, d[0]);
      (if xs == [] then 0.0 else |xs| as real * Mean(xs)) + WeightedSubjectTotal(d[1..], rs)
  }

  lemma {:induction false} WeightedIsTotal(d: seq<string>, rs: seq<GradeRecord>)
    ensures WeightedSubjectTotal(d, rs) == SubjectTotals(d, rs)
  {
    if d != [] {
      WeightedIsTotal(d[1..], rs);
      var xs := ScoresOf(rs, d[0]);
      if xs != [] {
        assert |xs| as real * Mean(xs) == Sum(xs);
      }
    }
  }

  /**
   * The overall mean of a ledger slice is the mean of its subject means
   * weighted by each subject's number of grades, i.e. every record counts
   * once, whatever its subject.
   */
  lemma OverallIsRecordWeighted(rs: seq<GradeRecord>)
    requires |rs| > 0
    ensures Mean(Scores(rs)) == WeightedSubjectTotal(SubjectsInOrder(rs), rs) / |rs| as real
  {
    var d := SubjectsInOrder(rs);
    forall i | 0 <= i < |rs| ensures rs[i].subject in d {
    }
    SubjectPartition(d, rs);
    WeightedIsTotal(d, rs);
  }

  /** Grouping by subject files every record exactly once. */
  lemma SubjectCountsCoverLedger(rs: seq<GradeRecord>)
    ensures SubjectCounts(SubjectsInOrder(rs), rs) == |rs|
  {
    var d := SubjectsInOrder(rs);
    forall i | 0 <= i < |rs| ensures rs[i].subject in d {
    }
    SubjectPartition(d, rs);
  }
}
