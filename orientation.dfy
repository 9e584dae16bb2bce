/**
 * The orientation classifier: five ordered bands chosen from an average on
 * the 0-20 scale, decided top-down with ">=" at each boundary. Classify is
 * the single definition; the remaining members model each place where the
 * services spell the thresholds out again and prove that it agrees with
 * Classify.
 */
module Orientation {
  import opened Common

  datatype Band = Insuffisant | Passable | Bien | TresBien | Excellent

  function Rank(b: Band): (r: nat)
    ensures r < 5
  {
    match b
    case Insuffisant => 0
    case Passable => 1
    case Bien => 2
    case TresBien => 3
    case Excellent => 4
  }

  /** The lowest average a band admits (Insuffisant has no lower bound). */
  function Threshold(b: Band): real
    requires b != Insuffisant
  {
    match b
    case Passable => 10.0
    case Bien => 12.0
    case TresBien => 14.0
    case Excellent => 16.0
  }

  /**
   * The highest band whose threshold the average reaches: every band above
   * the result has a threshold the average does not reach.
   */
  function Classify(average: real): (b: Band)
    ensures b == Insuffisant || Threshold(b) <= average
    ensures forall c :: Rank(c) > Rank(b) ==> c != Insuffisant && average < Threshold(c)
  {
    if average >= 16.0 then Excellent
    else if average >= 14.0 then TresBien
    else if average >= 12.0 then Bien
    else if average >= 10.0 then Passable
    else Insuffisant
  }

  /** A higher average never gets a lower band. */
  lemma ClassifyMonotone(a: real, b: real)
    requires a <= b
    ensures Rank(Classify(a)) <= Rank(Classify(b))
  {
  }

  /** The label the services store and print for a band. */
  function Label(b: Band): string {
    match b
    case Excellent => "Excellent"
    case TresBien => "Très bien"
    case Bien => "Bien"
    case Passable => "Passable"
    case Insuffisant => "Insuffisant"
  }

  /**
   * The SQL CASE of the class statistics queries: AVG over no grade rows is
   * NULL, every comparison with NULL is unknown, so the ELSE branch wins.
   */
  function SqlCaseOrientation(average: Option<real>): (text: string)
    ensures average.None? ==> text == Label(Insuffisant)
    ensures average.Some? ==> text == Label(Classify(average.value))
  {
    if average.Some? && average.value >= 16.0 then "Excellent"
    else if average.Some? && average.value >= 14.0 then "Très bien"
    else if average.Some? && average.value >= 12.0 then "Bien"
    else if average.Some? && average.value >= 10.0 then "Passable"
    else "Insuffisant"
  }

  /** The if-chain of the student bulletin, assigning a label step by step. */
  method PdfOrientation(overallAverage: real) returns (orientation: string)
    ensures orientation == Label(Classify(overallAverage))
  {
    orientation := "";
    if overallAverage >= 16.0 {
      orientation := "Excellent";
    } else if overallAverage >= 14.0 {
      orientation := "Très bien";
    } else if overallAverage >= 12.0 {
      orientation := "Bien";
    } else if overallAverage >= 10.0 {
      orientation := "Passable";
    } else {
      orientation := "Insuffisant";
    }
  }

  /**
   * The web client's ternary chain; it compares the overall average as the
   * average endpoint returns it, already rounded to two decimals.
   */
  function ReportViewOrientation(shown: real): (text: string)
    ensures text == Label(Classify(shown))
  {
    if shown >= 16.0 then "Excellent"
    else if shown >= 14.0 then "Très bien"
    else if shown >= 12.0 then "Bien"
    else if shown >= 10.0 then "Passable"
    else "Insuffisant"
  }

  /** toFixed(2) on a non-negative value: round half up to hundredths. */
  function Round2(x: real): real {
    ((x * 100.0 + 0.5).Floor as real) / 100.0
  }

  lemma RoundedReaches(a: real, t: int)
    ensures Round2(a) >= t as real <==> a + 0.005 >= t as real
  {
    var f := (a * 100.0 + 0.5).Floor;
    assert f as real <= a * 100.0 + 0.5 < f as real + 1.0;
    if f >= 100 * t {
      assert a * 100.0 + 0.5 >= (100 * t) as real;
    }
    if a + 0.005 >= t as real {
      assert a * 100.0 + 0.5 >= (100 * t) as real;
      assert f + 1 > 100 * t;
    }
  }

  /**
   * Classifying the rounded figure is classifying the exact average shifted
   * up by half a hundredth: the client may show a higher band than the
   * bulletin when an average lies less than 0.005 below a threshold.
   */
  lemma DisplayedBand(a: real)
    ensures Classify(Round2(a)) == Classify(a + 0.005)
  {
    RoundedReaches(a, 16);
    RoundedReaches(a, 14);
    RoundedReaches(a, 12);
    RoundedReaches(a, 10);
  }

  lemma DisplayedBandCanDiffer()
    ensures Classify(Round2(15.996)) == Excellent
    ensures Classify(15.996) == TresBien
  {
    DisplayedBand(15.996);
  }
}
