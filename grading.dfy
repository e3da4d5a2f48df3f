/** The six-band grading table shared by the JSON report and both spreadsheet
    reports, and the percentage it is applied to (exact, not floating point). */
module Grading {

  datatype Grade = APlus | A | B | C | D | F

  /** The label written into replies and cells. */
  function Label(g: Grade): string
  {
    match g
    case APlus => "A+"
    case A => "A"
    case B => "B"
    case C => "C"
    case D => "D"
    case F => "F"
  }

  /** Position in the table, F lowest. */
  function Rank(g: Grade): nat
  {
    match g
    case F => 0
    case D => 1
    case C => 2
    case B => 3
    case A => 4
    case APlus => 5
  }

  /** The least percentage that earns `g` (F has none: every percentage earns at least F). */
  function Threshold(g: Grade): real
  {
    match g
    case APlus => 90.0
    case A => 80.0
    case B => 70.0
    case C => 60.0
    case D => 50.0
    case F => 0.0
  }

  /** `_calculate_grade`: the best band whose threshold the percentage reaches. */
  function CalculateGrade(percentage: real): (g: Grade)
    ensures g != F ==> percentage >= Threshold(g)
    ensures forall h :: Rank(h) > Rank(g) ==> percentage < Threshold(h)
  {
    if percentage >= 90.0 then APlus
    else if percentage >= 80.0 then A
    else if percentage >= 70.0 then B
    else if percentage >= 60.0 then C
    else if percentage >= 50.0 then D
    else F
  }

  /** A higher percentage never earns a lower grade. */
  lemma GradeMonotone(p: real, q: real)
    requires p <= q
    ensures Rank(CalculateGrade(p)) <= Rank(CalculateGrade(q))
  {
  }

  /** A percentage earns band `g` or better exactly when it reaches `g`'s threshold. */
  lemma GradeReaches(p: real, g: Grade)
    requires g != F
    ensures Rank(CalculateGrade(p)) >= Rank(g) <==> p >= Threshold(g)
  {
    match g
    case APlus => case A => case B => case C => case D =>
  }

  /** `(obtained / total) * 100` with Python's true division, exactly. */
  function Percentage(obtained: int, total: int): (p: real)
    requires total != 0
    ensures p * (total as real) == (obtained as real) * 100.0
  {
    (obtained as real) / (total as real) * 100.0
  }

  /** For a positive total, comparing the percentage with a threshold is the
      same as comparing `obtained * 100` with `threshold * total`. */
  lemma PercentageAtLeast(obtained: int, total: int, threshold: int)
    requires total > 0
    ensures Percentage(obtained, total) >= threshold as real <==> obtained * 100 >= threshold * total
  {
    var p := Percentage(obtained, total);
    var t := total as real;
    assert p * t == (obtained * 100) as real;
    if p >= threshold as real {
      assert p * t >= (threshold as real) * t;
    } else {
      assert p * t < (threshold as real) * t;
    }
  }

  /** Boundary values of the table. */
  lemma GradeBoundaries()
    ensures CalculateGrade(100.0) == APlus && CalculateGrade(90.0) == APlus
    ensures CalculateGrade(89.99) == A && CalculateGrade(50.0) == D
    ensures CalculateGrade(49.99) == F && CalculateGrade(0.0) == F
  {
  }
}
