/** The conditional demonstrations, each decision lifted out of `main` into
    a total function of the value it tests. */
module Conditionals {
  import CInt
  import Functions

  // ---------------------------------------------------------------
  // if and if-else
  // ---------------------------------------------------------------

  /** `if (x > 5)`: whether the single-branch message is printed. */
  function ExceedsFive(x: int): (printed: bool)
    ensures printed ==> x >= 6
    ensures x >= 6 ==> printed
  {
    x > 5
  }

  /** A larger x never withdraws the message, and a smaller one never adds
      it: the single test is a threshold. */
  lemma ExceedsFiveMonotone(x1: int, x2: int)
    requires x1 <= x2
    ensures ExceedsFive(x1) ==> ExceedsFive(x2)
    ensures !ExceedsFive(x2) ==> !ExceedsFive(x1)
  {
  }

  datatype AgeGroup = Adult | Minor

  /** `if (age >= 18) ... else ...`: exactly one of the two messages. */
  function AgeGroupOf(age: int): (g: AgeGroup)
    ensures g == Adult <==> age >= 18
    ensures g == Minor <==> age < 18
  {
    if age >= 18 then Adult else Minor
  }

  /** Growing older never turns an adult back into a minor, and the two
      branches split at 18: 17 is the oldest minor, 18 the youngest adult. */
  lemma AgeGroupMonotone(a1: int, a2: int)
    requires a1 <= a2
    ensures AgeGroupOf(a1) == Adult ==> AgeGroupOf(a2) == Adult
    ensures AgeGroupOf(a2) == Minor ==> AgeGroupOf(a1) == Minor
    ensures AgeGroupOf(17) == Minor && AgeGroupOf(18) == Adult
  {
  }

  // ---------------------------------------------------------------
  // The grade ladder
  // ---------------------------------------------------------------

  datatype Grade = A | B | C | D | F

  /** The if / else-if ladder: the first threshold the marks reach wins. */
  function GradeOf(marks: int): (g: Grade)
    ensures g == A <==> 90 <= marks
    ensures g == B <==> 75 <= marks < 90
    ensures g == C <==> 60 <= marks < 75
    ensures g == D <==> 40 <= marks < 60
    ensures g == F <==> marks < 40
  {
    if marks >= 90 then A
    else if marks >= 75 then B
    else if marks >= 60 then C
    else if marks >= 40 then D
    else F
  }

  /** The rank of a grade, A highest. */
  function Rank(g: Grade): int {
    match g
    case A => 4
    case B => 3
    case C => 2
    case D => 1
    case F => 0
  }

  /** More marks never give a lower grade. */
  lemma GradeMonotone(m1: int, m2: int)
    requires m1 <= m2
    ensures Rank(GradeOf(m1)) <= Rank(GradeOf(m2))
  {
  }

  // ---------------------------------------------------------------
  // Nested if
  // ---------------------------------------------------------------

  /** The three nested tests `a > 0`, `b > a`, `c > a && c < b`: the
      ordering message is printed exactly when 0 < a < c < b. */
  function OrderMessagePrinted(a: int, b: int, c: int): (printed: bool)
    ensures printed <==> 0 < a < c < b
  {
    if a > 0 then
      if b > a then c > a && c < b else false
    else false
  }

  // ---------------------------------------------------------------
  // switch
  // ---------------------------------------------------------------

  const WeekDays: seq<string> :=
    ["Monday", "Tuesday", "Wednesday", "Thursday", "Friday", "Saturday", "Sunday"]

  /** The switch over the day number, with its default branch. */
  function DayName(day: int): (name: string)
    ensures 1 <= day <= 7 ==> name == WeekDays[day - 1]
    ensures name == "Invalid day" <==> !(1 <= day <= 7)
  {
    match day
    case 1 => "Monday"
    case 2 => "Tuesday"
    case 3 => "Wednesday"
    case 4 => "Thursday"
    case 5 => "Friday"
    case 6 => "Saturday"
    case 7 => "Sunday"
    case _ => "Invalid day"
  }

  /** Different day numbers in range get different names. */
  lemma DayNameInjective(d1: int, d2: int)
    requires 1 <= d1 <= 7 && 1 <= d2 <= 7 && DayName(d1) == DayName(d2)
    ensures d1 == d2
  {
  }

  datatype Letter = Vowel | Consonant

  /** The switch over a character: five `case` labels fall through to the
      vowel outcome, everything else takes the default. */
  function Classify(ch: char): (l: Letter)
    ensures l == Vowel <==> ch in "aeiou"
  {
    match ch
    case 'a' | 'e' | 'i' | 'o' | 'u' => Vowel
    case _ => Consonant
  }

  /** Only lower-case vowels are labelled: upper-case vowels, digits and
      punctuation all take the default branch. */
  lemma ClassifyIsCaseSensitive()
    ensures forall ch :: ch in "AEIOU0 ." ==> Classify(ch) == Consonant
  {
  }

  // ---------------------------------------------------------------
  // The ternary operator
  // ---------------------------------------------------------------

  /** `(num % 2 == 0) ? "Even" : "Odd"` with C's remainder. */
  function Parity(num: int): (s: string)
    ensures s == "Even" || s == "Odd"
    ensures s == "Even" <==> num % 2 == 0
  {
    if CInt.Rem(num, 2) == 0 then "Even" else "Odd"
  }

  /** The ternary's parity label is the one `isEven` decides. */
  lemma ParityMatchesIsEven(num: int)
    ensures Parity(num) == "Even" <==> Functions.IsEven(num)
  {
  }

  /** `(p > q) ? p : q`: the larger value, q on a tie. */
  function TernaryMax(p: int, q: int): (m: int)
    ensures m >= p && m >= q
    ensures m == p || m == q
    ensures p == q ==> m == q
  {
    if p > q then p else q
  }

  // ---------------------------------------------------------------
  // Logical operators
  // ---------------------------------------------------------------

  /** `score >= 60 && attendance >= 75`: both conditions are needed. */
  function EligibleToPass(score: int, attendance: int): (ok: bool)
    ensures ok ==> score >= 60 && attendance >= 75
    ensures score >= 60 && attendance >= 75 ==> ok
  {
    score >= 60 && attendance >= 75
  }

  /** `score >= 90 || attendance >= 90`: either condition suffices. */
  function EligibleForHonors(score: int, attendance: int): (ok: bool)
    ensures !ok ==> score < 90 && attendance < 90
    ensures score >= 90 || attendance >= 90 ==> ok
  {
    score >= 90 || attendance >= 90
  }

  /** Raising the score or the attendance never withdraws an eligibility. */
  lemma EligibilityMonotone(s1: int, a1: int, s2: int, a2: int)
    requires s1 <= s2 && a1 <= a2
    ensures EligibleToPass(s1, a1) ==> EligibleToPass(s2, a2)
    ensures EligibleForHonors(s1, a1) ==> EligibleForHonors(s2, a2)
  {
  }

  /** The two eligibilities are independent: neither implies the other. */
  lemma EligibilitiesIndependent()
    ensures EligibleToPass(85, 80) && !EligibleForHonors(85, 80)
    ensures EligibleForHonors(50, 95) && !EligibleToPass(50, 95)
  {
  }

  // ---------------------------------------------------------------
  // The demonstration sequence of main, on its literal inputs
  // ---------------------------------------------------------------

  lemma ConditionalsDemo()
    ensures ExceedsFive(10)
    ensures AgeGroupOf(16) == Minor
    ensures GradeOf(75) == B
    ensures OrderMessagePrinted(10, 20, 15)
    ensures DayName(3) == "Wednesday"
    ensures Classify('e') == Vowel
    ensures Parity(7) == "Odd"
    ensures TernaryMax(100, 200) == 200
    ensures EligibleToPass(85, 80) && !EligibleForHonors(85, 80)
  {
  }
}
