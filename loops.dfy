/** The loop demonstrations, each lifted out of `main` into a method that
    takes the demonstration's literal input as a parameter and returns what
    the loop computes; the values it prints are returned as a sequence. */
module Loops {
  import opened CInt
  import opened Decimal
  import Functions

  // ---------------------------------------------------------------
  // Reference definitions
  // ---------------------------------------------------------------

  /** The integers lo, lo + 1, ..., hi - 1. */
  function Range(lo: int, hi: int): (r: seq<int>)
    ensures |r| == if lo < hi then hi - lo else 0
    ensures forall k :: 0 <= k < |r| ==> r[k] == lo + k
    decreases hi - lo
  {
    if hi <= lo then [] else [lo] + Range(lo + 1, hi)
  }

  /** 1 + 2 + ... + n, and 0 when n < 1. */
  function Triangle(n: int): int {
    if n < 1 then 0 else Triangle(n - 1) + n
  }

  lemma {:induction false} TriangleClosedForm(n: int)
    requires n >= 0
    ensures Triangle(n) == n * (n + 1) / 2
  {
    if n > 0 {
      TriangleClosedForm(n - 1);
      assert n * (n + 1) == (n - 1) * n + 2 * n;
    }
  }

  predicate StrictlyIncreasing(s: seq<int>) {
    forall j, k :: 0 <= j < k < |s| ==> s[j] < s[k]
  }

  // ---------------------------------------------------------------
  // Counted loops
  // ---------------------------------------------------------------

  /** `for (int i = first; i <= last; i++)`: prints first .. last, nothing
      when first > last. */
  method CountUp(first: int, last: int) returns (emitted: seq<int>)
    ensures emitted == Range(first, last + 1)
  {
    emitted := [];
    var i := first;
    while i <= last
      invariant first <= i <= if first <= last then last + 1 else first
      invariant emitted == Range(first, i)
    {
      emitted := emitted + [i];
      i := i + 1;
    }
  }

  /** `for (int i = first; i >= last; i--)`: the countdown. */
  method CountDown(first: int, last: int) returns (emitted: seq<int>)
    ensures |emitted| == if last <= first then first - last + 1 else 0
    ensures forall k :: 0 <= k < |emitted| ==> emitted[k] == first - k
  {
    emitted := [];
    var i := first;
    while i >= last
      invariant (if last <= first then last - 1 else first) <= i <= first
      invariant |emitted| == first - i
      invariant forall k :: 0 <= k < |emitted| ==> emitted[k] == first - k
    {
      emitted := emitted + [i];
      i := i - 1;
    }
  }

  /** `sum += i` for i = 1 .. n. */
  method SumTo(n: int) returns (sum: int)
    ensures sum == Triangle(n)
    ensures n >= 0 ==> sum == n * (n + 1) / 2
  {
    sum := 0;
    var i := 1;
    while i <= n
      invariant 1 <= i <= if n >= 1 then n + 1 else 1
      invariant sum == Triangle(i - 1)
      invariant sum == (i - 1) * i / 2
    {
      TriangleClosedForm(i);
      sum := sum + i;
      i := i + 1;
    }
    if n >= 0 {
      TriangleClosedForm(n);
    }
  }

  // ---------------------------------------------------------------
  // while loops
  // ---------------------------------------------------------------

  /** The loop printing the odd numbers: i runs 1 .. limit and is printed
      when `i % 2 != 0`. */
  method OddsUpTo(limit: int) returns (emitted: seq<int>)
    ensures StrictlyIncreasing(emitted)
    ensures forall x :: x in emitted <==> 1 <= x <= limit && x % 2 == 1
  {
    emitted := [];
    var i := 1;
    while i <= limit
      invariant 1 <= i <= if limit >= 1 then limit + 1 else 1
      invariant StrictlyIncreasing(emitted)
      invariant forall k :: 0 <= k < |emitted| ==> emitted[k] < i
      invariant forall x :: x in emitted <==> 1 <= x < i && x % 2 == 1
    {
      if Rem(i, 2) != 0 {
        emitted := emitted + [i];
      }
      i := i + 1;
    }
  }

  /** The digit-count loop: `temp /= 10; digits++` until temp is 0, with C's
      truncating division, so a negative number counts its magnitude's
      digits and 0 has none (the body never runs). */
  method DigitCount(number: int) returns (digits: int)
    ensures digits == NumDigits(Abs(number))
    ensures number == 0 ==> digits == 0
    ensures number != 0 ==> Pow10(digits - 1) <= Abs(number) < Pow10(digits)
  {
    digits := 0;
    var temp := number;
    while temp != 0
      invariant digits >= 0
      invariant digits + NumDigits(Abs(temp)) == NumDigits(Abs(number))
      decreases Abs(temp)
    {
      DivRemTen(temp);
      temp := Div(temp, 10);
      digits := digits + 1;
    }
    if number != 0 {
      NumDigitsBounds(Abs(number));
    }
  }

  /** The digit-reversal loop: `reversed = reversed * 10 + temp % 10;
      temp /= 10` until temp is 0. With C's operators every digit keeps the
      sign of the input, so the result is the reversal of the magnitude
      carrying the input's sign. */
  method DigitReverse(number: int) returns (reversed: int)
    ensures reversed == Sign(number) * ReverseNumber(Abs(number))
  {
    reversed := 0;
    var temp := number;
    ghost var taken: seq<int> := [];
    while temp != 0
      invariant ReversalInvariant(number, temp, reversed, taken)
      decreases Abs(temp)
    {
      ReversalStep(number, temp, reversed, taken);
      taken := taken + [Abs(temp) % 10];
      reversed := reversed * 10 + Rem(temp, 10);
      temp := Div(temp, 10);
    }
    assert taken == DigitsLE(Abs(number));
    SignedValue(number, ValueBE(taken));
  }

  /** What the reversal loop keeps: temp has the input's sign, the digits
      taken so far and those left in temp make up the input, and reversed
      is the digits taken, read most significant first, with the sign. */
  ghost predicate ReversalInvariant(number: int, temp: int, reversed: int, taken: seq<int>) {
    && (if number < 0 then temp <= 0 else temp >= 0)
    && DigitsLE(Abs(number)) == taken + DigitsLE(Abs(temp))
    && reversed == if number < 0 then -ValueBE(taken) else ValueBE(taken)
  }

  lemma ReversalStep(number: int, temp: int, reversed: int, taken: seq<int>)
    requires temp != 0 && ReversalInvariant(number, temp, reversed, taken)
    ensures ReversalInvariant(number, Div(temp, 10), reversed * 10 + Rem(temp, 10),
                              taken + [Abs(temp) % 10])
  {
    var d := Abs(temp) % 10;
    PeelDigit(temp);
    ValueBEAppend(taken, d);
    var rest := DigitsLE(Abs(Div(temp, 10)));
    assert taken + ([d] + rest) == (taken + [d]) + rest;
  }

  /** One pass of the digit loops on a nonzero temp: C's `temp % 10` is its
      last digit with temp's sign, and `temp / 10` holds the other digits. */
  lemma PeelDigit(temp: int)
    requires temp != 0
    ensures DigitsLE(Abs(temp)) == [Abs(temp) % 10] + DigitsLE(Abs(Div(temp, 10)))
    ensures Rem(temp, 10) == if temp < 0 then -(Abs(temp) % 10) else Abs(temp) % 10
  {
    DivRemTen(temp);
  }

  lemma SignedValue(number: int, v: int)
    ensures Sign(number) * v == if number < 0 then -v else if number == 0 then 0 else v
  {
  }

  lemma ValueBEAppend(s: seq<int>, d: int)
    ensures ValueBE(s + [d]) == 10 * ValueBE(s) + d
  {
    assert (s + [d])[..|s|] == s;
  }

  // ---------------------------------------------------------------
  // do-while loops: the body runs before the first test
  // ---------------------------------------------------------------

  /** `do { print x; x++; } while (x < limit);`: x0 is printed even when
      the condition is false from the start. */
  method DoWhileCount(x0: int, limit: int) returns (emitted: seq<int>, x: int)
    ensures x == if x0 + 1 < limit then limit else x0 + 1
    ensures emitted == Range(x0, x)
  {
    emitted := [x0];
    x := x0 + 1;
    while x < limit
      invariant x0 + 1 <= x <= if x0 + 1 < limit then limit else x0 + 1
      invariant emitted == Range(x0, x)
    {
      emitted := emitted + [x];
      x := x + 1;
    }
  }

  /** The simulated menu: each pass takes the next choice from `choices`
      (the demonstration always chooses 3) and the loop repeats while the
      choice is not 3. The first pass happens unconditionally; the model
      stops early when the choices run out. */
  method Menu(choices: seq<int>) returns (iterations: int, exited: bool)
    requires |choices| >= 1
    ensures 1 <= iterations <= |choices|
    ensures exited <==> 3 in choices
    ensures exited ==> choices[iterations - 1] == 3 && 3 !in choices[..iterations - 1]
    ensures !exited ==> iterations == |choices|
  {
    var choice := choices[0];
    iterations := 1;
    while choice != 3 && iterations < |choices|
      invariant 1 <= iterations <= |choices|
      invariant choice == choices[iterations - 1]
      invariant 3 !in choices[..iterations - 1]
      decreases |choices| - iterations
    {
      choice := choices[iterations];
      iterations := iterations + 1;
    }
    exited := choice == 3;
    assert choices == choices[..iterations - 1] + [choice] + choices[iterations..];
    assert iterations == |choices| ==> choices[iterations..] == [];
  }

  // ---------------------------------------------------------------
  // break, continue and goto
  // ---------------------------------------------------------------

  /** `for (j = 0; j < limit; j++) { if (j == stop) break; print j; }` */
  method BreakAt(limit: int, stop: int) returns (emitted: seq<int>, found: bool)
    ensures found <==> 0 <= stop < limit
    ensures emitted == if found then Range(0, stop) else Range(0, limit)
  {
    emitted := [];
    found := false;
    var j := 0;
    while j < limit
      invariant 0 <= j <= if limit > 0 then limit else 0
      invariant j <= stop || stop < 0
      invariant emitted == Range(0, j)
    {
      if j == stop {
        found := true;
        break;
      }
      emitted := emitted + [j];
      j := j + 1;
    }
  }

  /** `for (j = 1; j <= limit; j++) { if (j % 2 != 0) continue; print j; }` */
  method EvensUpTo(limit: int) returns (emitted: seq<int>)
    ensures StrictlyIncreasing(emitted)
    ensures forall x :: x in emitted <==> 1 <= x <= limit && x % 2 == 0
  {
    emitted := [];
    var j := 1;
    while j <= limit
      invariant 1 <= j <= if limit >= 1 then limit + 1 else 1
      invariant StrictlyIncreasing(emitted)
      invariant forall k :: 0 <= k < |emitted| ==> emitted[k] < j
      invariant forall x :: x in emitted <==> 1 <= x < j && x % 2 == 0
    {
      if Rem(j, 2) != 0 {
        j := j + 1;
        continue;
      }
      emitted := emitted + [j];
      j := j + 1;
    }
  }

  /** The label-and-goto loop: `loop_start: if (count < bound) { print
      count; count++; goto loop_start; }`. It prints what the counted loop
      CountUp(0, bound - 1) prints. */
  method GotoCount(bound: int) returns (emitted: seq<int>, count: int)
    ensures count == if bound > 0 then bound else 0
    ensures emitted == Range(0, bound)
  {
    emitted := [];
    count := 0;
    while count < bound
      invariant 0 <= count <= if bound > 0 then bound else 0
      invariant emitted == Range(0, count)
    {
      emitted := emitted + [count];
      count := count + 1;
    }
  }

  // ---------------------------------------------------------------
  // Practical loops
  // ---------------------------------------------------------------

  /** `factorial *= j` for j = 1 .. n: the product 1 * 2 * ... * n, which is
      the recursive factorial (1 when n < 1). */
  method FactorialLoop(n: int) returns (factorial: int)
    ensures factorial == Functions.Factorial(if n < 0 then 0 else n)
  {
    factorial := 1;
    var j := 1;
    while j <= n
      invariant 1 <= j <= if n >= 1 then n + 1 else 1
      invariant factorial == Functions.Factorial(j - 1)
    {
      factorial := factorial * j;
      j := j + 1;
    }
  }

  /** The Fibonacci while loop: prints a, then moves (a, b) to (b, a + b).
      After t passes a is F(t) and b is F(t + 1). */
  method FibonacciLoop(terms: int) returns (emitted: seq<int>, a: int, b: int)
    ensures |emitted| == if terms > 0 then terms else 0
    ensures forall k {:trigger emitted[k]} :: 0 <= k < |emitted| ==> emitted[k] == Functions.Fib(k)
    ensures a == Functions.Fib(|emitted|) && b == Functions.Fib(|emitted| + 1)
  {
    emitted := [];
    a, b := 0, 1;
    var t := 0;
    while t < terms
      invariant 0 <= t <= if terms > 0 then terms else 0
      invariant |emitted| == t
      invariant forall k {:trigger emitted[k]} :: 0 <= k < t ==> emitted[k] == Functions.Fib(k)
      invariant a == Functions.Fib(t) && b == Functions.Fib(t + 1)
    {
      emitted := emitted + [a];
      var next := a + b;
      a := b;
      b := next;
      t := t + 1;
    }
    assert t == |emitted|;
  }

  // ---------------------------------------------------------------
  // The demonstration sequence of main, on its literal inputs
  // ---------------------------------------------------------------

  method DigitLoopsDemo() returns (sum: int, digits: int, reversed: int)
    ensures sum == 5050 && digits == 6 && reversed == 4321
  {
    sum := SumTo(100);
    digits := DigitCount(123456);
    DigitsOf123456();
    reversed := DigitReverse(1234);
    ReversalOf1234();
  }

  method ConditionLoopsDemo() returns (x: int, iterations: int)
    ensures x == 101 && iterations == 1
  {
    var once;
    once, x := DoWhileCount(100, 10);
    var exited;
    iterations, exited := Menu([3]);
  }

  method RecurrenceLoopsDemo() returns (factorial: int, fibs: seq<int>)
    ensures factorial == 720
    ensures fibs == [0, 1, 1, 2, 3, 5, 8, 13, 21, 34]
  {
    factorial := FactorialLoop(6);
    var a, b;
    fibs, a, b := FibonacciLoop(10);
    assert Functions.Fib(9) == 34;
  }

  method CountedLoopsDemo() returns (counted: seq<int>, countdown: seq<int>, jumped: seq<int>)
    ensures counted == [1, 2, 3, 4, 5, 6, 7, 8, 9, 10]
    ensures countdown == [10, 9, 8, 7, 6, 5, 4, 3, 2, 1]
    ensures jumped == [0, 1, 2, 3, 4]
  {
    counted := CountUp(1, 10);
    countdown := CountDown(10, 1);
    var count;
    jumped, count := GotoCount(5);
  }

  method OddLoopDemo() returns (odds: seq<int>)
    ensures odds == [1, 3, 5, 7, 9]
  {
    odds := OddsUpTo(10);
    IncreasingDetermined(odds, [1, 3, 5, 7, 9]);
  }

  method BreakContinueDemo() returns (broken: seq<int>, evens: seq<int>)
    ensures broken == [0, 1, 2, 3, 4]
    ensures evens == [2, 4, 6, 8, 10]
  {
    var found;
    broken, found := BreakAt(10, 5);
    evens := EvensUpTo(10);
    IncreasingDetermined(evens, [2, 4, 6, 8, 10]);
  }

  lemma DigitsOf123456()
    ensures NumDigits(123456) == 6
  {
    assert DigitsLE(123) == [3, 2, 1];
    assert DigitsLE(123456) == [6, 5, 4, 3, 2, 1];
  }

  lemma ReversalOf1234()
    ensures ReverseNumber(1234) == 4321
  {
    var ds := [4, 3, 2, 1];
    assert DigitsLE(1234) == ds;
    assert ValueBE([4]) == 4 by { assert [4][..0] == []; }
    assert ValueBE([4, 3]) == 43 by { assert [4, 3][..1] == [4]; }
    assert ValueBE([4, 3, 2]) == 432 by { assert [4, 3, 2][..2] == [4, 3]; }
    assert ValueBE(ds) == 4321 by { assert ds[..3] == [4, 3, 2]; }
  }

  /** Two strictly increasing sequences with the same elements are equal. */
  lemma {:induction false} IncreasingDetermined(s: seq<int>, t: seq<int>)
    requires StrictlyIncreasing(s) && StrictlyIncreasing(t)
    requires forall x :: x in s <==> x in t
    ensures s == t
    decreases |s|
  {
    assert (s == []) == (t == []) by {
      if s != [] { assert s[0] in s; }
      if t != [] { assert t[0] in t; }
    }
    if s != [] {
      // the least elements agree, and so do the rests
      assert s[0] in s && t[0] in t;
      assert s[0] in t && t[0] in s;
      assert s[0] == t[0];
      forall x ensures x in s[1..] <==> x in t[1..] {
        if x in s[1..] {
          var i :| 1 <= i < |s| && s[i] == x;
          assert x in t;
          var k :| 0 <= k < |t| && t[k] == x;
          assert k != 0;
        }
        if x in t[1..] {
          var i :| 1 <= i < |t| && t[i] == x;
          assert x in s;
          var k :| 0 <= k < |s| && s[k] == x;
          assert k != 0;
        }
      }
      IncreasingDetermined(s[1..], t[1..]);
    }
  }
}
