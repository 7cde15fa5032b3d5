/** The function-style demonstrations: recursive factorial and Fibonacci,
    call by value and by reference, several results through output slots,
    a counter that persists across calls, and two integer utilities. */
module Functions {
  import opened CInt

  // ---------------------------------------------------------------
  // Trivial arithmetic (type-4 functions)
  // ---------------------------------------------------------------

  /** `add`: defined only when the sum is a 32-bit int, since signed
      overflow is undefined in C. */
  function Add(a: int, b: int): (r: int)
    requires IsInt32(a) && IsInt32(b) && IsInt32(a + b)
    ensures IsInt32(r) && r - b == a
  {
    a + b
  }

  /** `add` is commutative, 0 is its identity, and it undoes subtraction:
      whenever one order is defined, so is the other, with the same result. */
  lemma AddProperties(a: int, b: int)
    requires IsInt32(a) && IsInt32(b) && IsInt32(a + b)
    ensures Add(a, b) == Add(b, a)
    ensures Add(a, 0) == a
    ensures IsInt32(-b) ==> IsInt32(Add(a, b) - b) && Add(a, b) - b == a
  {
  }

  /** Doubling by `multiply` agrees with adding a value to itself. */
  lemma MultiplyByTwoIsDoubling(a: int)
    requires IsInt32(a) && IsInt32(2 * a)
    ensures Multiply(a, 2) == Add(a, a)
  {
  }

  /** `multiply`: defined only when the product is a 32-bit int. */
  function Multiply(a: int, b: int): (r: int)
    requires IsInt32(a) && IsInt32(b) && IsInt32(a * b)
    ensures IsInt32(r)
    ensures r == 0 <==> a == 0 || b == 0
  {
    a * b
  }

  // ---------------------------------------------------------------
  // Recursion
  // ---------------------------------------------------------------

  /** `factorial`: base cases 0 and 1; a negative argument never reaches a
      base case, so it is excluded. */
  function Factorial(n: int): (r: int)
    requires n >= 0
    ensures r >= 1 && r >= n
  {
    if n == 0 || n == 1 then 1 else n * Factorial(n - 1)
  }

  /** `fibonacci`: naive double recursion with base cases 0 and 1. */
  function Fib(n: int): (r: int)
    requires n >= 0
    ensures r >= 0
    ensures n >= 1 ==> r >= 1
  {
    if n == 0 then 0 else if n == 1 then 1 else Fib(n - 1) + Fib(n - 2)
  }

  lemma {:induction false} FactorialMonotone(m: int, n: int)
    requires 0 <= m <= n
    ensures Factorial(m) <= Factorial(n)
  {
    if m < n {
      FactorialMonotone(m, n - 1);
      var f := Factorial(n - 1);
      assert Factorial(n) == n * f;
      MulMonotone(1, n, f, f);
    }
  }

  lemma {:induction false} FibMonotone(m: int, n: int)
    requires 0 <= m <= n
    ensures Fib(m) <= Fib(n)
  {
    if m < n {
      FibMonotone(m, n - 1);
    }
  }

  /** The recursive factorial computes the value the demonstration prints
      without leaving a 32-bit int exactly for n <= 12. */
  lemma FactorialFitsInt32(n: int)
    requires n >= 0
    ensures IsInt32(Factorial(n)) <==> n <= 12
  {
    assert Factorial(12) == 479001600;
    assert Factorial(13) == 6227020800;
    if n <= 12 {
      FactorialMonotone(n, 12);
    } else {
      FactorialMonotone(13, n);
    }
  }

  /** The recursive Fibonacci stays inside a 32-bit int exactly for n <= 46. */
  lemma FibFitsInt32(n: int)
    requires n >= 0
    ensures IsInt32(Fib(n)) <==> n <= 46
  {
    if n <= 46 {
      FibUpTo46(n);
    } else {
      FibFrom47(n);
    }
  }

  lemma FibUpTo46(n: int)
    requires 0 <= n <= 46
    ensures 0 <= Fib(n) <= INT_MAX
  {
    FibValue46();
    FibMonotone(n, 46);
  }

  lemma FibFrom47(n: int)
    requires n >= 47
    ensures Fib(n) > INT_MAX
  {
    FibValue46();
    FibMonotone(47, n);
  }

  /** Fib(46) and Fib(47) computed in steps of eight terms. */
  lemma FibValue46()
    ensures Fib(46) == 1836311903 && Fib(47) == 2971215073
  {
    FibValue36();
    assert Fib(41) == 165580141 && Fib(42) == 267914296;
  }

  lemma FibValue36()
    ensures Fib(36) == 14930352 && Fib(37) == 24157817
  {
    FibValue26();
    assert Fib(31) == 1346269 && Fib(32) == 2178309;
  }

  lemma FibValue26()
    ensures Fib(26) == 121393 && Fib(27) == 196418
  {
    assert Fib(4) == 3 && Fib(5) == 5;
    assert Fib(10) == 55 && Fib(11) == 89;
    assert Fib(18) == 2584 && Fib(19) == 4181;
  }

  // ---------------------------------------------------------------
  // Call by value and call by reference
  // ---------------------------------------------------------------

  /** `swap_value`: swaps its own copies and returns the pair it prints;
      the caller's arguments are values and cannot change. */
  method SwapValue(a: int, b: int) returns (insideA: int, insideB: int)
    ensures insideA == b && insideB == a
  {
    var a', b' := a, b;
    var temp := a';
    a' := b';
    b' := temp;
    insideA, insideB := a', b';
  }

  /** A C `int` object that a pointer can address. */
  class Cell {
    var value: int

    constructor (v: int)
      ensures value == v
    {
      value := v;
    }
  }

  /** `swap_reference`: writes through both pointers; when both point at the
      same object that object keeps its value. */
  method SwapReference(a: Cell, b: Cell)
    modifies a, b
    ensures a.value == old(b.value) && b.value == old(a.value)
  {
    var temp := a.value;
    a.value := b.value;
    b.value := temp;
  }

  // ---------------------------------------------------------------
  // Multiple results through output parameters
  // ---------------------------------------------------------------

  /** `minMax`: both results start at arr[0] and the scan covers indices
      1 .. n-1. It reads arr[0] whatever n is, so the array must be
      non-empty; for n < 1 the loop does not run and both results are arr[0].
      The array is read, never written. */
  method MinMax(arr: array<int>, n: int) returns (min: int, max: int)
    requires arr.Length >= 1 && n <= arr.Length
    ensures min in arr[..Scanned(n)] && max in arr[..Scanned(n)]
    ensures forall i :: 0 <= i < Scanned(n) ==> min <= arr[i] <= max
  {
    min := arr[0];
    max := arr[0];
    var i := 1;
    while i < n
      invariant 1 <= i <= Scanned(n)
      invariant min in arr[..i] && max in arr[..i]
      invariant forall k :: 0 <= k < i ==> min <= arr[k] <= max
    {
      if arr[i] < min {
        min := arr[i];
      }
      if arr[i] > max {
        max := arr[i];
      }
      i := i + 1;
    }
  }

  /** How many leading elements `minMax` looks at: arr[0] always. */
  function Scanned(n: int): (k: int)
    ensures k >= 1 && (n >= 1 ==> k == n)
  {
    if n < 1 then 1 else n
  }

  // ---------------------------------------------------------------
  // Persistent state
  // ---------------------------------------------------------------

  /** The `static int count` of `counterDemo`, owned by an object. */
  class Counter {
    var count: int

    /** The one initialisation of `count`. */
    constructor ()
      ensures count == 0
    {
      count := 0;
    }

    /** One call of `counterDemo`: the count grows by one and the new value
        is what gets reported. */
    method CounterDemo() returns (reported: int)
      modifies this
      ensures count == old(count) + 1 && reported == count
    {
      count := count + 1;
      reported := count;
    }
  }

  // ---------------------------------------------------------------
  // Utilities
  // ---------------------------------------------------------------

  /** `isEven`: C's `n % 2 == 0`, which on negative n is a truncating
      remainder; it still agrees with mathematical evenness. */
  function IsEven(n: int): (r: bool)
    ensures r <==> n % 2 == 0
    ensures r <==> exists k :: n == 2 * k
  {
    assert n == 2 * (n / 2) + n % 2;
    Rem(n, 2) == 0
  }

  /** The mathematical notion that `isPrime` decides. */
  ghost predicate Prime(n: int) {
    n >= 2 && forall d :: 2 <= d < n ==> n % d != 0
  }

  /** No d with 2 <= d and d * d <= n divides n: what trial division up to
      the integer square root establishes. */
  ghost predicate NoDivisorUpToRoot(n: int) {
    forall d :: 2 <= d && d * d <= n ==> n % d != 0
  }

  /** `isPrime`: trial division by 2, 3, ... while i * i <= n (the integer
      form of `i <= (int)sqrt(n)`), returning as soon as a divisor is found. */
  method IsPrime(n: int) returns (r: bool)
    ensures r <==> n >= 2 && NoDivisorUpToRoot(n)
    ensures r <==> Prime(n)
  {
    if n < 2 {
      return false;
    }
    RootBoundSuffices(n);
    var i := 2;
    while i * i <= n
      invariant 2 <= i
      invariant forall d :: 2 <= d < i ==> n % d != 0
    {
      if Rem(n, i) == 0 {
        return false;
      }
      i := i + 1;
    }
    forall d | 2 <= d && d * d <= n
      ensures n % d != 0
    {
      if d >= i {
        MulMonotone(i, d, i, d);
      }
    }
    return true;
  }

  /** Divisors beyond the square root come paired with divisors below it,
      so trial division up to the root decides primality. */
  lemma RootBoundSuffices(n: int)
    requires n >= 2
    ensures Prime(n) <==> NoDivisorUpToRoot(n)
  {
    if Prime(n) {
      forall d | 2 <= d && d * d <= n
        ensures n % d != 0
      {
        MulMonotone(2, d, d, d);
      }
    } else {
      var d :| 2 <= d < n && n % d == 0;
      if d * d > n {
        CofactorBelowRoot(n, d);
      }
    }
  }

  /** If d divides n and d * d > n, the cofactor n / d is a divisor at or
      below the square root. */
  lemma CofactorBelowRoot(n: int, d: int)
    requires 2 <= d < n && d * d > n && n % d == 0
    ensures exists e :: 2 <= e && e * e <= n && n % e == 0
  {
    var e := n / d;
    assert n == d * e;
    assert e >= 2 by {
      if e <= 1 {
        MulMonotone(d, d, e, 1);
      }
    }
    assert e < d by {
      if e >= d {
        MulMonotone(d, d, d, e);
      }
    }
    MulMonotone(e, d, e, e);
    assert n % e == 0 by {
      DivisorOfProduct(e, d);
    }
  }

  lemma MulMonotone(a: int, b: int, c: int, d: int)
    requires 0 <= a <= b && 0 <= c <= d
    ensures a * c <= b * d
  {
    assert a * c <= b * c;
  }

  lemma DivisorOfProduct(e: int, d: int)
    requires e > 0
    ensures (e * d) % e == 0
  {
    var n := e * d;
    var q, r := n / e, n % e;
    assert n == e * q + r && 0 <= r < e;
    assert e * (d - q) == r;
    if d - q >= 1 {
      MulMonotone(e, e, 1, d - q);
    } else if d - q <= -1 {
      MulMonotone(e, e, 1, q - d);
    }
  }

  /** The trial-division loop of `isPrime` as a recursion started at i. */
  function NoDivisorFrom(n: int, i: int): bool
    requires i >= 2
    decreases n - i
  {
    if i * i > n then true
    else if n % i == 0 then false
    else NoDivisorFrom(n, i + 1)
  }

  /** The recursion finds no divisor from i on exactly when no d >= i with
      d * d <= n divides n. */
  lemma {:induction false} NoDivisorFromSpec(n: int, i: int)
    requires i >= 2
    ensures NoDivisorFrom(n, i) <==> forall d :: i <= d && d * d <= n ==> n % d != 0
    decreases n - i
  {
    if i * i > n {
      forall d | i <= d ensures d * d > n {
        MulMonotone(i, d, i, d);
      }
    } else if n % i != 0 {
      NoDivisorFromSpec(n, i + 1);
    }
  }

  /** Running the trial division from 2 decides primality. */
  lemma TrialDivisionDecides(n: int)
    requires n >= 2
    ensures NoDivisorFrom(n, 2) <==> Prime(n)
  {
    NoDivisorFromSpec(n, 2);
    RootBoundSuffices(n);
  }

  /** The primes in [2, hi), in increasing order. */
  function PrimesBelow(hi: int): (ps: seq<int>)
    ensures forall x :: x in ps <==> 2 <= x < hi && Prime(x)
    ensures forall j, k :: 0 <= j < k < |ps| ==> ps[j] < ps[k]
    decreases hi
  {
    if hi <= 2 then []
    else
      TrialDivisionDecides(hi - 1);
      var below := PrimesBelow(hi - 1);
      assert forall j :: 0 <= j < |below| ==> below[j] < hi - 1 by {
        forall j | 0 <= j < |below| ensures below[j] < hi - 1 {
          assert below[j] in below;
        }
      }
      below + if NoDivisorFrom(hi - 1, 2) then [hi - 1] else []
  }

  // ---------------------------------------------------------------
  // The demonstration sequence of main, on its literal inputs
  // ---------------------------------------------------------------

  /** Sections 4 to 6: the arithmetic and the recursive functions. */
  lemma ArithmeticAndRecursionDemo()
    ensures Add(10, 20) == 30 && Multiply(6, 7) == 42 && Multiply(3, 9) == 27
    ensures Factorial(5) == 120 && Factorial(6) == 720
    ensures [Fib(0), Fib(1), Fib(2), Fib(3), Fib(4), Fib(5), Fib(6), Fib(7)]
         == [0, 1, 1, 2, 3, 5, 8, 13]
  {
  }

  /** Sections 7 and 8: swap_value leaves a and b alone, swap_reference
      exchanges p and q. */
  method CallDemo() returns (a: int, b: int, p: int, q: int)
    ensures a == 5 && b == 10 && p == 10 && q == 5
  {
    a, b := 5, 10;
    var insideA, insideB := SwapValue(a, b);
    assert insideA == 10 && insideB == 5;
    var pc := new Cell(5);
    var qc := new Cell(10);
    SwapReference(pc, qc);
    p, q := pc.value, qc.value;
  }

  /** Section 9: minMax on {3, 1, 7, 2, 9, 5, 4}. */
  method MinMaxDemo() returns (min: int, max: int)
    ensures min == 1 && max == 9
  {
    var arr := new int[7] [3, 1, 7, 2, 9, 5, 4];
    assert arr[..] == [3, 1, 7, 2, 9, 5, 4];
    min, max := MinMax(arr, 7);
    assert min <= arr[1] && arr[4] <= max;
  }

  /** Section 10: three calls of counterDemo report 1, 2 and 3. */
  method CounterRun() returns (first: int, second: int, third: int)
    ensures first == 1 && second == 2 && third == 3
  {
    var counter := new Counter();
    first := counter.CounterDemo();
    second := counter.CounterDemo();
    third := counter.CounterDemo();
  }

  /** Section 11: the loop that prints the primes from 2 to 30. */
  method PrimesDemo() returns (primes: seq<int>)
    ensures primes == [2, 3, 5, 7, 11, 13, 17, 19, 23, 29]
  {
    primes := [];
    for i := 2 to 31
      invariant primes == PrimesBelow(i)
    {
      var p := IsPrime(i);
      if p {
        primes := primes + [i];
      }
    }
    PrimesToThirty();
  }

  lemma PrimesToThirty()
    ensures PrimesBelow(31) == [2, 3, 5, 7, 11, 13, 17, 19, 23, 29]
  {
    PrimesToTwentyFour();
    assert PrimesBelow(29) == [2, 3, 5, 7, 11, 13, 17, 19, 23];
    assert NoDivisorFrom(29, 4);
    assert PrimesBelow(30) == [2, 3, 5, 7, 11, 13, 17, 19, 23, 29];
  }

  lemma PrimesToTwentyFour()
    ensures PrimesBelow(24) == [2, 3, 5, 7, 11, 13, 17, 19, 23]
  {
    PrimesToSixteen();
    assert PrimesBelow(18) == [2, 3, 5, 7, 11, 13, 17];
    assert PrimesBelow(20) == [2, 3, 5, 7, 11, 13, 17, 19];
  }

  lemma PrimesToSixteen()
    ensures PrimesBelow(16) == [2, 3, 5, 7, 11, 13]
  {
    assert PrimesBelow(4) == [2, 3];
    assert PrimesBelow(6) == [2, 3, 5];
    assert PrimesBelow(8) == [2, 3, 5, 7];
    assert PrimesBelow(12) == [2, 3, 5, 7, 11];
  }
}
