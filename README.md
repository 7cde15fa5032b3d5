# C teaching programs: functions, loops and conditionals

This project models three C tutorial programs and proves properties of the
model:

- `04_functions.c`: recursive factorial and Fibonacci, call by value and by
  reference, `minMax` with output pointers, a `static` counter, `isEven` and
  trial-division `isPrime`.
- `03_repetitive_statements.c`: the loops inside `main`. Each is lifted into a
  method that takes the demonstration's literal input as a parameter and
  returns what the loop computes or prints.
- `02_conditional_statements.c`: each decision in `main` becomes a total
  function of the value it tests.

The modules are:

- `CInt` (`cint.dfy`): the 32-bit `int` range, and C99's truncating `/` and
  `%` for the positive divisors the programs use. Dafny's own operators are
  Euclidean, so they differ on negative operands.
- `Decimal` (`decimal.dfy`): decimal digit sequences. It holds the reference
  definitions used by the digit-count and digit-reversal loops.
- `Functions` (`functions.dfy`): `04_functions.c`. The two pointers of
  `swap_reference` become `Cell` objects. The output pointers of `minMax`
  become return values. The `static` count becomes a field of a `Counter`
  object.
- `Loops` (`loops.dfy`): `03_repetitive_statements.c`.
- `Conditionals` (`conditionals.dfy`): `02_conditional_statements.c`.

Integers are unbounded, with two exceptions:

- `Add` and `Multiply` require their result to be a 32-bit `int`, because
  signed overflow is undefined in C.
- Separate lemmas prove where the recursive factorial and Fibonacci leave
  the 32-bit range.

Deviations from the code:

- `isPrime` loops while `i <= (int)sqrt(n)`. It is modelled as
  `i * i <= n`, which is the same test for every `n >= 2` when the square
  root is exact.
- `minMax` reads `arr[0]` whatever `n` is. The model therefore requires only
  a non-empty array, not `n >= 1`. For `n < 1` both results are `arr[0]`.
- The menu loop always picks choice 3 in the code. Here the choices come
  from a sequence parameter, and the demonstration passes `[3]`.

## Model

| member | source | states |
|---|---|---|
| CInt.Div | 03_repetitive_statements.c:69 | C's truncating `a / b` for b > 0: magnitude is Abs(a)/b, sign follows a |
| CInt.Rem | 03_repetitive_statements.c:79 | C's `a % b` for b > 0: (a/b)*b + a%b == a, magnitude below b and equal to Abs(a)%b, sign follows a |
| Decimal.DigitsLE | 03_repetitive_statements.c:68-71 | the digits the loops peel off: all decimal digits, none exactly for 0, no leading zero |
| Decimal.DigitsRoundTrip | 03_repetitive_statements.c:68-71 | reading the peeled digits back gives the number |
| Decimal.ReverseNumberRoundTrip | 03_repetitive_statements.c:78-81 | reversing a number that does not end in 0 twice gives it back |
| Decimal.ReverseNumberDropsTrailingZero | 03_repetitive_statements.c:78-81 | a trailing zero of n disappears from its reversal |
| Decimal.ReverseNumberDigits | 03_repetitive_statements.c:78-81 | for n not ending in 0, the reversal's digits are n's digits in the opposite order, so there are as many |
| Decimal.NumDigitsBounds | 03_repetitive_statements.c:68-71 | the digit count d of a positive n satisfies 10^(d-1) <= n < 10^d |
| Decimal.NumDigitsUnique | 03_repetitive_statements.c:68-71 | conversely, any d >= 1 with 10^(d-1) <= n < 10^d is the digit count of n |
| Decimal.ReverseInvolution | 03_repetitive_statements.c:78-81 | reversing a digit sequence twice gives it back |
| Decimal.DigitsOfValueBE | 03_repetitive_statements.c:78-81 | a numeral without a leading zero has exactly its written digits |
| Functions.AddProperties | 04_functions.c:163-165 | `add`, defined while the sum is a 32-bit int, is commutative, has 0 as identity and is undone by subtracting b |
| Functions.MultiplyByTwoIsDoubling | 04_functions.c:163-174 | `multiply(a, 2)` equals `add(a, a)` whenever the product fits |
| Functions.Multiply | 04_functions.c:172-174 | `multiply` is defined when the product is a 32-bit int; the result is a 32-bit int and is 0 exactly when a factor is 0 |
| Functions.Factorial | 04_functions.c:177-180 | `factorial` on n >= 0 (a negative n never reaches a base case) is at least 1 and at least n |
| Functions.FactorialMonotone | 04_functions.c:177-180 | factorial never decreases |
| Functions.FactorialFitsInt32 | 04_functions.c:177-180 | factorial(n) fits in a 32-bit int exactly when n <= 12 |
| Functions.Fib | 04_functions.c:183-187 | `fibonacci` on n >= 0 is non-negative, and positive for n >= 1 |
| Functions.FibMonotone | 04_functions.c:183-187 | fibonacci never decreases |
| Functions.FibFitsInt32 | 04_functions.c:183-187 | fibonacci(n) fits in a 32-bit int exactly when n <= 46 |
| Functions.FibValue46 | 04_functions.c:183-187 | F(46) = 1836311903 and F(47) = 2971215073 |
| Functions.SwapValue | 04_functions.c:190-195 | the values printed inside `swap_value` are the arguments exchanged |
| Functions.SwapReference | 04_functions.c:198-202 | each target gets the other's old value; when both point at one object, it keeps its value |
| Functions.MinMax | 04_functions.c:205-212 | min and max are elements of the scanned prefix, and bound every element of it |
| Functions.Counter.CounterDemo | 04_functions.c:215-219 | each call raises the persistent count by one and reports the new count |
| Functions.CounterRun | 04_functions.c:113-115 | three calls on a fresh counter report 1, 2, 3 |
| Functions.IsEven | 04_functions.c:222-224 | C's `n % 2 == 0` holds exactly when n is even, negative n included |
| Functions.IsPrime | 04_functions.c:227-233 | false below 2; otherwise true exactly when no d with d*d <= n divides n, and exactly when n is prime |
| Functions.RootBoundSuffices | 04_functions.c:229-231 | for n >= 2, no divisor up to the square root is the same as no divisor in [2, n-1] |
| Functions.TrialDivisionDecides | 04_functions.c:229-231 | the recursive trial division from 2 decides primality |
| Functions.PrimesBelow | 04_functions.c:125-128 | the primes the print loop selects: exactly the primes in [2, hi), increasing |
| Functions.PrimesDemo | 04_functions.c:125-128 | the loop over 2..30 selects 2, 3, 5, 7, 11, 13, 17, 19, 23, 29 |
| Functions.PrimesToThirty | 04_functions.c:125-128 | the primes below 31 are 2, 3, 5, 7, 11, 13, 17, 19, 23, 29 |
| Functions.ArithmeticAndRecursionDemo | 04_functions.c:57-78 | main's literal results: 30, 42, 27, 120, 720 and F(0..7) = 0, 1, 1, 2, 3, 5, 8, 13 |
| Functions.CallDemo | 04_functions.c:84-96 | swap_value leaves a = 5, b = 10; swap_reference turns p = 5, q = 10 into 10, 5 |
| Functions.MinMaxDemo | 04_functions.c:102-107 | on {3, 1, 7, 2, 9, 5, 4} the min is 1 and the max is 9 |
| Loops.Range | 03_repetitive_statements.c:15-17 | lo, lo+1, ..., hi-1: its length and every element |
| Loops.TriangleClosedForm | 03_repetitive_statements.c:21-25 | 1 + ... + n equals n(n+1)/2 |
| Loops.CountUp | 03_repetitive_statements.c:15-17 | the counted loop prints first .. last, nothing if first > last |
| Loops.CountDown | 03_repetitive_statements.c:29-31 | the countdown prints first, first-1, ..., last |
| Loops.SumTo | 03_repetitive_statements.c:21-25 | the sum is 1 + ... + n, equal to n(n+1)/2 for n >= 0 |
| Loops.OddsUpTo | 03_repetitive_statements.c:56-61 | the printed values increase and are exactly the odd numbers in 1..limit |
| Loops.DigitCount | 03_repetitive_statements.c:64-71 | the count is the number of decimal digits of the magnitude: 0 for 0, else 10^(d-1) <= Abs(number) < 10^d |
| Loops.DigitReverse | 03_repetitive_statements.c:74-81 | the result is the magnitude's reversal carrying the input's sign |
| Loops.ReversalStep | 03_repetitive_statements.c:78-81 | one pass of the reversal loop keeps its invariant |
| Loops.PeelDigit | 03_repetitive_statements.c:79-80 | `temp % 10` is temp's last digit with temp's sign; `temp / 10` holds the other digits |
| Loops.DoWhileCount | 03_repetitive_statements.c:89-95 | the body runs once even when the test is false at the start; x ends at max(x0+1, limit) |
| Loops.Menu | 03_repetitive_statements.c:97-107 | at least one pass; the loop exits exactly at the first choice 3 |
| Loops.BreakAt | 03_repetitive_statements.c:114-120 | `break` stops the printing right before `stop` when it lies in range; otherwise the full range prints |
| Loops.EvensUpTo | 03_repetitive_statements.c:128-131 | `continue` skips the odds: the printed values increase and are exactly the evens in 1..limit |
| Loops.GotoCount | 03_repetitive_statements.c:138-145 | the goto loop prints 0 .. bound-1 and leaves count at max(bound, 0) |
| Loops.FactorialLoop | 03_repetitive_statements.c:151-156 | the product loop computes the recursive factorial, 1 for n < 1 |
| Loops.FibonacciLoop | 03_repetitive_statements.c:162-173 | the kth printed term is F(k); afterwards a = F(t) and b = F(t+1) |
| Loops.IncreasingDetermined | 03_repetitive_statements.c:56-61 | two increasing sequences with the same elements are equal |
| Loops.DigitLoopsDemo | 03_repetitive_statements.c:20-82 | main's results: sum 5050, 6 digits in 123456, 1234 reversed is 4321 |
| Loops.ConditionLoopsDemo | 03_repetitive_statements.c:89-107 | the do-while ends with x = 101; the menu runs once |
| Loops.RecurrenceLoopsDemo | 03_repetitive_statements.c:150-173 | 6! = 720; the first ten Fibonacci terms are 0, 1, 1, 2, 3, 5, 8, 13, 21, 34 |
| Loops.CountedLoopsDemo | 03_repetitive_statements.c:15-31 | 1..10, 10 down to 1, and 0..4 from the goto loop |
| Loops.OddLoopDemo | 03_repetitive_statements.c:56-61 | the odd numbers up to 10 are 1, 3, 5, 7, 9 |
| Loops.BreakContinueDemo | 03_repetitive_statements.c:114-131 | break prints 0..4; continue prints 2, 4, 6, 8, 10 |
| Conditionals.ExceedsFiveMonotone | 02_conditional_statements.c:14-17 | the test is a threshold: a larger x never withdraws the message, a smaller one never adds it |
| Conditionals.AgeGroupMonotone | 02_conditional_statements.c:23-28 | growing older never turns an adult into a minor; 17 is the oldest minor and 18 the youngest adult |
| Conditionals.GradeOf | 02_conditional_statements.c:36-46 | each grade holds exactly on its band of marks |
| Conditionals.GradeMonotone | 02_conditional_statements.c:36-46 | more marks never give a lower grade |
| Conditionals.OrderMessagePrinted | 02_conditional_statements.c:52-59 | the nested tests print exactly when 0 < a < c < b |
| Conditionals.DayName | 02_conditional_statements.c:65-76 | days 1..7 get the weekday names in order; "Invalid day" exactly outside 1..7 |
| Conditionals.DayNameInjective | 02_conditional_statements.c:67-76 | different valid day numbers get different names |
| Conditionals.Classify | 02_conditional_statements.c:80-87 | Vowel exactly for the five lower-case vowels |
| Conditionals.ClassifyIsCaseSensitive | 02_conditional_statements.c:81-87 | upper-case vowels, digits and punctuation take the default |
| Conditionals.Parity | 02_conditional_statements.c:93-95 | "Even" exactly for even num, else "Odd" |
| Conditionals.ParityMatchesIsEven | 02_conditional_statements.c:94 | the ternary's label agrees with `isEven` |
| Conditionals.TernaryMax | 02_conditional_statements.c:97-99 | the maximum of p and q: at least both and one of them; q on a tie |
| Conditionals.EligibilityMonotone | 02_conditional_statements.c:105-116 | raising score or attendance never withdraws an eligibility |
| Conditionals.EligibilitiesIndependent | 02_conditional_statements.c:105-116 | neither eligibility implies the other |
| Conditionals.ConditionalsDemo | 02_conditional_statements.c:14-116 | main's literal inputs take the branches the program prints |

## Left out

- `01_io_statements.c` and `scanf_format_specifiers.c` are not part of this model. They are console and file I/O through the C library.
- `average` and the `sqrt`, `pow` and `fabs` demonstration are left out because they use floating point.
- `greet`, `printSquare` and `getYear` are left out: they only print, or return the constant 2025.
- Output formatting is not modelled. Printed values are returned as results or sequences.
- The nested-loop demonstrations are left out. They are the 3x3 multiplication table and the star pattern (03_repetitive_statements.c:35-50), and they only print.
- The loop printing `isEven` for 1..10 (04_functions.c:121-123) is not modelled separately. `IsEven` and `ParityMatchesIsEven` cover its decision.
- Loops.SumTo: does not model 32-bit overflow, because the program's input 100 stays far inside the range.
- Loops.DigitReverse: does not model the 32-bit overflow of `reversed * 10`, because the program's input 1234 stays inside the range.
- Loops.FactorialLoop: does not model the 64-bit `long long` range, because 6! stays inside it.
- Loops.FibonacciLoop: does not model the 64-bit `long long` range, because ten terms stay inside it.
- Functions.Factorial: does not model signed overflow, which is undefined behaviour in C. FactorialFitsInt32 states for which n the result fits.
- Functions.Fib: does not model signed overflow, which is undefined behaviour in C. FibFitsInt32 states for which n the result fits.
- Functions.IsPrime: does not model the floating-point `sqrt` of the bound `i <= (int)sqrt(n)`. The model tests `i * i <= n` on unbounded integers instead, which is the same test when the square root is exact.
- CInt.Div: covers only positive divisors, the only kind the programs use.
- CInt.Rem: covers only positive divisors, the only kind the programs use.
- Functions.MinMax: the output pointers `min` and `max` become return values, so a call whose output pointers alias each other or point into `arr` is not modelled. The program passes two distinct locals (04_functions.c:104-105).
- Functions.SwapValue: the caller's variables stay unchanged by value semantics, so only the values printed inside are stated.
- Loops.Menu: the always-3 choice becomes an input sequence. The model stops when the sequence runs out, and the loop's printing is left out.
