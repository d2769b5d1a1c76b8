# jintonic in Dafny

jintonic is a just-intonation toolkit. This project is a Dafny model of its
core, which lives in `src/jintonic`. The model has six parts:

- **prime arithmetic**: `is_prime`, `generate_primes`, `prime_factors`, `lcm`.
- **just intervals**:
  - intervals are ratios n/d with n ≥ d ≥ 1, kept in lowest terms;
  - addition, subtraction, powers, comparisons;
  - `base_octave`, `complement` and `prime_limit`;
  - the naive division `/` and the prime-limited `divisions`;
  - `primary_interval`.
- **the lattice** (`JustLattice`):
  - a tone walked along the axes of the odd primes up to a prime limit;
  - its path of visited vectors, with `traverse`, `undo`, `to_fundamental`,
    `reset_path`, `to_node` and the prime-limit setter.
- **harmonic segments**:
  - `tones_to_harmonic_segment`;
  - tone identities.
- **scales**:
  - `JustScale`, a list of tones;
  - `JustTetrachord`, three intervals that fill a fourth, set directly or from a
    genus name;
  - `JustTetrachordalScale`, two tetrachords joined by a tone of 9/8.
- **chords** (`JustLatticeChord`):
  - a root node, the nodes of the other tones, and a lattice the tones are
    read from;
  - `from_name`, `transpose`, `pivot`, the node and root setters, `tones`,
    `prime_limit`, `harmonics`, `identities`, the octave raising of `hertz`,
    and `complement`.

Intervals are exact rationals. A value `Interval(num, den)` is valid when it
is in lowest terms with `num >= den >= 1`. Two valid intervals with the same
ratio are therefore the same value (`Intervals.ValueEquality`), so Python's
value equality is Dafny's `==`.

The source compares ratios in floating point. The model compares them
exactly, by cross-multiplication.

Errors Python would raise are kept apart as `Results.Error` values
(`ValueError`, `ZeroDivisionError`, `IndexError`, `KeyError`, `TypeError`,
`AttributeError`). A `NotImplemented` return value is `None`, or `false`
for `traverse`.

Where the source changes an object in place, the model has a class:

- `JustLattice`, `JustLatticeChord`, `JustScale`, `JustTetrachord` and
  `JustTetrachordalScale` are classes.
- Each method is tied to a function of the old state. Examples:
  `Lattice.TraverseOf`, `Lattice.UndoOf`, `Chords.ChordTonesOf`,
  `Scales.SetIntervalsOf`.
- The properties are proved about those functions.
- Loops in the source are `while` loops with invariants in the model:
  - trial division;
  - `is_prime`;
  - the `base_octave` and `primary_interval` loops;
  - the range filter and pair walk of `divisions`;
  - the axis walk of `traverse`;
  - `undo`;
  - the reversal and halving passes of the harmonic segment;
  - the octave raising of `hertz`;
  - the pivot's negation;
  - the chord's tone walk;
  - the tetrachord permutations.

The modules are:

| module | file | contents |
|---|---|---|
| `Results` | `results.dfy` | exception kinds, `Result` and `Option` |
| `NumberTheory` | `number_theory.dfy` | Euclid's `Gcd`, powers of two, odd parts, equal ratios |
| `Primes` | `primes.dfy` | the prime-arithmetic functions |
| `Intervals` | `intervals.dfy` | the interval type and its arithmetic |
| `Compositions` | `compositions.dfy` | sums of interval lists, powers, sorting |
| `Divisions` | `divisions.dfy` | the naive division and `divisions` |
| `Harmonics` | `harmonics.dfy` | harmonic segments and identities |
| `Lattice` | `lattice.dfy` | the lattice |
| `Scales` | `scales.dfy` | scales and tetrachords |
| `Chords` | `chords.dfy` | lattice chords |
| `Text` | `text.dfy` | `str.strip` and `str.lower` on ASCII |

### Behaviour that follows the code as written

Where the code does something its own documentation does not lead one to
expect, the model does what the code does:

- `complement` of 1/1 is 2/1 (src/jintonic/intervals.py:280-281): 1/1 is below the octave, so the result is 2/1 − 1/1 (`Intervals.ComplementExamples`).
- `is_prime` is true for 0, 1 and every negative number, because the trial loop over `range(2, number)` is then empty (src/jintonic/primes.py:24-27, `Primes.IsPrimeExamples`).
- In `primary_interval`, the guard `pot < max_pot` compares the constant 2 with 2**max_pot_exp (src/jintonic/intervals.py:48-49). It only stops the loop when `max_pot_exp <= 1`; the model keeps that guard as written.
- The sub-harmonic example in the docstring of `tones_to_harmonic_segment` gives [8, 7, 6] (src/jintonic/harmonics.py:40-48). That example is not a doctest, and the authors mark it as doubtful. For those tones the code gives [40, 35, 36] (`Harmonics.SegmentExampleSub`).

## Model

| member | source | states |
|---|---|---|
| Primes.CheckPrime | src/jintonic/primes.py:8-27 | the answer is true exactly when no integer from 2 up to n−1 divides n, so 0, 1 and negatives count as prime |
| Primes.IsPrimeMeaning | src/jintonic/primes.py:24-27 | the primality predicate holds exactly when n has no divisor in [2, n) |
| Primes.PrimeBySqrt | src/jintonic/primes.py:24-27 | for n ≥ 2, having no divisor below some k with k² > n is enough to be prime |
| Primes.IsPrimeExamples | src/jintonic/primes.py:17-27 | 31 is prime, 42 is not, 0 and 1 are reported prime |
| Primes.GeneratePrimesCorrect | src/jintonic/primes.py:30-43 | the list is strictly increasing and holds exactly the primes from 2 to the limit |
| Primes.GeneratePrimesUpTo10 | src/jintonic/primes.py:30-43 | the primes up to 5 are [2, 3, 5], and up to 7 and up to 10 they are [2, 3, 5, 7] |
| Primes.PrimeFactors | src/jintonic/primes.py:46-73 | the trial-division loop returns the factorization: empty for n ≤ 1, otherwise non-decreasing primes whose product is n |
| Primes.FactorizationCorrect | src/jintonic/primes.py:46-73 | the factorization of n ≥ 1 multiplies back to n, is non-decreasing, and every factor is a prime ≥ 2; it is empty for n ≤ 1 |
| Primes.PrimeFactorsExamples | src/jintonic/primes.py:55-73 | 314 factors as [2, 157], 31 as [31], 1 as [] |
| Primes.FactorizationOfPrime | src/jintonic/primes.py:62-73 | a prime is its own only factor |
| Primes.FactorizationDouble | src/jintonic/primes.py:62-73 | the factors of 2n are 2 followed by the factors of n |
| Primes.FactorizationOfPow2 | src/jintonic/primes.py:62-73 | the factors of 2^k are k twos |
| Primes.FactorizationExamples | src/jintonic/primes.py:62-73 | 64 factors into six twos and 49 into [7, 7] |
| Primes.LcmCorrect | src/jintonic/primes.py:76-92 | for a non-empty list of positive integers the fold gives a positive common multiple that divides every common multiple |
| Primes.LcmStepLeast | src/jintonic/primes.py:92 | one step x·y//gcd(x, y) divides every common multiple of x and y |
| Primes.LcmExamples | src/jintonic/primes.py:85-92 | lcm of [15, 3, 5] is 15, of [21, 6, 7] is 42, and of the empty list is a TypeError, as reduce with no start raises |
| NumberTheory.GcdGreatest | src/jintonic/intervals.py:91-93 | every common divisor of a and b divides gcd(a, b) |
| NumberTheory.GcdDividesBoth | src/jintonic/intervals.py:91-93 | gcd(a, b) is zero only for two zeros and otherwise divides both |
| NumberTheory.OddDecomposition | src/jintonic/harmonics.py:74-84 | every positive x is its odd part times a power of two |
| Intervals.MakeCorrect | src/jintonic/intervals.py:60-96 | a denominator above the numerator is a ValueError; otherwise a zero denominator is a ZeroDivisionError and a negative one a ValueError; construction succeeds exactly when 1 ≤ den ≤ num, and the result is the same ratio in lowest terms, num and den divided by their gcd |
| Intervals.MakeExamples | src/jintonic/intervals.py:60-96 | 4/3 is kept, 3/3 becomes 1/1, 6/3 becomes 2/1, and 3/4, 0/0 and −1/−2 raise |
| Intervals.ValueEquality | src/jintonic/intervals.py:432-442 | two intervals in lowest terms have equal ratios exactly when they are the same value |
| Intervals.OrderTotal | src/jintonic/intervals.py:432-458 | any two intervals are comparable; a ≤ b and b ≤ a only when equal; a < b exactly when a ≤ b and a ≠ b |
| Intervals.LessTransitive | src/jintonic/intervals.py:444-458 | a < b and b ≤ c give a < c |
| Intervals.LessEqTransitive | src/jintonic/intervals.py:452-458 | a ≤ b and b ≤ c give a ≤ c |
| Intervals.UnisonLeast | src/jintonic/intervals.py:444-458 | 1/1 is at or below every interval |
| Intervals.AddValue | src/jintonic/intervals.py:325-337 | the sum of two intervals has the ratio of the two ratios multiplied |
| Intervals.AddCommutative | src/jintonic/intervals.py:325-337 | a + b equals b + a |
| Intervals.AddAssociative | src/jintonic/intervals.py:325-337 | (a + b) + c equals a + (b + c) |
| Intervals.AddUnison | src/jintonic/intervals.py:325-349 | 1/1 is a neutral element on both sides |
| Intervals.AddAtLeast | src/jintonic/intervals.py:325-337 | a sum is at or above each summand |
| Intervals.SubValue | src/jintonic/intervals.py:351-367 | a − b is at or above 1/1; its ratio is (a/b)·2^k, where k is the number of octaves added; k is 0 exactly when b ≤ a, and a positive k leaves a result below the octave |
| Intervals.AddSubInverse | src/jintonic/intervals.py:325-367 | (a + b) − b gives a back |
| Intervals.AddSubComplete | src/jintonic/intervals.py:325-367 | for a ≤ b, a + (b − a) gives b |
| Intervals.SubExamples | src/jintonic/intervals.py:351-367 | 3/2 − 9/8 = 4/3, 1/1 − 3/2 = 4/3 and 3/2 + 4/3 = 2/1 |
| Intervals.ComplementBelowOctave | src/jintonic/intervals.py:279-281 | below the octave the complement is 2d/n reduced, above 1/1 and at most 2/1 |
| Intervals.ComplementLaw | src/jintonic/intervals.py:260-284 | an interval below the octave has a complement, and the two add up to the octave |
| Intervals.ComplementInvolutive | src/jintonic/intervals.py:260-284 | strictly between 1/1 and 2/1, the complement of the complement is the interval |
| Intervals.ComplementExamples | src/jintonic/intervals.py:260-284 | 3/2 gives 4/3, 2/1 gives 1/1, 1/1 gives 2/1, 9/4 gives NotImplemented |
| Intervals.BaseOctave | src/jintonic/intervals.py:247-258 | the octave-subtracting loop returns the base octave function's value |
| Intervals.BaseOctaveCorrect | src/jintonic/intervals.py:247-258 | the base octave lies in [1/1, 2/1), and the interval is its base octave times a power of two |
| Intervals.BaseOctaveIdempotent | src/jintonic/intervals.py:247-258 | reducing twice is reducing once, and adding an octave does not change the base octave |
| Intervals.BaseOctaveClass | src/jintonic/intervals.py:247-258 | the base octave has the same odd parts, the same octave class, as the interval |
| Intervals.BaseOctaveUnique | src/jintonic/intervals.py:247-258 | an interval below the octave in the same octave class is the base octave |
| Intervals.ClassUniqueInOctave | src/jintonic/intervals.py:247-258 | two intervals below the octave in the same octave class are equal |
| Intervals.BaseOctaveExamples | src/jintonic/intervals.py:248-258 | 9/4 reduces to 9/8 and 2/1 to 1/1 |
| Intervals.UnisonBaseOctave | src/jintonic/intervals.py:230-231 | the base octave is 1/1 exactly when the interval is 2^k/1 |
| Intervals.PrimeLimitCorrect | src/jintonic/intervals.py:222-235 | the prime limit is 1 for 2^k/1; it is a ValueError, from max of no factors, exactly for a whole number that is not a power of two; otherwise it is the largest prime factor of numerator and denominator |
| Intervals.PrimeLimitExamples | src/jintonic/intervals.py:222-235 | 64/49 has limit 7, 3/1 raises ValueError, 2/1 has limit 1 |
| Intervals.PrimaryInterval | src/jintonic/intervals.py:23-54 | the exponent-searching loop returns the functional model's value for every argument |
| Intervals.PrimaryCorrect | src/jintonic/intervals.py:23-54 | with the default exponent bound: a limit ≤ 1 raises ValueError; otherwise the harmonic primary is p over the power of two that brings it within the octave, and the sub-harmonic primary is its complement |
| Intervals.PrimaryOdd | src/jintonic/intervals.py:46-54 | for an odd p ≥ 3 the denominator is the largest power of two below p |
| Intervals.GeneratorInOctave | src/jintonic/intervals.py:46-54 | the constructor applied to p and the power of two the loop finds gives the primary, which is at most 2/1 |
| Intervals.PrimaryExamples | src/jintonic/intervals.py:36-44 | 7 gives 7/4, 19 gives 19/16, and 3 sub-harmonic gives 4/3 |
| Compositions.ComposeAppend | src/jintonic/scales.py:203-209 | the sum of a concatenation is the sum of the two sums |
| Compositions.ComposeRemove | src/jintonic/scales.py:203-209 | the sum of a list is the sum without one entry plus that entry |
| Compositions.ComposePermutation | src/jintonic/scales.py:203-209 | lists with the same intervals in any order have the same sum |
| Compositions.PowerStep | src/jintonic/intervals.py:392-406 | a^(n+1) is a^n + a |
| Compositions.PowerValue | src/jintonic/intervals.py:392-406 | a^n has the ratio num^n / den^n |
| Compositions.PowerAdd | src/jintonic/intervals.py:392-406 | a^(m+n) is a^m + a^n |
| Compositions.PowerExamples | src/jintonic/intervals.py:392-406 | (3/2)^3 = 27/8, (3/2)^0 = 1/1, a negative power is a ValueError |
| Compositions.SortCorrect | src/jintonic/intervals.py:210 | sorting gives an ascending rearrangement of the same intervals |
| Compositions.SortedUnique | src/jintonic/intervals.py:210 | two ascending rearrangements of the same intervals are equal, so the sorted list is determined |
| Compositions.ComposeSort | src/jintonic/intervals.py:210 | sorting does not change the sum |
| Compositions.SortDecreasing | src/jintonic/intervals.py:426 | a strictly decreasing list sorts to its reverse |
| Divisions.SuperparticularSteps | src/jintonic/intervals.py:237-245 | an interval is superparticular exactly when it is (x + 1)/x, and such an interval divided into one part is itself |
| Divisions.SuperparticularExamples | src/jintonic/intervals.py:241-245 | 3/2 and 9/8 are superparticular, 9/4 and 1/1 are not |
| Divisions.DivErrors | src/jintonic/intervals.py:299-317 | 1/1 raises ZeroDivisionError, as the modulo is by zero; a non-superparticular interval whose num − den does not divide n raises ValueError; division succeeds exactly for a superparticular interval or a divisible n |
| Divisions.DivCorrect | src/jintonic/intervals.py:408-426 | the naive division gives superparticular steps k/(k−1), ascending, whose sum is the interval |
| Divisions.ComposeSteps | src/jintonic/intervals.py:426 | the steps from lo to hi compose to hi/(lo−1) |
| Divisions.DivOctaveIntoTwo | src/jintonic/intervals.py:415-418 | 2/1 divided by 2 is [4/3, 3/2] |
| Divisions.DivOctaveIntoThree | src/jintonic/intervals.py:415-420 | 2/1 divided by 3 is [6/5, 5/4, 4/3] |
| Divisions.DivSevenFourths | src/jintonic/intervals.py:415-423 | 7/4 divided by 3 is [7/6, 6/5, 5/4]; 7/4 divided by 2 is a ValueError |
| Divisions.Divisions | src/jintonic/intervals.py:151-210 | the search, filter and pair loops return the functional model's value |
| Divisions.KeptRange | src/jintonic/intervals.py:189-195 | the filter loop returns the numbers of the range that are not primes above the limit |
| Divisions.WalkPairs | src/jintonic/intervals.py:203-208 | the pair loop returns the adjacent pairs, stopping at the first constructor error |
| Divisions.KeptMembers | src/jintonic/intervals.py:189-195 | the filtered range holds exactly the numbers from its low to its high end that are not primes above the limit, strictly increasing |
| Divisions.StopFromCorrect | src/jintonic/intervals.py:185-201 | the search stops at the first factor whose filtered range has divisor + 1 numbers, or gives up at the iteration bound |
| Divisions.PairsCorrect | src/jintonic/intervals.py:203-208 | over a decreasing range of positive numbers every pair succeeds, and the i-th division is range[i]/range[i+1] reduced |
| Divisions.PairsCompose | src/jintonic/intervals.py:203-208 | the pairs of a decreasing range compose to its first over its last number |
| Divisions.DivisionsTotal | src/jintonic/intervals.py:176-179 | divisions raise exactly when the limit is not prime |
| Divisions.DivisionsFound | src/jintonic/intervals.py:181-210 | when a fitting factor is found, the result has exactly divisor intervals, ascending, and is a rearrangement of the adjacent pairs of the filtered range |
| Divisions.DivisionsSpan | src/jintonic/intervals.py:181-210 | the found divisions compose to the top over the bottom of the filtered range |
| Divisions.DivisionsComposeBack | src/jintonic/intervals.py:181-210 | when neither end of the range is filtered out, the divisions compose back to the interval |
| Divisions.DivisionsGiveUp | src/jintonic/intervals.py:185-210 | when no factor fits within the bound, the result is still ascending but does not have divisor intervals |
| Divisions.DivisionsOctaveExample | src/jintonic/intervals.py:168-172 | 2/1 into 4 at limit 5 is [10/9, 9/8, 6/5, 4/3] |
| Divisions.DivisionsSemitoneExample | src/jintonic/intervals.py:173-174 | 16/15 into 2 at limit 31 is [32/31, 31/30] |
| Divisions.DivisionsEnharmonicExample | src/jintonic/intervals.py:181-210 | 16/15 into 2 at limit 7 is [46/45, 24/23], from the range 45 to 48 with the prime 47 left out |
| Divisions.DivisionsChromaticExample | src/jintonic/intervals.py:181-210 | 10/9 into 2 at limit 7 is [28/27, 15/14] |
| Divisions.DivisionsDiatonicExample | src/jintonic/intervals.py:181-210 | 6/5 into 2 at limit 7 is [16/15, 9/8] |
| Divisions.DivisionsLimitExample | src/jintonic/intervals.py:176-179 | a limit of 6 raises ValueError |
| Harmonics.IdentityIsOddPart | src/jintonic/harmonics.py:74-84 | the identity of h ≥ 1 is its odd part: odd, and h is the identity times 2 to the number of twos among h's factors |
| Harmonics.TwosInFactorization | src/jintonic/harmonics.py:84 | the count of 2 among the prime factors is the exponent of 2 in h |
| Harmonics.IdentityOfDouble | src/jintonic/harmonics.py:74-84 | doubling a harmonic keeps its identity |
| Harmonics.IdentityExamples | src/jintonic/harmonics.py:74-84 | 6 → 3, 4 → 1, 5 → 5, 1 → 1, 0 → 0 |
| Harmonics.IdentitiesOdd | src/jintonic/harmonics.py:87-103 | over positive harmonics every identity is odd and times a power of two gives its harmonic |
| Harmonics.IdentitiesReverse | src/jintonic/harmonics.py:87-103 | the identities of a reversed segment are the reversed identities |
| Harmonics.IdentitiesExamples | src/jintonic/harmonics.py:92-101 | [4, 5, 6] → [1, 5, 3], [10, 12, 15] → [5, 3, 15], [4, 5, 6, 7, 9] → [1, 5, 3, 7, 9] |
| Harmonics.GcdOfCorrect | src/jintonic/harmonics.py:59 | the reduced gcd of positive numbers is positive, divides each, and is divided by every common divisor |
| Harmonics.SegmentTotal | src/jintonic/harmonics.py:12-71 | the segment exists exactly for a non-empty tone list, has one entry per tone, and no tones is a TypeError |
| Harmonics.BaseSegmentProportional | src/jintonic/harmonics.py:50-60 | before halving, the integers are in the tones' proportions: b[i]·t[j]·d[i] = b[j]·t[i]·d[j] |
| Harmonics.BaseSegmentLowest | src/jintonic/harmonics.py:59-60 | before halving, the integers have no common factor above 1 |
| Harmonics.HalvedShape | src/jintonic/harmonics.py:63-68 | the last entry stays; every other entry h is halved exactly when h/2 equals the next entry less one, that is h = 2·(next − 1), and otherwise stays |
| Harmonics.HalvedIdentities | src/jintonic/harmonics.py:63-68 | the halving pass does not change the identities |
| Harmonics.SegmentIdentities | src/jintonic/harmonics.py:12-71 | the segment has the identities of the proportional integers it came from |
| Harmonics.ReverseInPlace | src/jintonic/harmonics.py:61-62 | the array afterwards holds its old contents reversed |
| Harmonics.HalvingPass | src/jintonic/harmonics.py:63-68 | the in-place pass leaves the array holding the halved segment of its old contents |
| Harmonics.TonesToHarmonicSegment | src/jintonic/harmonics.py:12-71 | the method returns the functional segment for every tone list and both directions |
| Harmonics.SegmentExampleTriad | src/jintonic/harmonics.py:24-30 | 16/15, 4/3, 8/5 give [4, 5, 6] |
| Harmonics.TetradSegment | src/jintonic/harmonics.py:32-38 | any four tones with numerators 9, 9, 27, 63 over 5, 8, 20, 40, that is 9/5, 9/8, 27/20, 63/40, give [4, 5, 6, 7] |
| Harmonics.SegmentExampleSub | src/jintonic/harmonics.py:43-71 | 21/20, 6/5, 7/6 as a sub-harmonic segment give [40, 35, 36] |
| Harmonics.SegmentExampleMinor | src/jintonic/chords.py:229-236 | 1/1, 6/5, 3/2 give [10, 12, 15] |
| Lattice.OddPrimesUpTo | src/jintonic/lattice.py:59-61 | the axes are exactly the odd primes up to the limit, in increasing order |
| Lattice.FirstPrimeIsTwo | src/jintonic/lattice.py:60 | the first generated prime is 2, which the axes drop |
| Lattice.PrimaryListCorrect | src/jintonic/lattice.py:59-61 | each axis interval is primary_interval of its prime |
| Lattice.PrimariesSeven | src/jintonic/lattice.py:59-61 | at limit 7 the axes are 3/2, 5/4, 7/4 |
| Lattice.TraverseOf | src/jintonic/lattice.py:31-78 | traverse is NotImplemented, with nothing changed, exactly when the vector has more axes than there are odd primes; otherwise the tone is in the octave, the node is the vector, and the vector is appended to the path |
| Lattice.WalkClass | src/jintonic/lattice.py:65-72 | the walked tone is in the octave class of the tone times every axis primary raised to its step count |
| Lattice.WalkBack | src/jintonic/lattice.py:65-76 | walking a vector and then its negation, reducing to the octave each time, returns to a tone below the octave |
| Lattice.TraverseIgnoresNode | src/jintonic/lattice.py:31-78 | the new tone does not depend on the current node, and when the vector fits neither does the whole new state |
| Lattice.UndoOf | src/jintonic/lattice.py:80-97 | undo keeps the tone valid and within the octave and the limit unchanged; its only error is IndexError, once the path is empty |
| Lattice.UndoStep | src/jintonic/lattice.py:93-95 | one step pops the last vector and traverses its negation |
| Lattice.UndoAfterTraverse | src/jintonic/lattice.py:80-97 | undo(1) after traverse(v) restores the tone and the old path, then appends −v to the path with −v as node |
| Lattice.UndoTwiceRedoes | src/jintonic/lattice.py:80-97 | as written, undo(2) right after traverse(v) leaves the lattice as traverse left it |
| Lattice.UndoTwiceExample | src/jintonic/lattice.py:80-97 | two fifths up give 9/8; undo(2) as written keeps 9/8, and the corrected undo returns to the initial lattice |
| Lattice.UndoFixedOf | src/jintonic/lattice.py:80-97 | the corrected undo keeps the tone valid and within the octave; its only error is IndexError on an empty path |
| Lattice.UndoFixedRestores | src/jintonic/lattice.py:80-97 | the corrected undo of as many steps as there were traversals restores tone, node and path exactly |
| Lattice.UndoExample | src/jintonic/lattice.py:86-91 | a fifth up gives 3/2, and undo(1) gives 1/1 |
| Lattice.TraverseAllPath | src/jintonic/lattice.py:74-76 | traversals that fit record every vector on the path and end on the last one |
| Lattice.NodeIsLastKept | src/jintonic/lattice.py:13-172 | traverse, to_node, to_fundamental, reset_path and the limit setter all keep the node equal to the last vector of the path |
| Lattice.InitialNodeIsLast | src/jintonic/lattice.py:27-29 | a new lattice's path is its node alone |
| Lattice.ToNodeZeros | src/jintonic/lattice.py:127-140 | to_node of a zero vector gives 1/1 and appends two zero vectors to the path |
| Lattice.TraverseFifth | src/jintonic/lattice.py:40-43 | from 1/1 at limit 7, [1, 0, 0] gives 3/2 |
| Lattice.TraverseTone | src/jintonic/lattice.py:40-57 | from 3/2 at limit 7, [1, 0, 0] gives 9/8 |
| Lattice.WalkSeven | src/jintonic/lattice.py:65-74 | a walk on the 7-limit axes lands on the one tone in the octave whose octave class is the start times the walk's factors |
| Lattice.TraverseSession | src/jintonic/lattice.py:40-57 | from any 7-limit state at 1/1 (the freshly built lattice among them) the eight documented vectors give 3/2, 4/3, 5/4, 8/5, 7/4, 8/7, 9/8, 16/9 in turn, and the path gains the eight vectors in order |
| Lattice.SetPrimeLimitAcceptsNine | src/jintonic/lattice.py:169-172 | as written, the setter takes 9 though 9 is not prime |
| Lattice.SetPrimeLimitChecked | src/jintonic/lattice.py:169-172 | the corrected setter succeeds exactly for a prime value and otherwise raises ValueError |
| Lattice.JustLattice.constructor | src/jintonic/lattice.py:13-29 | a new lattice at 1/1 on node [0, 0, 0] whose path holds that node |
| Lattice.JustLattice.WalkAxes | src/jintonic/lattice.py:65-72 | the axis loop sets the tone to the walk of the vector and changes nothing else |
| Lattice.JustLattice.Traverse | src/jintonic/lattice.py:31-78 | the fields become those of traverse's state function, and the answer is whether the vector fit |
| Lattice.JustLattice.Undo | src/jintonic/lattice.py:80-97 | the fields and the error are those of undo's state function |
| Lattice.JustLattice.UndoLast | src/jintonic/lattice.py:93-95 | one pass of the undo loop advances undo's state function by one step |
| Lattice.JustLattice.ToFundamental | src/jintonic/lattice.py:99-116 | back to 1/1 on a zero node of the same length, which is appended to the path |
| Lattice.JustLattice.ResetPath | src/jintonic/lattice.py:118-125 | to_fundamental, then a path holding the zero node alone |
| Lattice.JustLattice.ToNode | src/jintonic/lattice.py:127-140 | to_fundamental followed by traverse |
| Lattice.JustLattice.SetPrimeLimit | src/jintonic/lattice.py:155-172 | the limit takes any value, as written |
| Scales.SortedTones | src/jintonic/scales.py:64-71 | the tones are an ascending rearrangement of the stored tones |
| Scales.AppendTones | src/jintonic/scales.py:30-46 | after append the tones are the old tones with the new one inserted in order |
| Scales.JustScale.constructor | src/jintonic/scales.py:14-28 | the scale stores the given tones |
| Scales.JustScale.Append | src/jintonic/scales.py:30-46 | exactly one tone more, at the end of the stored list |
| Scales.JustScale.SetTones | src/jintonic/scales.py:73-85 | the stored list is replaced |
| Scales.ScaleIntervals | src/jintonic/scales.py:87-101 | one step fewer than tones, and each tone plus its step is the next tone |
| Scales.StepsCompose | src/jintonic/scales.py:87-101 | the lowest tone plus all steps is the highest tone |
| Scales.ScaleIntervalsExample | src/jintonic/scales.py:94-101 | the scale 1/1, 3/2, 2/1 has the intervals [3/2, 4/3] |
| Scales.ScaleComplementExample | src/jintonic/scales.py:110-118 | the complement of 1/1, 3/2, 2/1 holds 2/1, 4/3, 1/1, whose sorted tones are 1/1, 4/3, 2/1 |
| Scales.ScaleComplement | src/jintonic/scales.py:103-118 | a complement exists exactly when no tone exceeds the octave; then each tone below the octave plus its complement is the octave, and 2/1 maps to 1/1 |
| Scales.ScalePrimeLimit | src/jintonic/scales.py:120-123 | no tones is a ValueError; otherwise the limit is one tone's limit and no tone's limit is larger |
| Scales.ValidateTetrachord | src/jintonic/scales.py:188-213 | a tetrachord is accepted exactly when it has three intervals summing to 4/3; otherwise ValueError |
| Scales.ValidatePermutation | src/jintonic/scales.py:203-213 | validation does not depend on the order of the intervals |
| Scales.ValidatedBounds | src/jintonic/scales.py:188-213 | each interval of a valid tetrachord lies between 1/1 and 4/3 |
| Scales.IntervalsLimit | src/jintonic/scales.py:235-237 | the limit of three intervals exists exactly when each has one, and is the largest of the three |
| Scales.SetIntervalsCorrect | src/jintonic/scales.py:227-238 | the setter succeeds exactly for a valid tetrachord, otherwise ValueError; on success it stores the intervals and a limit at least each interval's limit |
| Scales.GenusRoundTrip | src/jintonic/scales.py:240-273 | an unknown genus is a KeyError; after setting a genus the top interval is its characteristic, and reading the genus gives the name back |
| Scales.GenusOfCharacteristic | src/jintonic/scales.py:240-250 | a tetrachord whose last interval is a characteristic is named by that genus |
| Scales.SetGenusFound | src/jintonic/scales.py:252-273 | when the search for two divisions of the fourth less the characteristic succeeds with both range ends kept, those two divisions compose to that remainder and the tetrachord is them followed by the characteristic |
| Scales.ChromaticExample | src/jintonic/scales.py:157-159 | the chromatic genus at limit 7 gives [28/27, 15/14, 6/5] with the prime limit 7 |
| Scales.EnharmonicExample | src/jintonic/scales.py:161-164 | the enharmonic genus at limit 7 gives [46/45, 24/23, 5/4] with the prime limit 23 |
| Scales.SemitonesExample | src/jintonic/scales.py:166-173 | 32/31, 31/30, 5/4 are stored as given with the prime limit 31 and name the enharmonic genus |
| Scales.DiatonicExample | src/jintonic/scales.py:252-273 | the diatonic genus at limit 7 gives [16/15, 9/8, 10/9] with the prime limit 5 |
| Scales.NewCorrect | src/jintonic/scales.py:139-186 | a non-prime limit is a ValueError; given intervals are stored as given; with neither intervals nor genus the tetrachord is empty at the limit |
| Scales.JustTetrachord.New | src/jintonic/scales.py:139-186 | the constructed object's fields are those of the constructor's state function, and its errors are the same |
| Scales.JustTetrachord.SetIntervals | src/jintonic/scales.py:227-238 | the fields become those of the setter's state function; on an error nothing changes |
| Scales.JustTetrachord.SetGenus | src/jintonic/scales.py:252-273 | the fields become those of the genus setter's state function; on an error nothing changes |
| Scales.JustTetrachord.Arrangements | src/jintonic/scales.py:280-290 | a new tetrachord for each permutation, each holding the state the value model gives, or that model's error |
| Scales.PermutationsOfThree | src/jintonic/scales.py:287-290 | the six orders of three intervals, in itertools order |
| Scales.PermutationsArrange | src/jintonic/scales.py:287-290 | every permutation is a rearrangement of the list |
| Scales.PermutationsCount | src/jintonic/scales.py:287-290 | there are n! permutations |
| Scales.Collect | src/jintonic/scales.py:287-290 | a list comprehension succeeds exactly when every element does; otherwise it raises one element's error |
| Scales.CollectFirstError | src/jintonic/scales.py:287-290 | the error raised is the first element's error |
| Scales.NewEachCorrect | src/jintonic/scales.py:287-290 | building a tetrachord per interval list succeeds exactly when every list is valid, and each equals the intervals setter on it |
| Scales.TetrachordPermutationsCorrect | src/jintonic/scales.py:280-290 | an empty tetrachord is a ValueError; a valid one gives six tetrachords, one per permutation, all at its limit |
| Scales.JustTetrachordalScale.constructor | src/jintonic/scales.py:317-338 | with no upper tetrachord the lower object serves for both, so the new scale is equal in the sense of `is_equal` (src/jintonic/scales.py:441-443); with one given, it is equal exactly when the two tetrachords have the same intervals, as `__eq__` compares them (src/jintonic/scales.py:305-307) |
| Scales.JustTetrachordalScale.SetLower | src/jintonic/scales.py:345-349 | the result is the validation of the new tetrachord; the lower tetrachord is replaced only when it validates, and the upper one never changes |
| Scales.JustTetrachordalScale.SetUpper | src/jintonic/scales.py:356-360 | the result is the validation of the new tetrachord; the upper tetrachord is replaced only when it validates, and the lower one never changes |
| Scales.ScaleIntervalsOf | src/jintonic/scales.py:362-372 | two valid tetrachords and the 9/8 give seven intervals that sum to the octave |
| Scales.FillsOctave | src/jintonic/scales.py:362-372 | 4/3 + 9/8 + 4/3 is the octave |
| Scales.TetrachordalTones | src/jintonic/scales.py:391-407 | the tones begin at 1/1 and end at 2/1 |
| Scales.TetrachordalTonesCorrect | src/jintonic/scales.py:391-407 | eight tones, each the sum of the intervals before it, ascending, whose steps are the scale's intervals again |
| Scales.DiatonicScaleTones | src/jintonic/scales.py:396-407 | the tetrachordal scale of two diatonic tetrachords has the tones 1/1, 16/15, 6/5, 4/3, 3/2, 8/5, 9/5, 2/1 |
| Scales.TetrachordalComplementCorrect | src/jintonic/scales.py:374-389 | the complement has eight tones from 2/1 down to 1/1, and each tone plus its complement is the octave |
| Scales.GeneraOf | src/jintonic/scales.py:424-438 | the two genera exist exactly when both tetrachords have intervals, otherwise ValueError, and are each tetrachord's genus |
| Scales.ScaleLimitOf | src/jintonic/scales.py:445-448 | the larger of the two limits |
| Scales.ScalePermutationsCorrect | src/jintonic/scales.py:450-456 | 36 scales; the one at 6i + j pairs the i-th lower with the j-th upper permutation |
| Scales.ProductIndex | src/jintonic/scales.py:453-456 | the product lists pair (i, j) at position i·len(ys) + j |
| Text.StripCorrect | src/jintonic/scales.py:184 | strip leaves the middle of the string, with only whitespace cut from each end |
| Text.StripEnds | src/jintonic/scales.py:184 | a stripped string begins and ends with a character other than whitespace |
| Text.StripIdempotent | src/jintonic/scales.py:184 | stripping twice is stripping once |
| Text.Lower | src/jintonic/chords.py:101 | the same length; each capital A to Z becomes the letter 32 code points above it, a to z, so no capital remains, and every other character is kept |
| Text.LowerIdempotent | src/jintonic/chords.py:101 | lower-casing twice is lower-casing once |
| Chords.ChordNodes | src/jintonic/chords.py:82-99 | every named chord has two to four nodes of three axes |
| Chords.FromNameKnown | src/jintonic/chords.py:100-103 | a name is found exactly when its lower case is one of the sixteen names |
| Chords.FromNameExamples | src/jintonic/chords.py:82-103 | "Major triad" finds [[0, 1, 0], [1, 0, 0]], "minor triad" finds its own nodes, "major" is NotImplemented |
| Chords.JustLatticeChord.FromName | src/jintonic/chords.py:39-103 | a new chord at limit 7 with the named nodes, or NotImplemented for an unknown name |
| Chords.JustLatticeChord.constructor | src/jintonic/chords.py:16-37 | the root and nodes as given, on a new lattice at limit 7 |
| Chords.JustLatticeChord.Copy | src/jintonic/chords.py:123 | a new chord on a new lattice with the same fields |
| Chords.MaxLen | src/jintonic/chords.py:176 | the length of the longest node, or ValueError for no nodes |
| Chords.PadAllCorrect | src/jintonic/chords.py:176-179 | every node is padded with zeros to the longest node's length |
| Chords.JustLatticeChord.SetNodes | src/jintonic/chords.py:168-179 | the nodes are padded to the longest; no nodes is a ValueError and nothing is stored |
| Chords.JustLatticeChord.SetRoot | src/jintonic/chords.py:186-194 | the root is padded to the longest node; no nodes is a ValueError and the root stays |
| Chords.ChordWalkCorrect | src/jintonic/chords.py:212-216 | the tone walk succeeds exactly when every node fits the axes, otherwise AttributeError; the i-th tone is the root plus the i-th node |
| Chords.ChordTonesCorrect | src/jintonic/chords.py:196-219 | the tones are the root tone followed by one tone per node, each within the octave; the error is AttributeError, exactly when some node does not fit; the lattice ends on the root |
| Chords.ChordTonesRootTone | src/jintonic/chords.py:196-219 | two roots with the same tone give the same chord tones, at the same limit and whatever the lattice held before |
| Chords.ChordTonesStateless | src/jintonic/chords.py:196-219 | the tones do not depend on where the lattice stood before, only on its limit, so reading them twice gives the same tones |
| Chords.TriadTones | src/jintonic/chords.py:196-219 | a two-node chord has the root tone and the two node tones |
| Chords.MajorTriadTones | src/jintonic/chords.py:203-206 | the major triad on [0, 0, 0] is 1/1, 5/4, 3/2 |
| Chords.TetradTones | src/jintonic/chords.py:196-219 | a four-node chord has the root tone and the four node tones |
| Chords.MinorTriadTones | src/jintonic/chords.py:82-99 | the minor triad on [0, 0, 0] is 1/1, 6/5, 3/2 |
| Chords.MinorHarmonics | src/jintonic/chords.py:229-236 | the harmonics of the minor triad on [0, 0, 0] are [10, 12, 15] |
| Chords.TransposeExample | src/jintonic/chords.py:117-121 | the minor triad transposed to [1, 0, 0] keeps its nodes, has the root [1, 0, 0] and the tones 3/2, 9/5, 9/8 |
| Chords.MajorTriadLimit | src/jintonic/chords.py:221-224 | the prime limit of the major triad is 5 |
| Chords.MajorTriadPivotNodes | src/jintonic/chords.py:146-157 | under the limit 5, pivoting the major triad on 3 negates the first component: [[0, 1, 0], [-1, 0, 0]] |
| Chords.PivotExample | src/jintonic/chords.py:141-144 | the major triad pivoted on 3 keeps its root, has the nodes [[0, 1, 0], [-1, 0, 0]] and the tones 1/1, 5/4, 4/3 |
| Chords.ComplementChordExample | src/jintonic/chords.py:286-290 | the complement of [2, 0], [0, 1], [-1, 0], [1, 0] on [0, 0, 0] has the nodes [-2, 0], [0, -1], [1, 0], [-1, 0] and the tones 1/1, 16/9, 8/5, 3/2, 4/3 |
| Chords.JustLatticeChord.Tones | src/jintonic/chords.py:196-219 | the result and the lattice's new state are those of the tone function |
| Chords.ChordPrimeLimitOf | src/jintonic/chords.py:224 | no tones is a ValueError; otherwise the limit is one tone's limit and no tone's limit is larger |
| Chords.ChordLimitCorrect | src/jintonic/chords.py:221-224 | the limit exists exactly when the tones do, otherwise AttributeError, and is at least 1 |
| Chords.ChordLimitValue | src/jintonic/chords.py:221-224 | the chord's limit is the largest limit among its tones |
| Chords.JustLatticeChord.PrimeLimit | src/jintonic/chords.py:221-224 | the result is the chord limit function's value |
| Chords.ChordSegmentOf | src/jintonic/chords.py:226-238 | the harmonics exist exactly when the tones do, with one entry per tone |
| Chords.JustLatticeChord.Harmonics | src/jintonic/chords.py:226-238 | the result is the chord segment function's value |
| Chords.JustLatticeChord.Identities | src/jintonic/chords.py:240-252 | the identities of the harmonics |
| Chords.RaisedCorrect | src/jintonic/chords.py:266-270 | the raised tones ascend, and each is its tone raised by the fewest octaves that keep it at or above the one before |
| Chords.LiftCountUnique | src/jintonic/chords.py:268-269 | the number of octaves the loop adds is the least that reaches the floor |
| Chords.RaiseOctaves | src/jintonic/chords.py:266-270 | the loop returns the raised tones |
| Chords.ChordRaisedOf | src/jintonic/chords.py:254-271 | the raised tones exist exactly when the tones do, ascend from the root tone, one per tone |
| Chords.JustLatticeChord.Hertz | src/jintonic/chords.py:254-271 | the rational part of hertz: the raised tones of the chord function; the lattice ends where reading the tones twice leaves it, or where the first reading left it when that failed |
| Chords.TransposeOf | src/jintonic/chords.py:105-127 | transposing keeps the nodes, pads the new root, and moves the copy's lattice to it; no nodes is a ValueError |
| Chords.TransposeTones | src/jintonic/chords.py:105-127 | the transposed chord's tones are the tones built on the new root |
| Chords.JustLatticeChord.Transpose | src/jintonic/chords.py:105-127 | a new chord on a new lattice whose fields are those of the transposition function |
| Chords.PivotNodes | src/jintonic/chords.py:153-156 | the component of the axis changes sign and every other component stays |
| Chords.PivotInvolutive | src/jintonic/chords.py:153-156 | pivoting twice on one axis gives the nodes back |
| Chords.PivotCorrect | src/jintonic/chords.py:146-157 | pivot succeeds exactly for an odd prime axis up to the limit that every node has; otherwise ValueError or IndexError; then exactly that component changes sign |
| Chords.PivotChordCorrect | src/jintonic/chords.py:129-157 | the pivoted chord keeps the root and has the pivoted nodes, or pivot's error |
| Chords.JustLatticeChord.PivotIndex | src/jintonic/chords.py:151-152 | it succeeds exactly when pivot does and otherwise gives pivot's error; the index lies within every node, and negating that component gives pivot's nodes |
| Chords.JustLatticeChord.NegateAxis | src/jintonic/chords.py:153-156 | the loop negates the axis component of every node in place |
| Chords.JustLatticeChord.CopyWithLimit | src/jintonic/chords.py:146-151 | a copy whose lattice has been moved by reading its prime limit, and that limit |
| Chords.JustLatticeChord.PivotWith | src/jintonic/chords.py:150-157 | a new chord with the root kept and the pivoted nodes, or the pivot's error |
| Chords.JustLatticeChord.Pivot | src/jintonic/chords.py:129-157 | the chord's lattice moves as the prime limit reads it; the result is the pivot function's chord or error |
| Chords.ComplementInvolutive | src/jintonic/chords.py:291-294 | taking root − node twice gives the nodes back when nodes and root have the same length |
| Chords.ComplementExample | src/jintonic/chords.py:291-294 | each node becomes root − node |
| Chords.ComplementChordOf | src/jintonic/chords.py:273-294 | the complement keeps the root, has a new lattice, and holds root − node for each node |
| Chords.ComplementChordInvolutive | src/jintonic/chords.py:273-294 | the complement of the complement is the chord, on a new lattice |
| Chords.JustLatticeChord.Complement | src/jintonic/chords.py:273-294 | a new chord whose fields are the complement function's |

## Left out

- Floating-point parts are not modelled: `cents`, `hertz` in Hertz, `__rmul__`, `from_two_hertz`, the `fundamental` fields and setter, and `_pitch`. `Chords.JustLatticeChord.Hertz` returns the raised tones and not the fundamental times each.
- Comparisons are exact rather than in floating point. For very large numerators and denominators the source's float comparison may take two different ratios as equal; the model does not.
- `from_string` and the ratio regular expression are left out, because they parse text into the constructor this model already has. Every `__repr__` is left out too.
- Operators that only return `NotImplemented` or test truthiness are left out: `__mul__`, `__rtruediv__` and `__bool__`. `__radd__` with 0 is the start of `sum`, which the model writes as `Compositions.Compose` starting at 1/1.
- `isinstance` checks cannot fail in a typed model and are left out: the TypeError of the interval constructor, the ValueError of `JustScale.append` and of the tones setter, and the non-interval branch of `__eq__`.
- Strings are ASCII only. `Text.Strip` and `Text.Lower` treat only ASCII whitespace and the letters A to Z.
- Aliasing of lists is not modelled: nodes, roots, paths and tone lists are values. Python hands out references, and the core does mutate shared lists in two places, listed below: the pivot's negation and `JustScale.append`.
- Chords.JustLatticeChord.Pivot: the model does not capture that the negation changes the copied lattice's path. `traverse` stores its very argument as node and on the path (src/jintonic/lattice.py:75-76), reading the tones passes each node list to it, and `deepcopy` keeps that sharing, so the negation at src/jintonic/chords.py:153-156 also negates those path entries. The model keeps them as they were.
- Chords.JustLatticeChord.PivotWith: the same; the copy's lattice path keeps the unnegated vectors in the model, where the source negates the shared lists along with the nodes.
- Scales.JustScale.constructor: the source stores the caller's list itself (src/jintonic/scales.py:28), so a later `append` (src/jintonic/scales.py:46) also grows the caller's list; the model stores a value.
- Harmonics.HalvingPass: the source tests `harmonic / 2 == segment[i + 1] - 1` in floating point (src/jintonic/harmonics.py:65). The model tests h = 2·(next − 1) exactly, which differs only when the numbers are too large for a float to hold exactly, above 2^53.
- The two passes of `divisions` become one filter. The source collects the large primes and then removes each; each number occurs once in the range, so the result is the same.
- Scale permutations exist as values only (`Scales.ScalePermutationsOf`). No `JustTetrachordalScale` objects are built for them.
- `JustScale.tones`, `intervals`, `complement` and `prime_limit` are functions of the stored list. The `JustTetrachordalScale` properties are functions of its two tetrachords.
- Scales.ScaleComplement: weaker than the source. When a tone is above the octave the model gives None, while the source builds a scale that holds `NotImplemented` in its place.
- Chords.ChordRaisedOf: weaker than the source. It states the length, the order and the first tone. `Chords.RaisedCorrect` gives every entry exactly, and the member's contract is not restated from it.
- Intervals.PrimaryCorrect: its closed form is stated only for the default bound of 500. `Intervals.PrimaryOf` and `Intervals.PrimaryInterval` model every bound.
- Divisions.DivisionsComposeBack: the divisions compose back to the interval only when neither end of the range is a large prime. With 7/5 into 1 at limit 5 the kept range is [5, 6] and the result [6/5], not 7/5.

## Findings

| source | as written | input that shows it | evidently intended | confidence | as-written member | corrected member |
|---|---|---|---|---|---|---|
| src/jintonic/lattice.py:93-95 | each undo step pops the last vector and traverses its negation, and that traversal appends the negation to the path again | traverse([1, 0, 0]) twice from 1/1 at limit 7, then undo(2): the tone stays 9/8 | undo(k) takes back the last k traversals and returns to the earlier tone, node and path | not executed | Lattice.UndoTwiceRedoes | Lattice.UndoFixedRestores |
| src/jintonic/lattice.py:169-172 | the prime_limit setter builds an error message for a value that is not prime but never raises it | setting the limit to 9 | a value that is not prime raises ValueError and leaves the limit alone | not executed | Lattice.SetPrimeLimitAcceptsNine | Lattice.SetPrimeLimitChecked |
