# Verified models of the bundled algorithms

The home-automation system around these files drives speech, infrared and network devices
through other libraries. The algorithms worth verifying are the ones it carries along: a JavaScript
benchmark set (`v8/benchmarks`) and an online learner in C++ (`oll`). This project models five
of them and proves what they are for.

* **Big integers** (`crypto.js`): numbers are arrays of 28-bit digits with a sign word, as `am3`
  wants them. All routines are methods on objects whose arrays (maps from indices, since a
  JavaScript array grows where it is written) change in place, and their contracts
  allow the aliased calls the code makes (`r.subTo(t, r)`, `x.divRemTo(m, null, x)`).
  JavaScript's 32-bit operators are written out (`JsNumber`), and intermediates are shown to stay in
  range where the code relies on it. Files: `Arith`, `JsNumber`, `Digits`, `BigInteger`,
  `Division`, `Modular`, `MontgomeryReduction`, `BarrettReduction`, `Reducers`, `ModularPower`,
  `ShortPower`, `GcdAndInverse`, `Radix`.
* **Task dispatcher** (`richards.js`): `DispatcherModel` is the scheduler as a state machine on
  sequences of packets, `DispatcherInvariant` proves its invariant, its measure and its end, and
  `Dispatcher` has the classes with their intrusive lists and proves that the heap follows the
  machine step by step. `DispatcherCounts` says what the two counters count in any run. The next four
  files derive what they come to in the benchmark: `DispatcherCounted` is the machine with packets
  counted instead of named, `DispatcherTally` its 64 balances between two turns of the idle task,
  `DispatcherSeed` the shift register that drives the idle task, and `DispatcherThousand` the run
  with a thousand turns, whose counts are the two numbers the benchmark checks.
* **Splay tree** (`splay.js`): `SplayShape` is top-down splaying on shapes of nodes, `SplayTree` the
  pointer program with its dummy node, and the map that a tree stands for. `SplayCost` proves the
  amortised logarithmic cost that the comments promise, and `SplayBenchmark` is the benchmark around
  the tree with the checks it ends with. `SplayDraws` says what it does to the map as a function of
  the keys that are drawn.
* **Earley parser and Boyer prover** (`earley-boyer.js`): `EarleyGrammar` to `Earley` cover the
  tables, the conf sets (two linked lists in one vector), the forward and the backward pass, and
  `is_parsed`; the `Boyer` files cover matching, substitution, the tautology checker and the
  rewriter, up to the statements that what is proved holds in every model of the lemmas, and which
  term the answer is about.
* **Online learner** (`oll.cpp`, `oll.hpp`): `OllVectors` and `OllModel` are the vectors and the
  training rules, `Oll` the learner object with its inverted index. Floats are exact reals.

The main results are `Division.DivRemTo`, `MontgomeryReduction.Montgomery.Reduce`,
`BarrettReduction.Barrett.Reduce`, `ModularPower.ModPow`, `GcdAndInverse.ModInverse`,
`Radix.RoundTrip`, `Dispatcher.RunRichards` with `DispatcherInvariant.DispatcherEnds`,
`DispatcherCounts.RunCounts`, `DispatcherTally.SetUpTally` and `DispatcherThousand.ThousandTally`,
`SplayShape.SplayRoot`, `SplayCost.AmortisedSplay`, the methods of `SplayTrees.SplayTree`,
`SplayBenchmark.RunSplay`, `EarleyParser.Parse`, `Earley.Parsed`,
`BoyerUnify.Match`, `BoyerProver.Rewriter.Prove`, `OllModel.MistakeBound`, `OllModel.Converges`,
`OllModel.AveragedMean` and `Oll.Oll.GetMarginK`.

Where the code differs from what it or its comments promise, the model follows the code, the
contracts say exactly when, and a member shows it at an input:

* `compareTo` (crypto.js:287-298) compares digit counts before digits. For two negative numbers of
  different lengths the answer is exactly the wrong one, in all other cases the right one
  (`BigIntegers.BigInteger.CompareTo`; -1 and -2 in `BigIntegers.MinusOneToMinusTwo`).
* `divRemTo` (crypto.js:452-502) sets q before it copies the remainder when the dividend is
  shorter: with q the dividend itself the remainder comes out as 0 (`Division.DivRemTo`; 1 by 2^28
  in `Division.RemainderLost`).
* `modInverse` (crypto.js:1196-1236) is meant to give 1/this % m, but subtracts without bringing
  the coefficients back into range. The result is congruent to the inverse, and is in [0, m) exactly
  if the last coefficient lies in [-2m, 2m) (`GcdAndInverse.ModInverse`; the inverse of 1748 modulo
  3659 is -651 in `GcdAndInverse.NegativeInverse`).
* `is_parsed` (earley-boyer.js:4225-4253) reads past the end of a vector for i > j; the value there
  is not false. The answer is then true exactly if some parse has the symbol end at j, and so it is
  right exactly if i <= j or no parse does (`Earley.Parsed`; `Earley.ParsedBackward`).
* `update` (oll.cpp:181-188) moves the bias weight `b` whichever vector it is given, so that the averaged
  learner's `b0` and `ba` stay 0 whatever the bias is set to (`OllModel.AveragedFollows`;
  `OllModel.AveragedBiasUnused`).
* The passive-aggressive step (oll.cpp:213-220) divides by one plus the squared length. It reaches
  the margin one only with bias 1; the default bias is 0 (`OllModel.StepNeedsBias`;
  `OllModel.FirstStepFallsShort`).

`dafny verify dfyconfig.toml` checks everything.

## Model

| member | source | states |
|---|---|---|
| Digits.SegUnique | v8/benchmarks/crypto.js:147-159 | two runs of digits below 2^28 with the same value are the same digits |
| Digits.TopDigitDecides | v8/benchmarks/crypto.js:296 | of two numbers of the same length, the highest digit in which they differ decides which is greater |
| JsNumber.FloorOfQuotient | v8/benchmarks/crypto.js:487 | Math.floor of an exact quotient is integer division |
| BigIntegers.BigInteger.FromInt | v8/benchmarks/crypto.js:190-197 | for -1 <= x < DV the number has the value x and at most one digit |
| BigIntegers.BigInteger.CopyTo | v8/benchmarks/crypto.js:180-187 | copies value, digits, length and sign, also onto itself |
| BigIntegers.BigInteger.Clamp | v8/benchmarks/crypto.js:243-247 | drops digits equal to the sign word; the value stays and no redundant top digit is left |
| BigIntegers.BigInteger.DlShiftTo | v8/benchmarks/crypto.js:319-327 | multiplies the value by DV^n, in place or into another number |
| BigIntegers.BigInteger.DrShiftTo | v8/benchmarks/crypto.js:330-336 | divides by DV^n, rounding down for either sign |
| BigIntegers.BigInteger.LShiftTo | v8/benchmarks/crypto.js:339-355 | multiplies by 2^n for either sign |
| BigIntegers.BigInteger.RShiftTo | v8/benchmarks/crypto.js:358-375 | divides by 2^n, rounding down for either sign |
| BigIntegers.BigInteger.SubTo | v8/benchmarks/crypto.js:378-411 | the exact difference, for operands of either sign and length and under any aliasing of the three numbers |
| BigIntegers.BigInteger.AddTo | v8/benchmarks/crypto.js:935-968 | the exact sum, under the same freedom |
| BigIntegers.BigInteger.Negate | v8/benchmarks/crypto.js:281 | a new number with the negated value |
| BigIntegers.BigInteger.Abs | v8/benchmarks/crypto.js:284 | the absolute value; the number itself is returned exactly if it is not negative |
| BigIntegers.BigInteger.SignOfValue | v8/benchmarks/crypto.js:243-247 | a clamped number with t digits lies between DV^(t-1) and DV^t on the side its sign word says |
| BigIntegers.BigInteger.SameValueSameDigits | v8/benchmarks/crypto.js:147-159 | numbers of equal value have the same sign word, the same count and the same digits |
| BigIntegers.BigInteger.CompareTo | v8/benchmarks/crypto.js:287-298 | the order of the values, except for two negative numbers of different lengths, for which the answer is exactly the wrong way round |
| BigIntegers.MinusOneToMinusTwo | v8/benchmarks/crypto.js:287-298 | compareTo(-1, -2) is negative |
| BigIntegers.BigInteger.SigNum | v8/benchmarks/crypto.js:707-712 | the sign of the value |
| BigIntegers.BigInteger.IsEven | v8/benchmarks/crypto.js:615-618 | true exactly if the value is even, for either sign |
| BigIntegers.BigInteger.Am3 | v8/benchmarks/crypto.js:108-122 | multiply-accumulate is exact: row and carry out stand for the old row plus x times the digits plus the carry in, with carry below 3 DV; nothing outside the row changes |
| BigIntegers.Am3Digit | v8/benchmarks/crypto.js:115-119 | for x < 2 DV and c < 3 DV every intermediate of one digit stays below 2^31 and the stored digit and carry are those of the exact sum |
| BigIntegers.BigInteger.MultiplyTo | v8/benchmarks/crypto.js:415-428 | the exact product, for operands of either sign |
| BigIntegers.BigInteger.SquareTo | v8/benchmarks/crypto.js:431-448 | the exact square, for either sign |
| BigIntegers.BigInteger.AddSquareRow | v8/benchmarks/crypto.js:439-443 | one row of squaring: the overflow is below 2 DV, so that one subtraction and a carry of 1 restore the digit bound and keep the partial square |
| BigIntegers.SquareOverflow | v8/benchmarks/crypto.js:440 | the digit that receives the row carry stays below 2 DV |
| Division.NBits | v8/benchmarks/crypto.js:301-309 | the number of bits of a 32-bit value, 1 for zero |
| Division.EstimateIsQuotient | v8/benchmarks/crypto.js:473-487 | the estimate computed with two rational factors is one integer division by the leading bits of the divisor |
| Division.EstimateBounds | v8/benchmarks/crypto.js:487 | the estimate never undershoots the true quotient digit and is at most DV |
| Division.DigitAfter | v8/benchmarks/crypto.js:488-492 | after any trial digit not below the true one the stored digit is at most the trial digit, and equal to it exactly for the true digit: the add-back loop stops there and nowhere else |
| Division.QuotientDigit | v8/benchmarks/crypto.js:485-493 | one round: the digit left is the true quotient digit, the rest the true remainder, the digits above untouched; the add-back loop terminates |
| Division.QuotientDigits | v8/benchmarks/crypto.js:485-493 | all rounds: the high digits are the quotient, the low ones the remainder |
| Division.Normalise | v8/benchmarks/crypto.js:464-467 | both operands are scaled by the same power of two and the top digit of the divisor becomes at least DV/2 |
| Division.TruncatedDivision | v8/benchmarks/crypto.js:450-502 | quotient and remainder of truncating division are the only pair with x = q y + r, r smaller than y in magnitude and of the sign of x |
| Division.DivRemTo | v8/benchmarks/crypto.js:452-502 | truncated quotient and remainder for every divisor but 0, under any aliasing except q = r; nothing is written for divisor 0; with q = this and a shorter dividend the remainder is 0 |
| Division.RemainderLost | v8/benchmarks/crypto.js:456-460 | 1 by 2^28 with the quotient written over the dividend leaves the remainder 0, not 1 |
| Modular.Mod | v8/benchmarks/crypto.js:505-510 | the remainder in [0, a) for a positive a, for either sign of the dividend |
| MontgomeryReduction.NewtonStep | v8/benchmarks/crypto.js:529-538 | if y inverts x modulo e, then y(2 - xy) inverts it modulo e squared, also when reduced modulo a multiple of that |
| MontgomeryReduction.InvDigit | v8/benchmarks/crypto.js:539-553 | -1/m modulo DV for every odd number, of either sign, but -1, which has no digits; 0 for -1 and for even numbers |
| MontgomeryReduction.SplitMultiplier | v8/benchmarks/crypto.js:588-590 | the two 15-bit halves give x times mp modulo DV with every intermediate below 2^31 |
| MontgomeryReduction.ClearsLowDigit | v8/benchmarks/crypto.js:588-593 | adding u0 times the modulus makes the current digit zero |
| MontgomeryReduction.TwiceBelow | v8/benchmarks/crypto.js:587-599 | the sum of all rounds stays below twice m times R, which fits 2 m.t + 1 digits |
| MontgomeryReduction.CarryFits | v8/benchmarks/crypto.js:595 | the carry never runs past the last of those digits |
| MontgomeryReduction.Montgomery.Round | v8/benchmarks/crypto.js:588-595 | one round adds a multiple of the modulus and clears one more low digit |
| MontgomeryReduction.Montgomery.Reduce | v8/benchmarks/crypto.js:583-600 | for odd m and 0 <= x < m R the result is in [0, m) and its product with R is congruent to x |
| BarrettReduction.MultiplyLowerTo | v8/benchmarks/crypto.js:1028-1039 | exactly the low n digits of the product |
| BarrettReduction.MultiplyUpperTo | v8/benchmarks/crypto.js:1043-1054 | the sum of the partial products from digit n - 1 on, without its lowest digit |
| BarrettReduction.UpperError | v8/benchmarks/crypto.js:1043-1054 | what those partial products miss of the product is less than DV times the number of rows, at that digit |
| BarrettReduction.QuotientError | v8/benchmarks/crypto.js:1076-1080 | the estimated quotient is never too large, and the rest is below a small multiple of the modulus |
| BarrettReduction.DAddOffset | v8/benchmarks/crypto.js:1001-1010 | adds n DV^w exactly; stated on values, since a zero digit may be left on top |
| BarrettReduction.Barrett.Estimate | v8/benchmarks/crypto.js:1076-1079 | x and the multiple of the modulus, both modulo DV^(m.t+1), with their difference below that |
| BarrettReduction.Barrett.Reduce | v8/benchmarks/crypto.js:1075-1083 | for 0 <= x < DV^(2 m.t) the result is x mod m; both correction loops terminate |
| Reducers.Reducer.Convert | v8/benchmarks/crypto.js:514-517 | each reducer turns any number, of either sign, into its form of the residue |
| Reducers.Reducer.Revert | v8/benchmarks/crypto.js:574-580 | the form of a residue is turned back into the residue modulo m |
| Reducers.Reducer.Reduce | v8/benchmarks/crypto.js:519 | one contract for division, Barrett and Montgomery on every product of two residues |
| Reducers.Reducer.MulTo | v8/benchmarks/crypto.js:520 | the form of the product of two residues |
| Reducers.Reducer.SqrTo | v8/benchmarks/crypto.js:521 | the form of the square of a residue |
| ModularPower.BitLength | v8/benchmarks/crypto.js:312-316 | the length in bits of a number that is not negative, and of the complement -e - 1 of a negative one |
| ModularPower.WindowInDigit | v8/benchmarks/crypto.js:1130 | the bits of a window inside one digit |
| ModularPower.WindowAcross | v8/benchmarks/crypto.js:1132-1133 | the bits of a window that straddles two digits |
| ModularPower.WindowAtEnd | v8/benchmarks/crypto.js:1131-1133 | the bits of a window that runs past the lowest digit, filled up with zeros |
| ModularPower.StrippedBits | v8/benchmarks/crypto.js:1136-1138 | without its trailing zeros a window is odd, ends within the exponent and holds its next n bits |
| ModularPower.ReadWindow | v8/benchmarks/crypto.js:1130-1137 | an odd window of n bits, which are the next n bits of the exponent |
| ModularPower.OddPowers | v8/benchmarks/crypto.js:1114-1125 | the table holds the odd powers of the base up to the window size |
| ModularPower.SquareMany | v8/benchmarks/crypto.js:1144-1145 | n squarings raise to the power 2^n, whichever of the two buffers the result is in |
| ModularPower.SkipZeros | v8/benchmarks/crypto.js:1149-1152 | zero bits below a window cost one squaring each |
| ModularPower.ApplyWindow | v8/benchmarks/crypto.js:1139-1147 | a window takes the power u to u 2^n + w; the first one is copied from the table |
| ModularPower.Exponentiate | v8/benchmarks/crypto.js:1127-1153 | the main loop ends with the full power and terminates |
| ModularPower.ChooseReducer | v8/benchmarks/crypto.js:1107-1112 | division for an exponent below 8 bits, else Barrett for an even modulus and Montgomery for an odd one, each ready for the modulus; only the pick of Barrett bounds its length |
| ModularPower.ModPow | v8/benchmarks/crypto.js:1098-1155 | base^e mod m for every base, every e >= 0 and every m > 1 |
| ShortPower.Exp | v8/benchmarks/crypto.js:621-631 | base^e by any reducer for 1 <= e < 2^32, and 1 for any other exponent |
| ShortPower.ChooseShort | v8/benchmarks/crypto.js:635-636 | division for an exponent below 256 or an even modulus, else Montgomery |
| ShortPower.ModPowInt | v8/benchmarks/crypto.js:634-638 | base^e mod m for 0 <= e < 2^32 and every m > 1 |
| GcdAndInverse.GcdIsGreatest | v8/benchmarks/crypto.js:1157-1183 | Euclid's function is the greatest common divisor: it divides both and every common divisor divides it |
| GcdAndInverse.UniqueGcd | v8/benchmarks/crypto.js:1157-1183 | and it is the only number with that property |
| GcdAndInverse.LBit | v8/benchmarks/crypto.js:876-885 | the number of trailing zero bits of a digit, -1 for zero |
| GcdAndInverse.GetLowestSetBit | v8/benchmarks/crypto.js:888-894 | the number of times 2 divides the value, for either sign, -1 for zero |
| GcdAndInverse.SubtractAndHalve | v8/benchmarks/crypto.js:1169-1180 | the loop of the binary algorithm terminates with the greatest common divisor |
| GcdAndInverse.BinaryGcd | v8/benchmarks/crypto.js:1158-1183 | the greatest common divisor of the magnitudes of any two numbers, zero included |
| GcdAndInverse.TracksHalf | v8/benchmarks/crypto.js:1203-1211 | halving keeps the linear combination, for odd and for even moduli |
| GcdAndInverse.EuclidStep | v8/benchmarks/crypto.js:1203-1230 | one round keeps the greatest common divisor and both combinations, lowers the sum of the two numbers, and follows the rounds as a function of the six numbers |
| GcdAndInverse.IntoRange | v8/benchmarks/crypto.js:1233-1235 | the final corrections keep the congruence; the result is in [0, m) exactly if the coefficient was in [-2m, 2m) |
| GcdAndInverse.ModInverse | v8/benchmarks/crypto.js:1197-1236 | for this > 0 and m > 0 of either parity it terminates with d this congruent to 1 if they are coprime, and with 0 if they are not or m is 0; the result is in [0, m) exactly if the coefficient the rounds end with is in [-2m, 2m) |
| GcdAndInverse.FarCoefficient | v8/benchmarks/crypto.js:1202-1231 | for 1748 modulo 3659 the rounds end with the coefficient -7969, which is below -2m |
| GcdAndInverse.NegativeInverse | v8/benchmarks/crypto.js:1196-1236 | so the inverse of 1748 modulo 3659 comes out as -651 |
| Radix.AlphabetWritten | v8/benchmarks/crypto.js:163-173 | digit n is written as character n of 0 to 9 and the small letters |
| Radix.AlphabetRead | v8/benchmarks/crypto.js:164-177 | a character has the value n exactly if it is that character or the capital one, and -1 if there is no such n |
| Radix.NumeralMeaning | v8/benchmarks/crypto.js:250-278 | the numeral of a number without leading zeros reads back as that number |
| Radix.NumeralAt | v8/benchmarks/crypto.js:250-278 | character k from the right is that of the k-th digit of the number, v / b^k mod b |
| Radix.NumeralLength | v8/benchmarks/crypto.js:250-278 | the numeral has n characters exactly for b^(n - 1) <= v < b^n: there is no leading zero |
| Radix.TextSign | v8/benchmarks/crypto.js:251 | the text starts with a minus sign exactly for a negative number |
| Radix.MinusMeans | v8/benchmarks/crypto.js:211-217 | a minus sign counts exactly if no character before it is a digit |
| Radix.TextRoundTrip | v8/benchmarks/crypto.js:203-278 | the text of every integer in every radix from 2 to 36 stands for that integer and has only digits below the radix |
| Radix.NextDigit | v8/benchmarks/crypto.js:264-275 | the digit cut out is the next one of the numeral, also where it straddles two words |
| Radix.ToString | v8/benchmarks/crypto.js:250-278 | the text of the value without leading zeros, for either sign, in radix 2, 4, 8, 16 and 32; `NumeralAt` and `NumeralLength` say which characters these are |
| Radix.PackAcross | v8/benchmarks/crypto.js:225-228 | a digit that straddles two words is packed without loss |
| Radix.FromString | v8/benchmarks/crypto.js:203-240 | the number a text stands for; a minus sign counts only before the first digit, other characters are skipped |
| Radix.RoundTrip | v8/benchmarks/crypto.js:203-278 | fromString(toString(x, b), b) has the value of x |
| DispatcherModel.PutConserved | v8/benchmarks/richards.js:527-535 | appending a packet in hand keeps every packet in exactly one place |
| DispatcherModel.DropConserved | v8/benchmarks/richards.js:326-333 | taking the first packet of a place puts it in hand |
| DispatcherInvariant.QueueKept | v8/benchmarks/richards.js:241-248 | queueing keeps the invariant: places, kinds, letters, the runnable bits and the device slots |
| DispatcherInvariant.TakeKept | v8/benchmarks/richards.js:324-333 | a suspended runnable block has a packet to take, so that run never takes null |
| DispatcherInvariant.AcceptKept | v8/benchmarks/richards.js:407-409 | a device given a packet has a free slot: no pending packet is overwritten |
| DispatcherInvariant.LettersAreLetters | v8/benchmarks/richards.js:441-445 | the worker writes only 1 to 26 |
| DispatcherInvariant.LettersInTurn | v8/benchmarks/richards.js:441-445 | the letters go round from 1 to 26, and the rest of the payload stays |
| DispatcherInvariant.WorkerWrites | v8/benchmarks/richards.js:430-448 | a work packet leaves the worker with the next four letters in turn, for the handler that did not get the one before |
| DispatcherInvariant.LetterPassed | v8/benchmarks/richards.js:476-483 | the letter handed over exists and is one of 1 to 26; the device packet has it, the work packet moves on to the next one, and the device packet comes last in the queue of the device |
| DispatcherInvariant.DeviceRuns | v8/benchmarks/richards.js:401-411 | a device turn keeps the invariant and comes closer to an idle turn |
| DispatcherInvariant.WorkerRuns | v8/benchmarks/richards.js:430-448 | a worker turn does |
| DispatcherInvariant.HandlerRuns | v8/benchmarks/richards.js:465-491 | a handler turn does |
| DispatcherInvariant.IdleRuns | v8/benchmarks/richards.js:374-384 | an idle turn keeps the invariant and lowers the count |
| DispatcherInvariant.StepKeeps | v8/benchmarks/richards.js:190-197 | every turn of the loop keeps the invariant and lowers the measure: only finitely many worker, handler and device turns lie between two idle turns |
| DispatcherInvariant.RunEnds | v8/benchmarks/richards.js:188-198 | every run is finite and ends exactly when the idle task has run as often as its count; in each of its states every packet is in exactly one place |
| DispatcherInvariant.InitialIsGood | v8/benchmarks/richards.js:47-67 | the set-up satisfies the invariant, for any numbers of packets and any count from 1 on |
| DispatcherInvariant.DispatcherEnds | v8/benchmarks/richards.js:47-69 | both together |
| DispatcherInvariant.OutcomeIsLast | v8/benchmarks/richards.js:188-198 | the outcome is the last state of the run |
| DispatcherCounts.StepCounts | v8/benchmarks/richards.js:220-248 | every turn adds to the hold count the number of held bits it sets and to the queue count one exactly if a packet enters a queue |
| DispatcherCounts.RunCounts | v8/benchmarks/richards.js:188-248 | over every run the hold count grows by the number of times a held bit goes from clear to set, the queue count by the number of turns in which a packet enters one of the six queues |
| DispatcherCounted.StepFollows | v8/benchmarks/richards.js:188-198 | every turn but those of the idle task is a turn of the machine that counts packets instead of naming them |
| DispatcherTally.PassesLetter | v8/benchmarks/richards.js:401-411 | a released device returns its packet, which takes the next letter: two packets queued, one task held |
| DispatcherTally.ReturnsWork | v8/benchmarks/richards.js:473-476 | the packet that takes the last letter sends the work packet back to the worker |
| DispatcherTally.HandsOver | v8/benchmarks/richards.js:430-448 | the worker hands it to the handler whose turn it is, which waits for its device |
| DispatcherTally.WakesUp | v8/benchmarks/richards.js:465-491 | or whose device packets rest: all of these take a letter at once |
| DispatcherTally.ComesToRest | v8/benchmarks/richards.js:401-411 | a packet returned to a handler without work comes to rest |
| DispatcherTally.Settles | v8/benchmarks/richards.js:188-198 | from one turn of the idle task to the next the dispatcher moves between 64 balances, and each move queues and holds a known number |
| DispatcherTally.SetUpSettles | v8/benchmarks/richards.js:47-69 | after the set-up 8 packets are queued and 2 tasks held when the idle task first runs |
| DispatcherTally.TallyIsRight | v8/benchmarks/richards.js:188-198 | so from any balance the counts at the end are those of the tally over the seeds of the idle task, for every seed and every count |
| DispatcherTally.SetUpTally | v8/benchmarks/richards.js:47-77 | for two work packets and three device packets for each handler, whatever they are, the final counts are the tally from the seed 1 |
| DispatcherSeed.XorBit | v8/benchmarks/richards.js:381 | a bit of the exclusive or is set exactly if it is set in one of the two numbers |
| DispatcherSeed.BitsDecide | v8/benchmarks/richards.js:381 | and the bits decide the number |
| DispatcherSeed.SeedFollows | v8/benchmarks/richards.js:377-383 | the seed of the idle task is a shift register of 16 bits |
| DispatcherThousand.ThousandTally | v8/benchmarks/richards.js:81-90 | for a count of 1000 the tally is 2322 packets queued and 928 tasks held |
| Dispatcher.Packet.AddTo | v8/benchmarks/richards.js:527-535 | the packet comes last in the linked list; the list of a null head is empty |
| Dispatcher.TaskControlBlock.CheckPriorityAdd | v8/benchmarks/richards.js:345-354 | the packet is appended, an empty queue becomes runnable, and the block to run next is the one of higher priority |
| Dispatcher.TaskControlBlock.Run | v8/benchmarks/richards.js:324-339 | the heap follows the step of the state machine |
| Dispatcher.TaskControlBlock.TakePacket | v8/benchmarks/richards.js:327-333 | the first packet of the queue, with the state bits to match |
| Dispatcher.IdleTask.Run | v8/benchmarks/richards.js:374-384 | the idle turn of the state machine: count, seed, released device |
| Dispatcher.DeviceTask.Run | v8/benchmarks/richards.js:401-411 | the device turn of the state machine |
| Dispatcher.WorkerTask.Run | v8/benchmarks/richards.js:430-448 | the worker turn of the state machine |
| Dispatcher.WorkerTask.WriteLetters | v8/benchmarks/richards.js:441-445 | the four letters and the new letter counter |
| Dispatcher.HandlerTask.Run | v8/benchmarks/richards.js:465-491 | the handler turn of the state machine |
| Dispatcher.HandlerTask.FilePacket | v8/benchmarks/richards.js:467-471 | the packet is filed in the list of its kind |
| Dispatcher.HandlerTask.Serve | v8/benchmarks/richards.js:473-490 | a letter is passed on, a finished work packet returned, or the task suspended |
| Dispatcher.Scheduler.AddTask | v8/benchmarks/richards.js:179-183 | the new block heads the list and is filed under its id |
| Dispatcher.Scheduler.AddRunningTask | v8/benchmarks/richards.js:167-170 | the same with the state set to running |
| Dispatcher.Scheduler.Release | v8/benchmarks/richards.js:204-214 | the held bit is cleared and control goes to the block of higher priority |
| Dispatcher.Scheduler.HoldCurrent | v8/benchmarks/richards.js:220-224 | the held bit is set and control goes to the next block; `DispatcherCounts.RunCounts` says what the count of it comes to |
| Dispatcher.Scheduler.SuspendCurrent | v8/benchmarks/richards.js:230-233 | the suspended bit is set |
| Dispatcher.Scheduler.Queue | v8/benchmarks/richards.js:241-248 | the packet carries the sender's id and is appended to the queue of its block |
| Dispatcher.Scheduler.Schedule | v8/benchmarks/richards.js:188-198 | the loop terminates in the outcome of the state machine |
| Dispatcher.Build | v8/benchmarks/richards.js:47-67 | the heap that is set up is the initial state, with two work and six device packets |
| Dispatcher.RunRichards | v8/benchmarks/richards.js:39-90 | for every count from 1 on the heap follows the finite run of the state machine with count idle turns to its last state, every packet in exactly one place; the counters are the numbers of packets queued and tasks held in that run, and the tally; the check at the end passes for the count 1000 |
| SplayShape.RotateOrder | v8/benchmarks/splay.js:310-318 | a rotation keeps the in-order sequence |
| SplayShape.LinkOrder | v8/benchmarks/splay.js:320-323 | linking left or right keeps the in-order sequence of the three trees |
| SplayShape.SplayKeepsOrder | v8/benchmarks/splay.js:293-352 | splaying keeps the in-order sequence of nodes |
| SplayShape.SplayRoot | v8/benchmarks/splay.js:293-352 | the root is the key if it is present, else its immediate predecessor or successor |
| SplayShape.SplayMaximum | v8/benchmarks/splay.js:207-209 | splaying on a key above all others leaves an empty right child |
| SplayShape.LastIsGreatest | v8/benchmarks/splay.js:236-245 | the last node in order has the greatest key |
| SplayTrees.Separate | v8/benchmarks/splay.js:302-345 | the loop follows the top-down descent, node by node, and terminates after its turns |
| SplayTrees.GoLeft | v8/benchmarks/splay.js:306-323 | one turn of the loop to the left |
| SplayTrees.GoRight | v8/benchmarks/splay.js:324-341 | one turn of the loop to the right |
| SplayTrees.Close | v8/benchmarks/splay.js:346-348 | the two side trees are closed with the children of the middle one |
| SplayTrees.Restructure | v8/benchmarks/splay.js:302-350 | the heap is the splayed tree on the same nodes |
| SplayTrees.SplayTree.Splay | v8/benchmarks/splay.js:293-352 | the tree is splayed, with as many turns of the loop as the descent has; nothing happens to an empty one |
| SplayTrees.SplayTree.SplayAt | v8/benchmarks/splay.js:293-352 | the map is unchanged, the root decides whether the key is bound, and turns and stored potential grow by at most one share |
| SplayTrees.SplayTree.Insert | v8/benchmarks/splay.js:160-182 | the map gains the binding unless the key is bound already; the amortised cost is logarithmic in the size of the map |
| SplayTrees.SplayTree.Remove | v8/benchmarks/splay.js:193-214 | fails exactly if the key is not bound, else returns the node and takes just its binding away; the amortised cost is logarithmic |
| SplayTrees.SplayTree.Find | v8/benchmarks/splay.js:224-230 | a node exactly if the key is bound, with its value; the map is unchanged; the amortised cost is logarithmic |
| SplayTrees.SplayTree.FindMax | v8/benchmarks/splay.js:236-245 | the node with the greatest key below the start node, or of the whole map; null exactly if there is none |
| SplayTrees.SplayTree.FindGreatestLessThan | v8/benchmarks/splay.js:252-268 | the greatest key below the given one, or null if there is none |
| SplayTrees.SplayTree.ExportKeys | v8/benchmarks/splay.js:274-280 | the bound keys, strictly increasing, each once |
| SplayTrees.Traverse | v8/benchmarks/splay.js:386-394 | the keys of the subtree in order |
| SplayCost.Log2Sum | v8/benchmarks/splay.js:124-127 | two numbers cannot both have the logarithm of their sum |
| SplayCost.DescendParts | v8/benchmarks/splay.js:302-350 | the two outer trees that the descent leaves, as recursive functions of the tree |
| SplayCost.TurnsAreLinks | v8/benchmarks/splay.js:302-345 | every turn of the loop but the last links one node into one of the two outer trees |
| SplayCost.StraightLeft | v8/benchmarks/splay.js:310-323 | a rotation and link to the left pays for its turn |
| SplayCost.BentLeft | v8/benchmarks/splay.js:306-341 | a change of direction pays for its two turns |
| SplayCost.SplayPaid | v8/benchmarks/splay.js:302-345 | the turns of any descent and the potential of the two outer trees stay within twice the potential before plus four times the logarithm |
| SplayCost.AmortisedSplay | v8/benchmarks/splay.js:124-127 | every splay of a tree with n nodes: its turns, and what it adds to twice the potential, are at most 6 log2(n + 1) + 2 |
| SplayDraws.FirstOrGreatest | v8/benchmarks/splay.js:114-119 | a new key comes first of all keys, or there is a greatest key below it |
| SplayDraws.ReplacedFirst | v8/benchmarks/splay.js:114-119 | in the first case a replacement leaves the map as it was |
| SplayDraws.ReplacedBy | v8/benchmarks/splay.js:114-119 | in the second the new key takes the place of that key |
| SplayDraws.MoreDrawn | v8/benchmarks/splay.js:112-120 | the replacements of two runs of keys, each just enough for its number of new keys, are those of both in turn |
| SplayBenchmark.InsertNewNode | v8/benchmarks/splay.js:71-80 | the first of the keys drawn that is not bound yet is inserted |
| SplayBenchmark.ReplaceNode | v8/benchmarks/splay.js:114-119 | the first key drawn that is not bound yet takes the place of the greatest key below it, or goes again if there is none |
| SplayBenchmark.SplaySetup | v8/benchmarks/splay.js:84-87 | a tree that binds just the keys drawn, as many of them as it takes for the wanted size |
| SplayBenchmark.SplayRun | v8/benchmarks/splay.js:112-120 | exactly `modifications` replacements by new keys, one after the other, unless the keys run out; the turns stay within six shares for every key drawn |
| SplayBenchmark.Rounds | v8/benchmarks/splay.js:38-120 | any number of runs: `rounds` times as many replacements |
| SplayBenchmark.SplayTearDown | v8/benchmarks/splay.js:90-109 | succeeds exactly if the tree has the wanted size, with its keys in increasing order; the check that they are sorted never fails |
| SplayBenchmark.RunSplay | v8/benchmarks/splay.js:38-120 | for every size and any number of runs both checks at the end succeed; the keys exported are those of the map that setup and all replacements lead to; the loop of the splay makes at most 6 (6 log2(size + 2) + 2) turns for every key drawn |
| EarleyGrammar.ItemStart | v8/benchmarks/earley-boyer.js:4151-4164 | prediction is sound |
| EarleyGrammar.ItemEnd | v8/benchmarks/earley-boyer.js:4225-4253 | a finished configuration means a derivation of its symbol |
| EarleyGrammar.ItemAdvance | v8/benchmarks/earley-boyer.js:4183-4216 | completion is sound |
| EarleyGrammar.HasPrefixes | v8/benchmarks/earley-boyer.js:4115-4224 | a chart closed under the rules has every prefix of a rule that it predicted |
| EarleyGrammar.HasDerivations | v8/benchmarks/earley-boyer.js:4115-4224 | and, for every derivation of a predicted symbol, the configuration that finishes it |
| EarleyState.MergeEncodes | v8/benchmarks/earley-boyer.js:4061-4063 | the four assignments join the new list to the old one |
| EarleyState.AppendEncodes | v8/benchmarks/earley-boyer.js:4064-4067 | the assignments append to the new list; the two lists stay disjoint and together are the slots that are not false |
| EarleyState.NewSet | v8/benchmarks/earley-boyer.js:4059 | a fresh conf set encodes two empty lists |
| EarleyState.State.Get | v8/benchmarks/earley-boyer.js:4056-4060 | the conf set, made if there was none |
| EarleyState.State.Adjoin | v8/benchmarks/earley-boyer.js:4064-4067 | the origin becomes the last new one, the configuration goes on the worklist if it was the first |
| EarleyState.State.Pop | v8/benchmarks/earley-boyer.js:4141-4148 | the first configuration of the worklist; its new origins become old |
| EarleyState.State.Has | v8/benchmarks/earley-boyer.js:4241 | whether the origin is there; past the end of the vector, whether there is a conf set |
| EarleyForward.Predict | v8/benchmarks/earley-boyer.js:4151-4164 | every rule for the symbol starts here |
| EarleyForward.CompleteEmpty | v8/benchmarks/earley-boyer.js:4165-4179 | the dot moves over a symbol already finished without tokens |
| EarleyForward.Union | v8/benchmarks/earley-boyer.js:4099-4114 | every old origin of the other set is put in |
| EarleyForward.CompleteOne | v8/benchmarks/earley-boyer.js:4198-4210 | the dot of one configuration moves in all states the new origins name |
| EarleyForward.CompleteAll | v8/benchmarks/earley-boyer.js:4183-4216 | and of all configurations that wait for the symbol |
| EarleyForward.Turn | v8/benchmarks/earley-boyer.js:4139-4222 | one turn of the worklist keeps the chart sound and lowers the number of origins still to come |
| EarleyForward.Forw | v8/benchmarks/earley-boyer.js:4115-4224 | the worklist of a state is worked off: it terminates, sound and closed under prediction and completion |
| EarleyChart.MakeStates | v8/benchmarks/earley-boyer.js:4038-4055 | a chart of empty states |
| EarleyChart.AdjoinAll | v8/benchmarks/earley-boyer.js:4068-4091 | every configuration of the list gets the origin |
| EarleyChart.ForwardPass | v8/benchmarks/earley-boyer.js:4474-4486 | the forward chart is sound and closed under prediction, scanning and completion |
| EarleyContext.Plugged | v8/benchmarks/earley-boyer.js:4500-4585 | filling a place of a parse with a derivation gives a parse of the whole input in which the derivation occurs |
| EarleyContext.UsedBack | v8/benchmarks/earley-boyer.js:4537-4566 | if a configuration is part of a parse, so are both parts it is traced back to |
| EarleyContext.UsedOccurs | v8/benchmarks/earley-boyer.js:4225-4253 | a finished configuration that is part of a parse means its symbol occurs in a parse there |
| EarleyContext.KeepsGoal | v8/benchmarks/earley-boyer.js:4490-4585 | a set closed under tracing back that has the goal has every symbol of every parse |
| EarleyContext.NothingBackward | v8/benchmarks/earley-boyer.js:4592-4598 | no parse has a symbol span i..j with i > j |
| EarleyBackward.Keep | v8/benchmarks/earley-boyer.js:4092-4098 | the origin is kept exactly if the forward pass has it |
| EarleyBackward.TraceEnder | v8/benchmarks/earley-boyer.js:4549-4566 | for every origin of the ender not before i, both parts are kept |
| EarleyBackward.Trace | v8/benchmarks/earley-boyer.js:4537-4572 | for every ender of the symbol before the dot; a token or the start of a rule has nothing to trace |
| EarleyBackward.TraceAll | v8/benchmarks/earley-boyer.js:4530-4575 | for every new origin of the configuration |
| EarleyBackward.PopFrom | v8/benchmarks/earley-boyer.js:4523-4529 | the new origins become old and no entry changes |
| EarleyBackward.Prune | v8/benchmarks/earley-boyer.js:4511-4582 | the worklist of one state is worked off: it terminates with all its entries traced |
| EarleyBackward.KeepGoal | v8/benchmarks/earley-boyer.js:4491-4499 | the goal configurations that span all tokens are kept |
| EarleyBackward.BackwardPass | v8/benchmarks/earley-boyer.js:4490-4585 | every entry of the pruned chart is part of a parse of the whole input, and all that such entries need is kept |
| EarleyParser.Ind | v8/benchmarks/earley-boyer.js:4023-4037 | the number of a symbol, or none |
| EarleyParser.IsParsed | v8/benchmarks/earley-boyer.js:4225-4253 | for i <= j true exactly if a finished configuration has the origin, which then means a derivation; for i > j, through the read past the vector, true exactly if state j has a conf set for the finished symbol |
| EarleyParser.FoundExactly | v8/benchmarks/earley-boyer.js:4474-4587 | in the pruned chart a symbol is found from i to j exactly if some parse of all tokens has it there |
| EarleyParser.SetsAreFound | v8/benchmarks/earley-boyer.js:4056-4067 | a conf set is made only for an origin: there is one exactly if the symbol is found from somewhere |
| EarleyParser.Parse | v8/benchmarks/earley-boyer.js:4474-4587 | the chart that is returned has that property for all symbols and all i and j, and a conf set for a finished symbol exactly where some parse has that symbol end |
| EarleyTables.Symbols | v8/benchmarks/earley-boyer.js:3851-3877 | the symbols that the grammar mentions, each once, in the order of their first occurrence |
| EarleyTables.OccurrencesInOrder | v8/benchmarks/earley-boyer.js:3851-3877 | a list of first occurrences has the elements of the list, each once, in the order in which they occur first |
| EarleyTables.FillRule | v8/benchmarks/earley-boyer.js:3938-3957 | starters, enders, predictors and steps of one rule |
| EarleyTables.CountConfs | v8/benchmarks/earley-boyer.js:3879-3902 | the number of configurations all rules need |
| EarleyTables.WithRuleFits | v8/benchmarks/earley-boyer.js:3938-3957 | tables that fit a grammar, with one more rule filled in, fit the grammar with that rule |
| EarleyTables.MakeTables | v8/benchmarks/earley-boyer.js:3851-3964 | the tables fit the grammar; every step slot is filled |
| Earley.Categories | v8/benchmarks/earley-boyer.js:4448-4463 | the numbers of the categories of a token that the grammar knows |
| Earley.RulesNumbered | v8/benchmarks/earley-boyer.js:3924-3963 | the numbered rules are the rules of the grammar with their symbols replaced by their numbers |
| Earley.SameParses | v8/benchmarks/earley-boyer.js:3851-3963 | parses over symbols and parses over symbol numbers have the same symbols in the same places |
| Earley.Parsed | v8/benchmarks/earley-boyer.js:4592-4598 | for i <= j, true exactly if some parse of all tokens by the first head, over the symbols of the grammar itself, has the symbol span i..j; for i > j exactly if some parse has the symbol end at j; so right exactly if i <= j or no parse has it end at j |
| Earley.ParsedBackward | v8/benchmarks/earley-boyer.js:4225-4253 | for the rule s -> a and the token a, is_parsed(s, 2, 1) is true, although no parse has s span 2..1 |
| Earley.ParsedFully | v8/benchmarks/earley-boyer.js:4592-4598 | true for the goal over all tokens exactly if the grammar derives them |
| BoyerTerms.TermEqual | v8/benchmarks/earley-boyer.js:3686-3719 | true exactly for equal terms |
| BoyerTerms.ExtendedApply | v8/benchmarks/earley-boyer.js:3555-3563 | bindings added later do not change what a pattern already bound becomes |
| BoyerUnify.Unifier.OneWayUnify1 | v8/benchmarks/earley-boyer.js:3635-3679 | succeeds exactly if some substitution that agrees with the bindings so far sends the pattern to the term; what it adds every such substitution has |
| BoyerUnify.Unifier.UnifyArgs | v8/benchmarks/earley-boyer.js:3659-3675 | the same for argument lists, lengths included |
| BoyerUnify.Match | v8/benchmarks/earley-boyer.js:3622 | from the empty substitution: true exactly if the term is an instance of the pattern, and then apply_subst gives back the term |
| BoyerTautology.IsTermMember | v8/benchmarks/earley-boyer.js:3720-3732 | true exactly for members of the list |
| BoyerTautology.Tautologyp | v8/benchmarks/earley-boyer.js:3564-3601 | true means truth under every valuation that goes with the lists; false on a normal term with consistent atom lists means a falsifying valuation; for every other term the answer is the recursive reading of the loop |
| BoyerTautology.TautologySound | v8/benchmarks/earley-boyer.js:3564-3601 | true means truth under every valuation that makes the first list true and the second false |
| BoyerTautology.Falsified | v8/benchmarks/earley-boyer.js:3564-3601 | false on a normal term with consistent lists of atoms means that some such valuation makes it false |
| BoyerProver.EvalSubst | v8/benchmarks/earley-boyer.js:3555-3563 | a substituted term has the value of the term under the substituted environment |
| BoyerProver.SameByLemma | v8/benchmarks/earley-boyer.js:3622-3623 | a rewriting step at the top keeps the value in every model of the lemmas |
| BoyerProver.HoldsIsTruth | v8/benchmarks/earley-boyer.js:3564-3601 | what tautologyp takes a term to say is its truth in the model |
| BoyerProver.ReachesUnique | v8/benchmarks/earley-boyer.js:3604-3633 | what a term is rewritten to, arguments first and then by the first lemma that matches, is unique, and so is the number of calls |
| BoyerProver.ReachesDeeper | v8/benchmarks/earley-boyer.js:3604-3633 | and does not depend on the depth once that is enough |
| BoyerProver.ReachesCalls | v8/benchmarks/earley-boyer.js:3611 | there are at least as many calls as parts of the term, and just as many exactly if no lemma matches it or any part of it |
| BoyerProver.ReachesSame | v8/benchmarks/earley-boyer.js:3604-3633 | it has the value of the term in every model of the lemmas, and no lemma matches it or any part of it |
| BoyerProver.IrreducibleIsNormal | v8/benchmarks/earley-boyer.js:3604-3629 | with the lemma that turns an if in the test of an if inside out on file, what cannot be rewritten is in the normal form of the tautology checker |
| BoyerProver.Rewriter.AddLemma | v8/benchmarks/earley-boyer.js:3749-3763 | an equation with an operator on the left is filed first under that operator, anything else refused |
| BoyerProver.Rewriter.Rewrite | v8/benchmarks/earley-boyer.js:3604-3629 | the term that is reached and the number of calls it takes; no result exactly if nothing is reached within the depth |
| BoyerProver.Rewriter.RewriteArgs | v8/benchmarks/earley-boyer.js:3630-3633 | the same for argument lists |
| BoyerProver.Rewriter.Prove | v8/benchmarks/earley-boyer.js:3784-3797 | the answer is the tautology check of the term that is reached, with the number of rewriting calls; true means that the term is true in every classical model of the lemmas; if the term that is reached is normal, as it is with the lemma for nested ifs on file, the answer is true exactly if it is true under every valuation |
| OllVectors.UpdatedAt | oll/oll.cpp:181-188 | an update adds alpha times the total value of each feature |
| OllVectors.UpdatedDot | oll/oll.cpp:181-188 | and alpha times the inner product to the margin of any features |
| OllVectors.UpdatedNorm | oll/oll.cpp:181-188 | and 2 alpha (v.x) + alpha^2 (x.x) to the squared length |
| OllVectors.CauchySchwarz | oll/oll.cpp:192-199 | the square of an inner product is at most the product of the squared lengths |
| OllModel.MistakeProgress | oll/oll.cpp:192-199 | with bias zero each mistake gains the margin along u and at most R^2 in squared length |
| OllModel.MistakeBound | oll/oll.cpp:192-199 | with bias zero and separable examples updateN g^2 <= R^2 (u.u) after any number of passes |
| OllModel.QuietPass | oll/oll.hpp:176-179 | a pass makes a mistake or starts, and leaves, with every example on its right side |
| OllModel.Converges | oll/oll.hpp:176-179 | more passes than the bound allows mistakes end with every example classified rightly |
| OllModel.ClassifiesRightly | oll/oll.cpp:373-381 | and then classify has the sign of the label on every one of them |
| OllModel.AveragedFollows | oll/oll.cpp:202-210 | the averaged learner's w0 is the plain perceptron without bias, and b0 and ba stay 0 whatever the bias |
| OllModel.AveragedBiasUnused | oll/oll.cpp:181-188 | with bias 1 the first mistake of the averaged learner moves b to 2 and leaves b0 and ba at 0 |
| OllModel.LazySum | oll/oll.cpp:202-210 | N + 1 times the current margin less the accumulated one is the sum of the margins of all successive vectors |
| OllModel.AveragedMean | oll/oll.cpp:373-381 | after any number of passes from a fresh start classify is the mean margin over the N + 1 successive vectors, the zero vector included |
| OllModel.StepScore | oll/oll.cpp:213-220 | the score of an example after an aggressive step on it |
| OllModel.StepNeedsBias | oll/oll.cpp:213-220 | with distinct ids the step reaches margin one exactly if the margin was one already or bias is 1, which is not the default |
| OllModel.FirstStepFallsShort | oll/oll.cpp:213-220 | with the default bias the first step on a single feature misses the margin one |
| OllModel.ClassifiesWithMargin | oll/oll.cpp:373-381 | after a step with bias 1 and distinct ids classify gives the margin one on the side of the label |
| OllModel.KernelStepScore | oll/oll.cpp:242-260 | the score after a kernel step: the step goes by the norm, the kernel is the squared inner product |
| OllModel.KernelRun | oll/oll.cpp:242-260 | a kernel run from a fresh learner leaves the dense vectors empty and adds at most one support vector for each example |
| OllModel.KernelClassified | oll/oll.cpp:373-381 | so classify is the sum over the support vectors of alpha times the squared inner product |
| OllModel.MistakesCounted | oll/oll.cpp:181-260 | the counters of a fresh learner are the number of examples and of those that were within the wanted margin when they came: twice these for the averaged rule, and as many support vectors for the kernel rule |
| OllModel.NothingToLearn | oll/oll.cpp:213-260 | an example with a margin above one only counts as seen |
| OllModel.PresentedAt | oll/oll.hpp:144-187 | the examples come once while reading, else iter times over, each time in the order of the file |
| Oll.EnteringStep | oll/oll.cpp:244-247 | pushing one feature of a support vector keeps the index exact |
| Oll.CollectStep | oll/oll.cpp:144-152 | one feature's entries bring the buffer to the inner products up to that feature |
| Oll.Oll.constructor | oll/oll.cpp:119 | a fresh learner is all zero |
| Oll.Oll.GetMargin | oll/oll.cpp:130-137 | the bias plus the inner product; weights beyond the end count as zero |
| Oll.Oll.GetNorm | oll/oll.cpp:173-179 | one plus the squares of the listed values |
| Oll.Oll.GetMarginK | oll/oll.cpp:139-159 | through the inverted index, the sum over the support vectors of alpha times the squared inner product; every index entry is in range |
| Oll.Oll.Update | oll/oll.cpp:181-188 | the weights plus alpha times the features; b and the count move whichever vector it is |
| Oll.Oll.UpdatePAK | oll/oll.cpp:242-250 | one more support vector, and the index still agrees with all of them |
| Oll.Oll.TrainExample | oll/oll.cpp:192-260 | follows the training rule, for each of four algorithms |
| Oll.Oll.TrainFile | oll/oll.hpp:144-187 | the examples are presented once while reading if iter is 0, else iter times, none for a negative iter |
| Oll.TrainModel | oll/oll.cpp:8-33 | a new learner with the given bias, trained on the parsed examples |
| Oll.Oll.Classify | oll/oll.cpp:373-381 | which vectors are non-empty decides between the three ways to classify; `ClassifiesRightly`, `AveragedMean` and `KernelClassified` say what each comes to after training |

## Left out

- BigIntegers.BigInteger.FromInt: only for x >= -1; the branch for smaller numbers uses a name, `DV`, that is bound nowhere (crypto.js:195), and no caller here takes it.
- Radix.ToString: radix 2, 4, 8, 16 and 32 only; `toRadix` for the other radices is not modelled.
- Radix.FromString: the same radices, and no digit character at or above the radix, for which the code lets digits overlap; radix 256 (byte arrays) and `fromRadix` are not modelled.
- Division.DivRemTo: the two factors of the quotient estimate are exact rationals; the rounding of doubles at crypto.js:473-487 is not modelled.
- BarrettReduction.Barrett.Reduce: for moduli of at most 2^28 - 4 digits, beyond which the error of the truncated product no longer fits a digit.
- BarrettReduction.Barrett.Estimate: for the same moduli, for the same reason.
- ModularPower.ChooseReducer: that bound where Barrett is picked, for an even modulus and an exponent of 8 bits or more; no bound for the other two reducers.
- ModularPower.ModPow: the same bound in the same case.
- ShortPower.Exp: the reducer `NullExp` of `pow`, with which the same loop computes the power itself, is not modelled.
- Radix.RoundTrip: radix 2, 4, 8, 16 and 32 only, like the two methods it is about.
- GcdAndInverse.ModInverse: a positive number and a modulus that is not negative. Which inputs lead to a coefficient in range is said by running the rounds (`Coefficient`), not by a closed formula.
- EarleyTables.FillRule: the vector of names, from which only derivation trees are labelled, is not modelled.
- EarleyTables.MakeTables: the same vector of names.
- The derivation trees of `parse->trees` and their count: for a symbol that derives itself there are infinitely many, and the recursion of the original does not end.
- Earley.Parsed: the lexer is a parameter: tokens come as lists of categories.
- BoyerProver.Rewriter.Rewrite: takes a bound on the depth of calls, since whether rewriting ends depends on the lemmas: no result means that nothing is reached within that depth, and any result is the same for every greater one. The benchmark's lemma list itself is not included.
- BoyerProver.Rewriter.RewriteArgs: the same bound.
- BoyerProver.Rewriter.Prove: the same bound; it starts from a term that is translated and substituted already.
- BoyerTautology.Tautologyp: an if with fewer than three parts makes the original fail with an error and is excluded.
- SplayTrees.SplayTree.Insert: keys are reals, so NaN and mixed key types are not modelled.
- SplayTrees.SplayTree.FindGreatestLessThan: its share covers the splay; the walk of findMax to the right afterwards is not amortised, and no comment says that it is.
- SplayBenchmark.InsertNewNode: the random number generator is a list of keys; a run stops where the list ends.
- Oll.Oll.TrainFile: starts from parsed examples; streams, parsing, comments and the log are not modelled, and feature ids are not negative.
- Oll.Oll.constructor: without the fields `C` and `covb`, which only the rules that are not modelled read.
- Oll.Oll.TrainExample: four of the rules in the cited lines; PA-I and PA-II, which bound or damp the aggressive step, are not modelled.
- DispatcherTally.SetUpTally: the counts for two work packets and three device packets for each handler, which is what the benchmark sets up; for other numbers only `DispatcherCounts.RunCounts` speaks of them.
- OllModel.MistakeBound: over exact reals; rounding of floats is not modelled.
- The other digit sizes (`am1`, `am2`, `am4`), the random pool, key generation, primality tests and bit operations of crypto.js.
- The CW and ALMA rules, saving and loading of models, and the test loop of the learner.
- `deltablue.js`, `navier-stokes.js`, `raytrace.js`, `regexp.js`, `base.js` and `run.js`: numerical simulation, rendering, benchmark data and timing, or solvers that do not keep their textbook invariants.
- The C++ programs at the top level and the V8 headers and samples: input and output over libraries that are not part of this model.
