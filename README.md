# CalcVersee calculators, modelled in Dafny

CalcVersee is a desktop calculator suite. It has six pages and a shared history:

- a basic calculator;
- a scientific calculator;
- a programmer calculator over binary, octal, decimal and hexadecimal;
- an equation solver for linear equations, quadratics and 2×2 systems;
- a matrix page;
- a unit converter;
- a calculation history that every page writes to.

In the original program, every page keeps its state in the fields of its window class. This project models that state and the handlers that change it. The widgets are left out.

The project has one file per module:

- options.dfy (module `Options`): the `Option` type used for "raised" and "nothing to log".
- numerals.dfy (module `Numerals`): `format(v, base)`, `str(int)`, `int(text, base)`, and `float()` on keypad numerals.
- bits.dfy (module `Bits`): Python's `~`, `&`, `|`, `^`, `<<` and `>>` on unbounded ints, and the word mask.
- programmer.dfy (module `Programmer`): class `ProgrammerCalculator`, its displays and its digit editing.
- keypad.dfy (module `Keypad`): the key-by-key state machine of the basic and scientific pages.
- basic.dfy (module `Basic`): class `BasicCalculator`.
- scientific.dfy (module `Scientific`): class `ScientificCalculator`: unary functions, DEG/RAD, the π key.
- equations.dfy (module `Equations`): the three solvers, their equation texts and their step traces.
- matrix.dfy (module `Matrices`): reading the grids, the dimension guards, the operations, the cell display.
- units.dfy (module `Units`): the unit tables, factor and temperature conversion, formulas, default units, common values.
- history.dfy (module `History`): class `HistoryManager`: a log capped at the newest 1000 entries.

How the model is organised:

- The handlers that change state in place are class methods with `modifies` clauses.
- Each method's `ensures` ties the new state to a specification function: `Keypad.EnterNumber`, `Keypad.Calculate`, `Programmer.Extended`, `History.Newest` and so on. Lemmas then prove what the source promises about those functions.
- Python floats are Dafny `real`s.
- Some values come from outside the program and are parameters:
  - `str(float)` and the `format` specifications;
  - the parts of `float()` beyond plain numerals;
  - `**` on floats and `math.sin`, `log`, `sqrt` and `exp`;
  - `numpy.linalg.det` and `numpy.linalg.inv`;
  - uuid and clock values.
- A handler's history entry is returned as a `Record`. The caller passes it to `HistoryManager.AddEntry`.

## Model

| member | source | states |
|---|---|---|
| Numerals.NatValueSnoc | ui/programmer_calculator.py:309-312 | appending a digit to a numeral multiplies its value by the base and adds the digit |
| Numerals.DigitsValue | ui/programmer_calculator.py:299-306 | the digits `format` writes for n read back as n |
| Numerals.ParseDigitString | ui/programmer_calculator.py:312 | `int()` of a non-empty digit string, with or without a leading minus, is its value |
| Numerals.FormatRoundTrip | ui/programmer_calculator.py:299-312 | `int(format(v, base), base) == v` for every int v, negative ones included |
| Numerals.FloatOfIntText | ui/basic_calculator.py:184-195 | `float(str(i)) == i` for every int i |
| Numerals.FloatRejectsFragments | ui/basic_calculator.py:151 | `float()` raises on "", ".", "-" and "-." |
| Bits.BitNotSpec | ui/programmer_calculator.py:362 | `~a` flips every two's-complement bit |
| Bits.BitAndSpec | ui/programmer_calculator.py:406 | bit i of `a & b` is the product of the bits of a and b |
| Bits.BitOrSpec | ui/programmer_calculator.py:408 | bit i of `a \| b` is set iff it is set in a or in b |
| Bits.BitXorSpec | ui/programmer_calculator.py:410 | bit i of `a ^ b` is the sum of the bits modulo 2 |
| Bits.MaskBits | ui/programmer_calculator.py:266 | `(1 << w) - 1` has ones exactly in the low w bits |
| Bits.MaskedBits | ui/programmer_calculator.py:266-269 | masking keeps the low w bits of v and clears the rest |
| Bits.MaskIsMod | ui/programmer_calculator.py:266-269 | `v & ((1 << w) - 1) == v mod 2^w`, also for negative v |
| Bits.Masked | ui/programmer_calculator.py:266-269 | the masked value is below 2^w and equals v mod 2^w |
| Bits.NotTwice | ui/programmer_calculator.py:353-362 | masked NOT applied twice gives the masked original |
| Bits.ShiftRoundTrip | ui/programmer_calculator.py:458-461 | a left shift that fits the word, then a right shift by the same amount, gives the value back |
| Bits.ShiftRightShrinks | ui/programmer_calculator.py:460-461 | a right shift of a non-negative value stays between 0 and the value |
| Programmer.Radix | ui/programmer_calculator.py:317-326 | the base of each display mode is 2, 8, 10 or 16 |
| Programmer.ButtonsMatchBase | ui/programmer_calculator.py:232-258 | a keypad button is enabled iff its symbol is a digit of the selected base |
| Programmer.BinaryFieldExact | ui/programmer_calculator.py:275 | the zero-padded binary field of a value below 2^w has exactly w digits and reads back as the value |
| Programmer.GroupsOfFourLayout | ui/programmer_calculator.py:276 | grouping keeps every digit in order and puts one space after every fourth digit, and nowhere else |
| Programmer.RenderShowsMaskedValue | ui/programmer_calculator.py:260-293 | all four displays read back as the stored value mod 2^w; the binary one is w digits in groups of four |
| Programmer.RenderIgnoresHighBits | ui/programmer_calculator.py:262-269 | values equal mod 2^w look identical on every display |
| Programmer.AppendIsExtend | ui/programmer_calculator.py:295-312 | typing c is accepted iff c is a digit of the base, and the new value is v·base ± digit (on the sign's side) |
| Programmer.BackspaceIsTruncate | ui/programmer_calculator.py:486-504 | backspace drops the last digit, rounding towards zero; a one-digit negative leaves "-", and `int()` raises on it |
| Programmer.AppendThenBackspace | ui/programmer_calculator.py:486-504 | backspace right after typing a legal digit restores the value |
| Programmer.CombineBitwise | ui/programmer_calculator.py:404-410 | AND, OR and XOR act bit by bit as their truth tables say |
| Programmer.NotInWordAndTwice | ui/programmer_calculator.py:353-362 | NOT lands in [0, mask], and NOT twice is the identity on what the displays show |
| Programmer.ShiftLeftThenRight | ui/programmer_calculator.py:457-461 | a left shift lands below 2^w; when nothing overflowed, a right shift undoes it |
| Programmer.HiddenHighBits | ui/programmer_calculator.py:262-269 | 256 and 0 look the same in an 8-bit word, but backspace turns them into 25 and 0 |
| Programmer.ProgrammerCalculator.constructor | ui/programmer_calculator.py:9-11 | the value starts at 0, the base at decimal and the word size at 32 |
| Programmer.ProgrammerCalculator.SelectWordSize | ui/programmer_calculator.py:62-72 | a word size change only re-renders; the stored value keeps its high bits |
| Programmer.ProgrammerCalculator.ChangeBase | ui/programmer_calculator.py:223-230 | changing the base changes neither the value nor the word size |
| Programmer.ProgrammerCalculator.AppendDigit | ui/programmer_calculator.py:295-315 | the value is extended iff the digit is legal in the base, and is not re-masked; otherwise it is unchanged |
| Programmer.ProgrammerCalculator.Backspace | ui/programmer_calculator.py:486-507 | the value becomes its truncation towards zero, except a negative one-digit value, which is kept |
| Programmer.ProgrammerCalculator.OperationRecord | ui/programmer_calculator.py:328-339 | only "=" produces a history entry, of kind "Programmer" with result "Value in different bases" |
| Programmer.ProgrammerCalculator.BitwiseNot | ui/programmer_calculator.py:353-372 | the value becomes `(~v) & mask`, logged as "NOT v" and "= result" |
| Programmer.ProgrammerCalculator.ApplyBitwise | ui/programmer_calculator.py:396-424 | an operand that parses in the base combines unmasked and is logged; one that does not changes nothing and logs nothing |
| Programmer.ProgrammerCalculator.Shift | ui/programmer_calculator.py:445-475 | a left shift is masked and a right shift is not; an unparsable or negative amount changes nothing |
| Programmer.ProgrammerCalculator.Clear | ui/programmer_calculator.py:482-484 | the value becomes 0; base and word size stay |
| Keypad.LeadingZeroReplaced | ui/basic_calculator.py:122-134 | a lone "0" gives way to the next number; the basic keypad ignores a second "0", and the scientific one keeps the "0" before a point |
| Keypad.DecimalOnEmpty | ui/basic_calculator.py:136-144 | the point key right after an operator starts "0."; on an empty input the basic keypad writes "." and the scientific one "0." |
| Keypad.CalculateGuard | ui/basic_calculator.py:164-165 | "=" changes nothing and logs nothing unless an operator, a first operand and an input are all present |
| Keypad.OperatorOnEmpty | ui/basic_calculator.py:146-147 | an operator key on an empty input changes nothing and logs nothing |
| Keypad.NegateOnEmpty | ui/basic_calculator.py:216-217 | negate leaves an empty input alone |
| Keypad.EditingKeepsValid | ui/basic_calculator.py:208-229 | digit, point, clear, negate and backspace keep "operator pending iff first operand stored" |
| Keypad.CalculateKeepsValid | ui/basic_calculator.py:164-206 | "=" keeps that invariant |
| Keypad.OperatorKeepsValid | ui/basic_calculator.py:146-162 | an operator key keeps that invariant |
| Keypad.DivisionSpec | ui/basic_calculator.py:176-181 | division and modulo by zero raise ZeroDivisionError; otherwise the quotient times the divisor is the dividend |
| Keypad.FloatModSpec | ui/basic_calculator.py:180-181 | float `%` leaves a whole multiple of b plus a remainder with b's sign, smaller than b |
| Keypad.WholeResultsReadBack | ui/basic_calculator.py:183-195 | an integral result's text reads back exactly; another one reads back iff `float(str(r)) == r` |
| Keypad.OperatorsChainLeftToRight | ui/basic_calculator.py:146-153 | an operator pressed while another is pending evaluates it, logs it, and takes its result as the new first operand |
| Keypad.ErrorsReset | ui/basic_calculator.py:201-206 | a raising evaluation logs nothing, clears input, operator and first operand, and shows the error |
| Keypad.NegateTwice | ui/basic_calculator.py:216-222 | negate twice restores the input |
| Keypad.NegateNegatesValue | ui/basic_calculator.py:216-222 | the negated input reads as the negated number |
| Keypad.EraseNeverLeavesSign | ui/basic_calculator.py:224-229 | backspace never leaves a lone "-" |
| Keypad.EnterThenErase | ui/basic_calculator.py:224-229 | backspace removes the digit just typed |
| Keypad.DecimalIdempotent | ui/basic_calculator.py:136-144 | the point key leaves a point in the input, and pressing it twice is pressing it once |
| Keypad.OperatorStoresOperand | ui/basic_calculator.py:146-162 | with nothing pending, an operator key stores the input as first operand and logs nothing |
| Keypad.DigitAfterOperator | ui/basic_calculator.py:122-125 | the first digit after an operator starts a new input |
| Keypad.CalculateShowsResult | ui/basic_calculator.py:183-199 | a successful "=" shows the result text and logs the expression with it |
| Keypad.OnePlusTwo | ui/basic_calculator.py:122-162 | "1 + 2" leaves 1 and + pending with "2" typed |
| Keypad.NoPrecedence | ui/basic_calculator.py:146-153 | "1 + 2 × 3 =" shows 9: each operator finishes the previous one |
| Basic.BasicCalculator.constructor | ui/basic_calculator.py:11-15 | the state starts empty, with the display at "0" |
| Basic.BasicCalculator.AppendNumber | ui/basic_calculator.py:122-134 | the new state is the digit transition of the basic keypad |
| Basic.BasicCalculator.AppendDecimal | ui/basic_calculator.py:136-144 | the new state is the point transition of the basic keypad |
| Basic.BasicCalculator.Calculate | ui/basic_calculator.py:164-206 | the new state, the log entry and the uncaught `float()` error are those of the "=" transition |
| Basic.BasicCalculator.HandleOperator | ui/basic_calculator.py:146-162 | the new state and log entry are those of the operator transition |
| Basic.BasicCalculator.Clear | ui/basic_calculator.py:208-214 | input, operator, operands and result are cleared; `operation_just_pressed` is kept |
| Basic.BasicCalculator.Negate | ui/basic_calculator.py:216-222 | the new state is the negate transition |
| Basic.BasicCalculator.Backspace | ui/basic_calculator.py:224-229 | the new state is the backspace transition |
| Basic.BasicCalculator.ResetAfterError | ui/basic_calculator.py:237-242 | input, operator, first operand, result and operation line are cleared; nothing else changes |
| Scientific.AngleModeSpec | ui/scientific_calculator.py:236-247 | only sin, cos and tan read the angle mode; in degree mode they see the angle in radians |
| Scientific.DomainErrors | ui/scientific_calculator.py:248-262 | ln and log of a value ≤ 0 and √ of a negative raise a domain error; 1/x raises iff x = 0 |
| Scientific.AlgebraicResults | ui/scientific_calculator.py:254-262 | x² ≥ 0, x³ keeps the sign of x, and x · (1/x) = 1 |
| Scientific.FunctionErrorResets | ui/scientific_calculator.py:282-284 | a raising unary function logs nothing, resets the state and shows "Error: " + message |
| Scientific.FunctionOnEmpty | ui/scientific_calculator.py:228-230 | a function key on an empty input changes nothing and logs nothing |
| Scientific.FunctionKeepsPending | ui/scientific_calculator.py:267-280 | a successful unary function keeps the pending operator and operand, logs its result, and a result below 1e-10 reads back as 0 |
| Scientific.PiReadsBack | ui/scientific_calculator.py:137 | the text of `math.pi` reads back as π |
| Scientific.PiAppendsToInput | ui/scientific_calculator.py:137 | as written, π after "2" gives "23.141592653589793", and after "1.5" gives text `float()` rejects |
| Scientific.SecondPointRejected | ui/scientific_calculator.py:137 | "1.5" followed by the text of π does not parse |
| Scientific.EnterPiGivesPi | ui/scientific_calculator.py:137 | the corrected π key leaves an input that reads as π and keeps any pending operation |
| Scientific.ScientificCalculator.constructor | ui/scientific_calculator.py:11-16 | the state starts empty, in degree mode |
| Scientific.ScientificCalculator.ToggleDegreeMode | ui/scientific_calculator.py:180-182 | the mode flips, the indicator shows the new mode, and nothing else changes |
| Scientific.ScientificCalculator.AppendNumber | ui/scientific_calculator.py:184-194 | the new state is the number-entry transition of the scientific keypad, for a digit or any other text |
| Scientific.ScientificCalculator.AppendPi | ui/scientific_calculator.py:137 | as written: the text of π goes through number entry, so it is appended to what was typed (see Findings) |
| Scientific.ScientificCalculator.AppendDecimal | ui/scientific_calculator.py:196-206 | the new state is the point transition, which gives "0." on an empty input |
| Scientific.ScientificCalculator.ApplyScientificFunction | ui/scientific_calculator.py:228-284 | the new state and log entry are those of the unary function transition, read in the current angle mode |
| Scientific.ScientificCalculator.Calculate | ui/scientific_calculator.py:286-339 | the new state and log entry are those of the "=" transition, with `^` and its history text |
| Scientific.ScientificCalculator.HandleOperator | ui/scientific_calculator.py:208-226 | the new state and log entry are those of the operator transition |
| Scientific.ScientificCalculator.Clear | ui/scientific_calculator.py:341-347 | the clear transition; the angle mode is kept |
| Scientific.ScientificCalculator.Negate | ui/scientific_calculator.py:349-355 | the negate transition |
| Scientific.ScientificCalculator.Backspace | ui/scientific_calculator.py:357-362 | the backspace transition |
| Scientific.ScientificCalculator.ResetAfterError | ui/scientific_calculator.py:370-375 | input, operator, first operand, result and operation line are cleared |
| Equations.RoundHalfEvenSpec | ui/equation_solver.py:253-254 | `round()` gives a nearest integer, breaks ties to even, and fixes integers |
| Equations.SnappedIsClose | ui/equation_solver.py:252-254 | a snapped solution shows an integer text within 1e-10 of the solution; any other solution shows `str(x)` |
| Equations.TermTextSpec | ui/equation_solver.py:257-259 | a term shows "+ v" iff v > 0, "- \|v\|" iff v < 0, and nothing iff v = 0 |
| Equations.LeadTextSpec | ui/equation_solver.py:257 | the leading coefficient is hidden iff it is 1, and shown as "-" iff it is -1 |
| Equations.LinearAnswerSpec | ui/equation_solver.py:243-250 | a = 0 gives identity iff b = 0 and contradiction otherwise; a ≠ 0 gives a root with a·x + b = 0 |
| Equations.LinearRootUnique | ui/equation_solver.py:248-250 | any x with a·x + b = 0 is the root reported |
| Equations.QuadraticRoots | ui/equation_solver.py:319-360 | the sign of the discriminant picks the branch; each root (real, double or complex) satisfies the equation |
| Equations.TwoRealRoots | ui/equation_solver.py:327-330 | with D > 0 both roots satisfy the equation and differ |
| Equations.ComplexPair | ui/equation_solver.py:357-360 | with D < 0, re ± im·i makes both the real and the imaginary part of the equation vanish |
| Equations.CramerSolves | ui/equation_solver.py:427-433 | with det ≠ 0, Cramer's (x, y) satisfies both equations |
| Equations.CramerUnique | ui/equation_solver.py:427-433 | with det ≠ 0, every solution is Cramer's (x, y) |
| Equations.SolvableIsConsistent | ui/equation_solver.py:417-419 | a singular system with a solution passes the corrected consistency test |
| Equations.ConsistentIsSolvable | ui/equation_solver.py:417-420 | a singular system that passes the corrected test has a solution |
| Equations.SingularHasDirection | ui/equation_solver.py:417-420 | a singular system has a nonzero direction along which solutions repeat, hence infinitely many |
| Equations.SystemAnswer | ui/equation_solver.py:406-433 | a system is reported as a point, dependent or inconsistent |
| Equations.SystemAnswerSpec | ui/equation_solver.py:406-433 | a singular system is reported dependent iff it is solvable, and a system is reported inconsistent iff it has no solution |
| Equations.ZeroRowsCalledDependent | ui/equation_solver.py:417-420 | the test as written calls 0x + 0y = 5, 0x + 0y = 0 dependent, though it has no solution |
| Equations.AsWrittenAgreesElsewhere | ui/equation_solver.py:417-420 | whenever some coefficient is nonzero, the written and corrected tests agree |
| Equations.CramerLines | ui/equation_solver.py:443-448 | the Cramer part of the trace has six lines |
| Equations.LinearReportSpec | ui/equation_solver.py:256-280 | the trace starts with the equation and ends with the logged result; it has the division step iff a ≠ 0 |
| Equations.SolveLinearSpec | ui/equation_solver.py:238-283 | the solver logs iff both fields parse; otherwise it shows only the invalid-input message |
| Equations.QuadraticReportSpec | ui/equation_solver.py:293-383 | the trace starts with the equation and ends with the logged result; with a = 0 it has the linear note and the result line twice |
| Equations.DegenerateReportSpec | ui/equation_solver.py:299-316 | the a = 0 trace has six lines, the last two being the same result line |
| Equations.ProperReportSpec | ui/equation_solver.py:317-376 | the a ≠ 0 trace shows the discriminant step second and the result last |
| Equations.SolveQuadraticSpec | ui/equation_solver.py:287-388 | the solver logs iff all three fields parse; otherwise it shows only the invalid-input message |
| Equations.DegenerateIsLinear | ui/equation_solver.py:299-308 | with a = 0 the result follows the linear rule on (b, c), shown with `str()` and not snapped |
| Equations.SystemStepsEnd | ui/equation_solver.py:417-449 | every branch of the system trace ends with the result line |
| Equations.SystemReportSpec | ui/equation_solver.py:401-456 | for each verdict, the trace lists both equations and ends with the logged result, which is that verdict |
| Equations.SolveSystemSpec | ui/equation_solver.py:392-461 | the system solver logs iff all six fields parse, and then logs the verdict of the consistency test as written |
| Equations.SolveSystemCorrectedSpec | ui/equation_solver.py:392-461 | the solver with the corrected test logs under the same condition, logs the corrected verdict, and agrees with the solver as written unless all four coefficients are zero |
| Equations.ZeroRowsReported | ui/equation_solver.py:417-420 | the fields 0, 0, 5, 0, 0, 0 are logged as "Infinite solutions (dependent equations)" as written, and as "No solution (inconsistent system)" once corrected |
| Equations.LinearDefaultSolves | ui/equation_solver.py:466-470 | the linear form's defaults solve to x = 0 |
| Equations.QuadraticDefaultSolves | ui/equation_solver.py:472-478 | the quadratic form's defaults give the double root 0 |
| Equations.SystemDefaultFields | ui/equation_solver.py:480-492 | the system form's defaults are 1, 1, 0, 0, 1, 0 and all parse |
| Equations.SystemDefaultSolves | ui/equation_solver.py:480-492 | the system form's defaults solve to the point (0, 0) |
| Matrices.Parsed | ui/matrix_operations.py:200-204 | a grid reads as a matrix of rows × length of the first row |
| Matrices.GetMatrixValues | ui/matrix_operations.py:200-217 | the new array holds `float()` of every cell, or 0 where `float()` raises |
| Matrices.CellsReadAsFloats | ui/matrix_operations.py:206-215 | a rejected cell reads as 0; any other reads as its value |
| Matrices.Add | ui/matrix_operations.py:239 | the sum has the operands' shape |
| Matrices.Subtract | ui/matrix_operations.py:248 | the difference has the operands' shape |
| Matrices.Multiply | ui/matrix_operations.py:257 | the product of n × k and k × m is n × m |
| Matrices.Transpose | ui/matrix_operations.py:261 | the transpose of r × c is c × r |
| Matrices.AddSubtractInverse | ui/matrix_operations.py:239-248 | subtracting B undoes adding B, and addition commutes |
| Matrices.TransposeTwice | ui/matrix_operations.py:261 | transposing twice gives the matrix back |
| Matrices.IdentityLeft | ui/matrix_operations.py:257 | the identity is neutral for the product |
| Matrices.TransposeOfProduct | ui/matrix_operations.py:251-261 | (A × B)ᵀ = Bᵀ × Aᵀ |
| Matrices.DispatchGuards | ui/matrix_operations.py:233-301 | each operation is refused iff its dimension check fails (inverse also when \|det\| < 1e-10); transpose is never refused |
| Matrices.DispatchShapes | ui/matrix_operations.py:233-314 | a computed result has the shape its operation promises and is logged as completed |
| Matrices.SquareChecksFirst | ui/matrix_operations.py:264-298 | a non-square A is refused for inverse before any determinant; a square determinant is logged with its size |
| Matrices.PerformOperation | ui/matrix_operations.py:219-317 | the outcome is the dispatch on both grids as read |
| Matrices.Display | ui/matrix_operations.py:319-337 | the shown grid has the result's shape |
| Matrices.CellTextSpec | ui/matrix_operations.py:324-332 | an integral cell shows an integer text that reads back exactly, a tiny cell shows "0", and any other shows four decimals |
| Matrices.ClearedGridIsZero | ui/matrix_operations.py:350-360 | a cleared grid reads as the zero matrix |
| Units.ValidTable | ui/unit_converter.py:10-81 | a factor table with two distinct first units and positive factors is valid |
| Units.LengthValid | ui/unit_converter.py:11-20 | the length table is valid |
| Units.LengthPositive | ui/unit_converter.py:11-20 | every length factor is positive |
| Units.WeightMassValid | ui/unit_converter.py:21-28 | the weight table is valid |
| Units.WeightMassPositive | ui/unit_converter.py:21-28 | every weight factor is positive |
| Units.TemperatureValid | ui/unit_converter.py:29-33 | the temperature units are valid |
| Units.AreaValid | ui/unit_converter.py:34-44 | the area table is valid |
| Units.AreaPositive | ui/unit_converter.py:34-44 | every area factor is positive |
| Units.VolumeValid | ui/unit_converter.py:45-57 | the volume table is valid |
| Units.VolumePositive | ui/unit_converter.py:45-57 | every volume factor is positive |
| Units.TimeValid | ui/unit_converter.py:58-66 | the time table is valid |
| Units.TimePositive | ui/unit_converter.py:58-66 | every time factor is positive |
| Units.SpeedValid | ui/unit_converter.py:67-73 | the speed table is valid |
| Units.SpeedPositive | ui/unit_converter.py:67-73 | every speed factor is positive |
| Units.PressureValid | ui/unit_converter.py:74-81 | the pressure table is valid |
| Units.PressurePositive | ui/unit_converter.py:74-81 | every pressure factor is positive |
| Units.FactorOfPositive | ui/unit_converter.py:225-226 | a unit's factor in a table of positive factors is positive |
| Units.Factor | ui/unit_converter.py:225-226 | the factor of a selected unit is positive, so the division never divides by zero |
| Units.CelsiusRoundTrip | ui/unit_converter.py:261-292 | to Celsius and back, or from Celsius and back, is the identity for every temperature unit |
| Units.CelsiusMonotone | ui/unit_converter.py:263-290 | both directions of the Celsius conversion preserve order |
| Units.TemperatureLandmarks | ui/unit_converter.py:263-290 | 0 °C = 32 °F = 273.15 K, 100 °C = 212 °F = 373.15 K, −40 °F = −40 °C, 0 K = −273.15 °C |
| Units.TemperatureFormulaSpec | ui/unit_converter.py:261-292 | the value goes through Celsius; the formula starts with the Fahrenheit or Kelvin step, or with the value in Celsius |
| Units.ConvertSameUnit | ui/unit_converter.py:220-230 | converting a unit to itself keeps the value |
| Units.ConvertRoundTrip | ui/unit_converter.py:220-230 | converting A→B and then B→A returns the value |
| Units.ConvertChain | ui/unit_converter.py:220-230 | A→B followed by B→C is A→C |
| Units.EqualFactorsKeepValue | ui/unit_converter.py:229-233 | units with equal factors convert without change |
| Units.FactorConversionIsLinear | ui/unit_converter.py:229-230 | factor conversion is linear and maps 0 to 0 |
| Units.FormattedSpec | ui/unit_converter.py:238-244 | the result uses general format iff it is 0 or 1e-6 ≤ \|x\| ≤ 1e6, and otherwise exponent format |
| Units.FactorFormulaOpening | ui/unit_converter.py:232-236 | the formula starts with the value and its unit |
| Units.EqualFactorsFormula | ui/unit_converter.py:233-234 | with equal factors the formula omits the factors |
| Units.ConvertSpec | ui/unit_converter.py:201-255 | nothing happens iff a unit is unset; input that does not parse gives "Invalid input", an empty formula and no log entry; otherwise it gives the formatted conversion, its formula and the log entry |
| Units.SelectUnitsSpec | ui/unit_converter.py:181-193 | the chosen units belong to the category, a valid choice is kept, two fresh defaults differ, and choosing again changes nothing |
| Units.OpeningUnits | ui/unit_converter.py:181-193 | the page opens on Meter → Kilometer |
| Units.LengthNames | ui/unit_converter.py:11-13 | the first two length units are Meter and Kilometer |
| Units.LengthFactors | ui/unit_converter.py:12-13 | the meter's factor is 1 and the kilometer's is 1000 |
| Units.OpeningConversion | ui/unit_converter.py:201-244 | the opening conversion of "1" meter shows 0.001 in general format |
| Units.CommonValues | ui/unit_converter.py:319-340 | every category offers four common values |
| Units.CommonTemperaturesAgree | ui/unit_converter.py:328-334 | the temperature lists are the same four temperatures, 0, 20, 37 and 100 °C, in each unit |
| Units.OthersSpec | ui/unit_converter.py:358-359 | the targets are exactly the category's units other than the source unit |
| Units.CommonRowSpec | ui/unit_converter.py:342-382 | a row is captioned with the value and unit, and lists one line for each other unit, with its conversion to 6 significant digits |
| Units.CommonTableSpec | ui/unit_converter.py:319-340 | the common-values table has four rows, one for each common value |
| History.NewestSpec | utils/history_manager.py:28-30 | trimming keeps at most 1000 entries, the newest ones, in order, and leaves a short log alone |
| History.NewestKeepsLast | utils/history_manager.py:26-30 | the entry just added is always the last one kept |
| History.OfKindMembers | utils/history_manager.py:44 | the filter keeps exactly the entries of that type |
| History.OfKindAppend | utils/history_manager.py:44 | filtering commutes with concatenation, so order is kept |
| History.OfKindIdempotent | utils/history_manager.py:44 | filtering twice by the same type is filtering once |
| History.WithoutIdMembers | utils/history_manager.py:49 | deletion keeps exactly the entries with another id |
| History.WithoutAbsentId | utils/history_manager.py:49 | deleting an absent id changes nothing |
| History.WithoutIdAppend | utils/history_manager.py:49 | deletion commutes with concatenation, so the survivors keep their order |
| History.AddThenDelete | utils/history_manager.py:47-49 | deleting a fresh entry just added to a short log restores the log |
| History.HistoryManager.constructor | utils/history_manager.py:7-13 | the log starts as what loading finds, or empty |
| History.HistoryManager.AddEntry | utils/history_manager.py:15-35 | the entry is returned and appended, and the log is trimmed to the newest 1000 |
| History.HistoryManager.GetFilteredHistory | utils/history_manager.py:41-45 | no type or an empty type gives the whole log; a type gives exactly its entries |
| History.HistoryManager.DeleteEntry | utils/history_manager.py:47-50 | the log loses exactly the entries with that id |
| History.HistoryManager.ClearHistory | utils/history_manager.py:52-55 | the log is empty |
| History.HistoryManager.LoadHistory | utils/history_manager.py:72-86 | a missing file leaves the log, a readable one replaces it untrimmed, and a failed read empties it |

## Left out

- Floating point: Python floats are reals. There is no rounding, no overflow to inf, no nan and no signed zero. Results such as `0.1 + 0.2` are exact in the model.
- `str(float)`, `f"{:.4f}"`, `:.10e`, `:.10g`, `:.6e` and `:.6g` are parameters. The model keeps which of them a value is shown with, not their text.
- `math.sin`, `cos`, `tan`, `log`, `log10`, `sqrt` and `exp`, and `**` on floats, are parameters. The model keeps the domain checks that make them raise and the exact branches (squares, cubes, reciprocal).
- `float()` is concrete on texts made of digits, `.` and `-`. Its other syntax (exponents, "inf", "nan", blanks, underscores) is a parameter. `int(text, base)` is modelled on an optional sign followed by digits; its blanks, underscores and base prefixes are not modelled.
- `numpy.linalg.det` and `numpy.linalg.inv` are parameters. numpy's `LinAlgError` is not modelled.
- The generic `except Exception` handlers are not modelled. These are `solve_equation`, the body of `perform_operation`, `convert`, and the temperature `continue` in `add_common_value_row`. They catch only errors outside the model, such as overflow in `round()`.
- Programmer.ProgrammerCalculator.ApplyBitwise: the result of AND, OR and XOR is not re-masked, as in the source, so the stored value can be negative or wider than the word.
- Unit converter:
  - the unit drop-downs are read-only and `update_unit_options` resets them to units of the category. So `Convert` and `CommonRow` require selected units, and the `KeyError` on an unknown unit is not modelled;
  - the `UnboundLocalError` raised by `update_common_values` on an unknown temperature unit is not modelled;
  - the category drop-down is not modelled: each operation takes its category as a parameter;
  - the unused abbreviations "C", "F" and "K" of the temperature table are not modelled.
- History:
  - `save_history` and the JSON file are left out (I/O);
  - `load_history` takes what the file holds as a parameter;
  - `uuid.uuid4()` and `datetime.now()` are parameters of `AddEntry`;
  - `get_history` is the field itself and carries no contract.
- Tk widgets, layout, keyboard bindings and dialogs are left out. The two programmer dialogs are methods that take the typed text directly.
- Python's uncaught exceptions are modelled as a `raised` flag. This covers `float()` of the input in `calculate` and `handle_operator`, and `int()` in `append_digit` and `backspace`. State reached before the exception is kept, and nothing after it runs.

## Findings

| source | as written | input that shows it | evidently intended | confidence | as-written member | corrected member |
|---|---|---|---|---|---|---|
| ui/equation_solver.py:417-420 | a singular system is called dependent whenever `a1*c2 == a2*c1 and b1*c2 == b2*c1` | a1 = b1 = a2 = b2 = 0, c1 = 5, c2 = 0: both products are 0, so the solver reports "Infinite solutions (dependent equations)" for 0 = 5 | dependent iff the system has a solution; all-zero coefficients with a nonzero constant are inconsistent | high (not executed) | Equations.ZeroRowsCalledDependent | Equations.SystemAnswerSpec |
| ui/scientific_calculator.py:137 | the π key calls `append_number(str(math.pi))`, which appends the digits of π to whatever was typed | "2" then π gives 23.141592653589793; "1.5" then π gives "1.53.141592653589793", which `float()` rejects | the π key enters the value π | medium (not executed) | Scientific.PiAppendsToInput | Scientific.EnterPiGivesPi |

The handlers keep the behaviour as written: `Equations.SolveSystem` classifies with `Equations.SystemAnswerAsWritten`, and `ScientificCalculator.AppendPi` appends the text of π. The corrected halves stand beside them. `Equations.SolveSystemCorrected` classifies with `Equations.SystemAnswer`, and `Equations.AsWrittenAgreesElsewhere` and `Equations.SolveSystemCorrectedSpec` show that the two solvers differ only when all four coefficients are zero. `Scientific.EnterPi` is the intended π key.
