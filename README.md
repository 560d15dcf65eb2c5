# Advent of Code 2015, days 1–3 and 5–7, in Dafny

This project models six of the Rust daily puzzle solvers for Advent of Code 2015 and proves properties of each. The file reading, timing and printing around each solver are left out. What is modelled is the computation itself.

- **Day 7, logic circuit** (`day07_circuit.dfy`, `day07_parse.dfy`). Every wire is driven by one gate: a literal or wire copy, `NOT`, `AND`, `OR`, `LSHIFT` or `RSHIFT`. Signals are 64-bit `isize` values, kept as `bv64`, with no 16-bit masking.
  - `Value` is a reference evaluator with no cache. Its termination is witnessed by a ghost rank on wires that falls along every reference.
  - `GetFinalWireValue` is the memoized resolver. It updates the lookup table, which is a field of the `LookupTable` class. It is proved to return `Value`, to keep every table entry equal to `Value` of its wire, to only add entries, and to leave an entry for every wire the resolved wire depends on.
  - `Solve` runs the two-answer protocol: resolve `a`, override `b` with that answer, clear the table, and resolve `a` again.
  - `CircuitParse` models `split_ascii_whitespace`, `Operand::from_str` and the six token shapes of `parse_input`.
- **Day 6, light grid** (`day06_lights.dfy`). A flat array of 1000×1000 cells is updated in place by rectangle instructions under two rulesets. Each update is proved equal to a pure `Step` function on the grid.
- **Day 5, nice strings** (`day05_nice_strings.dfy`). The first rules are three vowels, a doubled letter and no forbidden pair. The second rules are a non-overlapping repeated pair, found with the first-index map, and a letter repeated with one letter between.
- **Day 3, houses** (`day03_houses.dfy`). The direction decoder, the `Santa` object with its position and visited set, and both parts, including the even/odd split between Santa and Robo-Santa.
- **Day 2, presents** (`day02_presents.dfy`). The wrapping paper and ribbon formulas, the `LxWxH` line parser and the totals.
- **Day 1, floors** (`day01_floors.dfy`). The floor counter and the first position at which the floor is -1.
- `decimal.dfy` holds the decimal digit parsing the solvers rely on: `usize` and `isize` parsing, and formatting. `wrappers.dfy` holds `Option` and `Result`.

Three facts about the circuit code shape its model:
- The code has no cycle guard and no undefined-signal error. It recurses without bound, or panics in `unwrap`. The model states acyclicity (`Resolvable`) and definedness as preconditions.
- `>>` on `isize` is an arithmetic, sign-copying shift, not a logical one.
- Values are 64-bit with no 16-bit masking. `Circuit.SampleNot` pins the resulting `NOT` values of the puzzle sample: -124 and -457, where a 16-bit reading gives 65412 and 65079.

## Model

| member | source | states |
|---|---|---|
| Floors.CountFloors | days/day01/src/main.rs:23-35 | The final floor equals the number of '(' less the number of ')'. The second result is the 1-based position of the first step that reaches floor -1, and 0 exactly when floor -1 is never reached. |
| Floors.FloorStep | days/day01/src/main.rs:25-28 | Each instruction changes the floor by exactly +1 for '(' or -1 for ')'. |
| Floors.NoLowerBeforeBasement | days/day01/src/main.rs:23-34 | Before floor -1 is first reached, every floor is at least 0. |
| Floors.FirstBasementVisitIsFirstBelowGround | days/day01/src/main.rs:32-34 | The reported position is also the first position below ground. When it is 0, Santa never goes below ground. |
| Presents.CalculateWrappingAmount | days/day02/src/main.rs:22-37 | The running minimum ends as the smallest side area. The amount is the whole surface plus that area. |
| Presents.SortDimensions | days/day02/src/main.rs:40-41 | Afterwards the three dimensions are ascending and are a permutation of the original three. |
| Presents.CompareExchange | days/day02/src/main.rs:41 | One sorting step: the two cells end in order and hold the same two values, and no other cell changes. |
| Presents.CalculateRibbonAmount | days/day02/src/main.rs:39-47 | The amount is twice the sum of the two smallest dimensions plus the volume. |
| Presents.TwoSmallest | days/day02/src/main.rs:40-43 | The first two of the sorted dimensions are all three dimensions less the largest. |
| Presents.PermutationPreservesSum | days/day02/src/main.rs:40-43 | Sorting does not change the sum of the dimensions. |
| Presents.SidesOfReorder | days/day02/src/main.rs:22-44 | Listing the dimensions in another order only permutes the side areas and keeps the volume. |
| Presents.AmountsIgnoreOrientation | days/day02/src/main.rs:22-47 | Both the paper and the ribbon amounts are unchanged under all six orderings of the dimensions. |
| Presents.Split | days/day02/src/main.rs:59 | Splitting on 'x' always yields at least one field. |
| Presents.SplitFieldsLackSeparator | days/day02/src/main.rs:59 | No field of the split contains the separator. |
| Presents.JoinSplit | days/day02/src/main.rs:59 | Joining the fields with the separator gives back the line. |
| Presents.SplitJoin | days/day02/src/main.rs:59 | Fields that contain no 'x', joined with 'x', split back into exactly those fields. |
| Presents.ParsePresent | days/day02/src/main.rs:59-69 | On a line where the code does not panic, the line is accepted exactly when its first three fields are numbers, and the present then holds those three numbers in order. Otherwise the result is `InvalidData`. |
| Presents.BadFieldRejected | days/day02/src/main.rs:60-68 | A field among the first three that exists but is not a number makes the line `InvalidData`, never a panic, because the fields are read in order. |
| Presents.BlankLineRejected | days/day02/src/main.rs:59-62 | A blank line is `InvalidData`. |
| Presents.PanicsOnlyOnShortNumericLines | days/day02/src/main.rs:59-68 | The lines excluded by the precondition of `ParsePresent` are exactly those with fewer than three fields that are all numbers, which are the lines the code panics on. |
| Presents.ParseFormatPresent | days/day02/src/main.rs:59-70 | Every present whose dimensions fit a `usize`, written as `LxWxH`, parses back to that present. |
| Presents.ParseLines | days/day02/src/main.rs:56-68 | When the solver can index every line, there is one `ParsePresent` outcome per line, in order. This is the reading of every line that `ParseAllCollects` compares the solver's loop against. |
| Presents.CollectPresentsOk | days/day02/src/main.rs:55-73 | The input is accepted exactly when every line parses. The presents are then each line's present, in line order. |
| Presents.CollectPresentsErr | days/day02/src/main.rs:60-68 | A single line with a non-numeric field makes the whole parse an `InvalidData` error. |
| Presents.CollectPresentsStep | days/day02/src/main.rs:56-71 | One more line either appends its present to the list so far, or, when a field is not a number, makes the whole input `InvalidData`. |
| Presents.IndexesFieldsUntilErrorIff | days/day02/src/main.rs:56-68 | The lines the solver can read without panicking are those where every line reached after only presents can be indexed. Lines after the first bad line do not matter. |
| Presents.ParseAllAccepts | days/day02/src/main.rs:56-73 | The loop's result is accepted exactly when every line is a present. |
| Presents.ParseAllValues | days/day02/src/main.rs:56-73 | An accepted result holds each line's present, one per line, in line order. |
| Presents.ParseAllRejects | days/day02/src/main.rs:60-68 | A rejected result is always `InvalidData`. |
| Presents.CollectPresentsCons | days/day02/src/main.rs:56-71 | Reading every line, a bad first line makes the whole input `InvalidData`, and a present first line is put in front of the presents of the rest. |
| Presents.ParseAllCollects | days/day02/src/main.rs:56-73 | When every line can be indexed, stopping at the first bad line gives the same result as reading every line and collecting the outcomes. |
| Presents.BadLineEndsParse | days/day02/src/main.rs:60-68 | A line with a non-number among its first three fields ends the parse with `InvalidData`, whatever lines follow, even lines that would panic. |
| Presents.LineAfterBadLineUnread | days/day02/src/main.rs:56-68 | "abc" followed by "5" is `InvalidData`, although "5" on its own would panic. |
| Presents.ParseInput | days/day02/src/main.rs:50-74 | Requires only that the lines the loop reaches can be indexed (`IndexesFieldsUntilError`). The loop returns `ParseAll`: the presents in order, or `InvalidData` at the first bad line, without reading the lines after it. |
| Presents.TotalsBound | days/day02/src/main.rs:85-90 | No present's own paper or ribbon amount exceeds the total for the list. |
| Presents.TotalsAdd | days/day02/src/main.rs:85-90 | Each total is additive over concatenation, so each present contributes its own amount exactly once. |
| Decimal.ParseUsize | days/day02/src/main.rs:60-68 | A parsed value is at most the `usize` maximum. A run of digits parses exactly when its value fits. |
| Decimal.UsizeRoundTrip | days/day02/src/main.rs:60-68 | The decimal spelling of every `usize` parses back to it. |
| Decimal.ParseIsize | days/day07/src/main.rs:19 | A parsed value lies in the `isize` range, and the token starts with a digit, '+' or '-'. |
| Decimal.IsizeRoundTrip | days/day07/src/main.rs:19-20 | The decimal spelling of every `isize` parses back to it. |
| Houses.DirectionFromStr | days/day03/src/main.rs:19-27 | A string decodes exactly when it is one of the four one-character arrows, and it decodes to the direction that arrow draws. |
| Houses.DirectionStrings | days/day03/src/main.rs:16-28 | Exactly the four arrows decode, each to the direction it draws, and every other string is an error. |
| Houses.DecodeChar | days/day03/src/main.rs:59-62 | A character is kept exactly when it is one of the four arrows, and it decodes to that arrow's direction. |
| Houses.ParseDirections | days/day03/src/main.rs:59-62 | Parsing never yields more directions than there are characters. |
| Houses.ParseRender | days/day03/src/main.rs:59-62 | Parsing keeps every arrow in order: a rendered route reads back unchanged. |
| Houses.ParseConcat | days/day03/src/main.rs:59-62 | Parsing works character by character: the parse of a concatenation is the concatenation of the parses. |
| Houses.ParseDropsOthers | days/day03/src/main.rs:59-62 | A non-arrow character contributes nothing, and an arrow contributes its direction. |
| Houses.Move | days/day03/src/main.rs:43-49 | Each move goes to a house at Manhattan distance exactly 1. |
| Houses.MoveBack | days/day03/src/main.rs:43-49 | A move followed by the opposite move returns to the start. |
| Houses.VisitedBounds | days/day03/src/main.rs:43-52 | A walk of n moves visits both its ends and at most n + 1 houses, and ends at most n houses away. |
| Houses.Santa.constructor | days/day03/src/main.rs:36-41 | Santa starts at (0, 0) with only (0, 0) visited. |
| Houses.Santa.MoveSleigh | days/day03/src/main.rs:43-52 | The position moves one step in the direction, and the visited set gains exactly the new position. |
| Houses.Santa.Follow | days/day03/src/main.rs:76-78 | After a route, the position is the walk's end and the visited set gains exactly the houses the walk visits. |
| Houses.EveryOther | days/day03/src/main.rs:84-89 | `step_by(2)`, after `skip(1)` for Robo-Santa, picks the arrows at even or odd indices, in order. |
| Houses.HousesVisitedAlone | days/day03/src/main.rs:74-79 | Part 1 counts the houses of the whole walk, between 1 and moves + 1. |
| Houses.HousesVisitedWithRobot | days/day03/src/main.rs:81-93 | Part 2 counts the union of the houses of the even-index walk and the odd-index walk, between 1 and moves + 1. |
| Houses.TwoWalksBound | days/day03/src/main.rs:81-93 | Both walks share the start, so together they visit at most one house per arrow plus one. |
| NiceStrings.VowelCount | days/day05/src/main.rs:18 | The count is the number of occurrences of the five vowels. |
| NiceStrings.HasDoubleLetter | days/day05/src/main.rs:24-28 | True exactly when two neighbouring characters are equal. |
| NiceStrings.ContainsPair | days/day05/src/main.rs:34-37 | True exactly when the two characters occur next to each other in that order. |
| NiceStrings.FirstIndicesInsert | days/day05/src/main.rs:62 | A pair met for the first time is recorded under its own index, and the map still holds every earlier pair under its first index. |
| NiceStrings.FirstIndicesKeep | days/day05/src/main.rs:55-60 | A pair met again is already recorded under its first index, an earlier one, and the early return leaves the map unchanged. |
| NiceStrings.RepeatStepSeen | days/day05/src/main.rs:55-58 | A pair met again completes a non-overlapping repeat exactly when it is more than one index past its first occurrence. |
| NiceStrings.IsNiceString1 | days/day05/src/main.rs:16-43 | Nice exactly when there are at least 3 vowels, some doubled letter, and none of "ab", "cd", "pq", "xy". |
| NiceStrings.HasRepeatingPairs | days/day05/src/main.rs:47-63 | The first-index pair map sets the flag exactly when some pair occurs at two indices more than one apart, a non-overlapping repeat. |
| NiceStrings.HasSandwichLetter | days/day05/src/main.rs:69-73 | True exactly when some letter repeats with exactly one letter between. |
| NiceStrings.IsNiceString2 | days/day05/src/main.rs:45-79 | Nice exactly when there is a non-overlapping repeated pair and a letter repeated around another, so never for strings shorter than 4. |
| Lights.CellOf | days/day06/src/main.rs:45 | The index `x * GRID_SIZE + y` with y inside the grid names light (x, y), so distinct lights never share a cell. |
| Lights.Rule | days/day06/src/main.rs:41-88 | Under the first rules "turn on" sets a light to 1, "turn off" sets it to 0, and "toggle" makes it 1 exactly when its value was even, and 0 otherwise. Under the second, "turn on" adds 1, "toggle" adds 2, and "turn off" subtracts 1 but never goes below 0. |
| Lights.LitCount | days/day06/src/main.rs:157 | The lit count is the number of cells equal to 1. |
| Lights.BrightnessBounds | days/day06/src/main.rs:162 | No light is brighter than the total brightness, and the total is at least the number of lights equal to 1. |
| Lights.LightGrid.constructor | days/day06/src/main.rs:32-37 | A new grid has GRID_SIZE × GRID_SIZE cells, all 0, under the given ruleset. |
| Lights.LightGrid.RunInstruction | days/day06/src/main.rs:39-90 | The grid becomes `Step` of the old grid: the ruleset's rule applies to every cell in the rectangle, and every other cell is unchanged. |
| Lights.Solve | days/day06/src/main.rs:151-162 | The answers are the number of cells equal to 1 after all instructions under the first rules, and the sum of all cells after them under the second. |
| Lights.Part1StaysBinary | days/day06/src/main.rs:41-64 | Under the first rules a grid of 0s and 1s stays so after any instructions. |
| Lights.LitCountOfBinary | days/day06/src/main.rs:157 | On such a grid the lit count equals the sum of the cells. |
| Lights.ToggleTwice | days/day06/src/main.rs:56-63 | Toggling a rectangle twice under the first rules restores an on/off grid. |
| Lights.EmptyRectangle | days/day06/src/main.rs:41-88 | An instruction with an empty range (x1 > x2 or y1 > y2) leaves the grid unchanged. |
| Lights.BrightnessRises | days/day06/src/main.rs:66-72 | Under the second rules, "turn on" adds 1 and "toggle" adds 2 to the total for every light in the rectangle. |
| Lights.BrightnessFalls | days/day06/src/main.rs:73-80 | Under the second rules, "turn off" lowers the total by at most one per light in the rectangle, and never raises it. |
| Circuit.BitsIntRoundTrip | days/day07/src/main.rs:12 | Every 64-bit pattern stands for an `isize` and is that integer's two's-complement encoding. |
| Circuit.FromIntUnique | days/day07/src/main.rs:12 | The two's-complement bits of an `isize` are the only 64-bit pattern that stands for it. |
| Circuit.ShiftRightArithmetic | days/day07/src/main.rs:166 | `>>` keeps the sign bit of its input. |
| Circuit.ShiftRightHalves | days/day07/src/main.rs:166 | A shift by one halves, rounding towards minus infinity: doubling the result gives the input with its lowest bit cleared, and the sign is kept. |
| Circuit.ShiftRightExamples | days/day07/src/main.rs:166 | Negative values round down: -8 >> 1 is -4, -7 >> 1 is -4, -1 >> 1 is -1, -8 >> 2 is -2, -9 >> 2 is -3, -1000 >> 3 is -125, and the minimum `isize` shifted by 63 is -1. |
| Circuit.ApplyNot | days/day07/src/main.rs:108-115 | `NOT` flips every bit: no bit is set in both the input and the result, and every bit is set in one of them. |
| Circuit.ApplyAnd | days/day07/src/main.rs:116-128 | `AND` sets exactly the bits set in both operands, and the order of the operands does not matter. |
| Circuit.ApplyOr | days/day07/src/main.rs:129-141 | `OR` sets exactly the bits set in either operand. |
| Circuit.ApplyOrSymmetric | days/day07/src/main.rs:129-141 | The order of the operands of `OR` does not matter. |
| Circuit.ApplyLShift | days/day07/src/main.rs:142-154 | `LSHIFT` by one doubles, wrapping around at 64 bits. |
| Circuit.ApplyRShift | days/day07/src/main.rs:155-167 | `RSHIFT` by an amount below 64 keeps the sign of its first operand. |
| Circuit.Operands | days/day07/src/main.rs:101-167 | Unary gates read one operand and the others two, with the first operand leading. |
| Circuit.ValueIgnoresRank | days/day07/src/main.rs:93-174 | The value of a wire does not depend on which acyclicity rank witnesses it. |
| Circuit.LookupTable.constructor | days/day07/src/main.rs:186 | The table starts empty. |
| Circuit.LookupTable.Clear | days/day07/src/main.rs:191 | Clearing empties the table. |
| Circuit.GetFinalWireValue | days/day07/src/main.rs:93-174 | It returns the reference value of the wire and leaves it in the table. A hit leaves the table unchanged. Entries are only added, and only for wires the wire depends on. Afterwards every wire it depends on has an entry, so none of them is evaluated again. A consistent, closed table stays consistent and closed. |
| Circuit.ClosedHoldsDependencies | days/day07/src/main.rs:98-99 | In a closed table, a wire with an entry has entries for every wire it depends on. |
| Circuit.ResolvedInputs | days/day07/src/main.rs:116-125 | Once both operands of a gate are resolved, every wire the gate reads has an entry. |
| Circuit.InsertClosed | days/day07/src/main.rs:170 | Storing a wire whose inputs all have entries keeps the table closed. |
| Circuit.StoreResolved | days/day07/src/main.rs:101-172 | Storing a freshly computed wire only adds wires the gate depends on. The table stays consistent and closed, and then holds everything the wire depends on. |
| Circuit.ResolveOperand | days/day07/src/main.rs:103-106 | A number yields itself and a wire yields its value through the table. The table only grows and stays consistent. |
| Circuit.InsertResolved | days/day07/src/main.rs:170 | Inserting a wire's reference value keeps the table consistent. |
| Circuit.Override | days/day07/src/main.rs:190 | After the override, `b` carries the constant, and every other wire keeps its gate. |
| Circuit.OverrideResolvable | days/day07/src/main.rs:190 | Overriding `b` with a constant keeps every resolvable wire resolvable, and `b` then carries the constant. |
| Circuit.OverrideFrame | days/day07/src/main.rs:190-192 | A wire that does not depend on `b` keeps its value after the override. |
| Circuit.KeepIndependentEntries | days/day07/src/main.rs:190-191 | Table entries for wires that do not depend on `b` stay consistent after the override. |
| Circuit.StaleEntryAfterOverride | days/day07/src/main.rs:190-191 | An entry for a wire that reads `b` can go stale after the override, which is why the table must be cleared. |
| Circuit.Solve | days/day07/src/main.rs:185-192 | The first answer is the value of `a`. The second is the value of `a` once `b` carries the first answer. The two are equal when `a` does not depend on `b`. |
| Circuit.SampleAnd | days/day07/src/main.rs:116-128 | On the puzzle sample, `x AND y` is 72. |
| Circuit.SampleOr | days/day07/src/main.rs:129-141 | On the puzzle sample, `x OR y` is 507. |
| Circuit.SampleLShift | days/day07/src/main.rs:142-154 | On the puzzle sample, `x LSHIFT 2` is 492. |
| Circuit.SampleRShift | days/day07/src/main.rs:155-167 | On the puzzle sample, `y RSHIFT 2` is 114. |
| Circuit.SampleNot | days/day07/src/main.rs:108-115 | On the puzzle sample, `NOT x` is -124 and `NOT y` is -457, because all 64 bits are inverted. |
| Circuit.SampleDiamond | days/day07/src/main.rs:116-141 | On the puzzle sample, `d` and `e` resolve to 72 and 507 without an overflowing shift, and `d` depends on both `x` and `y`. |
| Circuit.SampleSharedInputs | days/day07/src/main.rs:93-174 | On the puzzle sample, resolving `d` and then `e` with one table gives 72 and 507, and `x` and `y` are already in the table when `e` is resolved. |
| CircuitParse.TokenLength | days/day07/src/main.rs:47 | A token runs up to the first ASCII whitespace character or the end of the line. |
| CircuitParse.SplitAsciiWhitespace | days/day07/src/main.rs:47 | Every piece is a non-empty run of non-whitespace characters. |
| CircuitParse.SplitJoin | days/day07/src/main.rs:47 | Tokens joined by spaces split back into the same tokens. |
| CircuitParse.ParseOperand | days/day07/src/main.rs:15-25 | Never fails: a token is a number exactly when it parses as an `isize`, and is otherwise a wire of that name. A number is the bit pattern that stands for the parsed integer. |
| CircuitParse.NumberSpellings | days/day07/src/main.rs:18-20 | Every spelling of an integer, such as "+5", "007" or "-0", reads as the bit pattern that stands for it. |
| CircuitParse.ParseFormatOperand | days/day07/src/main.rs:18-24 | The token of an operand parses back to the operand. |
| CircuitParse.LetterNamesAreWires | days/day07/src/main.rs:18-24 | Lower-case names never parse as numbers, so they become wires. |
| CircuitParse.ParseTokens | days/day07/src/main.rs:48-84 | A match has 3 to 5 tokens with "->" second to last, and its target is the last token. Four tokens without a leading NOT, and five tokens with an unknown operator, are `InvalidInput`. |
| CircuitParse.TokenShapes | days/day07/src/main.rs:48-83 | Each of the six token shapes yields its gate: a copy, NOT, AND, OR, LSHIFT or RSHIFT of the parsed operands, for the token after "->" as target. |
| CircuitParse.ParseFormatTokens | days/day07/src/main.rs:48-84 | Each of the six gate shapes, written as tokens, parses back to that gate and target. |
| CircuitParse.ReparseTokens | days/day07/src/main.rs:48-84 | Writing out a parsed gate and parsing it again gives the same result. |
| CircuitParse.DecimalIsToken | days/day07/src/main.rs:47 | A decimal number is a single token. |
| CircuitParse.FormatTokensAreTokens | days/day07/src/main.rs:47-84 | A gate line written in the puzzle's notation consists of tokens. |
| CircuitParse.ParseLine | days/day07/src/main.rs:47-85 | A line that yields a gate has three to five tokens, and its target is a token. |
| CircuitParse.LeadingWhitespaceIgnored | days/day07/src/main.rs:47 | Whitespace in front of a line does not change what it parses to. |
| CircuitParse.ParseFormatLine | days/day07/src/main.rs:47-84 | A gate line written in the puzzle's notation parses back to that gate. |
| CircuitParse.ParseLines | days/day07/src/main.rs:44-88 | There is one parse outcome per line. |
| CircuitParse.BuildCircuitOk | days/day07/src/main.rs:44-90 | The input is accepted exactly when every line matches a gate shape. |
| CircuitParse.BuildCircuitKeys | days/day07/src/main.rs:87 | The circuit's wires are exactly the targets of its lines. |
| CircuitParse.BuildCircuitLastWins | days/day07/src/main.rs:87 | A wire carries the gate of the last line that targets it. |
| CircuitParse.BuildCircuitStep | days/day07/src/main.rs:84-87 | One more line either inserts its gate under its target, or, when it matches no shape, makes the whole input `InvalidInput`. |
| CircuitParse.ParseInput | days/day07/src/main.rs:37-91 | The loop inserts each line's gate under its target and stops with `InvalidInput` at the first bad line, as `BuildCircuit` of the per-line outcomes. |

## Left out

- Day 4 (days/day04/src/main.rs) is a brute-force search over MD5 digests from an external crate, and MD5 is not part of this model.
- File input (`File::open`, `BufReader::lines`, `fs::read_to_string`) and the I/O errors from `?` are not modelled. Each parser takes the file's text or its lines as a parameter.
- The timing (`Instant`, the floating-point millisecond conversion) and the printing in every `main` are not modelled.
- The regex-based line parser of day 6 (days/day06/src/main.rs:93-140) relies on the `regex` crate and is not part of this model. Instructions are taken as already parsed.
- The counting of nice strings in day 5's `main` (lines 105-106) is not modelled. It is a `filter().count()` over the two predicates, which are modelled.
- Rust's `str::parse` is modelled as an optional sign ('+' only for `usize`) followed by one or more decimal digits within the type's range. The kind of parse error is not modelled, only whether there is one.
- Overflow of the machine integers in days 1, 2, 3 and 6 is not modelled. Integers there are unbounded `int`/`nat`, where Rust would panic on overflow in a debug build.
- Floors.CountFloors: a character other than '(' or ')' makes the solver panic. This is a precondition (`IsInstructions`), not an error result.
- Presents.ParsePresent: a line whose 'x'-separated fields are all numbers but fewer than three makes the solver panic on the missing index. Excluding such lines is a precondition (`IndexesPresentFields`). For a whole input, `ParseInput` excludes only inputs where such a line is reached, that is, where every line before it is a present (`IndexesFieldsUntilError`). A line where a field before the missing one is not a number, such as a blank line or "4x", is `InvalidData`, as in the code. Fields after the third are ignored, as in the code.
- Lights.LightGrid.RunInstruction: a rectangle whose far corner lies off the grid is excluded by the precondition `FitsGrid`. In the code, such an index either falls outside the vector and panics, or, for a y beyond the grid, can land in the next row.
- Circuit.GetFinalWireValue: an undefined wire (the `unwrap` panic), a cycle (unbounded recursion) and a shift by a negative amount or by 64 or more (an overflow panic in a debug build) are preconditions (`Resolvable`, `ShiftsInRange`), not error results.
- Circuit.ShiftRightArithmetic: the contract says only that `>>` keeps the sign bit. Its value is proved for a shift by one (`ShiftRightHalves`, floor halving) and for fixed inputs at other amounts (`ShiftRightExamples`, `SampleRShift`). A statement for every amount, such as floor division by a power of two, would need the verifier to reason about variable-amount shifts of 64-bit patterns, and that runs out of resources.
- Circuit.Solve: the `get_mut("b").unwrap()` panic for a circuit without `b` is the precondition `"b" in circuit`. The circuit is a value that is overridden, not a map mutated in place.
- Circuit.GetFinalWireValue: the number of evaluations is not counted. The contract instead states that, afterwards, every wire the resolved wire depends on has an entry, and that a hit changes nothing. Together these mean no wire is evaluated twice on one table. The table passed in must be closed (`Closed`): every entry's inputs have entries too. The empty table of `HashMap::new()` and of `clear()` is closed, and the solver passes no other table (days/day07/src/main.rs:186-192).
- CircuitParse.ParseOperand: the contract says that a parsed number is the only bit pattern that stands for the parsed integer. It does not prove that such a pattern exists for every `isize`, because the verifier cannot reason cheaply from integers to 64-bit patterns. `Circuit.BitsIntRoundTrip` proves the opposite direction.
