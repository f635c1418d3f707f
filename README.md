# Advent of Code solutions, modelled and verified in Dafny

This project models the core routines of a collection of Advent of Code
solutions (2018 to 2022, in Rust and Go) and proves what each routine
computes. The solutions are independent, so the model is a family of small
modules, one per source file:

- **The IntCode machine of 2019**, in the five variants the repository
  holds: the library computer with separate program and memory and
  indirect write destinations (`LibComputer`, `IntcodeSplit`), the day-9
  computer with direct destinations (`Day9Computer`), the shared-memory
  amplifier of day 7 that suspends on empty input (`Day7Amplifiers`,
  `IntcodeUnified`), the day-5 machine (`Day5Intcode`) and the day-2 adder
  on `u64` memory (`Day2Intcode`). `IntcodeDecode` holds the shared
  decoding of an instruction word into an opcode and mode digits with
  Rust's truncating `%` and `/`, the faults, and a fuel-bounded run loop.
  Each variant has a step function, a class whose methods update the
  machine's fields in place, and lemmas on framing, suspension and
  resumption, and halting.
- **The BITS packet decoder of 2021 day 16**. `BitsParser` turns hex into
  a reversed bit stack and reads headers, literals and length fields into
  tokens. `BitsCalculator` evaluates the token stack. `BitsVectors` proves
  two of the hex test vectors end to end.
- **The puzzle routines**: validators (passports, passwords, the digit
  rule of 2019 day 4), bracket matching, seat decoding, sliding-window
  uniqueness, grid simulations (flashing octopuses, basins, folding, map
  expansion), counting maps (polymers, lanternfish, vents, crabs, orbits,
  wires), cargo stacks, rock-paper-scissors scoring, probe kinematics,
  fabric claims, guard sleep records, box IDs and frequency calibration.

Shared helpers live in `Text` (Rust-style `split` and `join`),
`Numbers` (`str::parse` for signed types and the decimal round trip),
`Tallies` (sums over maps) and `Sorting`.

Where the source changes state step by step, the model is imperative: a
`class` or an `array` updated by methods whose `ensures` tie the new state
to a specification function, with the properties proved as lemmas about
that function. Pure `match` code is modelled by functions. A Rust panic is
an error value (`Err` or a `Fault`), because the process ends there.

## Model

| member | source | states |
|---|---|---|
| BitsCalculator.MinIsLeast | 2021/day16/src/calculator.rs:53-54 | the first of the sorted values is one of the values and no larger than any |
| BitsCalculator.MaxIsGreatest | 2021/day16/src/calculator.rs:69-70 | the last of the sorted values is one of the values and no smaller than any |
| BitsCalculator.Unwrapped | 2021/day16/src/calculator.rs:21-86 | `unwrap` turns a sub-expression's None into a panic and keeps a value |
| BitsCalculator.Calc | 2021/day16/src/calculator.rs:13-123 | `calculate` returns None exactly on an empty stack, and every evaluation pops at least its own token |
| BitsCalculator.CalcAll | 2021/day16/src/calculator.rs:20-22 | the operand loop never returns None: a sub-expression's None is the `unwrap` panic |
| BitsCalculator.LiteralOnTop | 2021/day16/src/calculator.rs:78-81 | a class-4 token on top evaluates to its value and pops only itself |
| BitsCalculator.CalcShape | 2021/day16/src/calculator.rs:13-123 | only classes 0 to 7 evaluate; sum, product, minimum and maximum empty the stack; the minimum is one of the operands; comparisons give 0 or 1 |
| BitsCalculator.Literals | 2021/day16/src/calculator.rs:129-135 | a stack of literal tokens has one token per value |
| BitsCalculator.OperandsOfLiterals | 2021/day16/src/calculator.rs:20-22 | over literals only, the operand loop collects their values in order |
| BitsCalculator.CalcAllLiteral | 2021/day16/src/calculator.rs:20-22 | one round of the operand loop over a literal puts its value in front of the rest |
| BitsCalculator.FlatOperator | 2021/day16/src/calculator.rs:17-76 | an operator of class 0 to 3 over literals gives their sum, product, least or greatest value; minimum and maximum of no values panic |
| BitsCalculator.FlatComparison | 2021/day16/src/calculator.rs:84-119 | a comparison of two literals, the first popped first, gives 1 exactly when its relation holds and 0 otherwise |
| BitsCalculator.UnitVectors | 2021/day16/src/calculator.rs:144-212 | the unit-test chains `+ 1 3`, `min 1 2 3`, `> 2 1` and `= 2 2` evaluate to 4, 1, 1 and 1 |
| BitsCalculator.Calculate | 2021/day16/src/calculator.rs:13-123 | the recursive method on the shared stack returns the value `Calc` gives and leaves the stack as `Calc` says, or fails with its fault |
| BitsCalculator.PrependTwice | 2021/day16/src/calculator.rs:21 | values collected in two steps are values collected in one |
| BitsParser.Popped | archive/2021/day16/src/parser.rs:102 | popping a stack n times yields n values, the top first |
| BitsParser.Reverse | archive/2021/day16/src/parser.rs:60-145 | `reverse` keeps the length and puts element i at position length - 1 - i |
| BitsParser.NibbleValue | archive/2021/day16/src/parser.rs:37-55 | exactly the 16 upper-case hexadecimal digits have a nibble: four bits whose big-endian value is the digit's |
| BitsParser.BigEndianFour | archive/2021/day16/src/parser.rs:37-53 | four bits read most significant first are worth 8, 4, 2 and 1 |
| BitsParser.Stream | archive/2021/day16/src/parser.rs:36-58 | the transmission of a text holds four bits per digit, all 0 or 1 |
| BitsParser.Convert | archive/2021/day16/src/parser.rs:33-63 | `convert` panics exactly on a text with a non-digit; otherwise it returns the nibbles in order, reversed |
| BitsParser.PopsInStreamOrder | archive/2021/day16/src/parser.rs:60-102 | popping the reversed transmission yields its bits in transmission order |
| BitsParser.PopsFront | archive/2021/day16/src/parser.rs:60-102 | the first pop of the reversed transmission is its first bit, and the rest pop as the rest reversed |
| BitsParser.BitStack.Pop | archive/2021/day16/src/parser.rs:72-102 | `Vec::pop` returns None on an empty stack and otherwise removes and returns the last element |
| BitsParser.DecimalReads | archive/2021/day16/src/parser.rs:98-110 | `decimal_value(len)` fails exactly when fewer than len bits are left; otherwise it pops exactly len bits and reads them most significant first |
| BitsParser.DecimalRange | archive/2021/day16/src/parser.rs:98-110 | on a stack of bits the value read lies in [0, 2^len) |
| BitsParser.BigEndianRange | archive/2021/day16/src/parser.rs:106 | n bits read most significant first lie in [0, 2^n) |
| BitsParser.BitsOfValue | archive/2021/day16/src/parser.rs:98-110 | a value below 2^len encoded in len bits reads back as itself |
| BitsParser.BigEndianSnoc | archive/2021/day16/src/parser.rs:106 | one more bit doubles the value read and adds the bit |
| BitsParser.PushedBits | archive/2021/day16/src/parser.rs:60 | bits pushed onto a stack of bits still form a stack of bits |
| BitsParser.DecimalRoundTrip | archive/2021/day16/src/parser.rs:98-110 | a value pushed in len bits is read back by `decimal_value(len)`, which leaves the stack below untouched |
| BitsParser.PoppedSuffix | archive/2021/day16/src/parser.rs:102 | popping n bits never reaches below the top n |
| BitsParser.DecimalValue | archive/2021/day16/src/parser.rs:98-110 | the loop reads exactly what `decimal_value` promises and, on failure, has emptied the stack |
| BitsParser.Header | archive/2021/day16/src/parser.rs:66-68 | `header` reads one 3-bit field |
| BitsParser.LengthReads | archive/2021/day16/src/parser.rs:71-77 | a length field takes one type bit plus 15 bits after a 0 or 11 bits after a 1, and its value fits in that width |
| BitsParser.Length | archive/2021/day16/src/parser.rs:71-77 | `length` reads the type bit, then the 15-bit or 11-bit count, or fails with the stack emptied |
| BitsParser.Groups | archive/2021/day16/src/parser.rs:84-89 | the groups of a literal consume at least five bits |
| BitsParser.Literal | archive/2021/day16/src/parser.rs:80-95 | a literal consumes at least five bits |
| BitsParser.GroupsShape | archive/2021/day16/src/parser.rs:84-89 | a literal of k groups consumes 5k bits and carries 4k payload bits, and the bits left are the bottom of the stack |
| BitsParser.PopFour | archive/2021/day16/src/parser.rs:86-88 | the inner loop pops the next four bits in order, or fails with the stack emptied |
| BitsParser.PoppedNext | archive/2021/day16/src/parser.rs:86-88 | one more pop appends the next bit below those already popped |
| BitsParser.Value | archive/2021/day16/src/parser.rs:80-95 | `value` collects the payload of every group up to the first with lead bit 0 and reads it as one binary number, or fails |
| BitsParser.AppendAssoc | archive/2021/day16/src/parser.rs:87 | payload collected in two steps is payload collected in one |
| BitsParser.GroupsAreBits | archive/2021/day16/src/parser.rs:84-89 | the payload of a stack of bits is bits |
| BitsParser.PoppedBits | archive/2021/day16/src/parser.rs:102 | bits popped from a stack of bits are bits |
| BitsParser.Packet | archive/2021/day16/src/parser.rs:113-134 | a packet consumes more than six bits |
| BitsParser.LengthShrinks | archive/2021/day16/src/parser.rs:71-77 | a length field consumes at least twelve bits |
| BitsParser.PacketFields | archive/2021/day16/src/parser.rs:113-134 | a token's version and class are 3-bit values; class 4 carries its literal payload read as a number, any other class a length below 2^15 |
| BitsParser.ThreeBitField | archive/2021/day16/src/parser.rs:66-68 | a 3-bit field is a value from 0 to 7 and leaves the bits below it |
| BitsParser.PacketUnfolds | archive/2021/day16/src/parser.rs:113-134 | a packet is a version, a class, and then a literal for class 4 or a length field otherwise |
| BitsParser.Pow2Grows | archive/2021/day16/src/parser.rs:106 | powers of two grow with their exponent |
| BitsParser.ParsePacket | archive/2021/day16/src/parser.rs:113-134 | `parse_packet` reads the token the packet holds, or fails with the stack emptied |
| BitsParser.ParsePackets | archive/2021/day16/src/parser.rs:137-148 | `parse_packets` collects tokens up to the first unreadable packet, which leaves the stack empty, and returns them reversed |
| BitsParser.ParseText | archive/2021/day16/src/parser.rs:28-30 | `parse` gives the tokens of the transmission, first parsed last, or panics on a non-digit |
| BitsParser.Decimal | archive/2021/day16/src/parser.rs:98-110 | succeeds exactly when at least `len` bits are left, and leaves the stack without its top `len` bits |
| BitsParser.Packets | archive/2021/day16/src/parser.rs:137-148 | the tokens read before the first unreadable packet; each takes at least seven bits, so there are at most a seventh as many tokens as bits |
| BitsParser.Parse | archive/2021/day16/src/parser.rs:28-30 | a transmission parses into at most 4·n/7 tokens for n hex digits |
| BitsVectors.ThreeBitsBack | archive/2021/day16/src/parser.rs:66-68 | a 3-bit field pushed onto any bits is read back by `header` as its value, leaving those bits |
| BitsVectors.LengthBack | archive/2021/day16/src/parser.rs:71-77 | a length type and a length that fits its width, pushed onto any bits, are read back by `length` |
| BitsVectors.HeaderBack | archive/2021/day16/src/parser.rs:114-115 | a version and a class pushed onto any bits are read back by the two `header` calls |
| BitsVectors.OperatorRoundTrip | archive/2021/day16/src/parser.rs:113-134 | an operator packet of any version, class other than 4, length type and fitting length, pushed onto any bits, is read back by `parse_packet` as its token, leaving those bits |
| BitsVectors.OneGroup | archive/2021/day16/src/parser.rs:80-95 | a last group (lead bit 0, then four bits of a value below 16) pushed onto any bits is read back by `value` as that value |
| BitsVectors.LiteralRoundTrip | archive/2021/day16/src/parser.rs:113-124 | a one-group literal packet of any version and value below 16, pushed onto any bits, is read back by `parse_packet` as its token, leaving those bits |
| BitsVectors.Stacked | archive/2021/day16/src/parser.rs:60 | packets in transmission order are stacked by `convert`'s reverse with the first packet on top |
| BitsVectors.PacketsStep | archive/2021/day16/src/parser.rs:140-142 | a readable packet on top gives its token, then the tokens of the packets below it |
| BitsVectors.ParseThree | archive/2021/day16/src/parser.rs:137-148 | a text whose stream holds three packets and then nothing readable parses to their tokens, first parsed last |
| BitsVectors.StreamCons | archive/2021/day16/src/parser.rs:36-58 | the stream of a text is its first digit's nibble followed by the stream of the rest |
| BitsVectors.SumStream | archive/2021/day16/tests/provided_test.rs:6-7 | the bits of C200B40A82 are an operator packet with a count of two, then the literals 1 and 2 |
| BitsVectors.SumTokens | archive/2021/day16/tests/provided_test.rs:6-7 | `parse("C200B40A82")` leaves the sum token on top of the literal 1, which is on top of the literal 2 |
| BitsVectors.SumCalc | archive/2021/day16/tests/provided_test.rs:6-7 | `calculate` on that stack is 3 and empties it |
| BitsVectors.SumVector | archive/2021/day16/tests/provided_test.rs:6-7 | `calculate(&mut parse("C200B40A82")).unwrap()` is 3 |
| BitsVectors.ProductStream | archive/2021/day16/tests/provided_test.rs:9-13 | the bits of 04005AC33890 are an operator packet with a bit length of 22, the literals 6 and 9, and four bits of padding |
| BitsVectors.PaddingEnds | archive/2021/day16/src/parser.rs:114-140 | four bits are too few for a header, so the packet loop stops there |
| BitsVectors.ProductTokens | archive/2021/day16/tests/provided_test.rs:9-13 | `parse("04005AC33890")` leaves the product token on top of the literal 6, which is on top of the literal 9 |
| BitsVectors.ProductCalc | archive/2021/day16/tests/provided_test.rs:9-13 | `calculate` on that stack is 54 and empties it |
| BitsVectors.ProductVector | archive/2021/day16/tests/provided_test.rs:9-13 | `calculate(&mut parse("04005AC33890")).unwrap()` is 54 |
| SpacePolice.TurnFails | 2019/day11/src/main.rs:58-80 | a turn value other than 0 or 1 is the panic, and only those |
| SpacePolice.TurnRotates | 2019/day11/src/main.rs:59-76 | turn 0 is a quarter turn counter-clockwise and turn 1 a quarter turn clockwise: the angle moves one quarter and the unit step rotates by a right angle |
| SpacePolice.QuarterUnique | 2019/day11/src/main.rs:50-55 | the four headings have four different angles |
| SpacePolice.TurnsUndo | 2019/day11/src/main.rs:59-76 | a left turn then a right turn, or a right then a left, restore the heading, and four equal turns are the identity |
| SpacePolice.Painted | 2019/day11/src/main.rs:114-120 | the search of `painted_blocks` finds the robot's panel exactly when it is in the list |
| SpacePolice.CycleMeans | 2019/day11/src/main.rs:134-157 | a cycle fails exactly when there are fewer than two outputs, or the colour or the turn is not 0 or 1; otherwise it consumes two outputs, appends the panel exactly when the colour is 1 (even a panel already in the list), turns as told and moves one panel in the new heading |
| SpacePolice.Drive | 2019/day11/src/main.rs:108-161 | the robot loop gives, run by run, the input fed to the computer and the robot at the end, or the first panic |
| SpacePolice.BeforeBefore | 2019/day11/src/main.rs:113-161 | the inputs of earlier runs, then those of later ones, are the inputs of both |
| SpacePolice.DrivenBounds | 2019/day11/src/main.rs:113-161 | after n runs the robot is at most n panels from its start, with the parity of its distance that of n; at most n panels were appended, and every input was 0 or 1 |
| SpacePolice.Triangle | 2019/day11/src/main.rs:152-157 | one move changes the distance from any panel by exactly one |
| DumboOctopus.CascadeOne | archive/2021/day11/src/main.rs:55-59 | touching one dumbo raises it by one; it flashes and its neighbours are touched in turn exactly when it was at 9 (reaches exactly 10), counting one flash |
| DumboOctopus.CascadeGrows | archive/2021/day11/src/main.rs:76-139 | the recursive flashing never lowers a level, and the flashes it counts are exactly the dumbos that went from below 10 to 10 or more: each dumbo flashes at most once per step |
| DumboOctopus.CascadeAppend | archive/2021/day11/src/main.rs:82-136 | touching the cells of one block and then those of the next is touching the cells of both blocks in order, the flash counts adding up |
| DumboOctopus.CascadeRaises | archive/2021/day11/src/main.rs:53-61 | every grid cell on the touch list ends at least one above where it started |
| DumboOctopus.AroundNeighbours | archive/2021/day11/src/main.rs:82-136 | the cells the four blocks of `flash_dumbos` raise are exactly the in-bounds cells at most one row and column away, diagonals included |
| DumboOctopus.AroundDistinct | archive/2021/day11/src/main.rs:82-136 | the four blocks never raise the same neighbour twice |
| DumboOctopus.AroundInside | archive/2021/day11/src/main.rs:79-80 | the neighbours raised lie inside the grid and there are at most eight of them |
| DumboOctopus.OrderHolds | archive/2021/day11/src/main.rs:53-54 | the double loop of `simulate_flashes` visits every cell of the grid |
| DumboOctopus.RaisedGrows | archive/2021/day11/src/main.rs:53-61 | after the first double loop every level is at least one higher, and the flashes counted are the dumbos that reached 10 |
| DumboOctopus.StepBounded | archive/2021/day11/src/main.rs:63-69 | after a step every level is at most 9, and no level is negative unless it was before |
| DumboOctopus.StepFlashesOnce | archive/2021/day11/src/main.rs:51-72 | the flashes of a step count each dumbo at most once, so never more than rows × cols |
| DumboOctopus.StepZeros | archive/2021/day11/src/main.rs:51-72 | from levels in 0..9 the flashes of a step are the number of dumbos the step leaves at 0, and the levels stay in 0..9 |
| DumboOctopus.StepSynchronized | archive/2021/day11/src/main.rs:44 | from levels in 0..9 a step flashes every dumbo exactly when it leaves every level at 0 |
| DumboOctopus.CellsSize | archive/2021/day11/src/main.rs:40 | a rows × cols grid has rows × cols cells, the `total_dumbos` of `steps_to_sync` |
| DumboOctopus.RunCalm | archive/2021/day11/src/main.rs:30-32 | from levels in 0..9 every later step keeps them in 0..9 |
| DumboOctopus.CountsAt | archive/2021/day11/src/main.rs:42-46 | entry j of the list of flashes per step is the flash count of step j + 1 of the run, however many steps are listed |
| DumboOctopus.SyncsAtZeros | archive/2021/day11/src/main.rs:42-46 | a step flashes every dumbo exactly when it leaves every level at 0, given levels in 0..9 before it |
| DumboOctopus.FirstFull | archive/2021/day11/src/main.rs:42-47 | the answer read off the flashes of the steps tried: never the empty-grid answer, and a step between 1 and the number tried |
| DumboOctopus.FirstFullMeans | archive/2021/day11/src/main.rs:42-47 | no step answered exactly when no step tried flashes every dumbo; otherwise the answered step flashes all of them and none before it does |
| DumboOctopus.FirstFullStays | archive/2021/day11/src/main.rs:42-47 | trying more steps after the one that synchronised does not change the answer |
| DumboOctopus.NoneFullWithin | archive/2021/day11/src/main.rs:42-47 | when none of the first n steps flashes every dumbo, no step up to n does, so the answered step is the unique first one |
| DumboOctopus.Touch | archive/2021/day11/src/main.rs:55-59 | the array after one raise-and-maybe-flash is the cascade from that cell on the old levels, with its flash count |
| DumboOctopus.TouchAfter | archive/2021/day11/src/main.rs:83-86 | raising one more cell after a list of touched cells gives the cascade over the longer list |
| DumboOctopus.FlashAbove | archive/2021/day11/src/main.rs:82-101 | the block for the row above (middle, left, right) leaves the array and the count of the cascade over those cells |
| DumboOctopus.FlashBelow | archive/2021/day11/src/main.rs:103-122 | the block for the row below (middle, right, left) leaves the array and the count of the cascade over those cells |
| DumboOctopus.FlashBeside | archive/2021/day11/src/main.rs:124-136 | the left and right blocks leave the array and the count of the cascade over those cells |
| DumboOctopus.FlashDumbos | archive/2021/day11/src/main.rs:76-139 | one flash plus the cascade over all neighbours in the source's order: the array and the count the recursion returns |
| DumboOctopus.RaiseCols | archive/2021/day11/src/main.rs:54-60 | the inner loop over a row touches its cells left to right after the ones already touched |
| DumboOctopus.RaiseRow | archive/2021/day11/src/main.rs:53-61 | after row x the dumbos of rows 0..x have been touched in row-major order |
| DumboOctopus.RaiseAll | archive/2021/day11/src/main.rs:53-61 | the first double loop leaves the array and the count of the cascade over every cell in row-major order |
| DumboOctopus.Calmed | archive/2021/day11/src/main.rs:65-67 | a level above 9 becomes 0 and any other stays |
| DumboOctopus.ResetAll | archive/2021/day11/src/main.rs:63-69 | the second double loop sets every level above 9 to 0 and leaves the rest |
| DumboOctopus.SimulateFlashes | archive/2021/day11/src/main.rs:51-72 | one step: the array becomes the stepped levels and the result is that step's flashes |
| DumboOctopus.FlashesInSteps | archive/2021/day11/src/main.rs:27-35 | after n steps the array is the run's levels and the result is the sum of the flashes of the n steps |
| DumboOctopus.NextStep | archive/2021/day11/src/main.rs:43-44 | one more step of the run appends its flash count to the list of flashes per step |
| DumboOctopus.StepsToSync | archive/2021/day11/src/main.rs:38-48 | the empty grid is the `dumbos[0]` panic; otherwise the answer is the first step whose flashes equal rows × cols, with the array left after that step, or no step among the first `fuel` and the array after all of them |
| DumboOctopus.Stepped | archive/2021/day11/src/main.rs:51-73 | one pass of `simulate_flashes` keeps the grid's cells, with the levels and flash count that step reaches |
| DumboOctopus.Run | archive/2021/day11/src/main.rs:27-36 | n passes of `flashes_in_steps` keep the grid's cells |
| DumboOctopus.TouchNext | archive/2021/day11/src/main.rs:82-136 | one guarded touch in the cascade of `flash_dumbos`: the cascade continues from the next cell and the number of cells that may still flash never grows |
| Origami.Number | 2021/day13/src/main.rs:42-65 | `parse::<usize>()`: a result is at most the greatest 64-bit `usize` |
| Numbers.ParseDigits | 2021/day13/src/main.rs:42-65 | every value up to the type's greatest reads back from its decimal digits, larger ones do not parse |
| Numbers.UnsignedNoMinus | 2021/day13/src/main.rs:42-65 | a leading minus sign never parses as an unsigned value |
| Origami.Points | 2021/day13/src/main.rs:31-46 | only lines holding "," give points, so there are never more points than lines |
| Origami.Folds | 2021/day13/src/main.rs:48-68 | only lines holding "fold along" give folds, so there are never more folds than lines |
| Origami.ParseInput | 2021/day13/src/main.rs:18-71 | succeeds exactly when the point lines and the fold lines all parse; a bad point line is reported before any fold line |
| Origami.ParseShowPoint | 2021/day13/src/main.rs:34-45 | the line `x,y` of every point within `usize` parses back to that point |
| Origami.ParseShowFold | 2021/day13/src/main.rs:51-67 | "fold along y=N" parses to a horizontal fold at N and "fold along x=N" to a vertical one |
| Origami.FoldCoord | 2021/day13/src/main.rs:105-113 | a coordinate not beyond the line stays; one beyond it becomes its distance from twice the line |
| Origami.FoldBelow | 2021/day13/src/main.rs:107-111 | a coordinate beyond the line but at most twice it lands strictly before the line, at its mirror image |
| Origami.FoldIdempotent | 2021/day13/src/main.rs:105-113 | within twice the line, folding a second time at the same line changes nothing |
| Origami.FoldPoint | 2021/day13/src/main.rs:104-114 | a horizontal fold changes only y and a vertical one only x, each through `FoldCoord` |
| Origami.FoldAll | 2021/day13/src/main.rs:104-114 | the loop folds every point in place and keeps the length |
| Origami.Insert | 2021/day13/src/main.rs:116 | inserting into an ascending sequence adds exactly that point and stays ascending |
| Origami.Sort | 2021/day13/src/main.rs:116 | `sort` with the derived ordering (x, then y): a permutation that is ascending |
| Origami.Dedup | 2021/day13/src/main.rs:117 | `dedup` never lengthens, keeps exactly the same points and the first one, leaves no equal neighbours, and turns an ascending sequence strictly ascending |
| Origami.SortDedup | 2021/day13/src/main.rs:116-117 | sort then dedup gives each point once, strictly ascending, as many as the distinct points and never more than before |
| Origami.StrictUnique | 2021/day13/src/main.rs:116-117 | two strictly ascending sequences with the same points are equal |
| Origami.SameDots | 2021/day13/src/main.rs:116-117 | what the fold leaves depends only on which points were folded |
| Origami.Sheet.FoldPoints | 2021/day13/src/main.rs:103-118 | the sheet becomes its folded points, sorted and deduplicated: each folded point once, strictly ascending, no more points than before |
| Origami.Sheet.Follow | 2021/day13/src/main.rs:120-131 | no folds is the panic of `folds[0]`; otherwise the first answer is the number of distinct points after the first fold, and the sheet ends folded by every fold in order |
| Origami.FoldedSnoc | 2021/day13/src/main.rs:126-128 | one more fold after a run of folds folds the sheet the run left |
| Polymerization.Rule | 2021/day14/src/main.rs:26-45 | a rule line is two tokens around " -> ", the first two characters long and the second non-empty; the substitution is three characters, the pair's two around the inserted one |
| Polymerization.Rules | 2021/day14/src/main.rs:26-46 | collecting the rule lines fails on the first bad line and otherwise yields well-formed rules |
| Polymerization.RulesLastWins | 2021/day14/src/main.rs:26-46 | every rule line's pair is a key, and it keeps that line's substitution unless a later line redefines the pair |
| Polymerization.ParseInput | 2021/day14/src/main.rs:20-49 | fewer than two lines is the panic of indexing or slicing; the polymer is the first line and holds no "->"; the rules come from the third line on |
| Polymerization.UpdatePairs | 2021/day14/src/main.rs:52-61 | each pair's count rises by count times its number of windows in the polymer, the total by count times the number of windows, and the new keys are the polymer's windows |
| Polymerization.Substitute | 2021/day14/src/main.rs:64-84 | succeeds exactly when every old pair has a rule; otherwise fails naming an old pair with no rule; on success every pair's count is the sum over the old pairs of their counts times its occurrences in their substitutions, the total doubles, and all counts stay positive |
| Polymerization.Merge | 2021/day14/src/main.rs:77-83 | the second loop of `substitute`: adds every count of the temporary map into the pair counts |
| Polymerization.Doubled | 2021/day14/src/main.rs:64-84 | with three-character substitutions the produced counts total twice the old ones |
| Polymerization.InsertLength | 2021/day14/src/main.rs:64-84 | one step on a polymer of n elements, every pair having a rule, makes one of 2n - 1 elements |
| Polymerization.InsertOcc | 2021/day14/src/main.rs:64-84 | weighing each window by the occurrences of q in its substitution counts q in the stepped polymer |
| Polymerization.StepRepresents | 2021/day14/src/main.rs:64-84 | when the counts stand for a polymer whose pairs all have rules, the counts a step produces stand for the polymer with every rule's element inserted |
| Polymerization.RepresentsTotal | 2021/day14/src/main.rs:52-61 | counts that stand for a polymer, weighed pair by pair, sum to the weights of its windows |
| Polymerization.RepresentsKeys | 2021/day14/src/main.rs:52-84 | positive counts that stand for a polymer have exactly its windows as keys |
| Polymerization.GrownEnds | 2021/day14/src/main.rs:64-84 | steps never move the first and last element of the polymer |
| Polymerization.Grow | 2021/day14/src/main.rs:142-165 | the template's counts followed by n steps succeed exactly when every polymer met before the last step has rules for all its pairs, and the counts then stand for the polymer grown n steps |
| Polymerization.ElementCounts | 2021/day14/src/main.rs:89-100 | every element of a pair key is a key of the element counts and nothing else, and each element's count is the sum over the pairs of their counts times how often the element is in the pair |
| Polymerization.Extremes | 2021/day14/src/main.rs:102-123 | over a non-empty map the results hold a least and a greatest count; over an empty map both stay 'a' |
| Polymerization.PolymerNumber | 2021/day14/src/main.rs:88-140 | fails exactly when there are no elements, the panic of `elements[&max]`; otherwise the result is the greatest minus the least of the element counts halved and rounded up |
| Polymerization.Half | 2021/day14/src/main.rs:126-134 | twice the result is n or n + 1 |
| Polymerization.HasSum | 2021/day14/src/main.rs:89-100 | the windows of a polymer count each element twice over, less one for each end it sits at |
| Polymerization.ElementsOfPolymer | 2021/day14/src/main.rs:89-100 | for counts that stand for a polymer, the collected count of c plus its ends is twice its number of occurrences |
| Polymerization.HalfOfPolymer | 2021/day14/src/main.rs:87-134 | the rounded-up half is the element's true count, less one when the element is both first and last |
| Polymerization.CharsOfPolymer | 2021/day14/src/main.rs:89-100 | the elements of positive counts standing for a polymer of two or more elements are the polymer's elements |
| Polymerization.OffByOneExample | 2021/day14/src/main.rs:87-139 | for "BAAB", where both elements occur twice, the value `polymer_number` reads is 1 |
| Polymerization.ExactCountIsCount | 2021/day14/src/main.rs:87-134 | for pair counts standing for a polymer, adding the polymer's first and last element to the collected count before halving gives exactly the number of times the element occurs |
| ChitonMap.Cmp | 2021/day15/src/map.rs:23-42 | Less exactly when the first position costs more, Greater exactly when it costs less, Equal on equal cost |
| ChitonMap.Parse | 2021/day15/src/map.rs:51-65 | succeeds exactly when every character is a digit; then one row per line holding each digit's value |
| ChitonMap.Risks | 2021/day15/src/map.rs:55-62 | one value per character, the character's digit value |
| ChitonMap.WrapRange | 2021/day15/src/map.rs:78-81 | a risk from 1 to 9 raised by at most 8 and wrapped past 9 stays from 1 to 9 |
| ChitonMap.Expand | 2021/day15/src/map.rs:68-90 | the out-of-range panic exactly when some row is shorter than the first; otherwise five blocks of rows, each row five raised copies of the first row's width (Tiled) |
| ChitonMap.ExpandBlock | 2021/day15/src/map.rs:71-87 | one pass of the `y_add` loop: the out-of-range panic exactly when some row is shorter than the first, otherwise every row's five raised copies for that block |
| ChitonMap.ExpandRow | 2021/day15/src/map.rs:73-86 | the out-of-range panic exactly when the row is shorter than the first row's width; otherwise its five copies raised by the block and copy indices |
| ChitonMap.ExpandAt | 2021/day15/src/map.rs:68-90 | the expansion has 5 times the rows and columns; copy (yAdd, xAdd) holds each risk plus yAdd + xAdd, wrapped past 9 |
| ChitonMap.ExpandRange | 2021/day15/src/map.rs:68-90 | expanding a map of risks 1 to 9 yields only risks 1 to 9 |
| ChitonMap.Neighbors | 2021/day15/src/map.rs:93-129 | the out-of-range panic exactly when the map or its first row is empty or a probed cell lies past the end of its row; otherwise at most four cells, each on the map, orthogonally beside the start and costing its risk |
| ChitonMap.NeighborsComplete | 2021/day15/src/map.rs:93-129 | when no probe faults, every cell within the first row's width and the map's height beside the start is among the neighbours |
| ChitonMap.NeighborsWithin | 2021/day15/src/map.rs:93-129 | on a map with no row shorter than the first, probing from any cell of the map never faults |
| ChitonMap.CostEstimate | 2021/day15/src/map.rs:132-147 | the out-of-range panic exactly when the map or its last row is empty or a row from the start down is too short for the start's column; otherwise the start's cost plus the column below it to the last row plus the last row from its column |
| ChitonMap.ColumnBounds | 2021/day15/src/map.rs:136-140 | with risks 1 to 9 the column walk over rows lo to hi adds between 1 and 9 per row passed |
| ChitonMap.RowBounds | 2021/day15/src/map.rs:142-144 | with risks 1 to 9 the row walk adds between 1 and 9 per column passed |
| ChitonPath.InHeap | 2021/day15/src/path.rs:8-19 | true exactly when some heap element is on the target's cell |
| ChitonPath.Cost | 2021/day15/src/path.rs:61-73 | the sum of the path's costs, leaving out positions at (0, 0) |
| ChitonPath.CostSplit | 2021/day15/src/path.rs:60-73 | a leading (0, 0) contributes nothing; without (0, 0) the cost is the plain sum |
| ChitonPath.ReconstructPath | 2021/day15/src/path.rs:96-120 | the path starts at the parent's cell, each next cell is the parent-map entry of the one before, the last has no entry, all costs are map risks |
| ChitonPath.Relax | 2021/day15/src/path.rs:33-55 | either nothing changes or the neighbour gets current as parent, a strictly lower cost and a place in the heap, all other costs untouched; a change needs a recorded cost |
| ChitonPath.RelaxIdempotent | 2021/day15/src/path.rs:33-55 | relaxing the same neighbour from the same cell twice is relaxing it once |
| SonarSweep.Readings | 2021/day1/src/main.rs:15-24 | the lines parse exactly when every line is an `i32`, and then give one reading per line, in order |
| SonarSweep.ParseInput | 2021/day1/src/main.rs:15-29 | a reading that is not an `i32` is the `unwrap` panic; fewer than four readings stop `main`; otherwise the readings, one per line |
| SonarSweep.CountIncreases | 2021/day1/src/main.rs:39-49 | the count is the number of readings larger than the reading before them |
| SonarSweep.RisesBound | 2021/day1/src/main.rs:39-49 | a count of rises over gap g is at most the number of readings minus g |
| SonarSweep.Windows | 2021/day1/src/main.rs:51-55 | one three-reading sum per window start, each the sum of its three readings |
| SonarSweep.SlidingWindowIncreases | 2021/day1/src/main.rs:53-68 | with at least three readings, the running window always equals the current three-reading sum and the count is the number of windows larger than the previous window |
| SonarSweep.WindowRises | 2021/day1/src/main.rs:57-62 | a window is larger than the one before exactly when its new reading exceeds the reading it dropped |
| SonarSweep.SlidingCount | 2021/day1/src/main.rs:53-68 | the sliding count is the number of readings larger than the one three places before, at most the length minus three |
| Dive.Magnitude | 2021/day2/src/main.rs:61-67 | the magnitude is an `i32`, and a token that does not parse counts as 0 |
| Dive.ParseCommand | 2021/day2/src/main.rs:55-74 | a line that does not split into exactly two space-separated tokens is skipped; forward, up and down are recognised by the first token with the second as magnitude; any other command is skipped |
| Dive.ParseShowCommand | 2021/day2/src/main.rs:55-74 | the text "forward/up/down n" of an `i32` n reads back as that command |
| Dive.CalculateBadPosition | 2021/day2/src/main.rs:50-78 | the final position is the "bad" reading of the parsed commands, applied in order from (0, 0) |
| Dive.CalculatePosition | 2021/day2/src/main.rs:82-114 | the final position and depth are the "good" reading of the parsed commands, applied in order from (0, 0) with aim 0 |
| Dive.BadIsAim | 2021/day2/src/main.rs:50-114 | both readings reach the same horizontal position, and the "bad" depth equals the "good" aim |
| Dive.SkipsIgnored | 2021/day2/src/main.rs:56-109 | a skipped line anywhere changes neither reading |
| ReportRepair.PairAfter | archive/2020/day1/src/main.rs:20-27 | the first later entry whose sum with entry i is 2020, none of the entries before it qualifying, or none at all when no entry qualifies |
| ReportRepair.ThirdAfter | archive/2020/day1/src/main.rs:30-39 | the first third entry completing a triple with entries i and j, none before it qualifying, or none at all |
| ReportRepair.SecondAfter | archive/2020/day1/src/main.rs:29-40 | the first (second, third) pair in the order of the two nested loops completing a triple with entry i, no pair before it qualifying, or none at all |
| ReportRepair.FirstPair | archive/2020/day1/src/main.rs:20-27 | the loop finds exactly the nearest partner of entry i |
| ReportRepair.FirstThird | archive/2020/day1/src/main.rs:30-39 | the innermost loop finds exactly the first third entry completing the triple |
| ReportRepair.FirstTriple | archive/2020/day1/src/main.rs:29-40 | the nested loops find exactly the first completing pair of later entries |
| ReportRepair.Search | archive/2020/day1/src/main.rs:15-41 | the sequence of printed reports is that of the outer loop, skipping entries above 2020 and returning after the first triple |
| ReportRepair.Expenses | archive/2020/day1/src/main.rs:10-41 | a line that is not an `i32` stops the program before any report; otherwise the reports of the search over the parsed entries |
| ReportRepair.ReportsMeans | archive/2020/day1/src/main.rs:15-41 | every report is a sum of 2020 over increasing positions whose first entry is at most 2020; a pair has its nearest partner; only the last report can be a triple, the others come in order of their first entry; a triple is the first one in the order of the three loops |
| ReportRepair.ReportsComplete | archive/2020/day1/src/main.rs:15-27 | every entry up to 2020 with a later partner is reported with its nearest partner unless an earlier entry already completed a triple |
| ReportRepair.Example | archive/2020/day1/src/main.rs:15-41 | on the puzzle's example the pair 1721 + 299 and the triple 979 + 366 + 675 are reported, in that order |
| CalorieCounting.Rank | day1/src/main.rs:39-52 | an ordered podium stays ordered, and its first place becomes the larger of the old first place and the new total |
| CalorieCounting.RankKeeps | day1/src/main.rs:39-52 | the new podium holds the old three places and the new total except the lowest of the four, which drops out |
| CalorieCounting.Place | day1/src/main.rs:39-52 | the nested comparisons update first, second and third exactly as the ranking does |
| CalorieCounting.Feed | day1/src/main.rs:20-52 | one line: a blank or first line opens an inventory and a blank one adds nothing; a calorie line that is not an `i32` is an error; otherwise its value joins the last inventory and its running total is ranked |
| CalorieCounting.CountCalories | day1/src/main.rs:14-54 | the loop's final inventories and podium are those of the lines in order, or the error of the first bad calorie line |
| CalorieCounting.TallyStops | day1/src/main.rs:32 | an error ends the loop: later lines do not change it |
| CalorieCounting.TallyMeans | day1/src/main.rs:21-52 | after every line there is one inventory per blank line plus one when the first line holds calories, each total is the sum of its calories, first >= second >= third, first is never negative and no inventory's total exceeds it |
| CalorieCounting.TallyFails | day1/src/main.rs:32 | the loop fails exactly when some calorie line is not an `i32`, and the error names the first such line |
| CalorieCounting.TwoPlaces | day1/src/main.rs:34-52 | because ranking happens after every line, one inventory of lines a and b takes both first place (a + b) and second place (a) |
| CalorieCounting.Ranked | day1/src/main.rs:34-52 | the intended podium, ranked once per inventory from its final total, is ordered |
| CalorieCounting.RankedKeeps | day1/src/main.rs:34-52 | the intended podium holds the three highest totals: with the totals it dropped it makes up every total plus the three starting zeros, and nothing dropped beats third place |
| CalorieCounting.Totals | day1/src/main.rs:14-37 | one final total per inventory, in order |
| CalorieCounting.OnePlace | day1/src/main.rs:34-52 | on the input of `TwoPlaces` the intended podium gives the single inventory first place only (a + b, 0, 0) |
| CalorieCounting.AddCalories | day1/src/main.rs:34-37 | the last inventory's total grows by the calories and its list gains them, the other inventories are unchanged, and the new total is returned |
| ChronalCalibration.WrapAdd | day-1/golang/main.go:74 | adding a change to an already wrapped `int64` frequency gives the same value as wrapping the plain sum once |
| Numbers.ParseUint | day-1/golang/main.go:31 | `strconv.ParseUint(..., 10, 64)` succeeds only on a non-empty run of ASCII digits, with a value of at most 2^64 - 1 |
| ChronalCalibration.Signed | day-1/golang/main.go:30-47 | a line made of an operator and the digits of a `uint64` reads as a bad number when the first character is not one byte, as that value wrapped into `int64` for `+`, negated after wrapping for `-`, and as a bad line for any other operator |
| ChronalCalibration.ChangeSigns | day-1/golang/main.go:30-47 | `+n` reads as n and `-n` as -n for every `int64` magnitude n, and any other one-byte operator is a bad line |
| ChronalCalibration.Changes | day-1/golang/main.go:27-48 | when every line reads, there is one change per line |
| ChronalCalibration.ChangesMeans | day-1/golang/main.go:27-48 | the file reads exactly when every line does, and then change i is the value of line i |
| ChronalCalibration.ParseFile | day-1/golang/main.go:16-51 | the scanner loop returns the changes of all lines in order, or the fault of the first line that does not read |
| ChronalCalibration.Index | day-1/golang/main.go:73 | going round the list, change n is always a position of the list |
| ChronalCalibration.Pass | day-1/golang/main.go:70-89 | change i of pass p + 1 is at position i of the list and is counted in pass p + 1 |
| ChronalCalibration.FinalIsTotal | day-1/golang/main.go:73-94 | after the first n changes the frequency is the sum of those changes wrapped into `int64`; with n the length of the list this is the final frequency |
| ChronalCalibration.FirstRepeatUnique | day-1/golang/main.go:67-89 | there is only one first change that reaches a frequency seen before, so the calibration frequency is well defined |
| ChronalCalibration.SeenZero | day-1/golang/main.go:67 | before any change only frequency 0 is seen |
| ChronalCalibration.SeenNext | day-1/golang/main.go:76-78 | each change adds its frequency to those seen |
| ChronalCalibration.FreshCard | day-1/golang/main.go:76-78 | while no frequency repeats, the frequencies seen after t changes are t + 1 different values |
| ChronalCalibration.BoundedCard | day-1/golang/main.go:62 | a set of integers in a range has at most as many elements as the range |
| ChronalCalibration.Bounded | day-1/golang/main.go:70 | since frequencies are `int64`, fewer than 2^64 changes in a row can avoid a repeat, so on a non-empty list the outer loop ends |
| ChronalCalibration.Next | day-1/golang/main.go:73-78 | change i of a pass moves the frequency by c[i], wrapping, and adds the new frequency to those seen |
| ChronalCalibration.SearchOn | day-1/golang/main.go:76-78 | a change that reaches a new frequency keeps the search going |
| ChronalCalibration.SearchFound | day-1/golang/main.go:79-83 | the first change that reaches a frequency seen before is the calibration, found on the pass it falls in |
| ChronalCalibration.Count | day-1/golang/main.go:71 | the `uint64` loop counter, bumped once per pass, stays the number of passes modulo 2^64 |
| ChronalCalibration.Round | day-1/golang/main.go:73-89 | one pass over the changes keeps the frequency and the set of frequencies seen in step with the changes made; it stops at the first repeat only when the final frequency is already known, and otherwise covers the whole list |
| ChronalCalibration.Calibrate | day-1/golang/main.go:56-95 | on an empty list the loop never ends; otherwise the final frequency is the frequency after one pass, the calibration frequency is the frequency of the first change that repeats, and the loop count is the pass it falls in, modulo 2^64 |
| Numbers.ParseUintDigits | day-1/golang/main.go:31 | every `uint64` reads back from its decimal digits |
| PasswordPhilosophy.ValidPasswordSled | archive/2020/day2/src/main.rs:5-19 | true exactly when the number of occurrences of the required letter lies between min and max inclusive |
| PasswordPhilosophy.ValidPasswordToboggan | archive/2020/day2/src/main.rs:22-43 | false when either position is past the end; otherwise a position of 0 is the `usize` underflow panic; otherwise true exactly when exactly one of the two 1-based positions holds the letter |
| PasswordPhilosophy.SamePosition | archive/2020/day2/src/main.rs:30-42 | the same position given twice never qualifies |
| PasswordPhilosophy.PastTheEnd | archive/2020/day2/src/main.rs:26-28 | a position past the end gives false whatever the other position holds |
| InventoryManagement.Tally | day-2/golang/main.go:35-55 | at most one count per ID, so a tally never exceeds the number of IDs |
| InventoryManagement.TallyAppend | day-2/golang/main.go:35-55 | the tally of two lists of IDs put together is the sum of their tallies |
| InventoryManagement.TallyAll | day-2/golang/main.go:35-55 | the tally equals the number of IDs exactly when every ID has a letter that many times, and is 0 exactly when none has |
| InventoryManagement.Letters | day-2/golang/main.go:36-41 | letterMap holds exactly the letters of the ID, each with the number of times it occurs |
| InventoryManagement.Flags | day-2/golang/main.go:43-54 | in any visiting order of the map, the first flag is set exactly when some letter occurs twice and the second exactly when some letter occurs three times, even when one ID has both |
| InventoryManagement.Counted | day-2/golang/main.go:36-54 | a letter count of k in letterMap means that some letter of the ID occurs exactly k times, and the other way round |
| InventoryManagement.Checksum | day-2/golang/main.go:31-58 | the checksum is the number of IDs with some letter exactly twice times the number with some letter exactly three times, each ID counted at most once per kind, as a 64-bit `uint` |
| InventoryManagement.Walk | day-2/golang/main.go:73-82 | the letter loop never ends with fewer mismatches than it has already counted |
| InventoryManagement.Compare | day-2/golang/main.go:70-82 | the letter loop counts mismatches, stopping at the second, remembers the position of the last one, and panics on reaching the end of the other ID first |
| InventoryManagement.MismatchesGrow | day-2/golang/main.go:73-82 | counting mismatches over a longer prefix never gives fewer |
| InventoryManagement.NoMismatches | day-2/golang/main.go:73-82 | no mismatch below n means the IDs agree at every position below n |
| InventoryManagement.WalkFrom | day-2/golang/main.go:73-84 | from any point of the letter loop, it ends with at most one mismatch exactly when the IDs are close, and then its count is the number of mismatches and every other position agrees |
| InventoryManagement.WalkClose | day-2/golang/main.go:73-84 | comparing two IDs ends with at most one mismatch exactly when the first fits in the second and they differ in at most one position; every position other than the one kept agrees, and with no mismatch the first ID is a prefix of the second |
| InventoryManagement.Drop | day-2/golang/main.go:85 | removing one letter shortens the ID by one and keeps the letters before and after it in order |
| InventoryManagement.VerdictMeans | day-2/golang/main.go:70-86 | a pair of IDs gives an answer exactly when they are close and the first is not empty; the answer is the first ID less one position where the two may differ, every other position agreeing |
| InventoryManagement.SameVerdict | day-2/golang/main.go:70-85 | two identical IDs give the first ID without its first letter |
| InventoryManagement.Judge | day-2/golang/main.go:70-86 | one comparison of boxID with compBoxID gives the verdict on the pair |
| InventoryManagement.Removed | day-2/golang/main.go:89 | removing entry `index` moves the entries after it, up to the current length, down by one; the entries at and past the last live one keep their values |
| InventoryManagement.Remove | day-2/golang/main.go:89 | the in-place `append` leaves the backing array as `Removed` describes |
| InventoryManagement.CommonBoxIDLetters | day-2/golang/main.go:63-93 | the function, with its outer `range` reading the shifted backing array and its inner `range` the shortened slice, returns exactly what the scan of the list gives |
| InventoryManagement.ScanSound | day-2/golang/main.go:63-93 | every answer the function gives is the verdict on two entries of the list, which may be one entry met twice |
| InventoryManagement.MatchSound | day-2/golang/main.go:65-87 | an answer of the inner loop is the verdict on boxID and the entry at some other position |
| InventoryManagement.SelfMatch | day-2/golang/main.go:64-89 | for the IDs "ab" and "cd", which are not close either way round, the function returns "d" |
| InventoryManagement.SliceOverrun | day-2/golang/main.go:89 | for "ab", "cd" and "ef", no two of which are close, the function panics in the removal instead of returning "" |
| InventoryManagement.CommonBoxIDLettersFixed | day-2/golang/main.go:63-93 | without the removal, an answer or a panic comes from two IDs at different positions, and "" is returned exactly when every such pair has two or more mismatches |
| InventoryManagement.FixedMeans | day-2/golang/main.go:63-93 | with the fix, an answer means two IDs at different positions are close, the first one non-empty; "" means that no two IDs at different positions are close |
| Day2Intcode.Step | 2019/day2/src/main.rs:16-40 | a pass succeeds only when the four words at `count` exist; a stop at 99 leaves the state unchanged on a 99, and an opcode other than 1, 2 and 99 leaves it unchanged too (the `continue` arm) |
| Day2Intcode.OverflowBeforeDestination | 2019/day2/src/main.rs:24 | the sum is computed before its destination is indexed: on memory 1,4,4,100,2^63 the pass is the overflow panic, not the index fault of address 100 |
| Day2Intcode.RunHalts | 2019/day2/src/main.rs:13-44 | the machine never waits for input, and a halted run keeps the memory length and stops on a 99 with its three operand words present |
| Day2Intcode.UnknownOpcodeSpins | 2019/day2/src/main.rs:37-39 | an unknown opcode with its four words present makes the loop spin without end, whatever the number of passes allowed |
| Day2Intcode.WorkedExample | 2019/day2/src/main.rs:13-44 | the program 1,9,10,3,2,3,11,0,99,30,40,50 halts with 3500 at address 0 |
| Day2Intcode.RunCopy | 2019/day2/src/main.rs:13-44 | the `loop` over a copy of the memory returns memory[0] at the halt, or the fault of the first failing pass, as `Run` defines it: an operand out of range, then the `u64` overflow of the value, then the destination out of range |
| Day2Intcode.FoundExactly | 2019/day2/src/main.rs:60-69 | an answer is printed before the pass (noun, verb) exactly when it is 100 * a + b for a pair (a, b) below 99 tried earlier whose run yields the desired output |
| Day2Intcode.TriedNone | 2019/day2/src/main.rs:60-61 | no pair is tried before the first pass |
| Day2Intcode.TriedRowEnd | 2019/day2/src/main.rs:60-61 | the pairs tried before (noun, 0) are those tried before the end of the previous row |
| Day2Intcode.TriedLast | 2019/day2/src/main.rs:61-67 | the pairs tried before (noun, verb) are those tried before (noun, verb - 1) plus the pair (noun, verb - 1) |
| Day2Intcode.FoundNext | 2019/day2/src/main.rs:62-67 | the pass for (noun, verb) appends 100 * noun + verb exactly when its run yields the desired output, and a panicking run ends the program with its fault |
| Day2Intcode.FoundErrPersists | 2019/day2/src/main.rs:61-68 | once a run panics, the rest of the row ends with that fault |
| Day2Intcode.FoundErrRows | 2019/day2/src/main.rs:60-69 | a panic in one row ends every later row with the same fault |
| Day2Intcode.Search | 2019/day2/src/main.rs:60-69 | the nested loops print exactly the answers of the whole search, in order, or fail with the first panic; a memory shorter than three words panics at `memory[1]` |
| Day2Intcode.RowAdvances | 2019/day2/src/main.rs:60-61 | finishing the row of a noun is reaching the start of the next row |
| Day2Intcode.SearchRow | 2019/day2/src/main.rs:61-68 | the inner loop extends the answers printed so far by the answers of its row, or fails with the first panic |
| Day2Intcode.Run | 2019/day2/src/main.rs:13-44 | memory[0] is returned exactly when the machine halts within the fuel, so a halted run always has a result |
| FabricClaims.TrimLeft | 2018/day-3/golang/main.go:52 | the result is a suffix of the text that does not start with a cut character |
| FabricClaims.TrimRight | 2018/day-3/golang/main.go:52 | the result is a prefix of the text that does not end with a cut character |
| FabricClaims.TrimWith | 2018/day-3/golang/main.go:52 | strings.Trim leaves no cut character at either end and never lengthens the text |
| FabricClaims.TrimPadded | 2018/day-3/golang/main.go:52-70 | trimming clean text padded with cut characters on both sides gives the clean text back |
| FabricClaims.Pair | 2018/day-3/golang/main.go:65-98 | two uint64 values written " a,b" or " axb" split into exactly two pieces that TrimSpace and ParseUint read back as a and b |
| FabricClaims.ReadHead | 2018/day-3/golang/main.go:46-57 | a written claim splits at its one '@' and the part in front trims to the claim number's digits |
| FabricClaims.ReadSize | 2018/day-3/golang/main.go:82-98 | the size part of a written claim reads back as its width and height |
| FabricClaims.ReadDims | 2018/day-3/golang/main.go:59-98 | the part after the '@' of a written claim reads back as its corner and size |
| FabricClaims.ParseShow | 2018/day-3/golang/main.go:46-100 | every claim written `#n @ x,y: wxh` parses back to the same claim |
| FabricClaims.ClaimsRead | 2018/day-3/golang/main.go:41-104 | a file is read in full exactly when no line has a bad number or panics on a missing comma; any such line stops reading |
| FabricClaims.ClaimsOrder | 2018/day-3/golang/main.go:41-104 | a file read in full yields the claims of its well-shaped lines in input order, lines of the wrong shape skipped |
| FabricClaims.ParseFile | 2018/day-3/golang/main.go:38-103 | the scanner loop returns the claims, the number error or the panic that the line-by-line reading defines |
| FabricClaims.OffCell | 2018/day-3/golang/main.go:121 | stepping d < 2^64 past a coordinate with uint64 wrap-around and measuring back gives d |
| FabricClaims.CellOff | 2018/day-3/golang/main.go:121 | every square is the wrapped sum of the corner and its distance from it |
| FabricClaims.CoversCells | 2018/day-3/golang/main.go:118-124 | a claim covers a square exactly when the xInc, yInc loops write it |
| FabricClaims.Coverage | 2018/day-3/golang/main.go:118-124 | a square is covered by at most as many claims as there are |
| FabricClaims.CoverageZero | 2018/day-3/golang/main.go:118-124 | a square's coverage is zero exactly when no claim covers it |
| FabricClaims.CoverageOne | 2018/day-3/golang/main.go:118-163 | a square of claim i has coverage one exactly when no other claim covers it |
| FabricClaims.MarkColumn | 2018/day-3/golang/main.go:119-123 | one column of a claim adds one to each square of that column and to no other, and adds the claim's height to the sum of counts |
| FabricClaims.OverlapMap | 2018/day-3/golang/main.go:108-127 | every square's count is the number of claims covering it, only covered squares are keys, and the counts add up to the sum of the claims' width times height |
| FabricClaims.ContestedStep | 2018/day-3/golang/main.go:134-138 | visiting one more key adds one to the overlap count exactly when its count is above one |
| FabricClaims.OverlapArea | 2018/day-3/golang/main.go:132-141 | in any visiting order of the map, the result is the number of squares whose count is above one |
| FabricClaims.ContestedMeans | 2018/day-3/golang/main.go:108-141 | with the claims' map, a square is counted as overlapping exactly when two different claims cover it |
| FabricClaims.TwoCover | 2018/day-3/golang/main.go:118-124 | a square with coverage above one lies under two different claims |
| FabricClaims.FreeNumbers | 2018/day-3/golang/main.go:148-175 | there are never more free claims than claims |
| FabricClaims.IsFree | 2018/day-3/golang/main.go:156-166 | the labelled loop leaves free set exactly when every square of the claim has a count of one |
| FabricClaims.FreeClaims | 2018/day-3/golang/main.go:148-175 | the numbers of the free claims, in input order |
| FabricClaims.FreeMeans | 2018/day-3/golang/main.go:143-175 | with the claims' map, a claim is free exactly when no other claim shares a square with it; a claim of zero area is free |
| Tallies.Add | 2018/day-3/golang/main.go:112-116 | posWriter's read-then-add leaves the key set grown by the square and raises only that square's count |
| Tallies.TotalRemove | 2018/day-3/golang/main.go:112-116 | any key can be taken out of the sum of counts first, so the sum does not depend on key order |
| Tallies.TotalAdd | 2018/day-3/golang/main.go:112-116 | raising one square's count by c raises the sum of all counts by c, for a new square as for an old one |
| CrossedWires.Walk | archive/2019/day3/src/main.rs:62-89 | a move of length `len` visits `len` points, none for a length of zero or less |
| CrossedWires.Keep | archive/2019/day3/src/main.rs:29-35 | the kept pieces are pieces of the line, none of them "\n" |
| CrossedWires.ThenThen | archive/2019/day3/src/main.rs:50-186 | the points of one instruction, then the rest of the wire, are the points of the two together |
| CrossedWires.WalkSteps | archive/2019/day3/src/main.rs:62-180 | each step of a move in one of the four directions goes one unit from the point before |
| CrossedWires.PathSteps | archive/2019/day3/src/main.rs:50-186 | every step of a wire is to a point one unit from the point before it, starting next to the origin; empty and strange instructions add no points |
| CrossedWires.FirstWire | archive/2019/day3/src/main.rs:67-85 | the first wire adds no collisions; the map then holds exactly the points it held and the points the wire visits, and keeps the counts it held |
| CrossedWires.FirstSteps | archive/2019/day3/src/main.rs:63-85 | on the first wire, a point visited for the first time is recorded with the number of that step |
| CrossedWires.LaterGrown | archive/2019/day3/src/main.rs:67-85 | a later wire records no points and only appends collisions |
| CrossedWires.LaterHits | archive/2019/day3/src/main.rs:66-76 | every collision a later wire appends is a step onto a recorded point, with that step's number plus the recorded one |
| CrossedWires.LaterFinds | archive/2019/day3/src/main.rs:66-76 | every step of a later wire onto a recorded point appends its collision |
| CrossedWires.LaterWire | archive/2019/day3/src/main.rs:66-85 | a later wire leaves the map alone, keeps the earlier collisions first, and its new collisions are exactly its steps onto recorded points |
| CrossedWires.LaterWires | archive/2019/day3/src/main.rs:45-190 | after the first wire, the wires never change the map and only append collisions |
| CrossedWires.Stride | archive/2019/day3/src/main.rs:62-89 | the `while len > 0` loop visits the points of the move in order, ends at its last point and adds its length to the step count |
| CrossedWires.Advance | archive/2019/day3/src/main.rs:50-186 | one instruction of the loop over a wire adds its points to those so far |
| CrossedWires.Fails | archive/2019/day3/src/main.rs:57-59 | a length that does not read as an `i64` fails the whole run |
| CrossedWires.TraceWire | archive/2019/day3/src/main.rs:45-190 | one wire from the origin updates the map and collisions as its steps, numbered from 1, visit the points, or fails at the first bad length |
| CrossedWires.Cross | archive/2019/day3/src/main.rs:41-190 | the wires in order from an empty map, only the first recording, and collisions from the others |
| CrossedWires.Closest | archive/2019/day3/src/main.rs:197-202 | the collision kept is nearest the origin in Manhattan distance, and the earliest of the nearest |
| CrossedWires.Fewest | archive/2019/day3/src/main.rs:204-209 | the collision kept has the fewest combined steps, and the earliest of those |
| CrossedWires.Run | archive/2019/day3/src/main.rs:19-215 | the run fails exactly when a length does not read; otherwise no collisions end it early, and else the nearest and the quickest collisions are found |
| TobogganTrajectory.ParseRow | 2020/day3/src/main.rs:62-69 | a row has one square per '.' or '#' of its line and never more squares than characters |
| TobogganTrajectory.ParseRender | 2020/day3/src/main.rs:62-69 | reading the text of a row gives the row back, '#' being a tree |
| TobogganTrajectory.Map.HitTree | 2020/day3/src/main.rs:11-17 | false for a row below the map; for an empty row the division by zero of `%`; otherwise the square at x modulo the row's length |
| TobogganTrajectory.Map.Wraps | 2020/day3/src/main.rs:16 | moving right by the row's width meets the same square, and inside the row the square itself |
| TobogganTrajectory.Visits | 2020/day3/src/main.rs:26-33 | the number of rows 0, dy, 2dy, ... below the map's length |
| TobogganTrajectory.VisitsCeiling | 2020/day3/src/main.rs:26-33 | that number is the length divided by dy, rounded up |
| TobogganTrajectory.Map.WalkBound | 2020/day3/src/main.rs:20-36 | the tree count is at most the number of rows visited |
| TobogganTrajectory.Map.WalkFails | 2020/day3/src/main.rs:16-27 | a walk fails only at an empty row it reached, and never on a map without empty rows |
| TobogganTrajectory.Map.CheckSlope | 2020/day3/src/main.rs:20-36 | with dy at least 1, the count of trees met at (k*dx, k*dy) down to the bottom, or the panic of the first empty row reached; with dy 0 an empty map gives 0 and any other map the panic of an empty first row or the endless loop |
| TobogganTrajectory.Map.PartOne | 2020/day3/src/main.rs:39-41 | the count for right 3, down 1 |
| TobogganTrajectory.Map.PartTwo | 2020/day3/src/main.rs:45-51 | the product of the counts of the five fixed slopes, or the first of their panics |
| TobogganTrajectory.Product | 2020/day3/src/main.rs:46-50 | the product exists exactly when every factor does |
| TobogganTrajectory.ProductError | 2020/day3/src/main.rs:46-50 | a failed product carries the leftmost failure, the first call that panics |
| TobogganTrajectory.NoEmptyRows | 2020/day3/src/main.rs:20-36 | on a map without empty rows every slope has a count, at most the rows visited, and a slope that goes down by one visits every row |
| Rucksack.ItemValue | day3/src/main.rs:102-114 | exactly the letters have a value; a-z are worth 1 to 26 and A-Z 27 to 52; any other character is the `not a valid item` panic |
| Rucksack.ItemValueInverse | day3/src/main.rs:102-114 | the valuation is one-to-one: each value 1 to 52 belongs to exactly one letter |
| Rucksack.BadItemMeans | day3/src/main.rs:48-63 | the bad item lies in both halves and is the first such item of the second half; the panic happens exactly when the halves share nothing |
| Rucksack.FindBadItem | day3/src/main.rs:48-63 | the map of the first half and the scan of the second half find exactly the bad item, or the panic |
| Rucksack.GroupBadge | day3/src/main.rs:67-95 | the item returned is in all three rucksacks; the panic happens exactly when they have no item in common; a group with one common item gets that item |
| Rucksack.Seen | day3/src/main.rs:68-86 | after the three counting loops the map holds exactly the items of the group, an item at 3 exactly when all three rucksacks hold it |
| Rucksack.Pack | day3/src/main.rs:21-32 | one line: its bad item is valued, it joins the group, and a full group's badge is valued and the group emptied |
| Rucksack.RuckCheck | day3/src/main.rs:14-44 | the loop counts every line and its sums are those of the lines in order, or the first panic, whenever no group has two common items |
| Rucksack.CheckedStops | day3/src/main.rs:24-30 | a panic ends the program: later lines do not change it |
| Rucksack.CheckedMeans | day3/src/main.rs:14-32 | every line is counted, the bad-item sum is the sum of each line's bad item value, and the lines are grouped in consecutive threes, the group in progress being the last lines after the last full three |
| ReposeRecord.LessMeans | archive/2018/day-4/golang/main.go:71-73 | the timestamp comparison is the lexicographic order: one timestamp comes first exactly when, at the first position where they differ, its character is smaller, or it is a proper prefix of the other |
| ReposeRecord.LessIrreflexive | archive/2018/day-4/golang/main.go:71-73 | no timestamp comes before itself |
| ReposeRecord.LessTransitive | archive/2018/day-4/golang/main.go:71-73 | the timestamp order is transitive |
| ReposeRecord.LessTotal | archive/2018/day-4/golang/main.go:71-73 | of two different timestamps one always comes first |
| ReposeRecord.NotAfterTransitive | archive/2018/day-4/golang/main.go:71-73 | "not after" is transitive, so sorting by the comparison is well defined |
| ReposeRecord.SortRecords | archive/2018/day-4/golang/main.go:48-73 | sorting the records in place with `sortByDate` leaves them in timestamp order and holding the same records as before |
| ReposeRecord.Bump | archive/2018/day-4/golang/main.go:183-185 | bumping the minutes from..to-1 adds one to exactly those minutes' counts, a missing minute counting 0, and adds just those minutes to the map |
| ReposeRecord.BumpMinutes | archive/2018/day-4/golang/main.go:183-208 | the minute loop computes that bump |
| ReposeRecord.SleepMap | archive/2018/day-4/golang/main.go:163-224 | the record loop yields the sleep map of the records: nothing for no records, otherwise the first record's guard on duty, a shift start crediting the previous guard unless the last record was a wake-up, a wake-up in hour 0 crediting from the last minute (from 0 when the last record was in another hour), falling asleep crediting nothing |
| ReposeRecord.FoldMeaning | archive/2018/day-4/golang/main.go:173-221 | reading further records keeps every guard already in the map and every count, creates a minute map for each guard credited (even with no minutes), and adds one to a guard's minute for each credited span covering it |
| ReposeRecord.SleepsMeaning | archive/2018/day-4/golang/main.go:163-224 | the sleep map holds exactly the guards credited with some span, and its count for a guard and minute is the number of credited spans of that guard covering that minute |
| ReposeRecord.NightSpans | archive/2018/day-4/golang/main.go:175-213 | a shift start at 23:58, a nap at 00:05 and a wake-up at 00:25 credit guard 10 with an empty span and then minutes 5 to 24 |
| ReposeRecord.NightCredited | archive/2018/day-4/golang/main.go:175-213 | in that night only guard 10 is credited |
| ReposeRecord.NightGuards | archive/2018/day-4/golang/main.go:163-224 | the sleep map of that night has guard 10 alone |
| ReposeRecord.NightMinutes | archive/2018/day-4/golang/main.go:163-224 | that night guard 10 slept each of minutes 5 to 24 once and no other minute |
| ReposeRecord.AwakeShiftCredited | archive/2018/day-4/golang/main.go:176-188 | a shift start right after another shift start credits the earlier guard with the minutes between the two starts, though that guard never fell asleep |
| ReposeRecord.MostMinute | archive/2018/day-4/golang/main.go:246-279 | the strict-maximum minute scan returns a minute whose count no minute exceeds, and that count; minute 0 with count 0 when no count is positive |
| ReposeRecord.SumCounts | archive/2018/day-4/golang/main.go:232-236 | summing a guard's minute counts gives the guard's total minutes asleep, whatever the order of the minutes |
| ReposeRecord.GuardTotals | archive/2018/day-4/golang/main.go:231-242 | every guard of the sleep map has the total of its minute counts |
| ReposeRecord.MostSleep | archive/2018/day-4/golang/main.go:228-257 | strategy 1 returns a guard whose total minutes asleep no guard exceeds (guard 0 when nobody slept) and that guard's most slept minute (minute 0 when it has none) |
| ReposeRecord.MostLikelyAsleep | archive/2018/day-4/golang/main.go:261-291 | strategy 2 returns a guard in the map (or guard 0) and one of its most slept minutes, and no guard slept any minute more often than that guard slept that minute |
| ReposeRecord.Sleeps | archive/2018/day-4/golang/main.go:163-224 | the sleep map read from the sorted records: empty without records, otherwise the fold from the first record's guard |
| SecureContainer.DigitsOf | archive/2019/day4/src/main.rs:5-11 | the digit vector is the decimal digits of the number, least significant first; a number of at most 9 (negative ones too) is a single entry |
| SecureContainer.DigitsValue | archive/2019/day4/src/main.rs:5-11 | for a non-negative number every entry is a decimal digit and the entries spell the number back |
| SecureContainer.DigitsLength | archive/2019/day4/src/main.rs:5-16 | the vector is longer than k exactly when the number is at least 10^k, so the length test rejects exactly the numbers below 100000 |
| SecureContainer.TooShort | archive/2019/day4/src/main.rs:13-16 | a number below 100000 is never a password |
| SecureContainer.IsValid | archive/2019/day4/src/main.rs:4-50 | true exactly when the number has at least six digits, never decreases from left to right and has a run of exactly two equal digits |
| SecureContainer.Scan | archive/2019/day4/src/main.rs:18-49 | the pass returns false at the first decrease, and otherwise true exactly when some maximal run, including the last one, has length two |
| SecureContainer.NoPairEnding | archive/2019/day4/src/main.rs:28-47 | a run whose counter is not two when it closes is not an exact pair |
| SecureContainer.Decreasing | archive/2019/day4/src/main.rs:36-39 | a digit larger than the digit to its right makes the number invalid |
| SecureContainer.FirstExample | archive/2019/day4/src/main.rs:64 | 112233 is a password |
| SecureContainer.SecondExample | archive/2019/day4/src/main.rs:65 | 123444 is not: its only repeated run has three digits |
| SecureContainer.ThirdExample | archive/2019/day4/src/main.rs:66 | 111122 is a password |
| SecureContainer.CountPasswords | archive/2019/day4/src/main.rs:55-61 | the count is the number of passwords in the inclusive range, at most the range's size |
| Bingo.FirstIndex | 2021/day4/src/main.rs:173-177 | the column found is the first in the row holding the called number, or the row's length when none does |
| Bingo.FirstRow | 2021/day4/src/main.rs:172-179 | the row found is the first holding the called number, or the number of rows when none does |
| Bingo.MarkFirst | 2021/day4/src/main.rs:172-179 | a turn keeps the board's shape and values and sets to Filled exactly the first square, in row-major order, that holds the called number |
| Bingo.CheckWin | 2021/day4/src/main.rs:191-215 | a board wins with a row entirely Filled or one of the five columns Filled in every row long enough to have it; an Empty square beyond column 4 before any winning row is the `columns[col]` panic |
| Bingo.Stop | 2021/day4/src/main.rs:166-187 | the count is never below the turns already played and never above the number of turns |
| Bingo.StopIsFirstWin | 2021/day4/src/main.rs:166-187 | the count is the first turn after which the board wins: no earlier turn wins, and the board has won after it unless every turn was used |
| Bingo.MarkTurn | 2021/day4/src/main.rs:172-179 | the marking loop leaves the chosen board marked for the number and every other board as it was |
| Bingo.ProcessBoard | 2021/day4/src/main.rs:166-187 | `process_board` returns the first winning count, leaves its board marked with exactly the turns played, and touches no other board |
| Bingo.Counts | 2021/day4/src/main.rs:107-147 | there is one count per board, each at most the number of turns |
| Bingo.CountsAre | 2021/day4/src/main.rs:107-147 | each board's count is the one `process_board` gives it |
| Bingo.LowestIsEarliestLeast | 2021/day4/src/main.rs:104-114 | the winning selection picks the least count, at its earliest board; with no count below the number of turns it keeps board 0 |
| Bingo.HighestIsEarliestGreatest | 2021/day4/src/main.rs:137-147 | the losing selection picks the greatest count, at its earliest board; when every count is 0 it keeps board 0 |
| Bingo.ScoresDefined | 2021/day4/src/main.rs:103-163 | with at least one turn and one board, and no column panic, neither score panics on `turns[count - 1]` or `boards[index]` |
| Bingo.StopPositive | 2021/day4/src/main.rs:169-170 | with a turn to play, every count is at least one |
| Bingo.WinningDefined | 2021/day4/src/main.rs:103-133 | with counts between 1 and the number of turns, the winning score is defined |
| Bingo.LosingDefined | 2021/day4/src/main.rs:136-163 | with counts between 1 and the number of turns, the losing score is defined |
| Bingo.SumUnmarked | 2021/day4/src/main.rs:116-156 | the nested loops sum the values of exactly the Empty squares |
| Bingo.ProcessAll | 2021/day4/src/main.rs:107-141 | every board is processed in turn: its count is recorded and it is left marked with its own turns, or the first panic stops the loop |
| Bingo.CountsPrefix | 2021/day4/src/main.rs:107-108 | a panic on one board is the panic of the whole search |
| Bingo.FindWinningScore | 2021/day4/src/main.rs:103-133 | the score of the first board to win: its last called number times its unmarked sum, or a panic |
| Bingo.FindLosingScore | 2021/day4/src/main.rs:136-163 | the score of the last board to win: its last called number times its unmarked sum, or a panic |
| Bingo.SelectLowest | 2021/day4/src/main.rs:104-114 | the loop computes the selection of a strictly smaller count starting from the number of turns |
| Bingo.SelectHighest | 2021/day4/src/main.rs:137-147 | the loop computes the selection of a strictly larger count starting from 0 |
| Bingo.ScoreBoard | 2021/day4/src/main.rs:116-162 | an index past the boards or a count of 0 (or past the turns) panics; otherwise the score is the called number times the unmarked sum |
| Bingo.WinState | 2021/day4/src/main.rs:191-215 | what `win_state` computes: a full row wins, else one of columns 0 to 4 Filled in every row long enough to have it; an Empty square beyond column 4 in a row reached before any winning row is the `columns[col]` fault, while a short row's missing columns are not tested |
| Bingo.Score | 2021/day4/src/main.rs:116-132 | the chosen board's unmarked sum after its winning turn times the number drawn on that turn; it is an error exactly when the board index is past the boards or the turn count is 0 or past the draws |
| CampCleanup.ParseRender | day4/src/main.rs:20-38 | every line written as four `u32` numbers "a-b,x-y" reads back as its two spans |
| CampCleanup.ExtraPiece | day4/src/main.rs:26-38 | because the shape checks after the '-' splits test the comma split, a span with a third number still reads, the extra number ignored |
| CampCleanup.MissingEnd | day4/src/main.rs:26-36 | a span without '-' reads its start and then fails indexing the missing end |
| CampCleanup.ClassifyMeans | day4/src/main.rs:40-57 | for spans that are not empty, a full overlap is exactly one span lying within the other and a partial overlap exactly a section the two share |
| CampCleanup.ClassifySymmetric | day4/src/main.rs:40-57 | the classification does not depend on which elf comes first |
| CampCleanup.FullIsPartial | day4/src/main.rs:40-57 | for spans that are not empty, a full overlap is also a partial one |
| CampCleanup.EqualStarts | day4/src/main.rs:54-57 | spans with equal starts count as both kinds of overlap, even when one of them is empty |
| CampCleanup.Compare | day4/src/main.rs:40-57 | the nested comparisons raise the two counters exactly by the classification of the pair |
| CampCleanup.FindOverlap | day4/src/main.rs:13-68 | the loop's counters are the counts over the lines in order, or the fault of the first line that does not read |
| CampCleanup.CountStops | day4/src/main.rs:20-38 | a fault ends the loop: later lines do not change it |
| CampCleanup.CountReads | day4/src/main.rs:20-38 | the loop fails exactly when some line does not read |
| CampCleanup.CountFails | day4/src/main.rs:20-38 | the fault is the one of the first line that does not read |
| CampCleanup.CountBounds | day4/src/main.rs:14-57 | each counter is at most the number of lines, and when every span is not empty the full count is at most the partial count |
| BinaryBoarding.TicketToSeatId | 2020/day5/src/main.rs:12-45 | the id is -1 for a ticket that is not ten characters long or whose row or column interval does not end as a single value; otherwise row * 8 + column, the intervals being those left by applying the tokens in order |
| BinaryBoarding.Separate | 2020/day5/src/main.rs:24-32 | F and B only move the row interval and L and R only the column interval, so each interval is its own tokens' halvings in ticket order |
| BinaryBoarding.BitsCount | 2020/day5/src/main.rs:24-32 | each character gives at most one halving, and other characters give none |
| BinaryBoarding.Exact | 2020/day5/src/main.rs:19-29 | up to m halvings of 0..2^m - 1 leave the block of 2^(m - k) values whose leading bits are the halvings, F or L meaning 0 |
| BinaryBoarding.Beyond | 2020/day5/src/main.rs:26-29 | once an interval is a single value, every further halving leaves it one or two below empty, with truncating `i32` division |
| BinaryBoarding.Wide | 2020/day5/src/main.rs:19-29 | with fewer halvings than bits at least two values remain |
| BinaryBoarding.Collapses | 2020/day5/src/main.rs:19-42 | an interval of 2^m values is a single value exactly after m halvings, and that value is their binary number |
| BinaryBoarding.SeatIdMeans | 2020/day5/src/main.rs:12-45 | a ticket gets an id exactly when it has ten characters, seven of them F or B and three L or R (so nothing else); the id is then the binary row times 8 plus the binary column, in 0..1023 |
| BinaryBoarding.Example | 2020/day5/src/main.rs:12-45 | FBFBBFFRLR is row 44, column 5, id 357 |
| BinaryBoarding.Between | 2020/day5/src/main.rs:55-60 | the integers strictly between two ids, in increasing order |
| BinaryBoarding.Fill | 2020/day5/src/main.rs:55-60 | the inner loop appends exactly the integers strictly between `prev_id` and `next_id` |
| BinaryBoarding.FindSeat | 2020/day5/src/main.rs:48-67 | the result is the gaps of every compared pair, in input order, the pairs being (16, 16), (16, first id) and then each two consecutive ids but the last two |
| BinaryBoarding.GapsMeans | 2020/day5/src/main.rs:48-67 | an integer is in the result exactly when it lies strictly between some compared pair |
| BinaryBoarding.LastIgnored | 2020/day5/src/main.rs:62-66 | the last id has no effect on the result: the gap between the last two ids is never examined |
| BinaryBoarding.SortedGaps | 2020/day5/src/main.rs:48-80 | for sorted ids that are at least 16, the result holds exactly the integers above 16 and below the second-to-last id that are not ids |
| BinaryBoarding.GapIsFree | 2020/day5/src/main.rs:55-63 | an integer strictly between a compared pair of sorted ids is above 16, below the second-to-last id and no id |
| SupplyStacks.Move | day5/src/main.rs:100-113 | a move succeeds exactly when stack `from` exists and holds `count` crates and stack `to` exists; otherwise its fault is the first the source's `from - 1`, index, `len - count`, `to - 1` and index raise; the stack count is kept |
| SupplyStacks.MoveMeans | day5/src/main.rs:100-113 | the top `count` crates leave stack `from` and land on stack `to`, reversed by the first crane and in order by the second; on one stack they are put back on what remains; every other stack is unchanged |
| SupplyStacks.MoveKeeps | day5/src/main.rs:100-113 | a move keeps the multiset of all crates |
| SupplyStacks.OneByOne | day5/src/main.rs:100-108 | between two different stacks, the first crane's move of `count` crates equals `count` single-crate moves |
| SupplyStacks.ReverseReverse | day5/src/main.rs:102-107 | reversing the carried crates twice gives them back |
| SupplyStacks.TopsCount | day5/src/main.rs:116-117 | `filter_map(pop)` yields one top per stack that has crates |
| SupplyStacks.TopsMeans | day5/src/main.rs:116-117 | with no empty stack, top k is the last crate of stack k |
| SupplyStacks.TopsSkip | day5/src/main.rs:116-117 | an empty stack contributes no top |
| SupplyStacks.LayerMeans | day5/src/main.rs:66-70 | a drawing row fails exactly when some column has a '[' too near the end or a crate right of the last stack; otherwise each stack gains the crate drawn in its column |
| SupplyStacks.AddLayer | day5/src/main.rs:66-70 | the `step_by(4)` loop computes the row's layering |
| SupplyStacks.DrawMeans | day5/src/main.rs:51-71 | the line loop reads up to the first blank line, consuming it; it fails exactly when a row breaks, and each stack gains the crates of its column, top row first |
| SupplyStacks.CargoMeans | day5/src/main.rs:48-78 | when the first line draws, the stacks number one per four characters of that line and one more, stack k holds its column's crates bottom crate first, and the lines through the first blank one are read |
| SupplyStacks.ParseCargo | day5/src/main.rs:48-78 | the line loop with its `break`, then the in-place reversal of every stack, computes the drawing's stacks |
| SupplyStacks.Size | day5/src/main.rs:96-98 | a parsed `usize` is at most 2^64 - 1, and a failed parse returns its error |
| SupplyStacks.InstructionOrder | day5/src/main.rs:89-98 | every move of `usize` numbers written "move c from f to t" reads back as that move |
| SupplyStacks.RunKeeps | day5/src/main.rs:87-114 | over any move lines both cranes keep all their crates and their stacks stay at equal heights |
| SupplyStacks.StepLevel | day5/src/main.rs:100-113 | with stacks of equal heights, the second crane's move succeeds whenever the first crane's does, and the heights stay equal |
| SupplyStacks.Crane | day5/src/main.rs:100-113 | `split_off`, the reversal and `append` on one crane's stacks compute the move or its fault |
| SupplyStacks.SimulateCargo | day5/src/main.rs:82-120 | the loop over the move lines runs both cranes line by line and stops at the first fault, then takes the tops |
| SupplyStacks.Copy | day5/src/main.rs:14-22 | the crate-by-crate copy for the second crane equals the drawing |
| SupplyStacks.Simulate | day5/src/main.rs:10-36 | the whole program: the drawing, its copy, the moves after the drawing on both cranes and the two rows of tops |
| SupplyStacks.Cargo | day5/src/main.rs:48-78 | what `parse_cargo` returns: the drawing up to the first blank line read into stacks, each reversed to run bottom first, and the number of lines consumed, never more than there are |
| Day5Intcode.Run | 2019/day5/src/main.rs:48-286 | the loop runs the shared-memory machine from position 0 over the input values; it stops at opcode 99 or panics on a bad opcode, a bad address or a missing input line, and never suspends |
| HydrothermalVenture.ParseSegment | archive/2021/day5/src/main.rs:49-66 | a line without exactly two " -> " pieces is refused; the fields are read x1, y1, x2, y2 in turn: a point without two parts is the coordinates fault only when every field before it parsed, and the segment is built exactly when all four parse, holding those `i32` values |
| HydrothermalVenture.ParseShowSegment | archive/2021/day5/src/main.rs:51-65 | reading back `x1,y1 -> x2,y2` for `i32` coordinates gives the segment |
| HydrothermalVenture.ParseInput | archive/2021/day5/src/main.rs:39-81 | success gives one segment per line, each the line's parse; an empty file is refused exactly when there are no lines; any other error is some line's error |
| HydrothermalVenture.Segments | archive/2021/day5/src/main.rs:47-71 | success gives each line's parse in order; a failure is the failure of some line |
| HydrothermalVenture.Trail | archive/2021/day5/src/main.rs:108-132 | the walk starts at its first point and ends at the far end |
| HydrothermalVenture.SegmentTrail | archive/2021/day5/src/main.rs:94-106 | the walk of a segment starts at the end with the smaller x (the first end on a tie) and ends at the other |
| HydrothermalVenture.Walk | archive/2021/day5/src/main.rs:94-132 | the loop bumps the counts along exactly the segment's walk |
| HydrothermalVenture.CoverStep | archive/2021/day5/src/main.rs:113-131 | one pass of the loop: mark the current point, then continue from the next |
| HydrothermalVenture.CoverLast | archive/2021/day5/src/main.rs:119-123 | at the far end the loop marks it and stops |
| HydrothermalVenture.CountOverlaps | archive/2021/day5/src/main.rs:135-140 | the count is the number of points counted more than once, whatever the order of the map's entries |
| HydrothermalVenture.CalculateSegmentOverlaps | archive/2021/day5/src/main.rs:85-143 | the result is the number of points counted more than once after laying every segment in order, diagonals skipped when asked |
| HydrothermalVenture.CoverCount | archive/2021/day5/src/main.rs:113-119 | marking a walk raises each point's count by the number of times the walk passes it |
| HydrothermalVenture.TallyCount | archive/2021/day5/src/main.rs:88-140 | a point's final count is the number of passes of the laid segments, so it overlaps exactly when passed more than once |
| HydrothermalVenture.HorizontalTrail | archive/2021/day5/src/main.rs:113-132 | a horizontal walk marks each point of its row between the ends exactly once, and nothing else |
| HydrothermalVenture.VerticalTrail | archive/2021/day5/src/main.rs:113-132 | a vertical walk marks each point of its column between the ends exactly once, and nothing else |
| HydrothermalVenture.DiagonalTrail | archive/2021/day5/src/main.rs:108-132 | a 45-degree walk marks each point of its diagonal between the ends exactly once, and nothing else |
| HydrothermalVenture.WalkPoints | archive/2021/day5/src/main.rs:108-132 | a straight walk marks each lattice point of its segment exactly once, and nothing else |
| HydrothermalVenture.SegmentPoints | archive/2021/day5/src/main.rs:94-132 | for a horizontal, vertical or 45-degree segment, the walk passes exactly its lattice points, each once |
| HydrothermalVenture.SkippedDiagonals | archive/2021/day5/src/main.rs:89-92 | with diagonals skipped, diagonal segments pass no point |
| UniversalOrbits.RecordedParses | 2019/day6/src/main.rs:11-21 | the map is built exactly when every line splits at ")" into two tokens; otherwise the first malformed line is the panic's |
| UniversalOrbits.RecordedKeys | 2019/day6/src/main.rs:11-21 | the planets of the map are exactly those named on the right of a line |
| UniversalOrbits.RecordedLast | 2019/day6/src/main.rs:18-20 | each planet orbits what the last line naming it on the right says; a later line overwrites an earlier one |
| UniversalOrbits.Untouched | 2019/day6/src/main.rs:20 | a planet that no later line names keeps its centre |
| UniversalOrbits.Record | 2019/day6/src/main.rs:6-21 | the line loop builds the map of the lines, or stops at the first malformed line |
| UniversalOrbits.ChainInward | 2019/day6/src/main.rs:29-38 | a walk found within its hop budget follows the map hop by hop to a planet that orbits nothing |
| UniversalOrbits.InwardTail | 2019/day6/src/main.rs:29-38 | the walk from a planet, after its first hop, is the walk from its centre |
| UniversalOrbits.InwardStart | 2019/day6/src/main.rs:30-36 | a walk makes a first hop exactly when its start orbits something |
| UniversalOrbits.InwardUnique | 2019/day6/src/main.rs:29-38 | there is at most one walk inward from any planet |
| UniversalOrbits.InwardSuffix | 2019/day6/src/main.rs:29-38 | the rest of a walk after t hops is the walk from the planet reached |
| UniversalOrbits.InwardDistinct | 2019/day6/src/main.rs:29-38 | a walk that ends never passes the same planet twice, its start included |
| UniversalOrbits.DistinctCard | 2019/day6/src/main.rs:29-38 | a sequence without repeats has as many distinct elements as entries |
| UniversalOrbits.InwardShort | 2019/day6/src/main.rs:29-38 | a walk that ends has at most as many hops as the map has planets |
| UniversalOrbits.ChainFuel | 2019/day6/src/main.rs:29-38 | any hop budget at least the walk's length finds that walk |
| UniversalOrbits.AncestorsMeans | 2019/day6/src/main.rs:29-38 | the walk found within a budget of one hop per planet is exactly the walk inward, and it is found whenever one exists |
| UniversalOrbits.Endless | 2019/day6/src/main.rs:29-38 | when no walk is found, no budget ever finds one: the loop never breaks |
| UniversalOrbits.AncestorsStep | 2019/day6/src/main.rs:30-32 | a planet's walk is one hop to its centre followed by its centre's walk |
| UniversalOrbits.Apart | 2019/day6/src/main.rs:43-67 | in a map without cycles every walk ends, even from a planet outside the map, and never repeats a planet |
| UniversalOrbits.Depths | 2019/day6/src/main.rs:26-39 | the planets whose walk ends, each with its number of hops |
| UniversalOrbits.DepthStep | 2019/day6/src/main.rs:26-39 | a planet orbits its centre directly and everything its centre orbits indirectly |
| UniversalOrbits.Hops | 2019/day6/src/main.rs:27-38 | the inner loop counts the hops of the walk inward; a walk longer than the map never ends |
| UniversalOrbits.Climb | 2019/day6/src/main.rs:43-67 | the path loop pushes every planet of the walk inward, in order |
| UniversalOrbits.Cyclic | 2019/day6/src/main.rs:26-39 | one planet whose walk never ends makes the orbit count go on forever |
| UniversalOrbits.Counts | 2019/day6/src/main.rs:26-33 | visiting one more key adds its hops to the count |
| UniversalOrbits.Counted | 2019/day6/src/main.rs:26-39 | once every key is visited, the count is the total of direct and indirect orbits |
| UniversalOrbits.Total | 2019/day6/src/main.rs:24-39 | the key loop, in any key order, gives the total of direct and indirect orbits, or runs forever on a cycle |
| UniversalOrbits.TallyCounts | 2019/day6/src/main.rs:69-89 | `path_map` counts each planet as often as it appears on the paths |
| UniversalOrbits.Tabulate | 2019/day6/src/main.rs:71-79 | the loop over one path adds one for each appearance |
| UniversalOrbits.Singles | 2019/day6/src/main.rs:91-96 | the loop over `path_map`, in any order, counts the planets seen exactly once |
| UniversalOrbits.DistinctOnce | 2019/day6/src/main.rs:69-89 | in a sequence without repeats, each element appears once |
| UniversalOrbits.TransfersMeans | 2019/day6/src/main.rs:69-96 | over two paths without repeats, the planets seen once are the symmetric difference of the two paths |
| UniversalOrbits.Run | 2019/day6/src/main.rs:5-101 | a malformed line stops the run; a cycle makes it run forever; otherwise it gives the total of orbits and the size of the symmetric difference of the paths from YOU and from SAN |
| UniversalOrbits.Chain | 2019/day6/src/main.rs:29-38 | the walk from a planet toward the centre, each step the planet the last one orbits, ending at the first planet that orbits nothing; it holds at most fuel planets, and running out of fuel first is None |
| TuningTrouble.UniqueAt | day6/src/main.rs:57-64 | a window is accepted when it lies in the signal and all its tokens differ |
| TuningTrouble.Search | day6/src/main.rs:44-68 | the windows are examined from position 1 on, and the result never leaves the signal |
| TuningTrouble.FirstUniqueMeans | day6/src/main.rs:44-68 | for a signal longer than the window, the answer is at least 1 and is the first unique window from position 1, or the last window when none is unique; a signal no longer than the window answers 0 |
| TuningTrouble.SearchMeans | day6/src/main.rs:57-66 | every window skipped by the search has a repeated token |
| TuningTrouble.SearchFinds | day6/src/main.rs:57-68 | conversely, the first unique window (or the last window) is the one the search returns |
| TuningTrouble.ZeroWindowSkipped | day6/src/main.rs:45-57 | the window at position 0 is never examined: "abcdd" with windows of four answers 1 although "abcd" is unique |
| TuningTrouble.FirstUniqueFrom0 | day6/src/main.rs:44-68 | the intended search, which also tests the window at position 0, answers a window inside the signal |
| TuningTrouble.FirstUniqueFrom0Means | day6/src/main.rs:44-68 | the intended answer is the first window from position 0 on whose tokens all differ, or the last window when there is none |
| TuningTrouble.ZeroWindowFound | day6/src/main.rs:44-68 | on "abcdd" with windows of four the intended search answers 0 |
| TuningTrouble.DistinctCounts | day6/src/main.rs:58-62 | a window's tokens all differ exactly when each token occurs in it at most once |
| TuningTrouble.AllSingle | day6/src/main.rs:58-62 | the scan over the counts says yes exactly when every count is one |
| TuningTrouble.Evict | day6/src/main.rs:46-50 | the leaving token's count drops by one and a count at zero or below is removed, so the map still holds the window's multiplicities |
| TuningTrouble.Admit | day6/src/main.rs:54-55 | the entering token's count rises by one from zero, keeping the multiplicities |
| TuningTrouble.Slide | day6/src/main.rs:45-55 | `start` moves on once the window is full, and the map then holds the multiplicities of tokens start..=index |
| TuningTrouble.Test | day6/src/main.rs:57-65 | the count check passes exactly when the window at `start` is unique |
| TuningTrouble.FindUniquePacket | day6/src/main.rs:40-69 | the result is the answer described by FirstUniqueMeans; along the way the window never holds more than `length` tokens |
| TuningTrouble.FirstUnique | day6/src/main.rs:44-68 | 0 when the signal is no longer than the window, otherwise a window position from 1 to the last |
| Lanternfish.Parsed | archive/2021/day6/src/main.rs:67-70 | at most one timer per comma-separated piece: pieces that do not trim to a `u64` are dropped |
| Lanternfish.Counts | archive/2021/day6/src/main.rs:72-81 | entry i is the number of timers equal to i |
| Lanternfish.Buckets | archive/2021/day6/src/main.rs:72-81 | nine counts, entry i the number of timers equal to i, so timers above 8 are not counted |
| Lanternfish.BucketsSnoc | archive/2021/day6/src/main.rs:74-81 | one more timer raises its own count when it is at most 8 and changes nothing otherwise |
| Lanternfish.Census | archive/2021/day6/src/main.rs:72-83 | the counting loop leaves the nine counts of the timers |
| Lanternfish.ParseInput | archive/2021/day6/src/main.rs:56-84 | the school holds the nine counts of the line's timers |
| Lanternfish.StepAt | archive/2021/day6/src/main.rs:24-32 | after a day count i is the old count i + 1, except that 6 also gains the old count 0, 8 becomes the old count 0 and the last entry keeps its value |
| Lanternfish.Fish.Simulate | archive/2021/day6/src/main.rs:19-33 | fewer than two counts stay as they are; otherwise the array becomes the one-day shift of its old contents |
| Lanternfish.SimulateDays | archive/2021/day6/src/main.rs:87-93 | the school is the given number of days on from its old counts, and the result is its total |
| Lanternfish.SumOf | archive/2021/day6/src/main.rs:92 | the sum of the array's entries |
| Lanternfish.StepTotal | archive/2021/day6/src/main.rs:24-32 | with nine counts a day adds exactly the old count at timer 0 to the total |
| Lanternfish.SumNine | archive/2021/day6/src/main.rs:92 | the total of nine counts is their plain sum |
| Lanternfish.OccurrencesAppend | archive/2021/day6/src/main.rs:74-81 | counts of a concatenation add up |
| Lanternfish.DayOccurrences | archive/2021/day6/src/main.rs:17-18 | a single fish at timer t leaves one fish at t - 1, or at 6 and 8 when t is 0 |
| Lanternfish.FishStepYoung | archive/2021/day6/src/main.rs:17-18 | moving fish on a day keeps every timer at most 8 |
| Lanternfish.StepMatchesFish | archive/2021/day6/src/main.rs:17-33 | shifting the counts is the same as moving every fish on one day and counting again |
| Lanternfish.DaysMatchFish | archive/2021/day6/src/main.rs:87-93 | after any number of days the counts are the counts of the fish simulated one by one, and their total is the number of those fish |
| Lanternfish.CountsTotal | archive/2021/day6/src/main.rs:72-81 | the nine counts of timers that are all at most 8 add up to the number of timers |
| Day7Amplifiers.Amplifier.constructor | 2019/day7/src/main.rs:12-20 | a new amplifier starts at position 0 with the given memory, empty input and output queues, and not halted |
| Day7Amplifiers.Amplifier.Run | 2019/day7/src/main.rs:67-287 | the object's new state is that of the shared-memory machine run with input suspension; a stop at 99 sets `halt`, an empty input at opcode 3 suspends the amplifier |
| Day7Amplifiers.TuplesMembers | 2019/day7/src/main.rs:316-342 | a tuple is pushed below a prefix exactly when it extends the prefix by `depth` values from the range and repeats no value |
| Day7Amplifiers.TuplesBelowMembers | 2019/day7/src/main.rs:316-342 | the tuples pushed before the next value reaches `x` are exactly the valid extensions whose next value is below `x` |
| Day7Amplifiers.PhaseTuplesMembers | 2019/day7/src/main.rs:316-342 | the phase list holds exactly the 5-tuples of pairwise distinct values from the range (0..5 in part 1, 4..10 in part 2) |
| Day7Amplifiers.DistinctFive | 2019/day7/src/main.rs:321-335 | the four `continue` guards reject exactly the 5-tuples that repeat a value |
| Day7Amplifiers.TuplesBelowNext | 2019/day7/src/main.rs:316-342 | one more turn of a loop appends the tuples that start with that loop's current value, in order |
| Day7Amplifiers.PhaseTuples | 2019/day7/src/main.rs:315-342 | the five nested loops push exactly the distinct tuples, in lexicographic order |
| Day7Amplifiers.OuterTuples | 2019/day7/src/main.rs:317-341 | the four inner loops push exactly the distinct tuples that start with `a` |
| Day7Amplifiers.MiddleTuples | 2019/day7/src/main.rs:318-340 | the three inner loops push exactly the distinct tuples that start with `a, b` |
| Day7Amplifiers.InnerTuples | 2019/day7/src/main.rs:319-339 | the two innermost loops push exactly the distinct tuples that start with `a, b, c` |
| Day7Amplifiers.FirstOutput | 2019/day7/src/main.rs:357-369 | reading `output[0]` succeeds exactly when the amplifier printed something |
| Day7Amplifiers.ChainSplits | 2019/day7/src/main.rs:354-367 | the chain fails with the first amplifier's fault when that one fails, and otherwise feeds that amplifier's first output to the rest of the chain |
| Day7Amplifiers.Stage | 2019/day7/src/main.rs:354-358 | pushing the phase and the signal into a fresh amplifier, running it and reading `output[0]` gives the chain stage's value |
| Day7Amplifiers.ChainThrust | 2019/day7/src/main.rs:348-367 | five fresh amplifiers in series, fed 0 first, give the thrust of the chain over the tuple's first five phases |
| Day7Amplifiers.BestThrust | 2019/day7/src/main.rs:344-373 | the part 1 loop returns the best thrust over the tuples, or the first fault met |
| Day7Amplifiers.BestIsMaximal | 2019/day7/src/main.rs:344-373 | the best thrust is at least 0 and at least every tuple's thrust; unless it is the initial (0, no tuple) it is the thrust of the earliest tuple that reaches it |
| Day7Amplifiers.BestBounds | 2019/day7/src/main.rs:369-372 | the best thrust is at least 0 and bounds the thrust of every tuple |
| Day7Amplifiers.SnocBounded | 2019/day7/src/main.rs:347 | a bound on the earlier tuples and on the last one bounds every tuple of the list |
| Day7Amplifiers.BestEarliest | 2019/day7/src/main.rs:369-372 | because the comparison is strict, the recorded tuple is the earliest one with the best thrust |
| Day7Amplifiers.BestErrPersists | 2019/day7/src/main.rs:347-373 | once a tuple's chain panics, the whole part 1 loop ends with that fault |
| Day7Amplifiers.Pass | 2019/day7/src/main.rs:430-431 | `pop().unwrap()` fails exactly on an empty output; otherwise the source loses its last output and that value goes to the back of the receiver's input |
| Day7Amplifiers.Feedback | 2019/day7/src/main.rs:429-448 | the loop ends only with amplifier E halted or with some amplifier halted in the last round |
| Day7Amplifiers.ThrustOfFinal | 2019/day7/src/main.rs:450 | the part 2 thrust is E's first output in the bank the loop ends with |
| Day7Amplifiers.FeedbackContinues | 2019/day7/src/main.rs:429-448 | a round that halts no amplifier hands the loop to the next round |
| Day7Amplifiers.FeedbackUnfolds | 2019/day7/src/main.rs:429-448 | with one more round allowed, a round that halts nothing continues the loop from the new bank |
| Day7Amplifiers.FeedbackStops | 2019/day7/src/main.rs:445-447 | a round that halts some amplifier ends the loop with that bank |
| Day7Amplifiers.Relay | 2019/day7/src/main.rs:430-431 | on the two amplifier objects, moving the last output and running the receiver gives the states `Pass` describes, or its fault |
| Day7Amplifiers.Cycle | 2019/day7/src/main.rs:430-443 | one pass of the loop body moves E to A, A to B, through D to E, giving the bank `Round` describes, or its fault |
| Day7Amplifiers.Phased | 2019/day7/src/main.rs:417-426 | a fresh amplifier whose input holds only its phase |
| Day7Amplifiers.FeedbackLoop | 2019/day7/src/main.rs:429-448 | the `while` loop leaves the five amplifiers in the bank `Feedback` describes, or fails with its fault |
| Day7Amplifiers.FeedbackThrust | 2019/day7/src/main.rs:417-450 | priming the amplifiers with their phases and E's output with 0, then running the loop, gives E's first output in the final bank |
| CrabAlignment.Positions | archive/2021/day7/src/main.rs:34-37 | at most one position per comma-separated piece, each within the `i64` range; pieces that do not trim to an `i64` are dropped |
| CrabAlignment.Histogram | archive/2021/day7/src/main.rs:39-50 | the histogram counts, for every position, how often it occurs in the list, and every key has at least one crab |
| CrabAlignment.ParseInput | archive/2021/day7/src/main.rs:23-51 | the histogram of the line's positions, with at least one crab at each key |
| CrabAlignment.TriangleClosed | archive/2021/day7/src/main.rs:88-89 | `n * (n + 1) / 2` is the sum 1 + 2 + ... + n |
| CrabAlignment.Spent | archive/2021/day7/src/main.rs:64-89 | the per-crab fuel the program computes equals the step count, or the triangular sum of it |
| CrabAlignment.EntryFuel | archive/2021/day7/src/main.rs:63-90 | one entry adds its crab count times the fuel of one crab at that distance |
| CrabAlignment.CostRemove | archive/2021/day7/src/main.rs:63-65 | the total fuel of a histogram is any one entry's fuel plus the total of the rest, so the iteration order does not matter |
| CrabAlignment.Moves | archive/2021/day7/src/main.rs:61-90 | the inner loop, visiting the entries in any order, sums to the total fuel for the reference |
| CrabAlignment.Top | archive/2021/day7/src/main.rs:58 | the largest position is a key and at least every key |
| CrabAlignment.TopUnique | archive/2021/day7/src/main.rs:58 | a key that is at least every key is the largest position |
| CrabAlignment.MaxKey | archive/2021/day7/src/main.rs:58-82 | no result exactly for an empty histogram (where `unwrap` panics), otherwise a key at least every key |
| CrabAlignment.CostsAt | archive/2021/day7/src/main.rs:60-71 | entry r of the tried costs is the total fuel for reference r |
| CrabAlignment.PickStep | archive/2021/day7/src/main.rs:67-70 | trying one more reference replaces the choice when the best so far costs 0 or the new cost is strictly lower |
| CrabAlignment.TryReferences | archive/2021/day7/src/main.rs:55-73 | the outer loop over references 0 to n - 1 ends with the running choice over their costs |
| CrabAlignment.MinimalPosition | archive/2021/day7/src/main.rs:54-99 | no result for an empty histogram; otherwise the choice over references 0 up to, not including, the largest position |
| CrabAlignment.CalculateMinimalPosition | archive/2021/day7/src/main.rs:54-74 | the linear search's result over references 0 up to, not including, the largest position |
| CrabAlignment.CalculateRealMinimalPosition | archive/2021/day7/src/main.rs:78-99 | the triangular search's result over references 0 up to, not including, the largest position |
| CrabAlignment.CostPositive | archive/2021/day7/src/main.rs:63-65 | away from an occupied position the total fuel is at least 1 |
| CrabAlignment.PickIsFirstCheapest | archive/2021/day7/src/main.rs:67-70 | when every tried cost is positive, the choice is a tried reference, its cost is the choice's cost, no tried reference is cheaper, and every earlier one is dearer |
| CrabAlignment.PickFree | archive/2021/day7/src/main.rs:67-70 | a last-tried reference with cost 0 is chosen |
| CrabAlignment.ParsedPick | archive/2021/day7/src/main.rs:54-99 | for a parsed histogram with a positive largest position, the result is the first cheapest of the references tried, so the 0-as-unset test never misfires |
| CrabAlignment.ExampleCost | archive/2021/day7/src/main.rs:63-65 | the linear fuel for three crabs at 5 and one at 0 is 3 * (5 - r) + r |
| CrabAlignment.LargestNeverTried | archive/2021/day7/src/main.rs:60-84 | for three crabs at 5 and one at 0 the search returns (4, 7), though reference 5 costs 5 |
| CrabAlignment.MinimalPositionInclusive | archive/2021/day7/src/main.rs:54-99 | the corrected search: the choice over references 0 to the largest position inclusive |
| CrabAlignment.BurnMono | archive/2021/day7/src/main.rs:64-89 | more steps never burn less fuel |
| CrabAlignment.CostMono | archive/2021/day7/src/main.rs:63-65 | moving the reference further away from every crab never lowers the total fuel |
| CrabAlignment.ZeroAtOnly | archive/2021/day7/src/main.rs:63-65 | when all crabs share a position, that reference costs nothing |
| CrabAlignment.SpreadCosts | archive/2021/day7/src/main.rs:63-65 | with crabs at two positions every reference from 0 to the largest costs something |
| CrabAlignment.TriedIsOptimal | archive/2021/day7/src/main.rs:54-74 | with non-negative positions, the search through 0 to the largest position returns a tried reference whose cost no integer reference beats |
| CrabAlignment.InclusiveIsOptimal | archive/2021/day7/src/main.rs:54-99 | the corrected search's result costs no more than any integer reference |
| SpaceImage.VisibleMeans | archive/2019/day8/src/main.rs:100-108 | a pixel of the image is transparent (2) exactly when it is 2 on every layer, and otherwise it is the value of the first layer where it is not 2 |
| SpaceImage.VisibleStays | archive/2019/day8/src/main.rs:103-105 | once a pixel is not 2, the layers behind never change it |
| SpaceImage.Flattened | archive/2019/day8/src/main.rs:83-111 | no layers give an empty image; otherwise the image has the rows and columns of layer 0 |
| SpaceImage.CoverRow | archive/2019/day8/src/main.rs:102-106 | exactly the pixels still 2 take the layer's value |
| SpaceImage.Cover | archive/2019/day8/src/main.rs:101-107 | one layer of the loop: every pixel still 2 takes the layer's value, the others stay |
| SpaceImage.Flatten | archive/2019/day8/src/main.rs:83-111 | the all-2 image, then every layer in turn, computes the visible pixel of every position |
| SpaceImage.TallyMeans | archive/2019/day8/src/main.rs:33-42 | the count of a value in a row is its multiplicity among the row's pixels |
| SpaceImage.Tabulate | archive/2019/day8/src/main.rs:34-41 | each pixel adds one to its value's count, and only values that occur have keys |
| SpaceImage.Histogram | archive/2019/day8/src/main.rs:30-47 | a layer's histogram holds the count of every value of the layer and a key exactly for the values that occur |
| SpaceImage.SelectClean | archive/2019/day8/src/main.rs:65-77 | when some layer has no 0, the checksum is the count of 1s times the count of 2s of the last such layer |
| SpaceImage.SelectFewest | archive/2019/day8/src/main.rs:49-77 | when every layer has a 0, fewer than `u32::MAX`, the checksum is that of the first layer with the fewest 0s |
| SpaceImage.SelectAbove | archive/2019/day8/src/main.rs:49-71 | layers that all have more than z zeros leave the running fewest above z |
| SpaceImage.Checksum | archive/2019/day8/src/main.rs:27-80 | the histograms and the selection loop compute the checksum of the selected layer, 0 for no layers |
| SpaceImage.TotalMeans | archive/2019/day8/src/main.rs:152-156 | the number of layers is the pixel count over the layer size rounded up: they hold every pixel, and one fewer would not |
| SpaceImage.Zeroed | archive/2019/day8/src/main.rs:158-170 | the layers start as `total` layers of `height` rows of `width` zeros |
| SpaceImage.PosUnique | archive/2019/day8/src/main.rs:172-189 | different places in the layers have different input positions |
| SpaceImage.InLayer | archive/2019/day8/src/main.rs:152-189 | every input position falls in one of the layers, so `layers[layer]` never goes out of range |
| SpaceImage.Carry | archive/2019/day8/src/main.rs:177-187 | advancing the column, wrapping into the next row and then the next layer, moves to the next input position |
| SpaceImage.Place | archive/2019/day8/src/main.rs:175 | storing one digit fills the place of its input position and nothing else |
| SpaceImage.Unpack | archive/2019/day8/src/main.rs:150-189 | fails exactly when the `i64` product width·height is 0 or overflows, when a dimension is negative and there is input, or (both positive) when a character is not a digit; with positive dimensions every place of layer k, row r, column c holds the digit at (k·height + r)·width + c, or 0 past the end; with a negative one there are no layers |
| SpaceImage.Decode | archive/2019/day8/src/main.rs:150-192 | the program after the `i64` dimensions are read, for any dimensions: the file without its last character is unpacked, then the checksum and the flattened image; every failure of the unpacking is a failure here |
| SevenSegment.ParseSignal | archive/2021/day8/src/main.rs:38-49 | a line parses exactly when splitting it at the bar separator gives two halves; otherwise the panic is an error |
| SevenSegment.ParseSignalJoins | archive/2021/day8/src/main.rs:38-44 | the parsed words joined with single spaces, around the bar separator, give the line back |
| SevenSegment.ParseShowSignal | archive/2021/day8/src/main.rs:38-49 | a signal of words without space or bar, written as a note line, parses back to itself |
| SevenSegment.ParseSignals | archive/2021/day8/src/main.rs:34-56 | the lines parse exactly when each line does, and then line i gives signal i |
| SevenSegment.UniqueOutputDigits | archive/2021/day8/src/main.rs:62-74 | the count equals the number of output words, over all signals, of length 2, 3, 4 or 7 |
| SevenSegment.UniqueDigitsAppend | archive/2021/day8/src/main.rs:65-71 | the count over two batches of signals is the sum of their counts |
| SevenSegment.UniqueWordsAll | archive/2021/day8/src/main.rs:66-70 | at most every output word counts, and all of them count exactly when every word has a unique length |
| SevenSegment.Classify | archive/2021/day8/src/main.rs:97-137 | a digit is assigned exactly for patterns of 5 or 6 segments, and the slot is a digit |
| SevenSegment.FirstMatch | archive/2021/day8/src/main.rs:146-150 | the first slot equal to the pattern, with no earlier equal slot; none when no slot is equal |
| SevenSegment.CalculateOutput | archive/2021/day8/src/main.rs:77-155 | the result is Decode of the signal: the error when a revealing pattern is missing, else the reading |
| SevenSegment.Reveal | archive/2021/day8/src/main.rs:80-89 | the array afterwards is the first pass over the input words applied to its old contents |
| SevenSegment.Sort | archive/2021/day8/src/main.rs:95-140 | the array afterwards is the second pass over the input words applied to its old contents |
| SevenSegment.Read | archive/2021/day8/src/main.rs:143-152 | the total is the reading of the output words against the array's slots |
| SevenSegment.AssignUntouched | archive/2021/day8/src/main.rs:80-89 | a slot whose size no input pattern has keeps its old code through the first pass |
| SevenSegment.AssignLast | archive/2021/day8/src/main.rs:80-89 | the slot of 1, 7, 4 or 8 holds the last input pattern of 2, 3, 4 or 7 segments |
| SevenSegment.AssignFound | archive/2021/day8/src/main.rs:80-93 | that slot is filled exactly when some input pattern has the size |
| SevenSegment.DecodeFails | archive/2021/day8/src/main.rs:91-93 | the panic happens exactly when the input lacks a pattern of 2, 3, 4 or 7 segments |
| SevenSegment.ReadingBound | archive/2021/day8/src/main.rs:143-152 | with ten slots the total has at most as many decimal digits as there are output words |
| SevenSegment.ReadingDigits | archive/2021/day8/src/main.rs:142-152 | output words matching slots ds in order give the base-10 number with digits ds |
| SevenSegment.ReadingSkips | archive/2021/day8/src/main.rs:146-151 | an output word matching no slot is skipped: removing it leaves the total unchanged |
| SevenSegment.StandardClassified | archive/2021/day8/src/main.rs:97-137 | on the unscrambled display every 5- and 6-segment digit is classified as itself |
| SevenSegment.ClassifyRenamed | archive/2021/day8/src/main.rs:97-137 | Classify gives the same answer under any one-to-one renaming of the wires |
| SevenSegment.AssignWired | archive/2021/day8/src/main.rs:80-89 | under a wiring every slot holds nothing or its own digit's pattern, and each revealed digit present is found |
| SevenSegment.DeduceWired | archive/2021/day8/src/main.rs:95-140 | under a wiring the second pass keeps correct slots and fills each 5- and 6-segment digit present |
| SevenSegment.WiredCodes | archive/2021/day8/src/main.rs:80-140 | inputs showing all ten digits fill every slot with its own digit's pattern, so there is no panic |
| SevenSegment.WiredMatch | archive/2021/day8/src/main.rs:144-150 | when every slot holds its own pattern, a word showing d matches slot d |
| SevenSegment.DecodeWired | archive/2021/day8/src/main.rs:77-155 | for every wiring, inputs showing all ten digits and outputs showing ds give exactly the number with digits ds |
| SevenSegment.Decode | archive/2021/day8/src/main.rs:77-155 | what `calculate_output` returns: the fault when a pattern for 1, 4, 7 or 8 is missing, else the output words read through the deduced wiring |
| SmokeBasin.Row | 2021/day9/src/main.rs:43-50 | one height per digit character of the line, each between 0 and 9, never more heights than characters |
| SmokeBasin.RowDigits | 2021/day9/src/main.rs:43-50 | a line made only of digits gives exactly one height per character, its digit value |
| SmokeBasin.ParseInput | 2021/day9/src/main.rs:34-57 | the map is refused (the panic) exactly when there are no lines or the first line has no digit; otherwise it is the rows of heights, with a non-empty first row |
| SmokeBasin.LowAtIsLow | 2021/day9/src/main.rs:66-116 | the chain of `continue` checks of `low_points` lets a cell through exactly when it is lower than every on-map cell around it, diagonals included |
| SmokeBasin.ScanMember | 2021/day9/src/main.rs:66-67 | a cell is in the row-by-row scan exactly when it lies inside the rectangle and passes the test |
| SmokeBasin.LowPoints | 2021/day9/src/main.rs:60-121 | the out-of-range panic exactly when the map has no rows or a row shorter than the first; otherwise the row-major scan of the first row's width with the source's checks, every cell in it on the map |
| SmokeBasin.LowPointsExact | 2021/day9/src/main.rs:60-121 | the cells `low_points` returns are exactly the low points of the map |
| SmokeBasin.LowStrict | 2021/day9/src/main.rs:60-121 | two cells next to each other, diagonally or not, are never both low points |
| SmokeBasin.Consider | 2021/day9/src/main.rs:139-145 | one guarded push: when the search may climb from p to q and q is new, q is pushed and inserted, otherwise nothing changes; the search bookkeeping is kept |
| SmokeBasin.AcrossRows | 2021/day9/src/main.rs:138-174 | after the pushes for the cells below and above p, each of them the search may climb to is in the basin |
| SmokeBasin.AlongRow | 2021/day9/src/main.rs:192-208 | after the pushes for the cells right and left of p, each of them the search may climb to is in the basin |
| SmokeBasin.Visit | 2021/day9/src/main.rs:135-209 | one turn of the loop keeps the search state and either grows the basin on the map or shrinks the stack, so the loop ends |
| SmokeBasin.BasinPoints | 2021/day9/src/main.rs:125-215 | the basin is the least set closed under climbing from the start cell: every cell reachable by climbing to orthogonal, at-least-as-high non-9 cells is in it, and nothing else; from a low point every basin cell is strictly higher, so the low point is not in it |
| SmokeBasin.SupportedIn | 2021/day9/src/main.rs:125-215 | every cell the search added lies in any set closed under climbing from the start: the basin is minimal |
| SmokeBasin.FlowsBeside | 2021/day9/src/main.rs:138-208 | the search can climb only to the four cells beside a cell that the four guards of `basin_points` enumerate |
| SmokeBasin.RiskBounds | 2021/day9/src/main.rs:10-16 | with digit heights the risk level (sum of each low point's height plus one) lies between the number of low points and ten times it |
| SmokeBasin.BasinSize | 2021/day9/src/main.rs:19-22 | each size is the basin's cell count plus one for the low point |
| SmokeBasin.LargestBasins | 2021/day9/src/main.rs:18-30 | a map with no rows or a row shorter than the first is the out-of-range panic of `low_points`; otherwise fewer than three low points is the `len - 3` index failure (Err), and else the product of the last three of the sorted basin sizes |
| SmokeBasin.TopThreeLargest | 2021/day9/src/main.rs:24-29 | in an ascending sequence of non-negative sizes the last three give the largest product of any three entries |
| SmokeBasin.SizesPositive | 2021/day9/src/main.rs:21 | every sorted basin size is at least one, so the product rule above applies to it |
| Sorting.Sort | 2021/day9/src/main.rs:24 | `sort`: the same entries (as a multiset) in ascending order |
| Sorting.SortUnique | 2021/day9/src/main.rs:24 | any ascending arrangement of the same entries is the sort's result: sorting has one answer |
| Day9Computer.Computer.constructor | 2019/day9/src/main.rs:14-24 | `computer(program, memory)` keeps both vectors, starts pc and relative base at 0, input and output empty, `halt` false |
| Day9Computer.Computer.PushInput | 2019/day9/src/main.rs:355-360 | `input.push` appends one value and changes nothing else |
| Day9Computer.Computer.Run | 2019/day9/src/main.rs:84-327 | `run` updates the fields in place as the step function of the direct rule says, until it halts, suspends or panics |
| Day9Computer.Scratch | 2019/day9/src/main.rs:349-352 | the memory `main` gives each part is 10,000 zero words |
| Day9Computer.Part | 2019/day9/src/main.rs:354-362 | each part runs a fresh computer over the program and the zeroed memory with the single input 1 or 2 |
| DiagnosticReport.Bits | 2021/day3/src/main.rs:72-107 | the counted digits of a code are its '0' and '1' characters; every other character is skipped without advancing the position |
| DiagnosticReport.CountWithin | 2021/day3/src/main.rs:70-108 | a position with a non-zero count lies within the longest counted code |
| DiagnosticReport.TallyGet | 2021/day3/src/main.rs:123-131 | reading the counter map with a missing key as 0 gives the number of codes with that digit at that position |
| DiagnosticReport.TallyStep | 2021/day3/src/main.rs:81-98 | counting one more digit adds one to that position's entry in that digit's map and leaves the other map as it was |
| DiagnosticReport.TallyEmptyCode | 2021/day3/src/main.rs:70-72 | a code with no digits changes neither map |
| DiagnosticReport.AllBits | 2021/day3/src/main.rs:70 | there is one digit string per code |
| DiagnosticReport.PowerRatesShape | 2021/day3/src/main.rs:110-142 | maps of different sizes give two empty strings; otherwise gamma and epsilon have one binary digit per counted position, differ at each one, and gamma has '1' exactly where ones are at least as many as zeros |
| DiagnosticReport.CalculatePowerRates | 2021/day3/src/main.rs:66-143 | the counting loops and the digit loop return the gamma and epsilon of the counts |
| DiagnosticReport.CountCode | 2021/day3/src/main.rs:71-107 | the inner loop over one code's characters leaves the two maps holding the counts with that code included |
| DiagnosticReport.BitsNext | 2021/day3/src/main.rs:72-79 | one more character adds itself to the counted digits only when it is '0' or '1' |
| DiagnosticReport.Column | 2021/day3/src/main.rs:156-162 | counting a column succeeds exactly when every code is longer than the index, and then counts at most one digit per code |
| DiagnosticReport.Keep | 2021/day3/src/main.rs:164-168 | `retain` keeps exactly the codes whose character at the index is the wanted one, and never grows the list |
| DiagnosticReport.KeepCount | 2021/day3/src/main.rs:156-168 | for codes binary at the index, the codes kept for '1' and for '0' are as many as the column counts, which add up to the list length |
| DiagnosticReport.ColumnUnfolds | 2021/day3/src/main.rs:156-162 | the first code adds its character to one of the two counts of the rest |
| DiagnosticReport.FilterKeeps | 2021/day3/src/main.rs:152-191 | a filtering loop ends with at most one code, and every code it ends with was in the list |
| DiagnosticReport.OxygenNeverEmpty | 2021/day3/src/main.rs:152-170 | with binary codes, the oxygen loop on a non-empty list ends with exactly one code |
| DiagnosticReport.ScrubberCanEmpty | 2021/day3/src/main.rs:173-191 | the scrubber loop on the codes 10 and 11 drops both and ends with an empty list |
| DiagnosticReport.MaxLength | 2021/day3/src/main.rs:152-191 | no code is longer than the bound, which measures how far `index` can advance |
| DiagnosticReport.AsWrittenPanics | 2021/day3/src/main.rs:193-201 | as written, the codes 10 and 11 pass the guard with one oxygen code and no scrubber code, and `scrubber_list[0]` panics |
| DiagnosticReport.LifeSupportFromCodes | 2021/day3/src/main.rs:193-201 | with the guard as intended, the rates are the empty pair or two of the input codes |
| DiagnosticReport.CountColumn | 2021/day3/src/main.rs:153-162 | the `for elem` loop returns the ones and zeros of the column, or panics at the first code too short |
| DiagnosticReport.FilterLoop | 2021/day3/src/main.rs:151-170 | one `while list.len() > 1` loop returns the list the filtering rounds describe, or the panic of a short code |
| DiagnosticReport.CalculateLifeSupportRates | 2021/day3/src/main.rs:147-202 | the two loops and the final guard, as written, give the as-written life-support result |
| IntcodeDecode.Rem | archive/2019/intcode/src/lib.rs:47-63 | Rust's `%` by a positive divisor: below the divisor in size, with the sign of the dividend, and the Euclidean remainder on non-negative words |
| IntcodeDecode.Shift | archive/2019/intcode/src/lib.rs:63 | `(x - x % 10) / 10` drops the lowest decimal digit exactly, truncating toward zero |
| IntcodeDecode.ModeWord | archive/2019/intcode/src/lib.rs:47-48 | `(w - w % 100) / 100` drops the instruction's two digits exactly, truncating toward zero |
| IntcodeDecode.DivDiv | archive/2019/intcode/src/lib.rs:48-63 | dividing by a and then by b is dividing by a * b |
| IntcodeDecode.ShiftNDecimal | archive/2019/intcode/src/lib.rs:53-64 | on a non-negative word, k shifts divide by 10^k |
| IntcodeDecode.ShiftNNegate | archive/2019/intcode/src/lib.rs:53-64 | shifting commutes with negation |
| IntcodeDecode.DigitsOfWord | archive/2019/intcode/src/lib.rs:42-67 | on a non-negative word the instruction is the word mod 100 and mode i is decimal digit i + 2; on a negative word every mode digit is the negation of that of its absolute value |
| IntcodeDecode.DecodeRaw | 2019/day5/src/main.rs:6-25 | the raw decoder returns exactly len parameters and len mode digits |
| IntcodeDecode.FirstInvalid | archive/2019/intcode/src/lib.rs:56-61 | the first mode digit that is not 0, 1 or 2, every digit before it being valid |
| IntcodeDecode.Decode | archive/2019/intcode/src/lib.rs:42-67 | the validating decoder returns exactly len parameters and len modes |
| IntcodeDecode.DecodeRefinesRaw | archive/2019/intcode/src/lib.rs:42-67 | validating decoding succeeds exactly when raw decoding does and every digit is a mode, and then agrees with it digit for digit; only an index or a mode digit can make it panic |
| IntcodeDecode.FetchOnly | archive/2019/intcode/src/lib.rs:93 | decoding with no parameters reads one word and never checks a mode |
| IntcodeDecode.PlainWord | archive/2019/intcode/src/lib.rs:42-67 | a word below 100 puts every parameter in position mode |
| IntcodeDecode.ParseOpcodeRaw | 2019/day5/src/main.rs:6-25 | the raw decoding loop computes `DecodeRaw` |
| IntcodeDecode.ParseOpcode | archive/2019/intcode/src/lib.rs:42-67 | the validating decoding loop computes `Decode`, panicking on the first bad index or digit in the order the loop meets them |
| IntcodeDecode.Cell | archive/2019/intcode/src/lib.rs:104 | a vector index succeeds exactly inside the vector and reads the element there |
| IntcodeDecode.IterateEnds | archive/2019/intcode/src/lib.rs:91-369 | a run ends as the step on its last machine says: suspended at a blocked input, halted at opcode 99, or a panic |
| IntcodeDecode.IterateMoreFuel | archive/2019/intcode/src/lib.rs:92 | a run that ends within its fuel ends the same way with more fuel |
| IntcodeDecode.IterateKeeps | archive/2019/intcode/src/lib.rs:92 | a relation every continuing step keeps holds between a run's start and its last machine |
| IntcodeDecode.Iterate | archive/2019/intcode/src/lib.rs:91-369 | the run loop over a step function: a suspended run stops on a machine whose next step blocks for input, and a halted run took at least one step |
| IntcodeSplit.Load | archive/2019/intcode/src/lib.rs:103-113 | an operand is read from memory in position and relative mode and is the parameter in immediate mode; only an index outside memory panics |
| IntcodeSplit.Target | archive/2019/intcode/src/lib.rs:115-120 | a write target lies inside memory, and it is refused exactly in immediate mode |
| IntcodeSplit.Address | archive/2019/intcode/src/lib.rs:117-118 | under either rule the address is inside memory; only an index outside memory panics |
| IntcodeSplit.Arithmetic | archive/2019/intcode/src/lib.rs:98-126 | opcodes 1, 2, 7 and 8 only ever continue |
| IntcodeSplit.ReadInput | archive/2019/intcode/src/lib.rs:158-181 | opcode 3 either continues or blocks |
| IntcodeSplit.WriteOutput | archive/2019/intcode/src/lib.rs:183-199 | opcode 4 only ever continues |
| IntcodeSplit.Jump | archive/2019/intcode/src/lib.rs:201-256 | opcodes 5 and 6 only ever continue |
| IntcodeSplit.AdjustBase | archive/2019/intcode/src/lib.rs:336-351 | opcode 9 only ever continues |
| IntcodeSplit.Step | archive/2019/intcode/src/lib.rs:92-368 | a step that does not panic starts inside the program; a continuing step keeps program, halt and memory size, consumes input from the front and only appends output; opcode 99 only sets halt |
| IntcodeSplit.StepFrame | archive/2019/intcode/src/lib.rs:98-351 | only opcodes 1-9 continue; only 1, 2, 3, 7 and 8 write memory, in at most one cell; only 3 consumes input, only 4 appends output, only 9 moves the relative base; every non-jump advances pc past its parameters |
| IntcodeSplit.ArithmeticFrame | archive/2019/intcode/src/lib.rs:258-334 | opcodes 1, 2, 7 and 8 write one cell and advance pc by 4, touching nothing else |
| IntcodeSplit.ReadInputFrame | archive/2019/intcode/src/lib.rs:158-181 | opcode 3 removes `input[0]`, stores it in one cell and advances pc by 2 |
| IntcodeSplit.OtherFrame | archive/2019/intcode/src/lib.rs:183-256 | opcodes 4, 5, 6 and 9 leave memory and input alone; only 4 appends one output and only 9 moves the base |
| IntcodeSplit.StepBlocks | archive/2019/intcode/src/lib.rs:158-165 | `run` returns with nothing changed exactly at a decodable opcode 3 with an empty input |
| IntcodeSplit.StepStops | archive/2019/intcode/src/lib.rs:353-356 | exactly opcode 99 stops the machine, whatever its mode digits |
| IntcodeSplit.StepRejects | archive/2019/intcode/src/lib.rs:358-366 | any opcode outside the table panics |
| IntcodeSplit.KeepsChains | archive/2019/intcode/src/lib.rs:92 | what a run keeps is kept across consecutive runs |
| IntcodeSplit.StepKeeps | archive/2019/intcode/src/lib.rs:92-368 | every continuing step keeps the program and memory size, consumes input from the front and only appends output |
| IntcodeSplit.RunEvolves | archive/2019/intcode/src/lib.rs:91-369 | a run that does not panic keeps the program and memory size, consumes input from the front and only appends output; `halt` is set exactly when it halts |
| IntcodeSplit.RunMoreFuel | archive/2019/intcode/src/lib.rs:92 | a run that ends within its fuel ends the same way with any more fuel |
| IntcodeSplit.SuspendThenResume | archive/2019/intcode/src/lib.rs:158-181 | a suspended machine waits at an opcode 3 with no input; given input, running again retries that instruction, consuming the first value and moving pc by 2, and never blocks again |
| IntcodeSplit.HaltedIsFinal | archive/2019/intcode/src/lib.rs:353-356 | a halted machine has `halt` set and running it again halts at once, unchanged |
| IntcodeSplit.DestinationRulesDiffer | 2019/day9/src/main.rs:105-110 | on one program the direct rule of day 9 outputs the product and the indirect rule of lib.rs outputs 0, because it stores through cell 7 |
| IntcodeSplit.MultiplyDecodes | archive/2019/intcode/src/lib.rs:42-67 | the word 1102 decodes to a multiplication of two immediates into a position |
| IntcodeSplit.MultiplyThenOutput | archive/2019/intcode/src/lib.rs:128-199 | the product lands where the rule puts it, and `4,7` then outputs cell 7 |
| IntcodeSplit.RunStep | archive/2019/intcode/src/lib.rs:92 | a continuing step hands the run on to the next machine |
| IntcodeSplit.RunStop | archive/2019/intcode/src/lib.rs:353-356 | a step at opcode 99 ends the run halted |
| IntcodeSplit.MultiplyStep | archive/2019/intcode/src/lib.rs:128-156 | `1102,34915192,34915192,7` stores the product where the rule says and advances pc by 4 |
| IntcodeSplit.OutputStep | archive/2019/intcode/src/lib.rs:183-199 | `4,7` appends cell 7 to the output |
| IntcodeSplit.EchoSuspendsThenEchoes | archive/2019/intcode/src/lib.rs:158-199 | `3,0,4,0,99` suspends with no input and echoes its input once given one |
| IntcodeSplit.EchoSuspends | archive/2019/intcode/src/lib.rs:158-165 | without input `3,0` suspends with nothing changed |
| IntcodeSplit.EchoReads | archive/2019/intcode/src/lib.rs:167-180 | with input 7, `3,0` stores 7 in cell 0 and empties the input |
| IntcodeSplit.EchoWrites | archive/2019/intcode/src/lib.rs:183-199 | `4,0` outputs cell 0 |
| IntcodeSplit.Run | archive/2019/intcode/src/lib.rs:91-369 | `run` with this variant's step: a suspended run stops on an instruction that blocks for input |
| IntcodeUnified.Load | 2019/day7/src/main.rs:78-92 | mode digit 0 reads `memory[param]` and any other digit is the parameter itself, with no error |
| IntcodeUnified.Store | 2019/day7/src/main.rs:94 | `memory[a] = v` panics exactly outside the vector and otherwise replaces that one cell |
| IntcodeUnified.Arithmetic | 2019/day7/src/main.rs:74-120 | opcodes 1, 2, 7 and 8 only ever continue |
| IntcodeUnified.ReadInput | 2019/day7/src/main.rs:122-134 | opcode 3 either continues or blocks |
| IntcodeUnified.WriteOutput | 2019/day7/src/main.rs:136-151 | opcode 4 only ever continues |
| IntcodeUnified.Jump | 2019/day7/src/main.rs:153-214 | opcodes 5 and 6 only ever continue |
| IntcodeUnified.Step | 2019/day7/src/main.rs:70-286 | a step that does not panic starts inside memory; a continuing step keeps halt and memory size, consumes input from the front and only appends output; opcode 99 only sets halt; only the amplifier's policy blocks |
| IntcodeUnified.StepFrame | 2019/day7/src/main.rs:74-274 | only opcodes 1-8 continue; only 1, 2, 3, 7 and 8 write memory, in one cell; only 3 consumes input; only 4 appends output; every non-jump advances pc past its parameters |
| IntcodeUnified.StepOnEmptyInput | 2019/day7/src/main.rs:122-127 | opcode 3 with no input returns with nothing changed in the amplifier, and panics in day 5's stdin reader |
| IntcodeUnified.StepStops | 2019/day7/src/main.rs:276-279 | exactly opcode 99 stops the machine |
| IntcodeUnified.StepRejects | 2019/day7/src/main.rs:281-284 | any opcode outside the table panics |
| IntcodeUnified.KeepsChains | 2019/day7/src/main.rs:70 | what a run keeps is kept across consecutive runs |
| IntcodeUnified.StepKeeps | 2019/day7/src/main.rs:70-286 | every continuing step keeps the memory size, consumes input from the front and only appends output |
| IntcodeUnified.RunEvolves | 2019/day7/src/main.rs:67-287 | a run that does not panic keeps the memory size, consumes input from the front and only appends output; `halt` is set exactly when it halts; only the amplifier suspends |
| IntcodeUnified.RunMoreFuel | 2019/day7/src/main.rs:70 | a run that ends within its fuel ends the same way with any more fuel |
| IntcodeUnified.SuspendThenResume | 2019/day7/src/main.rs:122-134 | a suspended amplifier waits at an opcode 3 with no input; given input, the same instruction consumes the first value and moves pc by 2 |
| IntcodeUnified.HaltedIsFinal | 2019/day7/src/main.rs:276-279 | a halted machine has `halt` set and running it again halts at once, unchanged |
| IntcodeUnified.SelfModification | 2019/day7/src/main.rs:30-94 | instructions and data share one vector: `1,0,0,0,99` overwrites its own first word with 2 before halting |
| IntcodeUnified.SelfModificationAdds | 2019/day7/src/main.rs:74-96 | the add at position 0 writes its sum over its own opcode |
| IntcodeUnified.SelfModificationHalts | 2019/day7/src/main.rs:276-279 | opcode 99 at position 4 stops the machine |
| IntcodeUnified.Run | 2019/day7/src/main.rs:67-288 | `run` with the amplifier's input policy: a suspended run stops on an instruction that blocks for input |
| LibComputer.StrideAt | archive/2019/intcode/src/lib.rs:375-445 | one listing step moves past the instruction's parameters, and ends the listing exactly at opcode 99 |
| LibComputer.Listing | archive/2019/intcode/src/lib.rs:371-447 | the listing from a position inside the program starts at that position; from past its end it is empty |
| LibComputer.ListingShape | archive/2019/intcode/src/lib.rs:371-447 | every listed position lies in the program, each follows the one before by that instruction's width, and only the last can be 99 |
| LibComputer.ListingEnds | archive/2019/intcode/src/lib.rs:374-437 | the listing stops early only at opcode 99; otherwise its last instruction reaches past the end of the program |
| LibComputer.ListingUnfolds | archive/2019/intcode/src/lib.rs:374-446 | the listing from a position is its stride followed by the listing after it, or the stride's panic |
| LibComputer.ListingGlue | archive/2019/intcode/src/lib.rs:374-446 | the positions listed so far, the current one and the listing after it make the whole listing |
| LibComputer.ListStep | archive/2019/intcode/src/lib.rs:375-445 | the loop body decodes through `parse_opcode` as the listing step says, 99 with one parameter |
| LibComputer.RunOnce | archive/2019/intcode/src/lib.rs:92-368 | a panicking, blocked or halting first instruction ends the run that way |
| LibComputer.RunHandsOn | archive/2019/intcode/src/lib.rs:92 | a continuing instruction hands the rest of the run to the next machine |
| LibComputer.Computer.constructor | archive/2019/intcode/src/lib.rs:20-30 | `new` starts with pc and relative base 0, all vectors empty and `halt` false |
| LibComputer.Computer.Run | archive/2019/intcode/src/lib.rs:91-369 | `run` updates the fields in place as the step function of the indirect rule says, until it halts, suspends or panics |
| LibComputer.Computer.PrintProgram | archive/2019/intcode/src/lib.rs:371-447 | the walk visits exactly the positions of the listing, or panics where decoding does |
| Passports.AssignBirth | 2020/day4/src/main.rs:35-37 | a `byr` token sets the birth field, and no other field, to the text between the first colon and the next colon or the end |
| Passports.SplitAfterKey | 2020/day4/src/main.rs:35 | splitting `key:rest` on ':' gives the key and then the pieces of the rest |
| Passports.LoadCount | 2020/day4/src/main.rs:22-50 | loading gives one passport per blank-line group |
| Passports.LoadPassports | 2020/day4/src/main.rs:16-53 | the loops over groups and tokens give the passports the token rules describe, or the panic of a known key without a value (`tokens[1]`) |
| Passports.BeforeNothing | 2020/day4/src/main.rs:20 | nothing pushed before leaves the result as it is |
| Passports.BeforeTwice | 2020/day4/src/main.rs:49 | pushing one group more is appending it to what was pushed before |
| Passports.CountFilled | 2020/day4/src/main.rs:57-87 | the number of filled passports is at most the number of passports |
| Passports.FilledCount | 2020/day4/src/main.rs:57-87 | the loop counts exactly the passports whose seven required fields are all non-empty (`cid` is not required) |
| Passports.ValidIsFilled | 2020/day4/src/main.rs:91-218 | every check fails on an empty field, so a valid passport is a filled one |
| Passports.NineDigitsParse | 2020/day4/src/main.rs:205-212 | nine ASCII digits always parse as an i32, so such an id always passes |
| Passports.CountValid | 2020/day4/src/main.rs:91-218 | the number of valid passports is at most the number of passports |
| Passports.ValidAtMostFilled | 2020/day4/src/main.rs:57-218 | part two never counts more passports than part one |
| Passports.HairColour | 2020/day4/src/main.rs:165-186 | the flag stays true exactly when every character after the first is a digit or a lower-case letter a to f |
| Passports.CheckHeight | 2020/day4/src/main.rs:123-154 | a height passes exactly when it has at least three characters, ends in "cm" or "in", and the i32 before the unit lies in 150..193 for cm or 59..76 for in |
| Passports.CheckHair | 2020/day4/src/main.rs:157-190 | a hair colour passes exactly when it is '#' and six lower-case hex digits |
| Passports.CheckPassport | 2020/day4/src/main.rs:95-214 | a passport passes exactly when its years (an unparseable year read as 0) lie in 1920..2002, 2010..2020 and 2020..2030, and its height, hair, eye colour and nine-character i32 id pass |
| Passports.ValidCount | 2020/day4/src/main.rs:91-218 | the loop counts exactly the passports that pass every check |
| RockPaperScissors.ShapeValue | 2022/day2/src/main.rs:30-36 | a shape is worth 1, 2 or 3 points |
| RockPaperScissors.OutcomeValue | 2022/day2/src/main.rs:111-117 | an outcome is worth 0, 3 or 6 points |
| RockPaperScissors.ValuesInjective | 2022/day2/src/main.rs:30-117 | distinct shapes are worth different points, and so are distinct outcomes |
| RockPaperScissors.ParseShape | 2022/day2/src/main.rs:39-49 | a shape parses exactly from A, B, C, X, Y or Z (otherwise it panics); A and X are rock, B and Y paper |
| RockPaperScissors.ParseOutcome | 2022/day2/src/main.rs:129-136 | an outcome parses exactly from X, Y or Z, and otherwise panics |
| RockPaperScissors.ReverseInvolution | 2022/day2/src/main.rs:120-126 | reversing twice gives the outcome back, only a draw is its own reverse, and an outcome and its reverse are worth 6 points together |
| RockPaperScissors.PlayRules | 2022/day2/src/main.rs:52-70 | `play` wins exactly when the shape beats the other under the cyclic rule, loses exactly when it is beaten, draws exactly on equal shapes, and swapping players reverses the outcome |
| RockPaperScissors.SolveAchieves | 2022/day2/src/main.rs:76-94 | the shape `solve` picks gets the desired outcome against the opponent, and no other shape does |
| RockPaperScissors.ScoresAgree | 2022/day2/src/main.rs:167-175 | part two scores a round as part one would score the solved shape, and each round's two part-one scores add up to both shape values plus 6 |
| RockPaperScissors.TotalsBound | 2022/day2/src/main.rs:146-176 | after n valid lines the round count has grown by n, and in each part the two totals together have grown by between 8n and 12n |
| RockPaperScissors.SimulatedUnfolds | 2022/day2/src/main.rs:146-176 | the loop from line i on is line i's round, or its panic, followed by the loop from line i + 1 on |
| RockPaperScissors.Simulate | 2022/day2/src/main.rs:139-176 | the loop over the lines gives the totals of all rounds, or the panic of the first bad line |
| RockPaperScissors.PlayRound | 2022/day2/src/main.rs:147-175 | one line's round adds both parts' scores to the totals; a line that is not two words, or a bad shape or outcome letter, panics |
| RockPaperScissors.Play | 2022/day2/src/main.rs:52-70 | a win exactly when the player's shape beats the opponent's under the cyclic rule, a draw exactly on equal shapes |
| RockPaperScissors.Solve | 2022/day2/src/main.rs:76-94 | the chosen shape gets the wanted outcome against the opponent's |
| SyntaxScoring.ValueIncomplete | 2021/day10/src/main.rs:30-38 | `value_incomplete` succeeds exactly on the four closers, with a value from 1 to 4, and panics on an opener |
| SyntaxScoring.SymbolLaws | 2021/day10/src/main.rs:17-102 | every symbol is exactly one of opener and closer, `opposite` is an involution that swaps the two kinds, `matches` holds exactly for an opener and its opposite (a closer matches nothing), and a symbol and its opposite have the same corrupt value |
| SyntaxScoring.From | 2021/day10/src/main.rs:104-119 | a character gives a symbol exactly when it is one of the eight brackets |
| SyntaxScoring.ParseLine | 2021/day10/src/main.rs:131-139 | the `filter_map` keeps at most one symbol per character |
| SyntaxScoring.ScanLine | 2021/day10/src/main.rs:149-165 | the stack scan of one line returns its first closer that does not match the popped opener, or nothing, or the panic of a closer with nothing open |
| SyntaxScoring.CorruptedReports | 2021/day10/src/main.rs:145-169 | a line is reported, with a symbol, exactly when its scan finds that symbol as its first mismatched closer; so at most one report per line |
| SyntaxScoring.CorruptedLines | 2021/day10/src/main.rs:145-169 | the loop over the lines returns the reports, in line order, or the first panic |
| SyntaxScoring.PrefixNothing | 2021/day10/src/main.rs:146 | nothing collected before leaves a loop's result as it is |
| SyntaxScoring.PrefixTwice | 2021/day10/src/main.rs:161-194 | collecting one more batch is appending it to what was collected before |
| SyntaxScoring.Completion | 2021/day10/src/main.rs:199-201 | the completion has one closer per symbol left on the stack |
| SyntaxScoring.LeftoverOpen | 2021/day10/src/main.rs:178-191 | the stack left after a line holds only openers |
| SyntaxScoring.CompletionCloses | 2021/day10/src/main.rs:199-201 | the completion of a stack of openers holds only closers |
| SyntaxScoring.LeftoverAppend | 2021/day10/src/main.rs:178-191 | scanning two pieces of a line one after the other is scanning the whole line |
| SyntaxScoring.CompletionBalances | 2021/day10/src/main.rs:199-201 | each closer of the completion matches the opener it pops, and the stack ends empty |
| SyntaxScoring.CompletedLine | 2021/day10/src/main.rs:172-202 | a line followed by its completion leaves nothing open |
| SyntaxScoring.MissingAreClosers | 2021/day10/src/main.rs:193-201 | every returned completion is non-empty and made of closers |
| SyntaxScoring.MissingForLine | 2021/day10/src/main.rs:176-200 | the scan of one line, then the reversed and opposed stack, gives its completion, or the panic of a closer with nothing open |
| SyntaxScoring.MissingSymbols | 2021/day10/src/main.rs:172-202 | the loop returns one completion for each line that leaves openers, in line order, or the first panic |
| SyntaxScoring.IncompleteValues | 2021/day10/src/main.rs:230-232 | a line of closers has one incomplete value per symbol |
| SyntaxScoring.ScoreIsBase5 | 2021/day10/src/main.rs:229-233 | a line of closers always scores, and its score is the base-5 number whose digits are the closers' values, first closer most significant |
| SyntaxScoring.Shifted | 2021/day10/src/main.rs:231 | shifting the running sum one digit and then by the rest equals shifting it by the whole |
| SyntaxScoring.Base5Front | 2021/day10/src/main.rs:231 | the first closer's value is the most significant base-5 digit |
| SyntaxScoring.IncompleteSum | 2021/day10/src/main.rs:229-233 | the inner loop folds `sum * 5 + value` over the line, or panics at the first opener |
| Text.Split | 2021/day17/src/lib.rs:38 | `split` gives at least one piece, the empty text included |
| Text.SplitJoin | 2021/day17/src/lib.rs:38 | joining the pieces of `split` with the separator gives the text back |
| Text.JoinSplit | 2021/day17/src/lib.rs:48-52 | pieces that hold no separator's first character, joined and split again, come back unchanged |
| Text.SplitFirst | 2021/day17/src/lib.rs:48-52 | text before the first separator splits off as the first piece |
| Text.SplitWhole | 2021/day17/src/lib.rs:48-52 | text without the separator's first character is a single piece |
| Text.SplitChar | 2021/day13/src/main.rs:35 | splitting at one character gives pieces without it, one more than its occurrences |
| Text.SplitAny | 2020/day4/src/main.rs:34 | splitting at a set of characters gives at least one piece |
| Text.SplitAnyPieces | 2020/day4/src/main.rs:34 | no piece holds a separator, and the pieces together are the text with its separators dropped |
| Text.Lead | archive/2021/day7/src/main.rs:36 | the leading white space of the text, and the first character after it is not white space |
| Text.End | archive/2021/day7/src/main.rs:36 | the text stripped of trailing white space ends in a character that is not white space |
| Text.Trim | archive/2021/day7/src/main.rs:36 | `trim` leaves no white space at either end |
| Text.TrimClean | archive/2021/day7/src/main.rs:36 | text without white space at its ends is its own trim |
| TrickShot.Parse | 2021/day17/src/lib.rs:37-64 | with the heading check as intended, a parsed line has exactly four words, and its first two are `target` and `area:` |
| TrickShot.ShowFree | 2021/day17/src/lib.rs:38-53 | a written number holds no space, `=`, `.` or `,`, so the splits of `parse` cannot cut inside one |
| TrickShot.SplitTwo | 2021/day17/src/lib.rs:48-53 | joining two pieces that do not hold the separator, then splitting, gives the two pieces back |
| TrickShot.XPieces | 2021/day17/src/lib.rs:48-50 | the word `x=a..b,` splits at `=` into `x` and `a..b,`, and that splits at `..` into a and `b,` |
| TrickShot.YPieces | 2021/day17/src/lib.rs:51-53 | the word `y=c..d` splits at `=` into `y` and `c..d`, and that splits at `..` into c and d |
| TrickShot.DescribeWords | 2021/day17/src/lib.rs:38 | a target description splits at spaces into its four words |
| TrickShot.DescribeBounds | 2021/day17/src/lib.rs:48-63 | the bounds words of a description read back as the four i64 bounds, the comma after x's upper bound dropped by `next_back` |
| TrickShot.ParseDescribe | 2021/day17/src/lib.rs:37-64 | `parse` reads back every description with i64 bounds: the round trip of writing and parsing a target |
| TrickShot.ParseExample | 2021/day17/src/lib.rs:149-159 | `target area: x=1..14, y=15..29` parses as the target 1, 14, 15, 29 |
| TrickShot.ExampleDescribed | 2021/day17/src/lib.rs:151 | the test line is the description of the target 1, 14, 15, 29 |
| TrickShot.ExampleWords | 2021/day17/src/lib.rs:151 | the bounds words of the test line are `x=1..14,` and `y=15..29` |
| TrickShot.ExampleJoined | 2021/day17/src/lib.rs:151 | the test line's four words joined by spaces give the line |
| TrickShot.ExampleLine | 2021/day17/src/lib.rs:151 | the heading word and the rest of the test line, joined by a space, give the line |
| TrickShot.ExampleJoinedX | 2021/day17/src/lib.rs:151 | the two bounds words joined by a space give the end of the test line |
| TrickShot.ExampleJoinedArea | 2021/day17/src/lib.rs:151 | `area:` and the two bounds words joined by spaces give the rest of the test line |
| TrickShot.AsWrittenAcceptsBadHeading | 2021/day17/src/lib.rs:44-46 | as written, the line `targit area: x=1..14, y=15..29` is accepted as the target 1, 14, 15, 29, where the intended check rejects it |
| TrickShot.InTargetNotMissed | 2021/day17/src/lib.rs:67-100 | a probe inside the target, every bound included, has not missed it |
| TrickShot.MissedForever | 2021/day17/src/lib.rs:80-116 | once `missed` holds it holds after every later `update`, and the probe is never in the target again |
| TrickShot.FlyingNext | 2021/day17/src/lib.rs:131-137 | a probe that is still flying for n more steps has not missed, and after one `update` it is still flying for n - 1 steps |
| TrickShot.PeakBounds | 2021/day17/src/lib.rs:131-137 | the flight loop's running maximum is at least its start and at least every height the probe reaches before it misses |
| TrickShot.PeakAttained | 2021/day17/src/lib.rs:131-137 | the running maximum is its start or the height of some state before the probe misses |
| TrickShot.SweepYBounds | 2021/day17/src/lib.rs:123-138 | the inner loop's maximum bounds every height reached by the launches it tries |
| TrickShot.SweepXBounds | 2021/day17/src/lib.rs:122-139 | the outer loop's maximum bounds every height reached by the launches it tries |
| TrickShot.HighestLaunchBounds | 2021/day17/src/lib.rs:119-142 | the highest launch is at least 0 and at least every height any tried launch, x in x_min..x_max and y in y_min..y_max with the upper ends left out, reaches before it misses |
| TrickShot.Probe.constructor | 2021/day17/src/lib.rs:124-129 | a new probe sits at the origin with the given velocity |
| TrickShot.Probe.Update | 2021/day17/src/lib.rs:103-116 | the probe moves by its velocity, x's velocity is dragged one step toward 0, and y's velocity drops by one |
| TrickShot.FindHighestLaunch | 2021/day17/src/lib.rs:119-142 | the nested loops and the flight loop return the highest launch over the tried velocities |
| TrickShot.Step | 2021/day17/src/lib.rs:103-116 | the position moves by the velocity, the y velocity drops by one, the x velocity moves one unit toward 0 and never changes sign |
| TrickShot.Missed | 2021/day17/src/lib.rs:80-100 | the three tests of `missed`: falling below the target, stalled short of it, or passed beyond it |

## Left out

Machine integers:
- IntcodeDecode: IntCode words are mathematical integers. The `i64` overflow of an add or a multiply in the library, day-9, day-7 and day-5 machines is not modelled. A negative `i64` cast with `as usize` is always out of range, so it is modelled as an index below 0 that faults.
- Day2Intcode.Step: an add or a multiply past 2^64 is modelled as the overflow panic of a debug build (`Err(Overflow)`). A release build would wrap instead, and that is not modelled.
- CrabAlignment: the `i64` overflow of the fuel sums in `Moves` is not modelled.
- TrickShot.Step: probe positions and velocities are unbounded integers, so `i64` overflow is not modelled.
- BitsParser: a literal longer than 63 bits would overflow `2i64.pow` and the `i64` value; the model's values are unbounded. The `i64` overflow of sums and products in BitsCalculator is not modelled either.
- SonarSweep: the `i32` overflow of sums is not modelled. The same goes for CalorieCounting and ReportRepair, which take their bounds from SonarSweep.
- SevenSegment.CalculateOutput: the `usize` overflow of the output and its `as i64` cast are not modelled.
- ReposeRecord and InventoryManagement: the Go `uint`/`uint64` counters are naturals.
- ChronalCalibration does model the `int64` wrap-around of the frequency, because termination depends on it.
- SyntaxScoring.IncompleteSum: the `i64` score `sum * 5 + value` overflows from 28 closers on; the model's score is unbounded.
- Origami: the `as i64` cast of a parsed fold line and `2 * fold.point` are unbounded integers, so their overflow is not modelled.
- HydrothermalVenture: the `i32` coordinates are range-checked when parsed, but the `i32` overlap counts are naturals, so their overflow is not modelled.
- SpaceImage: the `u32` digit counts of the checksum are naturals, so their overflow is not modelled. The `i64` product of the dimensions is range-checked.
- CrossedWires: the `i64` step sums and Manhattan distances are unbounded integers, so their overflow is not modelled.
- Bingo, Dive, SmokeBasin, RockPaperScissors, SecureContainer, Lanternfish, TobogganTrajectory, ChitonMap, CampCleanup, Rucksack, Passports and BinaryBoarding: their scores, sums, counters and products are unbounded integers, so the overflow of the source's fixed-width counters is not modelled.

Ragged maps:
- DumboOctopus: the grid is a rectangular `array2<int>`, because `flash_dumbos` bounds every row by `dumbos[0].len()` while `simulate_flashes` bounds each row by its own length. A `Vec<Vec<i32>>` whose rows differ in length is not modelled.
- SmokeBasin.BasinPoints: a map with a row shorter than the first is excluded. `main` calls `basin_points` only on the low points `low_points` returns, and `low_points` panics on such a map (modelled by SmokeBasin.LowPoints).
- SmokeBasin.BasinSize: the same exclusion as SmokeBasin.BasinPoints, for the same reason.

Loops the source never leaves, bounded by a fuel parameter:
- IntcodeDecode.Iterate: every IntCode run takes a step budget `fuel` and reports running out of it. The source loops until the machine halts.
- Day2Intcode.UnknownOpcodeSpins: an unknown opcode makes day 2's loop spin forever without advancing. The model only shows that it never halts within any fuel.
- Day7Amplifiers.FeedbackLoop: the `while !amp_e.halt` feedback loop is bounded by `rounds`.
- DumboOctopus.StepsToSync: a grid that never synchronises makes the source loop forever. The model stops after `fuel` steps (`NotWithin`).
- UniversalOrbits.Chain: following parents takes `fuel`, which covers maps with a cycle (where the source loops forever).
- ChronalCalibration.Calibrate: on an empty list the source loops forever. The model returns `Forever`.
- ChitonPath.ReconstructPath: the source loop ends only when the walk leaves the parent map. The walk's length is a ghost precondition.
- TobogganTrajectory: a slope with `dy = 0` never leaves the source's `while` loop, so walks require `dy >= 1`.

Order and hash-map iteration:
- Rucksack.RuckCheck: `group_badge` picks a badge in `HashMap` order. The result is stated exactly only when each group has a single common item (`UniqueBadges`).
- ReposeRecord.MostSleep: ties between guards or minutes depend on map order. The result is stated as some guard and minute of greatest total.
- ReposeRecord.MostLikelyAsleep: the same tie rule as `MostSleep`.
- Polymerization.PolymerNumber: min/max ties depend on map order. The result is stated through the counts, not through which element is chosen.
- CrabAlignment.Moves: the `HashMap` iteration order is an arbitrary choice of the next entry.
- ChitonMap: `shortest` is modelled only through its relaxation step. The `BinaryHeap`, whose `Ord` disagrees with `Eq`, is left abstract, and no optimality is claimed.

Deliberately weaker or narrower statements:
- Polymerization.HalfOfPolymer: exact element counts are not claimed for `polymer_number`. The lemma states the exact off-by-one instead (see Findings).
- CrabAlignment.InclusiveIsOptimal: only for non-negative positions, because the search starts at reference 0.
- BitsVectors: only the two flat hex vectors C200B40A82 (value 3) and 04005AC33890 (value 54) are proved end to end. The other flat vectors are not stated.
- BitsCalculator: the nested calculator tests are not stated as lemmas. `calculate` lets a sum or a product consume the whole remaining stack, so those tests' expected values do not follow.
- BitsParser: the literal round trip covers literals of a single group only.
- Day7Amplifiers.BestThrust: the maximum over the phase tuples is stated for part 1. The same maximum over part 2's feedback thrusts is not stated as a separate member.
- SyntaxScoring: `main`'s sum of corrupted scores, the removal of corrupted lines and the median of the completion scores are not modelled. The per-line scores they combine are.

Input, output and printing:
- Day5Intcode.Run: stdin is a sequence of integers. A stdin line that is not a number is not modelled.
- CrabAlignment.ParseInput: reading the first line of the file is I/O, so the line is a parameter.
- Every `main`, all file and argument reading, and all printing are left out. This covers `print_image`, `print_points`, `pretty_print`, `visualize`, `paint`, `parseFile`'s file handling and logging.
- LibComputer.Computer.PrintProgram: only the position walk of `print_program` is modelled. Its mnemonics, whose labels for opcodes 7 and 8 are swapped at archive/2019/intcode/src/lib.rs:417,423, are not.
- ReposeRecord.SleepMap: an event is one of the three record kinds, so the `default` branch of `sleepMap`, which only logs, has no counterpart. `parseFile` is not part of this model; records are given already parsed.
- ChronalCalibration, InventoryManagement and FabricClaims: the Go file scanner is not modelled; the lines it yields are parameters.
- Text: strings are sequences of ASCII characters. `len()` counts bytes, and whitespace is ASCII whitespace.
- Passports: `id.len()` counts bytes, the same as characters for ASCII input.

## Findings

| source | as written | input that shows it | evidently intended | confidence | as-written member | corrected member |
|---|---|---|---|---|---|---|
| 2021/day3/src/main.rs:193 | `oxygen_list.len() != 1 && scrubber_list.len() != 1` only rejects when both lists are wrong | the codes "10" and "11": one oxygen code is left, the scrubber list ends empty, and `scrubber_list[0]` panics | a logical or, so that empty rates are returned whenever either list is not a single code | not executed | DiagnosticReport.AsWrittenPanics | DiagnosticReport.LifeSupportFromCodes |
| 2021/day17/src/lib.rs:44 | `words[0] != "target" && words[1] != "area:"` only rejects a heading with both words wrong | "targit area: x=1..14, y=15..29" is accepted as the target x in 1..14, y in 15..29 | a logical or, so that any other heading is an unknown line | not executed | TrickShot.AsWrittenAcceptsBadHeading | TrickShot.ParseDescribe |
| archive/2021/day7/src/main.rs:60-84 | `for reference in 0..max_value` leaves out the largest position | three crabs at 5 and one at 0: the result is (4, 7), while reference 5 costs 5 | `0..=max_value`, so every reference from 0 to the largest position is tried | not executed | CrabAlignment.LargestNeverTried | CrabAlignment.MinimalPositionInclusive |
| day-2/golang/main.go:89 | `boxIDs = append(boxIDs[:index], boxIDs[index+1:]...)` shifts the backing array of the slice the outer `range` walks, so a later boxID is compared with its own copy | "ab", "cd": no two IDs are close, yet "d" is returned | compare every ID with every ID at another position, without removing anything | not executed | InventoryManagement.SelfMatch | InventoryManagement.FixedMeans |
| day-2/golang/main.go:89 | the same removal shortens `boxIDs` while `index` keeps counting up to the original length | "ab", "cd", "ef": no two IDs are close, and the third removal slices past the end and panics instead of returning "" | compare every ID with every ID at another position, without removing anything | not executed | InventoryManagement.SliceOverrun | InventoryManagement.CommonBoxIDLettersFixed |
| 2021/day14/src/main.rs:87-134 | halving the pair-collected count and rounding up undercounts an element that is both the first and the last of the polymer | "BAAB": A and B both occur twice, but the halves are 2 and 1, so the polymer number is 1 and not 0 | add the template's first and last element back before halving | not executed | Polymerization.OffByOneExample | Polymerization.ExactCountIsCount |
| day6/src/main.rs:44-64 | the window is first tested once `index >= length`, after the window has slid to position 1, so the window at position 0 is never examined | "abcdd" with windows of four: "abcd" at position 0 is unique, but the answer is 1 | the first window from position 0 whose tokens all differ | not executed | TuningTrouble.ZeroWindowSkipped | TuningTrouble.FirstUniqueFrom0Means |
| day1/src/main.rs:34-52 | the podium is updated after every calorie line with the running total, so an inventory competes once per line | one inventory of the lines a and b with a, b > 0 takes first place (a + b) and second place (a) | each inventory ranked once by its final total | not executed | CalorieCounting.TwoPlaces | CalorieCounting.RankedKeeps |
