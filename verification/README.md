# Arandu: the WebAssembly back end and its analyses, in Dafny

This project models the parts of the Arandu compiler whose correctness is hard to
see from the code, and proves what they are for.

**Printing doubles** (`Powers`, `RealPowers`, `Limbs`, `ScaleEstimate`,
`ShortestDigits`, `Binary64`, `Scaling`, `DigitLoop`, `DecimalText`, `RoundTrip`,
`Output`, `FloatText`). The functions that the back end emits for printing an
`f64` are methods on arrays of 32-bit limbs. The chain of proofs runs from the
limb arithmetic (exact modulo 2^1280, and the modulus never shows) over the
fixed-point estimate of the decimal exponent and the digit loop to the text
itself. The main result holds for every bit pattern: the text, sign included, reads
back to the same double, nothing shorter does, and nothing of the same length is
nearer.
Rounding is the nearest-even rounding of section 4.3.1 of IEEE 754-2008, stated on
the reals and independent of the printer.

**CFG to structured control** (`Cfg`, `StructuredCode`, `Terminators`, `Layout`,
`Simulation`, `Emission`, `Landings`, `Dominators`, `Loops`, `LoopNesting`,
`LoopEntries`, `SearchOrder`, `SearchRoutes`, `TrapHoist`, `TrapEnds`, `Stackify`,
`Conversion`, `EarlyExits`). The emitted blocks, loops and branches run on a machine with the branch
semantics of section 4.4.5 of the WebAssembly Core Specification 1.0. Whenever the
conversion succeeds, that machine visits exactly the blocks of the CFG walk, with the
same arguments and the same end, for every sequence of branch outcomes. It succeeds
exactly when backward edges go to dominators and every block placed inside a loop's
span is dominated by the header, where dominators are defined by paths and the spans
by natural loops. The order of the blocks comes from a depth-first search; told on the
graph alone, it lists them by their greatest routes, and that fixes it. The hoisting of
scope openings is shown to settle on one assignment, which nests. The reordering of trap
blocks before it leaves no trap behind a join another arm reaches, when it ends; it can
go on for ever, and for which runs and for which graphs is proved too.

**The guest heap** (`LinearMemory`, `Cells`, `Handles`, `Allocator`, `HeapRuns`,
`Rodata`). A class with byte memory, frontier and free-list head as the emitted
code keeps them. One invariant holds after every operation: cells tile the heap,
the free list is an acyclic chain of distinct cells, headers are intact, live
payloads are disjoint. Over every sequence of operations on cells the program holds,
its buffers behave as independent byte sequences, and a generational handle that has
ended never passes its check again, however often the memory is reused.

**The stack peephole** (`StackCode`, `Peephole`). Rewrites overlap and use access
counts taken once. Every rewrite keeps every run, for arbitrary pure instructions
and arbitrary behaviour of calls, branches, memory and traps; and which stores are
rewritten with which loads is stated exactly.

**Storage planning** (`Amir`, `TempSlots`, `FewestSlots`, `SlotAssignment`,
`StringParts`, `StringAdmission`). Sharing storage between temporaries cannot be
observed on any path, and no safe sharing uses fewer slots. Neither can leaving out the buffers of integer parts in string
concatenations, by anyone who cannot see those buffers being made and freed: the
comparison is with the run that makes and frees them all.

**Patching ELF images** (`ElfPatch`) and **crate layering** (`Layering`): an
in-place patch changes only the slots it replaces, and nothing before all patches
are ready; a failure to save the new layout after that leaves the image patched. The
search for forbidden dependencies reports shortest paths, each once, the shorter ones
first and those as short in the order the dependencies are listed.

`Wrappers` holds the option type, `Sequences` the count of occurrences and `Words` the
orders on words that several of them use.

## Where the code differs from what is said about it

The model follows the code.

- `canonical.rs:42` speaks of first fit; the scan (lines 185-211) keeps the best fit.
- `canonical.rs:12` describes a header of three words; the code and `memory.rs:66-69` have four.
- `canonical.rs:18-22` calls post-return a no-op; lines 500-504 free the pair cell.
- `float_text.rs:645` says that below a power of two the gap is half the one above.
  That is false for the smallest normal double, whose neighbour below is a
  subnormal at the full distance. The decoder narrows its interval there. The text is
  still the shortest and nearest (`RoundTrip.SmallestNormalShorter`,
  `RoundTrip.SmallestNormalNearest`).
- `float_text.rs:612` closes the interval of every subnormal, although an odd
  significand would leave it open. No decimal of at most 17 digits falls on those ends
  (`RoundTrip.NotHalfway`).
- `stackify.rs:122` says the conversion never fails on well-formed input. There are
  two ways in which it does.
  - The trap hoist (lines 393-445) does not end for a block that switches between two
    traps and a block branching to the same two (`TrapEnds.SharedTrapsNeverEnd`).
    `TrapEnds.EndsExactly` says on which runs it ends, `TrapEnds.EveryOrderEnds` for
    which graphs it ends whatever the order; `TrapEnds.DescendsEnds` and
    `TrapEnds.SeparateEnds` give conditions that are easy to check.
  - The guard at lines 305-314 rejects a reducible function: block 0 branches to 3 or
    1, block 1, which heads a loop with 2, to 3 or 2. The search puts the exit 3 before
    the loop's last block 2, and the landing of 3 opens before the loop
    (`EarlyExits.EarlyExitRejected`). `Stackify.Convert` and
    `Conversion.StackifyFunction` say for all functions when that happens: exactly when
    a backward edge does not go to a dominator or a header does not dominate a block
    placed inside its loop's span.
- `linker_elf.rs:3-6` says that only relocations that can be proven safe are patched and
  that every unsupported case is left to a full link. An unsupported or unencodable one
  that has a target fails the call instead (lines 590-621, `ElfPatch.UnsupportedFails`);
  `ElfPatch.Relocate` and `ElfPatch.TryPatch` say exactly when. A symbol of the same
  section past the function's end (lines 495-511) resolves to an address past the slot,
  where the symbol need not be (`ElfPatch.LocalTarget`).

## Model

| member | source | states |
|---|---|---|
| `FloatText.Text` | crates/arandu_backend_wasm/src/float_text.rs:431-1082 | For every 64-bit pattern the text is `nan`, `inf`, `-inf`, or a decimal that reads back to the double, shortest and nearest, with no idle zero; a finite text starts with `-` exactly for a negative value, and `-0.0` is none; it is shorter than 344, a NUL follows it, and no byte after the NUL changes |
| `FloatText.TextReadsBack` | crates/arandu_backend_wasm/src/float_text.rs:469-596 | Read with its sign, the text of every finite pattern is nearer to that double than to any other of either sign, ties to even; `-0.0` reads back as `0.0` |
| `RoundTrip.ReadsBack` | crates/arandu_backend_wasm/src/float_text.rs:597-986 | For every finite nonzero double the printed digits and exponent denote a decimal that rounds to exactly that double (nearest, ties to even: section 4.3.1 of IEEE 754-2008) |
| `RoundTrip.NothingShorter` | crates/arandu_backend_wasm/src/float_text.rs:808-986 | No decimal with fewer digits, at whatever place, rounds to that double, and none at all whose last place is higher |
| `RoundTrip.NothingNearer` | crates/arandu_backend_wasm/src/float_text.rs:876-986 | Of the decimals with no more digits that round to the double, at whatever place, none is nearer to it; of two equally near ones the larger is printed |
| `RoundTrip.NotHalfway` | crates/arandu_backend_wasm/src/float_text.rs:611-624 | The decoder closes the interval of every subnormal, even of odd significands: harmless, as no decimal of at most 17 digits is halfway between two subnormals |
| `RoundTrip.InsideExact` | crates/arandu_backend_wasm/src/float_text.rs:753-771 | The integer comparisons against the scaled interval decide membership in the exact real interval |
| `RoundTrip.SmallestNormalShorter` | crates/arandu_backend_wasm/src/float_text.rs:640-669 | The smallest normal double, whose lower gap the decoder halves wrongly: still nothing shorter rounds to it |
| `RoundTrip.SmallestNormalNearest` | crates/arandu_backend_wasm/src/float_text.rs:640-669 | and its printed decimal is still the nearest of its length |
| `Binary64.Decode` | crates/arandu_backend_wasm/src/float_text.rs:597-669 | The decoded mantissa and gaps are the positive ones the digit loop assumes, in range |
| `Binary64.Landmarks` | crates/arandu_backend_wasm/src/float_text.rs:602-660 | The patterns of zero, the smallest subnormal, 1.0 and infinity have those values |
| `Binary64.DecodeValue` | crates/arandu_backend_wasm/src/float_text.rs:597-669 | The decoded mantissa times its power of two is the magnitude of the double |
| `Binary64.DecodeInterval` | crates/arandu_backend_wasm/src/float_text.rs:597-669 | The decoded interval lies inside the reals that round to the double, and is all of it except for the smallest normal |
| `Binary64.RoundsExactly` | crates/arandu_backend_wasm/src/float_text.rs:597-669 | A real rounds to a double exactly when it lies between the midpoints to its neighbours, ends included for even patterns |
| `ScaleEstimate.EstimateExact` | crates/arandu_backend_wasm/src/float_text.rs:721-740 | The fixed-point product gives floor(t·log10 2) for every exponent of a double |
| `Scaling.EstimateBounds` | crates/arandu_backend_wasm/src/float_text.rs:721-740 | The estimated k is right or one too small: 10^(k-1) < (mant+plus)·2^exp <= 10^(k+1) |
| `Scaling.UpperBelowTenScales` | crates/arandu_backend_wasm/src/float_text.rs:721-791 | In the scaled integers the upper bound stays below ten scales and above a tenth of one |
| `Scaling.ScaleBound` | crates/arandu_backend_wasm/src/float_text.rs:700-751 | No scale exceeds 2^1077, so the 1280-bit buffers never wrap |
| `Scaling.FixedValid` | crates/arandu_backend_wasm/src/float_text.rs:700-791 | What the fixup leaves meets all the digit loop needs: the upper bound reaches the scale but not ten of them, and 17 digits suffice |
| `Scaling.FixedLink` | crates/arandu_backend_wasm/src/float_text.rs:700-791 | The fixup keeps the scaled integers exact multiples of the value and its gaps |
| `Scaling.FinalKRange` | crates/arandu_backend_wasm/src/float_text.rs:721-791 | The decimal exponent of every finite nonzero double lies in -323..309 |
| `ShortestDigits.TakeDigit` | crates/arandu_backend_wasm/src/float_text.rs:808-851 | A digit is floor(mant/scale), at most 9, and leaves the remainder |
| `ShortestDigits.NextRound` | crates/arandu_backend_wasm/src/float_text.rs:808-874 | A round that does not stop proves that no decimal of that length is inside, and bounds the rounds left |
| `ShortestDigits.HeadExcludesShorter` | crates/arandu_backend_wasm/src/float_text.rs:808-874 | At the start of a round no multiple of the previous decimal place lies inside the interval |
| `ShortestDigits.Stop` | crates/arandu_backend_wasm/src/float_text.rs:852-895 | The digits chosen at the stop lie inside the interval and are nearest at that place, ties going up |
| `ShortestDigits.ExactDigits` | crates/arandu_backend_wasm/src/float_text.rs:753-986 | A decimal inside the interval with nothing shorter inside has exactly n digits and does not end in 0, so the round-up never makes it longer |
| `DigitLoop.Frame.PrepareScales` | crates/arandu_backend_wasm/src/float_text.rs:793-806 | The buffers hold two, four and eight scales exactly |
| `DigitLoop.Frame.Peel` | crates/arandu_backend_wasm/src/float_text.rs:808-851 | One conditional subtraction |
| `DigitLoop.Frame.NextDigit` | crates/arandu_backend_wasm/src/float_text.rs:808-851 | The four subtractions extract floor(mant/scale) |
| `DigitLoop.Frame.TimesTen` | crates/arandu_backend_wasm/src/float_text.rs:866-874 | A buffer times ten, exactly |
| `DigitLoop.Frame.UpperReaches` | crates/arandu_backend_wasm/src/float_text.rs:753-771 | The upper comparison, closed exactly when the interval is |
| `DigitLoop.Frame.LowerReaches` | crates/arandu_backend_wasm/src/float_text.rs:852-865 | The lower comparison likewise |
| `DigitLoop.Frame.TakeDigit` | crates/arandu_backend_wasm/src/float_text.rs:808-851 | A round takes the digit off the remainder and appends it: the digits so far denote what was taken, and remainder and gap stay below ten scales |
| `DigitLoop.Frame.ToNextRound` | crates/arandu_backend_wasm/src/float_text.rs:866-874 | When neither bound stops a round, all three numbers times ten start the next one, without wrapping |
| `DigitLoop.Frame.Generate` | crates/arandu_backend_wasm/src/float_text.rs:808-874 | The loop ends within 17 digits, inside the digit buffer, with the shortest prefix |
| `DecimalText.RoundUp` | crates/arandu_backend_wasm/src/float_text.rs:896-986 | The digits grow by one unit in the last place; all nines become 1 and zeros, one longer, and k moves with the length |
| `DecimalText.PositionalLength` | crates/arandu_backend_wasm/src/float_text.rs:988-1065 | The three layouts stay below the 344 characters of a cell |
| `DecimalText.PositionalReads` | crates/arandu_backend_wasm/src/float_text.rs:988-1065 | Each layout reads back as digits · 10^(k-n), exactly |
| `DecimalText.PositionalPlain` | crates/arandu_backend_wasm/src/float_text.rs:988-1065 | No zero stands before the whole part or ends the fraction |
| `DigitLoop.DigitOrder` | crates/arandu_backend_wasm/src/float_text.rs:836-842 | The digit characters are those from 0 to 9, in that order |
| `Limbs.MulSmall` | crates/arandu_backend_wasm/src/float_text.rs:85-124 | A buffer times a 32-bit word, modulo 2^(32·limbs) |
| `Limbs.ShlLimbs` | crates/arandu_backend_wasm/src/float_text.rs:126-210 | The whole-limb part of the shift |
| `Limbs.ShlBits` | crates/arandu_backend_wasm/src/float_text.rs:126-210 | The in-limb part of the shift, carries included |
| `Limbs.Shl` | crates/arandu_backend_wasm/src/float_text.rs:126-210 | A buffer times 2^n, modulo 2^(32·limbs) |
| `Limbs.Cmp` | crates/arandu_backend_wasm/src/float_text.rs:212-257 | The sign of the difference of two buffers |
| `Limbs.Add` | crates/arandu_backend_wasm/src/float_text.rs:259-300 | The sum modulo 2^(32·limbs), also when the destination is an operand |
| `Limbs.Sub` | crates/arandu_backend_wasm/src/float_text.rs:302-342 | The difference, when it is not negative |
| `Limbs.SmallPow10` | crates/arandu_backend_wasm/src/float_text.rs:344-392 | The powers of ten up to 10^9 |
| `Limbs.MulPow10` | crates/arandu_backend_wasm/src/float_text.rs:344-392 | A buffer times 10^n, modulo 2^(32·limbs) |
| `Output.Put` | crates/arandu_backend_wasm/src/float_text.rs:437-452 | A byte string is written at the end of the text |
| `Output.PutZeros` | crates/arandu_backend_wasm/src/float_text.rs:1019-1030 | A run of zeros |
| `Output.PutDigits` | crates/arandu_backend_wasm/src/float_text.rs:991-1018 | A stretch of the digit buffer |
| `Output.PutPositional` | crates/arandu_backend_wasm/src/float_text.rs:988-1065 | The cell gets exactly the positional text and keeps every other byte |
| `Output.CountDigits` | crates/arandu_backend_wasm/src/float_text.rs:512-535 | The number of decimal digits of an integer |
| `Output.PutInteger` | crates/arandu_backend_wasm/src/float_text.rs:512-564 | The decimal digits of an integer, written from the last one |
| `FloatText.ShlExact` | crates/arandu_backend_wasm/src/float_text.rs:700-719 | The shift without a modulus when the product fits the buffer |
| `FloatText.MulPow10Exact` | crates/arandu_backend_wasm/src/float_text.rs:741-751 | The product with a power of ten likewise |
| `FloatText.Load` | crates/arandu_backend_wasm/src/float_text.rs:670-699 | The low 64-bit stores set the four big integers |
| `FloatText.Scale` | crates/arandu_backend_wasm/src/float_text.rs:700-791 | The buffers hold the value, its gaps and the scale exactly, and no intermediate reaches 2^1280 |
| `FloatText.Fixup` | crates/arandu_backend_wasm/src/float_text.rs:772-791 | k is corrected or the digits move one place |
| `FloatText.Shortest` | crates/arandu_backend_wasm/src/float_text.rs:597-986 | The digits and exponent left in the frame are the printed ones |
| `FloatText.SmallWholeExact` | crates/arandu_backend_wasm/src/float_text.rs:486-510 | The integral test below 1e15 is exact |
| `FloatText.PutWhole` | crates/arandu_backend_wasm/src/float_text.rs:486-564 | An integral value below 1e15 is written as that integer |
| `FloatText.PutShortest` | crates/arandu_backend_wasm/src/float_text.rs:566-1065 | Any other finite value is written with its shortest digits |
| `Conversion.StackifyFunction` | crates/arandu_backend_wasm/src/stackify.rs:124-384 | The whole conversion, for every function on which the trap hoist ends: code that is produced walks the CFG (every run visits the same blocks with the same arguments and ends the same way), each block is written once with exactly the scopes of the placement, and code is produced exactly when, in the order the hoist leaves, every backward edge goes to a dominator and every block inside the span of a loop is dominated by its header; the search order is the one the routes give; no blocks give no code |
| `Conversion.HoistAndConvert` | crates/arandu_backend_wasm/src/stackify.rs:131-384 | The same from any order that starts at the entry, is closed under successors and in which each block follows a predecessor |
| `EarlyExits.EarlyExitFails` | crates/arandu_backend_wasm/src/stackify.rs:305-314 | A branch past a loop and one out of it to the same block: no placement for it meets that condition, so the conversion fails |
| `EarlyExits.EarlyExitRejected` | crates/arandu_backend_wasm/src/stackify.rs:124-314 | so the whole conversion of that function, search and hoist included, does |
| `EarlyExits.EarlyExitSearched` | crates/arandu_middle/src/amir/rpo.rs:22-58 | The order it fails in is the one the search gives |
| `EarlyExits.EarlyExitReady` | crates/arandu_backend_wasm/src/stackify.rs:124-134 | The function meets all that the conversion asks for; it has no trap |
| `SearchOrder.BodyFirst` | crates/arandu_middle/src/amir/rpo.rs:22-58 | The order of the search starts at block 0, holds each block once and with it its successors, and each other block follows one of its predecessors |
| `SearchRoutes.ReversePostOrder` | crates/arandu_middle/src/amir/rpo.rs:22-58 | The loop with its explicit stack ends and gives that order, which lists the blocks by their greatest routes |
| `SearchRoutes.BodyFirstByRoutes` | crates/arandu_middle/src/amir/rpo.rs:11-58 | A route leads from block 0 and passes no block twice; routes compare like words, by the successor taken at each block. The order holds the blocks that have a route, by ascending greatest route |
| `SearchRoutes.OneOrder` | crates/arandu_middle/src/amir/rpo.rs:22-58 | Only one order does that: the graph alone decides it |
| `SearchRoutes.BackwardOnCycles` | crates/arandu_middle/src/amir/rpo.rs:11-58 | An edge leads to the same or an earlier place only when a path leads from its target to its source |
| `SearchRoutes.ListedOrder` | crates/arandu_middle/src/amir/rpo.rs:11-21 | Of two successors of a block the one listed earlier comes first, when no other block and no later place of the list leads to it, unless the other comes no later than the block: exits listed last end up behind the body |
| `SearchRoutes.LastPlaceDecides` | crates/arandu_middle/src/amir/rpo.rs:11-58 | Of two blocks behind a block that only it leads to, the one whose last place on its list is earlier comes first, and the other way round |
| `SearchRoutes.ListedTwiceOrder` | crates/arandu_middle/src/amir/rpo.rs:37-43 | A switch that lists block 1 before and after block 2 has block 2 come first: the first place of a target does not decide |
| `Stackify.Convert` | crates/arandu_backend_wasm/src/stackify.rs:133-384 | The same for one order of the blocks in which each follows a predecessor; the spans, openings and final starts it works with are the only ones their definitions allow, and the code opens exactly those scopes |
| `Stackify.PlacedUnique` | crates/arandu_backend_wasm/src/stackify.rs:136-235 | Spans, openings and starts are determined by the graph, its order and its dominators, whatever the order of the maps |
| `Stackify.DominatedFits` | crates/arandu_backend_wasm/src/stackify.rs:136-235 | When backward edges go to dominators and headers dominate their spans, loops nest, no landing from outside ends in a loop, and every backward edge stays inside its loop |
| `LoopEntries.DominatedNeeded` | crates/arandu_backend_wasm/src/stackify.rs:246-384 | What the guards let through has backward edges to dominators only, and headers that dominate their spans |
| `LoopEntries.SpanNeeded` | crates/arandu_backend_wasm/src/stackify.rs:246-384 | from the last header to the first: an edge into a span from before it would have a landing opened too early, one from behind it needs a span that crosses |
| `LoopEntries.OneEntryDominates` | crates/arandu_backend_wasm/src/stackify.rs:136-171 | A span entered only at its header is dominated by it |
| `Stackify.StartsInside` | crates/arandu_backend_wasm/src/stackify.rs:201-235 | The landing of a block inside such a span is never moved out of it |
| `Loops.Regions` | crates/arandu_backend_wasm/src/stackify.rs:136-171 | The table holds exactly the targets of edges from blocks they dominate, each with the last rank of its natural loop |
| `Loops.HeaderSpan` | crates/arandu_backend_wasm/src/stackify.rs:140-171 | for one header, over all back edges to it |
| `Loops.LoopEnd` | crates/arandu_backend_wasm/src/stackify.rs:147-164 | The backward search ends at the largest rank of a block from which a path leads to the source of the back edge clear of the header |
| `Loops.SpansUnique` | crates/arandu_backend_wasm/src/stackify.rs:136-171 | which determines the table |
| `LoopNesting.SpansNest` | crates/arandu_backend_wasm/src/stackify.rs:136-171 | Spans that their headers dominate never cross: the loop of an inner header lies in the outer loop |
| `LoopNesting.BackEdgeInside` | crates/arandu_backend_wasm/src/stackify.rs:140-171 | An edge to a dominator that comes no later closes a loop whose span holds its source |
| `LoopNesting.OpensInside` | crates/arandu_backend_wasm/src/stackify.rs:189-199 | The common dominator of the sources of a landing is dominated by every header that dominates the target |
| `Dominators.ChainExact` | crates/arandu_middle/src/amir/dominators.rs:6-12 | Climbing immediate dominators from a block meets exactly the blocks that every path to it goes through |
| `Dominators.ImmediateTree` | crates/arandu_middle/src/amir/dominators.rs:6-12 | In any order in which each block follows a predecessor, immediate dominators come earlier |
| `TrapHoist.MovedEntered` | crates/arandu_backend_wasm/src/stackify.rs:407-442 | A trap goes only to places behind one of its predecessors, so the hoist keeps such an order |
| `Emission.Emit` | crates/arandu_backend_wasm/src/stackify.rs:246-384 | The emission against the same specification, for any openings: each block is written once, in order, with the scopes that open at it and no others; no guard fires when scopes are laminar; and when none fires, no landing opened before a loop ends inside it, and loops opened no earlier than the target reach from it to the source of every backward edge |
| `Emission.SectionExact` | crates/arandu_backend_wasm/src/stackify.rs:316-350 | In front of a block stand the loop it heads and the landings that open at its rank, and no other scope |
| `Emission.SharedExactly` | crates/arandu_backend_wasm/src/stackify.rs:247-257 | There is a shared return exactly when two blocks return |
| `Emission.RoundShows` | crates/arandu_backend_wasm/src/stackify.rs:271-367 | What one block passing both guards adds to that, crossing scopes or not |
| `Emission.CloseDone` | crates/arandu_backend_wasm/src/stackify.rs:271-304 | The scopes closed are done and the innermost one left is not; without crossings no scope that has ended is left |
| `Emission.OpenLandings` | crates/arandu_backend_wasm/src/stackify.rs:316-328 | Landing scopes open outermost first |
| `Emission.OpenScopes` | crates/arandu_backend_wasm/src/stackify.rs:316-350 | Landings that leave a loop surround it; the loop opens next; the others inside |
| `Emission.OpenStep` | crates/arandu_backend_wasm/src/stackify.rs:329-350 | Opening a scope keeps the layout invariant |
| `Emission.CloseStep` | crates/arandu_backend_wasm/src/stackify.rs:271-304 | Closing a scope puts its end right before its target |
| `Emission.BodyStep` | crates/arandu_backend_wasm/src/stackify.rs:352-370 | Content and terminator keep the layout invariant |
| `Emission.GuardsPass` | crates/arandu_backend_wasm/src/stackify.rs:357-367 | With laminar scopes every target of a branch has a label on the scope stack |
| `Simulation.LaidWalks` | crates/arandu_backend_wasm/src/stackify.rs:246-384 | Code laid out as the invariant says follows every walk of the CFG |
| `Simulation.RunFrom` | crates/arandu_backend_wasm/src/stackify.rs:352-370 | From the content of any block, for every outcome, the code reaches the content of the successor with the same arguments |
| `Simulation.RunTail` | crates/arandu_backend_wasm/src/stackify.rs:448-563 | The branch code of every terminator takes the edge the terminator takes |
| `Simulation.RunSwitch` | crates/arandu_backend_wasm/src/stackify.rs:567-615 | Both forms of a switch do |
| `Terminators.TableChoice` | crates/arandu_backend_wasm/src/stackify.rs:567-615 | The branch table and the chain of comparisons choose the same case |
| `Terminators.TableExactly` | crates/arandu_backend_wasm/src/stackify.rs:567-615 | A table is used exactly when there are two cases or more, with the values 0 to n-1 in any order and no operands on any edge; its entries are the labels by value. Otherwise every case is compared |
| `Terminators.FallsThrough` | crates/arandu_backend_wasm/src/stackify.rs:470-520 | A jump or branch runs into the next block exactly when that is one of its targets |
| `Terminators.SortKeeps` | crates/arandu_backend_wasm/src/stackify.rs:567-580 | The sorted cases are the given ones, as often, by ascending value |
| `Terminators.TerminatorOpsFlat` | crates/arandu_backend_wasm/src/stackify.rs:448-563 | A terminator emits no scope of its own |
| `Layout.BranchArrives` | crates/arandu_backend_wasm/src/stackify.rs:624-630 | The depth computed for a target names the frame whose continuation is that target |
| `StructuredCode.JumpArrives` | crates/arandu_backend_wasm/src/stackify.rs:24-30 | A branch arrives where its scope continues, with the labels open there (section 4.4.5 of the WebAssembly Core Specification 1.0) |
| `StructuredCode.MatchingCloses` | crates/arandu_backend_wasm/src/stackify.rs:24-30 | The end found by the scan closes exactly the scope it started in |
| `Landings.NearestOfTwo` | crates/arandu_backend_wasm/src/stackify.rs:655-683 | The nearest common dominator of two blocks |
| `Landings.NearestOf` | crates/arandu_backend_wasm/src/stackify.rs:189-199 | and of all forward predecessors |
| `Landings.Openings` | crates/arandu_backend_wasm/src/stackify.rs:173-199 | A landing opens at the nearest common dominator of the forward predecessors of its target |
| `Landings.OpensBeforeSources` | crates/arandu_backend_wasm/src/stackify.rs:173-199 | which no branch to the target precedes |
| `Landings.OpensBeforeTarget` | crates/arandu_backend_wasm/src/stackify.rs:173-199 | and which comes before the target |
| `Stackify.Settle` | crates/arandu_backend_wasm/src/stackify.rs:201-235 | The openings after hoisting: each the latest admissible one at or before its dominator |
| `Stackify.SettledUnique` | crates/arandu_backend_wasm/src/stackify.rs:201-235 | There is only one such assignment, whatever the order of the maps |
| `Stackify.SettledNests` | crates/arandu_backend_wasm/src/stackify.rs:201-235 | After it any two landing scopes are nested or disjoint, and none opens in a loop and ends past it |
| `Stackify.FitsIsLaminar` | crates/arandu_backend_wasm/src/stackify.rs:201-235 | With nested loops all scopes are laminar |
| `Stackify.PassLandings` | crates/arandu_backend_wasm/src/stackify.rs:206-220 | One step of the hoist over the landings |
| `Stackify.PassLoops` | crates/arandu_backend_wasm/src/stackify.rs:206-235 | and over the loops |
| `TrapEnds.EndsExactly` | crates/arandu_backend_wasm/src/stackify.rs:393-445 | The loop ends exactly when it never comes to a stuck stretch: trap blocks up to the cursor each of which goes back among them |
| `TrapEnds.StuckForever` | crates/arandu_backend_wasm/src/stackify.rs:393-445 | From a stuck stretch no number of turns moves the cursor on |
| `TrapEnds.Settle` | crates/arandu_backend_wasm/src/stackify.rs:393-445 | Otherwise turns at the end of a stretch of traps stop, or take one of them past a block that does not trap |
| `TrapEnds.EveryOrderEnds` | crates/arandu_backend_wasm/src/stackify.rs:393-445 | For a graph, it ends for every order of distinct blocks exactly when no list of blocks can be followed by stuck traps, a condition on the graph alone |
| `TrapEnds.DescendsEnds` | crates/arandu_backend_wasm/src/stackify.rs:393-445 | It ends for every order when traps have heights such that each is only put in front of shared traps lower than itself |
| `TrapEnds.SeparateEnds` | crates/arandu_backend_wasm/src/stackify.rs:393-445 | It ends whenever no trap block has two incoming edges |
| `TrapEnds.SharedTrapsNeverEnd` | crates/arandu_backend_wasm/src/stackify.rs:393-445 | It does not end for a block that switches between two traps and a block branching to the same two, with its blocks in order |
| `TrapEnds.Hoist` | crates/arandu_backend_wasm/src/stackify.rs:386-445 | On every input on which it ends, no trap is left behind a join (that does not trap) which another arm of an earlier predecessor reaches; the order stays a permutation with the same first block and the same order of the other blocks, and each block still follows a predecessor |
| `TrapHoist.TurnExactly` | crates/arandu_backend_wasm/src/stackify.rs:393-445 | One turn puts a trap right in front of the first join, traps included, that another arm of an earlier predecessor leads to, and leaves the rest as it is; without such a join the cursor moves on |
| `TrapHoist.SearchExact` | crates/arandu_backend_wasm/src/stackify.rs:416-436 | The search from a sibling finds exactly the blocks a path leads to |
| `TrapHoist.CandidateFirst` | crates/arandu_backend_wasm/src/stackify.rs:407-438 | The candidate is a join at or before the cursor that a sibling reaches, the earliest one; there is none exactly when none is such a join |
| `Allocator.Heap.Alloc` | crates/arandu_backend_wasm/src/canonical.rs:147-305 | Traps exactly when the rounded size or the new end leaves the 32-bit address space or growth fails; otherwise a cell that was not in use, large enough, 16-aligned, with generation 0: the best fit off the free list, else a new one at the frontier, with memory grown by no page more than it takes; every payload, generation and byte outside headers stays |
| `Allocator.FindFit` | crates/arandu_backend_wasm/src/canonical.rs:163-222 | The scan of the linked list finds the best fit and the cell before it, and ends |
| `Cells.BestFitMeaning` | crates/arandu_backend_wasm/src/canonical.rs:185-211 | The preferred cell is the first of the smallest that fit; there is none exactly when none fits |
| `Allocator.Heap.Take` | crates/arandu_backend_wasm/src/canonical.rs:223-251 | The chosen cell leaves the list, and only it |
| `Allocator.Heap.Bump` | crates/arandu_backend_wasm/src/canonical.rs:254-305 | The new cell; traps exactly past 2^32 or when memory cannot grow; memory gets the least number of pages that covers the new end, and none when it does already |
| `Allocator.BumpSums` | crates/arandu_backend_wasm/src/canonical.rs:257-277 | The guards on the wrapped 32-bit sums catch exactly the sums past the address space |
| `Allocator.RequiredPages` | crates/arandu_backend_wasm/src/canonical.rs:307-335 | The page count covers the end and is the least that does |
| `Allocator.Heap.Grow` | crates/arandu_backend_wasm/src/canonical.rs:307-335 | Growth adds zeroed pages and changes nothing else |
| `Allocator.Heap.Free` | crates/arandu_backend_wasm/src/canonical.rs:342-390 | A cell in use goes to the front of the list and all handles to it end, and only its header is written; any untracked pointer is ignored; a header outside memory traps |
| `Allocator.Heap.Realloc` | crates/arandu_backend_wasm/src/canonical.rs:418-485 | Zero frees; an unsupported alignment traps; otherwise the first min(old, new) bytes move to a fresh cell, the old cell is freed, every other cell keeps its bytes, and the free list, the cells and the size of memory are those of the allocation and the free |
| `Allocator.Heap.Renew` | crates/arandu_backend_wasm/src/canonical.rs:446-485 | That part of it |
| `Allocator.AlignmentTest` | crates/arandu_backend_wasm/src/canonical.rs:429-445 | The bit test accepts exactly 1, 2, 4, 8 and 16 |
| `Allocator.Heap.MoveAndFree` | crates/arandu_backend_wasm/src/canonical.rs:450-483 | The copy and the free |
| `Allocator.Heap.constructor` | crates/arandu_backend_wasm/src/memory.rs:24-53 | The heap starts empty above the shadow stack |
| `Allocator.Heap.Write` | crates/arandu_backend_wasm/src/canonical.rs:3-15 | A program that stores inside its own payload keeps the heap intact |
| `Cells.PayloadSound` | crates/arandu_backend_wasm/src/canonical.rs:3-15 | because no header and no other payload depends on those bytes |
| `Cells.EveryByteOnce` | crates/arandu_backend_wasm/src/canonical.rs:254-305 | Cells tile the heap: each byte below the frontier belongs to exactly one cell |
| `Cells.PayloadsDistinct` | crates/arandu_backend_wasm/src/canonical.rs:147-305 | Payloads are pairwise disjoint |
| `Cells.UnlinkSound` | crates/arandu_backend_wasm/src/canonical.rs:227-246 | Unlinking keeps the list acyclic, duplicate-free and in order |
| `Cells.PushSound` | crates/arandu_backend_wasm/src/canonical.rs:373-389 | Linking in front does too |
| `Cells.PushSoundExactly` | crates/arandu_backend_wasm/src/canonical.rs:373-389 | exactly when the cell is not on the list yet: freed twice, a cell closes the list to a ring that no list of cells describes |
| `Cells.AppendSound` | crates/arandu_backend_wasm/src/canonical.rs:278-305 | and so does a new header past the frontier |
| `Allocator.Heap.Issue` | crates/arandu_backend_wasm/src/translator/expr/gen_ops.rs:153-196 | A cell gets the next generation: older handles to it end, the new one starts; after 2^31-1 of them it traps |
| `Allocator.Heap.Check` | crates/arandu_backend_wasm/src/translator/expr/gen_ops.rs:198-233 | The check passes exactly when that generation was issued for that cell and has not ended; then the cell is in use |
| `Allocator.Heap.Clear` | crates/arandu_backend_wasm/src/translator/expr/gen_ops.rs:235-247 | Clearing the tag ends the handles to the cell |
| `HeapRuns.RunAll` | crates/arandu_backend_wasm/src/canonical.rs:147-485 | Over every sequence of allocations, frees, stores, tags, untags and reallocations of cells the program holds, the heap stays valid and takes the steps of best fit with a free list, memory size included; the buffers behave as independent byte sequences (what was stored and not freed or resized is still there), an operation leaves them alone only when it stops; and a handle that has ended is never good again |
| `HeapRuns.Do` | crates/arandu_backend_wasm/src/canonical.rs:147-485 | Each of these operations is legal for a program that passes back what it was given, does to its buffers what it says and nothing to the others, and ends handles or starts new ones only |
| `Handles.StaleForever` | crates/arandu_backend_wasm/src/translator/expr/gen_ops.rs:153-233 | The induction behind it: moments that each evolve from the one before never revive a generation |
| `Handles.ClearedTags` | crates/arandu_backend_wasm/src/canonical.rs:373-381 | Clearing one generation word ends the handles to that cell and no others |
| `Handles.IssuedTags` | crates/arandu_backend_wasm/src/translator/expr/gen_ops.rs:153-196 | A fresh tag collides with no handle issued before |
| `Rodata.Collect` | crates/arandu_backend_wasm/src/memory.rs:135-168 | Each literal in use lies at a 4-aligned offset with a NUL after it, apart from the others and in order, with less than four bytes of padding before it; the table ends with the last one |
| `Rodata.MemoryRegions` | crates/arandu_backend_wasm/src/memory.rs:170-184 | Literals below the stack area, stack below a 16-aligned heap base that the pages cover with one to spare; base and page count are the least that are; refused exactly when the base leaves i32 |
| `Peephole.StackifyLocals` | crates/arandu_backend_wasm/src/stack_peephole.rs:27-87 | The optimised code simulates the original; the locals it gives up had one store and one load and no longer occur; none is used more often. Which pairs are rewritten: each store, in turn, takes the load it can reach within the window in the code the earlier pairs leave, and a store without a pair had none; a pair goes whole exactly when the local has no other use, and leaves a tee otherwise |
| `Peephole.SingleCounts` | crates/arandu_backend_wasm/src/stack_peephole.rs:28-62 | One load and one store are counted exactly when two places use the local, one of each |
| `StackCode.SameRun` | crates/arandu_backend_wasm/src/stack_peephole.rs:1-6 | A code that simulates another gives the same run, for any pure instructions and any effect of calls, branches, memory and traps |
| `Peephole.TeeRewrite` | crates/arandu_backend_wasm/src/stack_peephole.rs:48-62 | Turning the store into a tee and dropping the load keeps every run |
| `Peephole.DropRewrite` | crates/arandu_backend_wasm/src/stack_peephole.rs:48-62 | Dropping both keeps it when the local has no other use |
| `Peephole.Scan` | crates/arandu_backend_wasm/src/stack_peephole.rs:46-78 | The scan finds a load, no further than its window, exactly when balanced code that leaves the local alone leads to one there |
| `Peephole.Accesses` | crates/arandu_backend_wasm/src/stack_peephole.rs:28-37 | The counts of loads and stores |
| `StackCode.ExecAbove` | crates/arandu_backend_wasm/src/stack_peephole.rs:70-77 | Code that stays above its starting height does the same whatever lies below |
| `StackCode.ExecUntouched` | crates/arandu_backend_wasm/src/stack_peephole.rs:63-69 | Code that does not use a local neither changes it nor depends on it |
| `StackCode.SimulatesThrough` | crates/arandu_backend_wasm/src/stack_peephole.rs:38-80 | Rewrites compose, each with its own dead locals |
| `SlotAssignment.BlockLocalTempSlots` | crates/arandu_codegen/src/temp_slots.rs:11-108 | Exactly the eligible temporaries confined to one block share, their sharing is safe, and no safe sharing of them uses fewer slots of any type |
| `SlotAssignment.SharedRun` | crates/arandu_codegen/src/temp_slots.rs:1-5 | On every path, loops included, every statement and terminator reads the same operands as with one cell per temporary |
| `TempSlots.SameRun` | crates/arandu_codegen/src/temp_slots.rs:1-5 | The same from any point of a run |
| `TempSlots.StepHolds` | crates/arandu_codegen/src/temp_slots.rs:71-107 | A definition never overwrites a value still to be read |
| `SlotAssignment.Assign` | crates/arandu_codegen/src/temp_slots.rs:86-107 | Temporaries in one slot have one type and spans apart in each block; each span goes to the first slot of its type that is free where it starts, and a slot is named after its first span |
| `FewestSlots.Fewest` | crates/arandu_codegen/src/temp_slots.rs:86-107 | First fit over spans by start uses as few slots of each type as any safe sharing |
| `SlotAssignment.FirstOpen` | crates/arandu_codegen/src/temp_slots.rs:95-98 | The first slot of the type that is free where the span starts |
| `SlotAssignment.FindSpans` | crates/arandu_codegen/src/temp_slots.rs:62-86 | The spans are those of exactly the confined temporaries |
| `SlotAssignment.Walk` | crates/arandu_codegen/src/temp_slots.rs:31-61 | Every definition and use is noted, and repetition exactly |
| `SlotAssignment.FindDedicated` | crates/arandu_codegen/src/temp_slots.rs:18-35 | The result, parameters and block parameters are kept apart |
| `SlotAssignment.SpanOf` | crates/arandu_codegen/src/temp_slots.rs:63-85 | A span from the definition to the last use, when all uses follow it in its block |
| `SlotAssignment.NoteUses` | crates/arandu_codegen/src/temp_slots.rs:110-121 | Each operand that reads a temporary is noted at its position |
| `StringAdmission.IntegerConcatTemps` | crates/arandu_codegen/src/string_interp.rs:29-129 | A temporary is admitted exactly when it is made once from an integer, read once by a later concat of that block and freed once after it |
| `StringAdmission.OmittedRun` | crates/arandu_codegen/src/string_interp.rs:1-6 | Next to the run that makes and frees every buffer, acting on the admission shows nowhere: every string built, every operand seen and the world as far as it can be told from outside are the same |
| `StringParts.SameRun` | crates/arandu_codegen/src/string_interp.rs:1-6 | From any point of a run, capturing the integers instead of their strings changes no event and no world, the making and freeing of the omitted buffers set aside on both sides |
| `StringParts.RunShown` | crates/arandu_codegen/src/string_interp.rs:1-6 | Setting that aside cannot be told from outside, when making or freeing a buffer does not show and nothing depends on what does not show |
| `StringParts.Balanced` | crates/arandu_codegen/src/string_interp.rs:4-6 | What is left out balances: each buffer is made when there is none and freed once in the same block |
| `StringAdmission.AcceptsSound` | crates/arandu_codegen/src/string_interp.rs:112-128 | Whatever passes the final test lives as required |
| `StringAdmission.AcceptsComplete` | crates/arandu_codegen/src/string_interp.rs:112-128 | Whatever lives as required passes it |
| `StringAdmission.FindMade` | crates/arandu_codegen/src/string_interp.rs:35-68 | The last integer conversion and the number of definitions |
| `StringAdmission.CountParams` | crates/arandu_codegen/src/string_interp.rs:69-74 | Parameters count as definitions |
| `StringAdmission.FollowReads` | crates/arandu_codegen/src/string_interp.rs:75-111 | Each read is judged by its place and statement |
| `ElfPatch.TryPatch` | crates/arandu_cli/src/linker_elf.rs:272-382 | Goes through exactly when the layout applies, every rebuilt function can be patched and the new layout is saved; fails exactly when the first function that cannot be patched has an unencodable relocation or saving fails, and is refused otherwise. Before everything is prepared nothing is written; after that the image shows each rebuilt function, relocated, in its slot unless a later slot overlaps it, and is otherwise unchanged; success records a layout that matches the current units |
| `ElfPatch.OutsideText` | crates/arandu_cli/src/linker_elf.rs:272-382 | Nothing outside the text section changes |
| `ElfPatch.Prepare` | crates/arandu_cli/src/linker_elf.rs:422-564 | Ready exactly when the unit has a whole slot in the text, a function of that size and only resolvable relocations, failed exactly when a relocation with a target cannot be encoded; a patch fills exactly the recorded slot with the relocated code |
| `ElfPatch.PrepareAll` | crates/arandu_cli/src/linker_elf.rs:387-567 | All patches are ready before the first byte is written: exactly when every function can be patched; the first that cannot decides between failure and refusal |
| `ElfPatch.Relocate` | crates/arandu_cli/src/linker_elf.rs:478-538 | Ready exactly when every relocation in the function has a target and an encodable value whose field fits, failed exactly when the first that has not has a target, refused when it has none; every field is written and bytes outside the fields stay |
| `ElfPatch.UnsupportedFails` | crates/arandu_cli/src/linker_elf.rs:612-621 | A relocation of another kind or width that has a target makes the call fail |
| `ElfPatch.WideRelativeFails` | crates/arandu_cli/src/linker_elf.rs:590-621 | for one a 64-bit relative one |
| `ElfPatch.FieldResolves` | crates/arandu_cli/src/linker_elf.rs:570-622 | A 32-bit field decodes to target + addend - place, a 64-bit one to target + addend (section 4.4.1 of the System V AMD64 psABI) |
| `ElfPatch.LocalTarget` | crates/arandu_cli/src/linker_elf.rs:495-511 | A reference to a symbol of the same section gets the distance the symbol has there; it points into the slot exactly when the symbol lies inside the function |
| `ElfPatch.GlobalFound` | crates/arandu_cli/src/linker_elf.rs:512-524 | A symbol defined elsewhere has a target exactly when the layout records its name, or its name with `$got` for a relocation through the offset table |
| `ElfPatch.GlobalField` | crates/arandu_cli/src/linker_elf.rs:512-621 | The field of such a relocation decodes to the recorded address plus addend, minus the place when relative |
| `ElfPatch.RelevantExactly` | crates/arandu_cli/src/linker_elf.rs:478-483 | The relocations applied are those whose address lies in the function, each as often as the section lists it |
| `ElfPatch.LittleEndian` | crates/arandu_cli/src/linker_elf.rs:590-615 | Fields are little-endian: each byte weighs 256 times the one before it |
| `ElfPatch.TwosComplement` | crates/arandu_cli/src/linker_elf.rs:592-602 | A 32-bit field is read as the number in i32 congruent to it |
| `ElfPatch.WriteMore` | crates/arandu_cli/src/linker_elf.rs:625-638 | A field that no later one overlaps reads back |
| `ElfPatch.WriteAll` | crates/arandu_cli/src/linker_elf.rs:351-358 | The image gets every patch |
| `ElfPatch.Record` | crates/arandu_cli/src/linker_elf.rs:363-370 | The hashes of the patched units are replaced, also in their slots; no other slot and nothing else in a slot changes |
| `ElfPatch.PatchedMatches` | crates/arandu_cli/src/linker_elf.rs:64-82 | With distinct names and rebuilt units among the current ones, the new layout matches the current units |
| `Layering.ForbiddenBackendPaths` | xtask/src/architecture.rs:234-269 | Each forbidden workspace crate reached through allowed crates is reported once, by a real path whose interior is allowed and than which none is shorter; nothing else is; shorter paths come first, and of paths as short the one that turns earlier to a dependency listed first is reported, and comes first |
| `Layering.Search` | xtask/src/architecture.rs:242-257 | The breadth-first queue loop builds a tree of parents, finds crates in the order of their words, and ends |
| `Layering.Follow` | xtask/src/architecture.rs:245-256 | The loop over the dependencies of one crate keeps that |
| `Layering.Nearest` | xtask/src/architecture.rs:242-257 | Every crate on such a path is found, by a word that comes no later than any that spells such a path |
| `Layering.Rebuild` | xtask/src/architecture.rs:258-268 | Following the parents back ends and gives a path spelled by the word noted |

## Left out

- Stackify.Convert: immediate dominators are given, by their definition on paths; the fixed-point computation and the pre- and post-order test of `dominators.rs` are not modelled.
- Conversion.StackifyFunction: inputs on which the hoist runs for ever are excluded.
- HeapRuns.RunAll: an operation that stops ends the program in the source; here the run goes on unchanged, which covers every run that ends there.
- TrapEnds.Hoist: nothing is promised about the order of traps among each other; two shared traps can each be the join the other belongs in front of.
- TrapEnds.EveryOrderEnds: speaks of all orders of distinct blocks, not only of those the search gives.
- Emission.Emit: how the translator stores block arguments before a branch is not modelled; arguments travel with the branch.
- Terminators.TableChoice: case values are integers; the truncation of a discriminant to 32 bits is not modelled.
- Limbs.ShlBits: the bitwise or of two disjoint parts of a limb is their sum.
- FloatText.PutShortest: the frame is a fresh object; taking it from the shadow stack, and the trap when that is full, are not modelled.
- Allocator.Heap.Alloc: whether the host lets memory grow is a parameter; rounding to 16 by a mask is arithmetic rounding.
- Allocator.Heap.Free: freeing a cell twice is excluded, as the source trusts its caller there (`canonical.rs:47-49`); `Cells.PushSoundExactly` shows that it breaks the list. An address inside the heap whose bytes only look like a header is excluded too; the code (`canonical.rs:365-371`) would link it.
- Allocator.Heap.Realloc: a nonzero old pointer is that of a cell in use and the old size no larger than the cell; the code (`canonical.rs:446-483`) copies and frees whatever the host passes.
- Allocator.Heap.Issue: the tag `(g << 1) | 1` is 2g + 1.
- Rodata.Collect: the offset counter is unbounded, not 32 bits wide.
- StringParts.SameRun: strings are values and the buffers of omitted parts a ledger; addresses are not modelled. The making and freeing of those buffers is left out of both runs; `StringParts.RunShown` puts it back.
- StringAdmission.OmittedRun: that making or freeing a buffer does not show is a condition on the world and what is seen of it, not derived from the heap.
- ElfPatch.TryPatch: object parsing, digests, locking, mapping and the file of the layout are given: the parsed function, one flag that image and layout agree, and one that the new layout is saved.
- Layering.ForbiddenBackendPaths: the dependency lists come parsed from the manifests, in the order they are visited.
- Scratch cells, aggregate frames and the shadow-stack discipline of `memory.rs`: only their constants matter to the heap.
- `cabi_post_return` stubs: a single call of the free that is modelled.
- Recording a layout after a full link (`linker_elf.rs:85-228`): reads of object files.
- Byte encoding of sections, exports, the component wrapper and interface text: thin use of libraries.
- Type mapping tables, DWARF, the Cranelift, LLVM and C drivers: one-branch facts or wrappers over libraries.
- The front end, queries, language server, package and cache commands: not part of this model.
