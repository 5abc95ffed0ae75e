# Verified model of the m68k-amigaos inline routines

The target headers carry three pieces of real code, and this project models and proves all three.

* **The string and memory routines** (`string.h`) are 68k assembler in two versions, one for the
  68000/68010 and one for the 68020 and later. `M68k.dfy` is a small-step machine: registers modulo
  2^32, the C, N and Z flags, byte-addressed big-endian memory, post-increment and pre-decrement
  operands, encoded instruction lengths. `StringCode.dfy` holds the thirteen routines instruction by
  instruction at their byte offsets with the branch displacements of the source; a displacement is
  taken from the opcode word plus 2. Every main theorem is about running those listings: the run
  finishes, in one state only, and that state is the C99 result. `Machine.dfy` is the processor as an
  object: it fetches and executes the listings, changing registers, flags and a memory array in
  place, and is proved to do what the small-step machine says; its routine methods have the C
  interface.
* **floor, ceil, trunc, nearbyint and the floating-point environment** (`math_060.h`, `math_040.h`,
  `fenv.h`): one version truncates and adjusts by 1.0, the other switches the rounding mode in the
  control register and converts through a 32-bit integer. Rounding to the selected precision, with
  the exponent range of single precision, is computed for every move and addition, not assumed.
* **The statistics service** (`rstat_proc.c`): the interface chain, the totals kept in a union of
  three answer layouts, the clock-tick arithmetic and the idle shutdown.

Accesses are checked against a *guard*: readable regions, a writable region and an alignment rule. A
refused access stops the run in a fault. The theorems hold for every guard that allows the stated
blocks, so a tight guard turns "reads only", "writes only" and "aligned" into "does not fault";
`Footprints.dfy` shows that the run on a processor that checks less is the same, state by state.

Results that say where the code falls short of what it is for:

* `strncpy` and `strncmp` test the sign of the decremented count, so counts above 2^31 process
  nothing. `StringAlgebra.StrncpyCount` and `StringAlgebra.StrncmpCount` give the exact condition,
  `StringAlgebra.StrncpyFails` and `StringAlgebra.StrncmpFails` a failing call each.
* At float precision floor and ceil can be wrong in two ways: the copy of the operand they compare
  with has been rounded by the move, and the adjustment by 1.0 can be rounded away.
  `Fpu.FloorOfIntegerLost`, `Fpu.FloorOfFractionLost` and `Fpu.FloorLostAtFloatPrecision` give
  operands, `Fpu.Floor060Exact` and `Fpu.Ceil060Exact` the exact condition. Operands that float
  precision holds are safe.
* The conversion through an integer is right exactly when the result fits 32 bits and, at float
  precision, 24 significant bits - or is 2^31 at float precision in a mode that rounds the saturated
  2^31 - 1 back up to it (`Fpu.ThroughIntegerExact`, `Fpu.ThroughIntegerLimits`).
* `updatestat` writes the output packets through version 1 of the union, which is the word that
  versions 2 and 3 keep their context switches in. `RstatService.SwitchesLost` gives an input, and
  `RstatService.Version1Exact`, `RstatService.Version2Exact` and `RstatService.Version3Exact` say
  exactly when each version is answered as intended.
* The interrupt count survives a 32-bit wrap of the seconds, but not of the microsecond product:
  `RstatClock.IntrLost` gives an input, `RstatClock.IntrExact` and `RstatClock.TickRates` the exact
  condition.
* The comment at rstat_proc.c:49 speaks of 20 seconds; the exit comes with the 21st update, as the
  code has it.
* `fesetround` accepts any argument and returns 0; `FloatingUnit.SetRoundArgument` says for which
  arguments it sets the field and nothing else.

## Model

| member | source | states |
|---|---|---|
| StringCode.WellPlaced | targets/m68k-amigaos/include/string.h:37-320 | every listing is contiguous from offset 0 to its end, and every branch displacement of the file leads to the start of an instruction or to the end of its routine |
| M68kRuns.FinishesOnce | targets/m68k-amigaos/include/string.h:37-320 | a run leaves a routine in one state at most, so what is proved of some finishing state holds of the run |
| Blocks.ProgressGrows | targets/m68k-amigaos/include/string.h:63-63 | one memory-to-memory or fill move of one, two or four bytes, all read before any is written, extends a partly done job by exactly its bytes, for any overlap the direction is safe for |
| Blocks.CopiedBytes | targets/m68k-amigaos/include/string.h:37-205 | byte by byte: the block at d holds what was at s, every other byte is as before |
| Blocks.FilledBytes | targets/m68k-amigaos/include/string.h:114-243 | byte by byte: the block holds the fill byte, every other byte is as before |
| Blocks.BigEndian | targets/m68k-amigaos/include/string.h:36-320 | the first half of a word or long in memory is its upper half |
| Blocks.StoredIsLoaded | targets/m68k-amigaos/include/string.h:36-320 | a stored value is loaded again, and no byte outside it changes |
| Transfers.WordCountedTail | targets/m68k-amigaos/include/string.h:67-72 | entered with the low word of d2 exactly the bytes left (0 to 65535), the dbf tail transfers exactly those |
| Transfers.LongsThenTail | targets/m68k-amigaos/include/string.h:59-72 | entered with at least four bytes left the 68000 long loop never starts with a zero count, and long loop and tail together finish the job, whatever the 32-bit length |
| Transfers.BiasedLongLoop | targets/m68k-amigaos/include/string.h:167-169 | the 68020 long loop keeps d2 = left - 4 modulo 2^32 and leaves with fewer than four bytes left, four bytes per store |
| Transfers.BiasedTail | targets/m68k-amigaos/include/string.h:171-175 | entered with d2 = left - 4 and zero to three bytes left, the tail transfers exactly those |
| BlockCopies.WordEdge020 | targets/m68k-amigaos/include/string.h:161-165 | from an even edge, at most one word move makes the edge 4-aligned or leaves fewer than four bytes, with d2 = left - 4 |
| BlockCopies.OddSource000 | targets/m68k-amigaos/include/string.h:51-57 | with an odd source the 16-bit counter is used only below 65536 bytes and the byte loop otherwise; both copy everything left |
| BlockCopies.Memcpy000Runs | targets/m68k-amigaos/include/string.h:37-73 | for every length and every parity of the pointers the 68000 memcpy finishes with exactly n bytes copied and dest in d0, also for overlapping blocks with dest <= source |
| BlockCopies.MemcpyDesc000Runs | targets/m68k-amigaos/include/string.h:75-112 | the same for the descending copy from the ends of the blocks, with source <= dest, also when an end is the end of the address space |
| BlockCopies.Memcpy020Runs | targets/m68k-amigaos/include/string.h:148-176 | the 68020 memcpy copies exactly n bytes at every alignment, and its stores satisfy 4 * stores <= n + 14 |
| BlockCopies.MemcpyDesc020Runs | targets/m68k-amigaos/include/string.h:178-205 | the same for the descending copy, where halving the odd end address needs no correction after the byte move |
| BlockFills.Replicate000 | targets/m68k-amigaos/include/string.h:124-129 | the shift, swap and move sequence puts the low byte of the fill in all four lanes, whatever the other bits of d0 and d1 |
| BlockFills.Replicate020 | targets/m68k-amigaos/include/string.h:211-217 | likewise with the 32-bit shift, and d2 rebiased from -8 to -4 |
| BlockFills.Memset000Runs | targets/m68k-amigaos/include/string.h:114-145 | fills exactly n bytes with the low byte of the fill and returns the block |
| BlockFills.Memset020Runs | targets/m68k-amigaos/include/string.h:207-243 | the same; with n >= 8 the subtractions after the alignment moves cannot borrow |
| Memmove.BlockRuns | targets/m68k-amigaos/include/string.h:36-245 | all six block routines: the run finishes with the job done and the start of the destination in d0 |
| Memmove.VersionsAgree | targets/m68k-amigaos/include/string.h:36-245 | the two processor versions of memcpy, memcpy_desc and memset end with the same memory and result from the same memory and arguments, whatever the other registers hold |
| Memmove.MemmoveExact | targets/m68k-amigaos/include/string.h:323-324 | for all d, s, n and both versions the destination gets the bytes the source had before, every other byte is kept, and d is returned |
| Footprints.WiderFinishes | targets/m68k-amigaos/include/string.h:36-320 | a run that finishes under a guard is, from first to last state, the run under any guard that allows more |
| Footprints.RunInside | targets/m68k-amigaos/include/string.h:36-320 | no step of any run changes a byte outside the writable region |
| Footprints.AllowedLoad | targets/m68k-amigaos/include/string.h:36-320 | an instruction that a guard does not refuse reads between the bounds of a readable region, and words and longs at even addresses where that is asked for |
| Footprints.AllowedStore | targets/m68k-amigaos/include/string.h:36-320 | it writes between the bounds of the writable region, at an even address or a multiple of the size where that is asked for |
| Footprints.BlockFootprint | targets/m68k-amigaos/include/string.h:36-245 | in every step the block routines read source bytes only, write destination bytes only and keep the claimed alignment, on any processor that allows at least that |
| Footprints.BlockAccess | targets/m68k-amigaos/include/string.h:36-245 | at every step of a block routine the next transfer lies inside source and destination; on the 68000 words and longs are at even addresses on both sides, and the 68020 version writes at multiples of the size |
| Footprints.StrcmpFootprint | targets/m68k-amigaos/include/string.h:273-284 | no step of strcmp reads behind the NUL of either string or writes anything |
| Footprints.StrncmpFootprint | targets/m68k-amigaos/include/string.h:286-300 | no step of strncmp reads behind a NUL, or more than n bytes of either array, or writes anything |
| Footprints.StrlenFootprint | targets/m68k-amigaos/include/string.h:247-253 | no step of strlen reads behind the NUL or writes anything |
| Footprints.StrcpyFootprint | targets/m68k-amigaos/include/string.h:255-259 | strcpy reads the source string with its NUL only, and writes that many bytes only, in every step |
| Footprints.StrncpyFootprint | targets/m68k-amigaos/include/string.h:261-271 | strncpy reads the source up to its NUL and at most n bytes, and writes the n bytes only, in every step |
| Footprints.StrcatFootprint | targets/m68k-amigaos/include/string.h:302-310 | strcat reads the two strings with their NULs only, and writes only from the NUL of the destination on |
| Footprints.StrrchrFootprint | targets/m68k-amigaos/include/string.h:312-320 | no step of strrchr reads behind the NUL or writes anything |
| CopySteps.EveryStepIsProgress | targets/m68k-amigaos/include/string.h:37-205 | in every state of every run of the four copies, memory is the original with exactly k bytes of the job done, and both address registers stand behind them |
| StringRuns.StrlenRuns | targets/m68k-amigaos/include/string.h:247-253 | subtract and complement give the number of characters before the NUL, and nothing behind it is read |
| StringRuns.StrcpyRuns | targets/m68k-amigaos/include/string.h:255-259 | the string is copied with its NUL and nothing else changes |
| StringRuns.StrncpyRuns | targets/m68k-amigaos/include/string.h:261-271 | for counts up to 2^31 exactly n bytes are written, the source up to its NUL and then zeros, with no terminator when the source has none among n; for greater counts nothing is written |
| StringRuns.PadRead | targets/m68k-amigaos/include/string.h:266-268 | the byte read next is the next original character, or the NUL that a1 has stopped on |
| StringRuns.CompareBody | targets/m68k-amigaos/include/string.h:277-284 | the loop goes on exactly for equal characters that are not NUL, though only the second is tested; otherwise d0 is their difference |
| StringRuns.StrcmpRuns | targets/m68k-amigaos/include/string.h:273-284 | the signed result is the difference of the first characters that differ, as unsigned bytes with the end as 0 |
| StringRuns.StrncmpRuns | targets/m68k-amigaos/include/string.h:286-300 | the same on the two arrays cut off after n bytes, of which at most n are read |
| StringRuns.StrcatRuns | targets/m68k-amigaos/include/string.h:302-310 | the source is copied with its NUL from the NUL of the destination on |
| StringRuns.StrrchrRuns | targets/m68k-amigaos/include/string.h:312-320 | null when neither a character nor the NUL equals the low byte of the argument; otherwise the address of the last byte that does |
| CStrings.LastMatch | targets/m68k-amigaos/include/string.h:312-320 | the index holds the byte and no later one does; none means no byte does |
| CStrings.CompareAtFirst | targets/m68k-amigaos/include/string.h:273-300 | the comparison is the difference of the two bytes at the first place where the texts differ or one has ended, an end being 0 |
| CStrings.PaddedBytes | targets/m68k-amigaos/include/string.h:261-271 | byte by byte: the characters of the source, then zeros up to the count, every other byte as before |
| CStrings.CompareEqual | targets/m68k-amigaos/include/string.h:273-284 | the comparison is zero exactly for equal texts |
| CStrings.CompareAntisymmetric | targets/m68k-amigaos/include/string.h:273-284 | exchanging the strings negates the result |
| CStrings.CompareTransitive | targets/m68k-amigaos/include/string.h:273-284 | the sign of the result is a transitive order |
| CStrings.CompareLess | targets/m68k-amigaos/include/string.h:273-284 | a negative result has its witness: a common prefix after which the first text ends or has the smaller character |
| StringAlgebra.CompareAfterCopy | targets/m68k-amigaos/include/string.h:255-284 | running strcmp on the result of a strcpy and its source gives 0 |
| StringAlgebra.CopyIsString | targets/m68k-amigaos/include/string.h:255-259 | after strcpy the destination is a string of the same characters |
| StringAlgebra.ConcatIsString | targets/m68k-amigaos/include/string.h:302-310 | after strcat the destination is the concatenation, and the characters it had are kept |
| StringAlgebra.LengthAfterConcat | targets/m68k-amigaos/include/string.h:247-310 | running strlen after strcat gives the sum of the lengths |
| StringAlgebra.SearchRunAfterConcat | targets/m68k-amigaos/include/string.h:302-320 | running strrchr after strcat, for a character: the address of the last match in the appended string, or else in the old destination, or 0 |
| StringAlgebra.StrncmpAsStrcmp | targets/m68k-amigaos/include/string.h:273-300 | for counts up to 2^31 that exceed the length of either string, the runs of strncmp and strcmp end with the same d0, though strncmp may read n bytes only |
| StringAlgebra.StrncmpZero | targets/m68k-amigaos/include/string.h:286-300 | a run of strncmp ends with 0 exactly when the two texts, cut off after the count, are equal |
| StringAlgebra.StrncpyCount | targets/m68k-amigaos/include/string.h:261-271 | every run of strncpy with the given arguments, in every memory in which C99 defines the call, leaves what C99 asks, exactly when the count is at most 2^31 |
| StringAlgebra.StrncpyFails | targets/m68k-amigaos/include/string.h:270-271 | a call for 2^31 + 1 bytes whose run leaves memory as it was |
| StringAlgebra.StrncmpCount | targets/m68k-amigaos/include/string.h:286-300 | every run of strncmp with the given arguments gives the comparison of the cut texts exactly when the count is at most 2^31 or both arguments are the same array |
| StringAlgebra.StrncmpFails | targets/m68k-amigaos/include/string.h:291-292 | a call for 2^31 + 1 characters whose run calls a string of one character equal to the empty one |
| Machine.Computer.StoreTo | targets/m68k-amigaos/include/string.h:36-320 | a store writes its bytes in place, most significant first, or is refused and changes no memory |
| Machine.Computer.Perform | targets/m68k-amigaos/include/string.h:36-320 | every instruction, executed in place on the fields and the memory array, does what the small-step machine says |
| Machine.Computer.Execute | targets/m68k-amigaos/include/string.h:36-320 | fetching and executing in place until the end of a routine gives the finishing state |
| Machine.Computer.Memcpy | targets/m68k-amigaos/include/string.h:322-322 | on either processor, for blocks that do not overlap: returns d; the n bytes at d are those of s and no other byte changes |
| Machine.Computer.Memmove | targets/m68k-amigaos/include/string.h:323-324 | on either processor, for every overlap: returns d; the n bytes at d are those s had before and no other byte changes |
| Machine.Computer.Memset | targets/m68k-amigaos/include/string.h:325-325 | on either processor: returns d; the n bytes at d are the low byte of c and no other byte changes |
| Machine.Computer.Strlen | targets/m68k-amigaos/include/string.h:326-326 | returns the number of characters before the NUL; memory is unchanged |
| Machine.Computer.Strcpy | targets/m68k-amigaos/include/string.h:327-327 | returns d; the string with its NUL is at d and no other byte changes |
| Machine.Computer.Strncpy | targets/m68k-amigaos/include/string.h:328-328 | returns d; for counts up to 2^31 the characters and then zeros up to n, byte by byte, and no other byte changes; for greater counts none does |
| Machine.Computer.Strcmp | targets/m68k-amigaos/include/string.h:329-329 | returns the difference of the first characters that differ; memory is unchanged |
| Machine.Computer.Strncmp | targets/m68k-amigaos/include/string.h:330-330 | for counts up to 2^31 the difference of the strings cut off after n characters, for greater counts 0; memory is unchanged |
| Machine.Computer.Strcat | targets/m68k-amigaos/include/string.h:331-331 | returns d; the source with its NUL follows the characters of d and no other byte changes |
| Machine.Computer.Strrchr | targets/m68k-amigaos/include/string.h:332-332 | returns 0 when no byte up to the NUL equals the low byte of c, and otherwise the address of the last one that does; memory is unchanged |
| FpuArithmetic.RoundingExact | targets/m68k-amigaos/include/fenv.h:13-16 | rounding an integer to a significand changes nothing exactly when it fits, in every mode |
| FpuArithmetic.RoundingClose | targets/m68k-amigaos/include/fenv.h:7-16 | rounding to a significand moves a number by less than the weight of its last bit, to a multiple of it, never upward in Down and never downward in Up |
| FpuArithmetic.NearestIsNearest | targets/m68k-amigaos/include/fenv.h:8-8 | no integer is nearer than the one rounding to nearest gives, and a tie gives the even one |
| FpuArithmetic.NonIntegralIsSmall | targets/m68k-amigaos/include/math_060.h:80-99 | a double that is not integral is below 2^52 in magnitude |
| FpuArithmetic.FloorIsGreatest | targets/m68k-amigaos/include/math_060.h:95-99 | the floor is the greatest integer at most x |
| FpuArithmetic.CeilingIsLeast | targets/m68k-amigaos/include/math_060.h:80-84 | the ceiling is the least integer at least x |
| FpuArithmetic.TruncateIsTowardsZero | targets/m68k-amigaos/include/math_060.h:133-133 | the truncation is the integer between x and zero less than one away |
| FpuPrecision.HeldStays | targets/m68k-amigaos/include/fenv.h:13-16 | a move to a register keeps a finite number exactly when the selected precision holds it: significand, least bit and range |
| FpuPrecision.RegisterHolds | targets/m68k-amigaos/include/fenv.h:13-16 | what a move leaves is a number the precision holds, or infinite |
| FpuPrecision.HeldNotCrossed | targets/m68k-amigaos/include/fenv.h:7-16 | in no mode does a move take a number past a smaller one that the precision holds, overflow included |
| FpuPrecision.ReceivedDirection | targets/m68k-amigaos/include/fenv.h:7-11 | downward never raises a number, upward never lowers it, towards zero never takes it further away, overflow included |
| FpuPrecision.NearestReceived | targets/m68k-amigaos/include/fenv.h:8-8 | to nearest, no number the precision holds is nearer than the one received |
| FpuPrecision.OverflowReceived | targets/m68k-amigaos/include/fenv.h:7-16 | a number too large becomes infinity to nearest and upward, and the greatest number downward and towards zero |
| FpuPrecision.UnderflowReceived | targets/m68k-amigaos/include/fenv.h:7-16 | a positive number below the least one becomes that or zero, by mode |
| FpuPrecision.RoundingScales | targets/m68k-amigaos/include/fenv.h:13-16 | rounding does not depend on the unit in which a number is counted, so the significand is rounded and the exponent left alone |
| FpuAdjusting.AdjustedFloorExact | targets/m68k-amigaos/include/math_060.h:95-99 | in every precision and mode: move, truncate, compare and subtract give the floor of a double exactly when the moved copy is not below a truncated value that already is the floor, or, for other operands, is below it and the floor fits the significand |
| FpuAdjusting.AdjustedCeilingExact | targets/m68k-amigaos/include/math_060.h:80-84 | likewise the ceiling |
| FpuAdjusting.HeldFloorKept | targets/m68k-amigaos/include/math_060.h:95-99 | an operand that the precision holds, as one loaded at that precision, always meets that condition |
| FpuAdjusting.CeilingMirrored | targets/m68k-amigaos/include/math_060.h:80-99 | the ceiling code is the floor code of the negated operand in the opposite mode, negated |
| Fpu.Floor060Exact | targets/m68k-amigaos/include/math_060.h:95-99 | truncate-and-adjust floor of a double is the floor at double and extended precision, and at float precision for every operand that precision holds; for any operand exactly when the rounded copy and the subtraction keep it |
| Fpu.Ceil060Exact | targets/m68k-amigaos/include/math_060.h:80-84 | likewise the ceiling |
| Fpu.FloorLostAtFloatPrecision | targets/m68k-amigaos/include/math_060.h:95-99 | an operand whose floor is lost at float precision: -(2^24 + 1/2) |
| Fpu.FloorOfIntegerLost | targets/m68k-amigaos/include/math_060.h:95-99 | the floor of the integer 2^24 + 1 comes out as 2^24, its copy being rounded below it |
| Fpu.FloorOfFractionLost | targets/m68k-amigaos/include/math_060.h:95-99 | the floor of -(1 + 2^-30) comes out as -1, its copy being rounded up to -1 |
| Fpu.MovedScaled | targets/m68k-amigaos/include/math_060.h:80-95 | a number of moderate size is moved with its significand rounded and its exponent kept |
| Fpu.SingleOverflow | targets/m68k-amigaos/include/fenv.h:13-16 | single precision ends at 2^128: a double from there on becomes infinite or 2^128 - 2^104, by mode and sign |
| Fpu.SingleUnderflow | targets/m68k-amigaos/include/fenv.h:13-16 | single precision begins at 2^-149: a smaller positive double becomes 2^-149 or 0, by mode |
| Fpu.Controls | targets/m68k-amigaos/include/math_040.h:80-133 | for any prior control register the values loaded select up, down and zero and keep the precision |
| Fpu.CeilControlBits | targets/m68k-amigaos/include/math_040.h:80-86 | the value loaded for ceil has rounding bits 11 and all other bits of the register |
| Fpu.FloorControlBits | targets/m68k-amigaos/include/math_040.h:96-103 | the value loaded for floor has rounding bits 10 and all other bits |
| Fpu.TruncControlBits | targets/m68k-amigaos/include/math_040.h:126-133 | the value loaded for trunc has rounding bits 01 and all other bits |
| Fpu.Codes | targets/m68k-amigaos/include/fenv.h:7-16 | which field values select which rounding mode and precision |
| Fpu.ThroughIntegerExact | targets/m68k-amigaos/include/math_040.h:80-133 | in every mode and at every precision the conversion through a 32-bit integer gives the rounded value exactly when that fits 32 bits and the significand, or is 2^31 at float precision in a mode that rounds 2^31 - 1 up to it; below the range it gives -2147483648, above it 2147483647, which float precision makes 2147483648 or 2147483520 |
| Fpu.SurvivesWide | targets/m68k-amigaos/include/math_040.h:80-133 | at double and extended precision that is exactly: when it fits 32 bits |
| Fpu.ThroughIntegerLimits | targets/m68k-amigaos/include/math_040.h:84-85 | the floor of 2^31 is lost at every precision; 2^31 converted to nearest at float precision is not |
| Fpu.VersionsAgree | targets/m68k-amigaos/include/math_040.h:80-133 | floor and ceiling of a double agree in the 68040 and 68060 versions exactly when they fit 32 bits at double and extended precision, and at float precision, where either is right, exactly when both are; truncation and nearbyint agree exactly when the result survives the conversion |
| FloatingUnit.Unit.Ceil060 | targets/m68k-amigaos/include/math_060.h:80-84 | in place: fp1 becomes the operand as the move rounds it, fp0 the ceiling, at float precision exactly when the rounded copy and the addition keep it |
| FloatingUnit.Unit.Floor060 | targets/m68k-amigaos/include/math_060.h:95-99 | in place: fp1 becomes the operand as the move rounds it, fp0 the floor, at float precision exactly when the rounded copy and the subtraction keep it |
| FloatingUnit.Unit.Trunc060 | targets/m68k-amigaos/include/math_060.h:133-133 | in place: fp0 becomes the integer between it and zero less than one away |
| FloatingUnit.Unit.Nearbyint060 | targets/m68k-amigaos/include/math_060.h:126-126 | in place: fp0 becomes an integer less than one away, rounded in the current mode |
| FloatingUnit.Unit.Ceil040 | targets/m68k-amigaos/include/math_040.h:80-86 | fp0 becomes the ceiling exactly when that survives the conversion at the current precision, out of range the stated end of the range, and the control register is restored |
| FloatingUnit.Unit.Floor040 | targets/m68k-amigaos/include/math_040.h:96-103 | likewise the floor |
| FloatingUnit.Unit.Trunc040 | targets/m68k-amigaos/include/math_040.h:126-133 | likewise the truncation |
| FloatingUnit.Unit.Nearbyint040 | targets/m68k-amigaos/include/math_040.h:123-124 | fp0 is rounded in the current mode exactly when the result survives the conversion at the current precision, and is the stated end of the range when it is out of range |
| FloatingUnit.Unit.Fegetround | targets/m68k-amigaos/include/fenv.h:45-47 | returns the rounding field |
| FloatingUnit.Unit.Fegetprec | targets/m68k-amigaos/include/fenv.h:48-49 | returns the precision field |
| FloatingUnit.Unit.Fesetround | targets/m68k-amigaos/include/fenv.h:54-58 | for a rounding mode: the rounding field equals the argument, the precision field and every bit outside the rounding field are kept, and no saved environment changes; the step is the one the run model takes |
| FloatingUnit.Unit.Fesetprec | targets/m68k-amigaos/include/fenv.h:59-63 | for a precision: the precision field equals the argument, the rounding field and every bit outside the precision field are kept, and no saved environment changes; the step is the one the run model takes |
| FloatingUnit.OutsideRoundMeans | targets/m68k-amigaos/include/fenv.h:54-58 | what fesetround is said to keep is all of the register but the two bits of 0x30 |
| FloatingUnit.OutsidePrecMeans | targets/m68k-amigaos/include/fenv.h:59-63 | what fesetprec is said to keep is all of the register but the two bits of 0xc0 |
| FloatingUnit.Unit.Fegetenv | targets/m68k-amigaos/include/fenv.h:43-51 | the address holds all 32 bits of the control register, every other environment and the register are as before |
| FloatingUnit.Unit.Fesetenv | targets/m68k-amigaos/include/fenv.h:52-53 | the register becomes all 32 bits that were saved there, and the saved environments stay |
| FloatingUnit.FieldsApart | targets/m68k-amigaos/include/fenv.h:54-63 | setting one field sets it and never disturbs the other |
| FloatingUnit.LatestIsRead | targets/m68k-amigaos/include/fenv.h:43-63 | in every run of valid calls both fields read as most recently set or restored, as a definition by history alone gives them |
| FloatingUnit.RestoreBringsBack | targets/m68k-amigaos/include/fenv.h:43-53 | in every run a restore brings back the whole register as it was at the last save to that address, whatever was called in between |
| FloatingUnit.OthersKept | targets/m68k-amigaos/include/fenv.h:43-63 | in every run of valid calls without a restore the bits outside the two fields stay |
| FloatingUnit.OthersAre | targets/m68k-amigaos/include/fenv.h:43-63 | those bits are all but 0xf0 |
| FloatingUnit.NearbyintFollows | targets/m68k-amigaos/include/math_040.h:123-124 | after any such run, also one that leaves float precision selected, nearbyint gives the integer of the mode most recently set or restored exactly when that survives the conversion at the precision most recently set or restored |
| FloatingUnit.SetRoundArgument | targets/m68k-amigaos/include/fenv.h:54-58 | fesetround sets the field and keeps the rest, for every prior register, exactly for the four rounding modes |
| FloatingUnit.SetPrecArgument | targets/m68k-amigaos/include/fenv.h:59-63 | fesetprec sets the field and keeps the rest, for every prior register, exactly for arguments within its field, the undefined fourth code included |
| RstatClock.TicksClose | targets/m68k-amigaos/netinclude/rpcsvc/rstat_proc.c:214-215 | the subtracted count differs from hz times the microseconds since boot, a million a tick, by less than one tick |
| RstatClock.PerMillion | targets/m68k-amigaos/netinclude/rpcsvc/rstat_proc.c:214-215 | the division drops the fraction towards zero, for negative differences too |
| RstatClock.TicksMonotone | targets/m68k-amigaos/netinclude/rpcsvc/rstat_proc.c:214-215 | it never decreases as the clock advances, across second boundaries too |
| RstatClock.Ticks32Exact | targets/m68k-amigaos/netinclude/rpcsvc/rstat_proc.c:214-215 | without overflow the 32-bit evaluation is the exact one |
| RstatClock.IntrExact | targets/m68k-amigaos/netinclude/rpcsvc/rstat_proc.c:213-215 | the stored interrupt word is the exact one modulo 2^32, for any time since boot, when the microsecond product fits 32 bits, and for proper clocks only then |
| RstatClock.TickRates | targets/m68k-amigaos/netinclude/rpcsvc/rstat_proc.c:213-215 | it is so for every pair of proper clocks exactly for rates up to 2147 ticks a second |
| RstatClock.IntrLost | targets/m68k-amigaos/netinclude/rpcsvc/rstat_proc.c:213-215 | at 2148 ticks a second and a clock 999999 microseconds ahead the stored word is wrong |
| RstatIdle.EveryRun | targets/m68k-amigaos/netinclude/rpcsvc/rstat_proc.c:71-151 | in every interleaving of requests and alarms setup runs once and before any update, the updates made are exactly those the events before the exit ask for, the counter is the number of alarms since the last request and at most 20, and the service has exited exactly when some request has been followed by 21 alarms in a row |
| InterfaceChain.EndsWithinNodes | targets/m68k-amigaos/netinclude/rpcsvc/rstat_proc.c:280-291 | the walk of setup ends exactly when it ends within as many steps as there are nodes |
| InterfaceChain.EndlessMeansCycle | targets/m68k-amigaos/netinclude/rpcsvc/rstat_proc.c:280-291 | it does not end exactly when it passes some node twice |
| InterfaceChain.WholeChain | targets/m68k-amigaos/netinclude/rpcsvc/rstat_proc.c:233-248 | a walk bounded by the counted length, or more, takes in the whole chain |
| InterfaceChain.WalkNodes | targets/m68k-amigaos/netinclude/rpcsvc/rstat_proc.c:233-247 | node i of a walk is the one it stands at after i steps |
| InterfaceChain.WalkTakesAll | targets/m68k-amigaos/netinclude/rpcsvc/rstat_proc.c:233-247 | and no node it passes within its bound is left out |
| RstatService.Service.Setup | targets/m68k-amigaos/netinclude/rpcsvc/rstat_proc.c:254-292 | numintfs becomes the length of the chain, at most the number of its nodes, or the process exits with 1 on an unreadable node |
| RstatService.Service.SumInterfaces | targets/m68k-amigaos/netinclude/rpcsvc/rstat_proc.c:228-248 | words 13 to 17 become the sums of input packets, input errors, output errors, collisions and output packets over the first numintfs nodes of the walk, modulo 2^32, also when the chain has changed or become cyclic; no other word changes |
| RstatService.Service.Updatestat | targets/m68k-amigaos/netinclude/rpcsvc/rstat_proc.c:132-252 | the whole union after an update, the five sums by field and place, and the idle shutdown step |
| RstatService.UpdatedByWord | targets/m68k-amigaos/netinclude/rpcsvc/rstat_proc.c:160-250 | every word after an update by its place: counters, ticks, sums, times; the load averages and the last word stay |
| RstatService.OneMoreInterface | targets/m68k-amigaos/netinclude/rpcsvc/rstat_proc.c:228-248 | one more interface adds its own five counters to words 13 to 17 in that order, modulo 2^32, from 0 for no interface, and changes nothing else |
| RstatService.TotalsByInterface | targets/m68k-amigaos/netinclude/rpcsvc/rstat_proc.c:228-248 | the same of any words that hold the totals of some interfaces |
| RstatService.Service.StatInit | targets/m68k-amigaos/netinclude/rpcsvc/rstat_proc.c:71-79 | setup runs once, numintfs is the length of the chain, and the words are those of the first update over that many interfaces and, if the alarm comes in the second slept through, of a second one; the idle counter goes as the idle model has it |
| RstatService.Service.Request | targets/m68k-amigaos/netinclude/rpcsvc/rstat_proc.c:81-106 | the first request starts the service as StatInit says and answers those words; a later one changes nothing but the idle counter, which restarts |
| RstatService.AskTwice | targets/m68k-amigaos/netinclude/rpcsvc/rstat_proc.c:81-252 | a client: the first answer has the totals over the whole chain, and so has one after an alarm if the chain has not grown; version 1 of both is as intended exactly when the microsecond product fits |
| RstatService.AnswersWhole | targets/m68k-amigaos/netinclude/rpcsvc/rstat_proc.c:228-248 | an update that sums as many interfaces as the chain has, or more, gives the totals of all of them |
| RstatService.AnswersByWord | targets/m68k-amigaos/netinclude/rpcsvc/rstat_proc.c:228-248 | the five sums of such an answer, by field and place |
| RstatHistory.Serve | targets/m68k-amigaos/netinclude/rpcsvc/rstat_proc.c:71-252 | any sequence of requests and alarms to a new service: every answer holds what the last update before it read, over the interfaces counted at the start, and with readable interfaces every request is answered until, in a build that shuts down when idle, some request has been followed by 21 alarms in a row |
| RstatHistory.LastReadIs | targets/m68k-amigaos/netinclude/rpcsvc/rstat_proc.c:71-151 | what was read last: nothing before a request, the second of the two readings of the first request if there are two, and after that the reading of the last alarm |
| RstatHistory.UpToDateByWord | targets/m68k-amigaos/netinclude/rpcsvc/rstat_proc.c:160-250 | every word of an answer by its place |
| RstatHistory.UpToDateIsWhole | targets/m68k-amigaos/netinclude/rpcsvc/rstat_proc.c:228-248 | such an answer has the totals of all the interfaces that the chain then had, if none was added |
| RstatService.Version1Exact | targets/m68k-amigaos/netinclude/rpcsvc/rstat_proc.c:99-106 | version 1 is answered as intended, with the exact clock arithmetic, exactly when the microsecond product fits 32 bits |
| RstatService.Version2Exact | targets/m68k-amigaos/netinclude/rpcsvc/rstat_proc.c:57-61 | version 2 is answered as intended exactly when context switches, output packets and current second agree and the microsecond product fits 32 bits |
| RstatService.Version3Exact | targets/m68k-amigaos/netinclude/rpcsvc/rstat_proc.c:57-61 | version 3 is answered as intended exactly when context switches, output packets and the word no update writes agree and the microsecond product fits 32 bits |
| RstatService.SwitchesLost | targets/m68k-amigaos/netinclude/rpcsvc/rstat_proc.c:57-61 | one context switch and no interface: version 1 is right, versions 2 and 3 are not |
| RstatService.UpdatesDoNotAccumulate | targets/m68k-amigaos/netinclude/rpcsvc/rstat_proc.c:228-232 | an update does not depend on the totals of earlier ones |

## Left out

- The X and V flags, 24-bit addressing, timing and caches: no routine tests or needs them.
- The rest of the compiler's calling convention: arguments are in the registers the declarations name, and the other registers start with any values.
- Overlapping blocks for strcpy, strcat and strncpy, which C99 leaves undefined; the run theorems of strcpy and strcat still cover a destination at or below the source.
- Machine.Computer.Execute: takes the finishing state as a ghost argument, so the routines' theorems carry the termination argument.
- Signed zeros, NaNs, infinite operands and exception flags: operands are finite, and an infinite result of an overflow is kept as 2^16384. `fintrz` and `fint` themselves are taken to round to an integer only, not to the selected precision.
- The undefined precision code 11 is taken as extended, and reserved bits of the control register are kept as written.
- math_881.h repeats the truncate-and-adjust code; round, lround, fdim and fma have slips of their own and no theorem here; the transcendental functions are single instructions.
- fegetexceptflag, feraiseexcept and the other fenv functions that return a constant.
- nlist, open, lseek and the reads of the fixed kernel variables always succeed; only reading an interface can fail. havedisk, the load averages and the printing are not modelled.
- Signals are events between calls: the window between `alarm` and `signal` in stat_init is not modelled.
- The string functions that string.h only declares.
