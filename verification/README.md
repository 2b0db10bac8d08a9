# Wuffs in Dafny

A Dafny model of the hard parts of Wuffs, a language and library for handling untrusted files: its
DEFLATE decoder, the bounds checker that accepts Wuffs programs, the interval arithmetic beside it,
the LZW decoder of its GIF library, the Adler-32 of its zlib library, and the topological sort of its
compiler. Nothing here was executed; everything below is a theorem that Dafny 4.11 verifies
(`dafny verify dfyconfig.toml`).

## What is proved

**DEFLATE.** `Inflate` states RFC 1951 as a machine that consumes bits one step at a time and stops
with a verdict. The decoder is modelled as the C code runs: coroutines that suspend wherever input
or room runs out, a bit buffer passed from one to the next, two-level Huffman tables in an array of
1234 entries, and a ring of 32768 bytes of history. `Deflate.Decoder.Decode` shows that over any
sequence of calls, with input and output cut up in any way, the output is exactly what the machine
makes of the input, that each status tells the truth, and that a short write means a full destination
or progress. `Sessions.DecodeAll` follows whole runs: whatever the sizes of the pieces, the calls come
to an end with the machine's output and verdict. On the way there: `HuffTable.InitHuff` says exactly
which code lengths are refused and why, and that every table it builds decodes every bit string;
`HuffFast.BothWays` that the fast and the slow decoder agree; `BackRefs.CopyBackReference` that copies
are right from every suspension point; `History.Ring.Record` what the ring holds. The internal errors
of the decoder are shown to be unreachable. In particular the 1234 entries of a Huffman table, which
the source calls "big enough" and would like to see confirmed by an exhaustive search
(std/deflate/decode_deflate.wuffs:94-96), are enough: `HuffSize.SlotsSuffice` shows that a complete code
of n symbols needs at most 832 + n. `RoundTrip.ReadBack` closes the loop with the encoder of
`script/make-deflate.go`: for every script whose fixed Huffman blocks end with their one end-of-block
line, the decoder ends with the script's text.

The machine is RFC 1951 but for two things that this decoder refuses, and there it follows the decoder.
It takes only complete codes, where section 3.2.7 also allows a single distance code of one bit or none
at all (`FormatLimits.NarrowerBy`); and at most 30 distance codes, where section 3.2.7 counts up to 32
(`Inflate.AtCodeCounts`). `FormatLimits.RefusesPermitted` has headers that section 3.2.7 allows and that
are refused.

**Bounds checker.** `Programs` gives the scalar fragment of the language a meaning. `Checker.BlockSound`
shows that from every state that satisfies the facts no run of an accepted block fails an assertion,
leaves a type or stores a value out of range, for any number of loop iterations and through if-chains,
while loops with pre, inv and post conditions, jumps to outer loops and returns. `CheckerState` ties
the theorem to the checker as an object that changes its list of facts in place. The theorem needs
conditions that the checker does not test; `CheckerLimits` has, for each, a program that meets all the
others, is accepted and fails:

- no right side of =, += or -= mentions its target; `Facts.AssignSoundIff` says exactly when the facts
  stay true after an assignment;
- no branch holds a fact twice where branches join, because the join counts occurrences; this can
  only happen after `-=` (`Facts.AssignDistinct`);
- facts with the same text are equal where branches join, because the join counts texts, and the
  remainder operator has none (lang/ast/string.go:151-186); `Rendering.AlikeMeansEqual` shows that
  expressions without a remainder that are no deeper than 255 can be told apart by their text;
- a loop guard compares variables and constants only, or its ranges check from the pre and inv
  conditions alone, because the checker looks at it once, with the facts on entry;
- a return value is a variable or a constant, or its ranges check, because the checker does not look
  at it (lang/check/bounds.go:299-300).

`Checker.ProgramSound` has these as conditions that can be read off the program: the second and third
follow for every program without `-=` and `%` in which different names and numbers have different
texts, every constant is written as one name or number and not as a compound or negated one, and
expressions are not too deep (`Checker.LegibleJoins`). A last condition excludes right shifts of ideal
constants that do not fit 64 bits, which the checker would take to be zero (`Ranges.FarShiftSoundIff` says
exactly when that is right). No such shift gets to the checker: the type checker folds constant
expressions and refuses to shift an ideal number by anything else (lang/check/type.go:852-886).

**Intervals.** Every operation is compared with one reference notion, the hull of all values the
operator takes (`Interval.IsHull`). All operations are exact, except that `Sub` gives up a finite end
for two rays in opposite directions, and only then; `And` and `Or` say exactly when they panic on bounds
of more than 0xFFFF bits. `Ranges.ContainsExact` relates the checker's coarser ranges to these.

**LZW, Adler-32, topological sort.** `Lzw.Decoder.Decode` refines a dictionary of strings for any
split of input and output, and shows the error for cyclical prefix chains to be unreachable.
`Adler.Adler32.Update` computes the per-byte definition without overflow, and 5552 is the longest chunk
for which that is so. `TopoSort.Sort` succeeds exactly on acyclic graphs.

## How the model follows the source

Objects whose methods change them are classes (`Deflate.Decoder`, `Lzw.Decoder`, `History.Ring`,
`Writers.Writer`, `Adler.Adler32`, `TopoSort.Sorter`, `Encoder.BitWriter`, `Interval.BiggerIntPair`,
`CheckerState.Checker`), buffers and tables that are part of them are arrays, and loops are loops with
invariants. A coroutine's saved locals are a value that its method takes and returns together with
the point to resume at. Unsigned wrap-around is written out where values can wrap, and otherwise shown
not to happen. A panic is a result of the method that panics. Where a comment in the source and the
code disagree, the model follows the code: a `while` loop with a constant false guard is described as
supported (lang/check/bounds.go:663-665), but inverting the guard refuses it first
(lang/check/bounds.go:115-117).

| file | content |
|---|---|
| Options, Bits, BitStream, Words | bits of integers, words, bit streams |
| Interval, IntervalBitwise | lang/interval/interval.go |
| Codes, HuffSort, HuffKeys, HuffSize, Entries, HuffTable | canonical codes and init_huff |
| Inflate, FormatLimits | the machine of RFC 1951, and where it is narrower |
| Lookups, HuffRead, HuffSlow, HuffFast | the Huffman decoders |
| Writers, History, BackRefs | output, history ring and copies |
| StoredBlocks, DynamicBlocks, FixedCodes, Deflate, Sessions | the other block functions, the whole decoder and whole runs of it |
| FixedValues, Encoder, RoundTrip | script/make-deflate.go |
| Lzw, Adler, TopoSort | the smaller state machines |
| Programs, Rendering, Facts, Ranges, Checker, CheckerState, CheckerLimits | the bounds checker |

## Model

| member | source | states |
|---|---|---|
| Interval.Membership | lang/interval/interval.go:172-232 | Empty, ContainsNegative, ContainsPositive and ContainsZero, which only look at the two bounds, hold exactly when some member says so |
| Interval.AddIsHull | lang/interval/interval.go:261-272 | Add returns the exact hull of all sums for all intervals, infinite and empty ones included |
| Interval.SubContains | lang/interval/interval.go:275-286 | Sub contains every difference |
| Interval.SubIsHullExactlyUnlessOpposed | lang/interval/interval.go:275-286 | Sub returns the exact hull of all differences if and only if the operands are not two rays in opposite directions |
| Interval.BiggerIntPair.LowerMin | lang/interval/interval.go:88-93 | the low end becomes the smaller of itself and the bound that comes in; the high end stays |
| Interval.BiggerIntPair.RaiseMax | lang/interval/interval.go:96-101 | the high end becomes the larger of itself and the bound that comes in; the low end stays |
| Interval.BiggerIntPair.FromIntRange | lang/interval/interval.go:110-121 | the pair spans exactly the members of the interval |
| Interval.BiggerIntPair.ToIntRange | lang/interval/interval.go:103-108 | the result is the hull of the values that the pair spans |
| Interval.MulLsh | lang/interval/interval.go:305-382 | the exact hull of all products, or of all left shifts, for all intervals |
| Interval.Mul | lang/interval/interval.go:289-291 | Mul returns the exact hull of all products |
| Interval.LshRange | lang/interval/interval.go:298-303 | Lsh is refused exactly when a negative shift is possible, and otherwise returns the exact hull |
| Interval.QuoRange | lang/interval/interval.go:389-472 | Quo is refused exactly when the divisor may be zero, and otherwise returns the exact hull of all quotients truncated towards zero |
| Interval.RshRange | lang/interval/interval.go:479-529 | Rsh is refused exactly when a negative shift is possible, and otherwise returns the exact hull of all floored shifts |
| IntervalBitwise.BitFillRight | lang/interval/interval.go:905-918 | panics exactly beyond 0xFFFF bits; otherwise every bit at or to the right of a set bit gets set |
| IntervalBitwise.OrMax | lang/interval/interval.go:833-891 | says exactly when it panics; otherwise the largest xx or yy over both intervals, an upper bound that is attained, for two non-negative or two negative intervals of any size |
| IntervalBitwise.AndMax | lang/interval/interval.go:710-820 | panics exactly for disjoint intervals one of whose bounds differ in more than 0xFFFF bits; otherwise the largest xx and yy over both intervals, an upper bound that is attained |
| IntervalBitwise.AndRange | lang/interval/interval.go:538-574 | for all intervals: panics exactly when both are finite, proper and one's bounds differ in more than 0xFFFF bits; is refused exactly for possibly negative operands; and otherwise returns the exact hull, infinite ends included |
| IntervalBitwise.OrMin | lang/interval/interval.go:634-644 | panics exactly for disjoint intervals one of whose bounds differ in more than 0xFFFF bits; otherwise the least xx or yy over both, found as the complement of a greatest conjunction |
| IntervalBitwise.OrRange | lang/interval/interval.go:583-647 | for all intervals: says exactly when it panics; is refused exactly for possibly negative operands; and otherwise returns the exact hull, infinite ends included; its two unreachable panics are dead |
| Codes.PrefixFree | gen/c/std/deflate.c:1881-1983 | with the canonical codes of section 3.2.2 of RFC 1951, no stream starts with the codes of two symbols |
| Codes.UniqueSymbol | gen/c/std/deflate.c:1744-1985 | if the Kraft sum is 1, every stream starts with the code of exactly one symbol |
| HuffSort.CountLengths | gen/c/std/deflate.c:1744-1754 | the counts are the numbers of symbols of each length; the internal error is unreachable |
| HuffSort.CheckSubscription | gen/c/std/deflate.c:1759-1778 | over-subscribed if and only if the Kraft sum exceeds 1, under-subscribed if and only if it is below 1, accepted if and only if it is 1 |
| HuffSort.ComputeOffsets | gen/c/std/deflate.c:1779-1797 | each length's offset is the number of symbols with shorter codes; refused exactly for more than 288 coded symbols |
| HuffSort.SortSymbols | gen/c/std/deflate.c:1798-1817 | the symbols come out in canonical order, first by length and then by value; the internal errors are unreachable |
| HuffSort.NextCode | gen/c/std/deflate.c:1881-1888 | counting up by one and shifting by the growth in length gives the canonical code of the next symbol in order |
| HuffTable.MinimumLength | gen/c/std/deflate.c:1818-1829 | bad minimum length is reported exactly when every code is longer than nine bits |
| HuffTable.MaximumLength | gen/c/std/deflate.c:1830-1841 | finds the longest code length; the error is unreachable |
| HuffTable.Prepare | gen/c/std/deflate.c:1744-1841 | each error status of the first half is reported exactly for the code lengths that deserve it; bad minimum code length never is |
| HuffTable.SubTableLength | gen/c/std/deflate.c:1898-1918 | the sizing loop finds the length of the longest code behind this redirect key, and so the exact size of its sub-table |
| HuffTable.SelectSubTable | gen/c/std/deflate.c:1891-1934 | fails only if the table needs more than 1234 slots; otherwise the cursor is at a sub-table that is wide enough, disjoint from the others and reachable by its redirect |
| HuffTable.FillEntries | gen/c/std/deflate.c:1961-1973 | writes the value to exactly the slots whose low bits start with the code, and to no other |
| HuffSize.SlotsSuffice | std/deflate/decode_deflate.wuffs:94-96 | a complete code needs at most 512 + 5 * 64 table entries and one more for each symbol |
| HuffSize.ShortExists | gen/c/std/deflate.c:1818-1829 | a complete code of fewer than 1024 symbols has a code of at most nine bits, so the test for it never fires |
| HuffTable.TableSuffices | std/deflate/decode_deflate.wuffs:94-97 | 1234 table entries are enough for every complete code that init_huff can be given |
| HuffTable.PlaceSymbol | gen/c/std/deflate.c:1872-1973 | one round keeps every symbol placed so far reachable and adds one more |
| HuffTable.BuildTable | gen/c/std/deflate.c:1847-1985 | for every complete code succeeds if and only if every symbol has an entry, so 1234 slots always suffice, and then the table decodes every stream |
| HuffTable.InitHuff | gen/c/std/deflate.c:1744-1989 | each status holds exactly for its code lengths: bad minimum code length never, and for at most 288 lengths with entries no internal error and success exactly for complete codes; on success, for every bit string, the two-level look-up yields the entry of the unique symbol whose code prefixes it and consumes exactly that code |
| HuffTable.ServedDecodes | gen/c/std/deflate.c:1847-1985 | a table in which every symbol's slots hold its entry decodes every stream |
| Entries.MakeEntry | gen/c/std/deflate.c:1944-1960 | an entry built by disjunctions is the sum of its fields, or an error for a symbol without one |
| Entries.MakeRedirect | gen/c/std/deflate.c:1931-1932 | a redirect entry built by disjunctions holds the sub-table's position and width |
| Entries.Reverse9Reverses | gen/c/std/deflate.c:1928-1930 | the byte table and one more bit together reverse nine bits |
| Lookups.LengthMagic | gen/c/std/deflate.c:796-803 | the length magic numbers encode the base lengths and extra bits of section 3.2.5 of RFC 1951 |
| Lookups.DistanceMagic | gen/c/std/deflate.c:805-812 | the distance magic numbers encode the base distances and extra bits of section 3.2.5 of RFC 1951 |
| Lookups.LitEntry | gen/c/std/deflate.c:2479-2553 | the fields of a literal/length entry tell literals, end of block and lengths apart and say what section 3.2.5 of RFC 1951 says |
| Lookups.DistEntry | gen/c/std/deflate.c:2591-2632 | the fields of a distance entry say what section 3.2.5 of RFC 1951 says; unused codes are marked bad |
| Lookups.LookAtRoot | gen/c/std/deflate.c:2460-2478 | what the first look-up finds, with too few bits or with enough: the entry takes at most the bits of the next code, and is right once they are there |
| Lookups.LookAtSub | gen/c/std/deflate.c:2492-2519 | the same for the second look-up after a redirect |
| HuffRead.ReadRoot | gen/c/std/deflate.c:2460-2478 | the loop stops with the next code's entry, or at the end of the input with no whole code there; it reads no byte too many |
| HuffRead.ReadSub | gen/c/std/deflate.c:2494-2519 | the same for the second look-up; its index is always inside the table |
| Writers.Writer.CopyFromSlice32 | cmd/wuffs-c/internal/cgen/base-impl.h:298-316 | appends as many bytes as slice, length and room allow |
| Writers.Writer.CopyFromReader32 | cmd/wuffs-c/internal/cgen/base-impl.h:259-280 | appends as many bytes as reader, length and room allow |
| Writers.Writer.CopyFromHistory32 | cmd/wuffs-c/internal/cgen/base-impl.h:189-229 | the byte-by-byte overlapping copy, clipped to the room; nothing when the distance is zero or reaches behind the mark |
| Writers.Writer.CopyFromHistory32Bco | cmd/wuffs-c/internal/cgen/base-impl.h:231-257 | under its caller's conditions, the same memory, pointer and return value as copy_from_history32 |
| Writers.Writer.CopyBack | cmd/wuffs-c/internal/cgen/base-impl.h:213-228 | the unrolled loop stores each byte from the one `distance` before it |
| Writers.StoredIsCopied | cmd/wuffs-c/internal/cgen/base-impl.h:213-228 | what is stored in memory is the reference expansion of what was written since the mark |
| Writers.CopiedTwice | cmd/wuffs-c/internal/cgen/base-impl.h:189-229 | an overlapping copy continues where it was interrupted |
| History.Ring.Record | gen/c/std/deflate.c:952-989 | after every suspended call the ring holds the last 32768 bytes of the whole output, each at its index, with history_index at most 65536 |
| History.Ring.RecordLittle | gen/c/std/deflate.c:963-987 | storing less than a ring of bytes, with or without wrapping around, keeps that |
| History.Ring.CopyInto | cmd/wuffs-c/internal/cgen/base-impl.h:174-187 | copies as much as fits and leaves the rest of the ring alone |
| BackRefs.CopyBackReference | gen/c/std/deflate.c:2651-2742 | from any suspension point, for every length, distance and room: emits exactly the reference expansion, reports bad distance if and only if it exceeds the output so far, never reports an internal error, and stops short only when the room is used up or, in a copy interrupted in the ring, right after the ring's part |
| BackRefs.CopyFromRing | gen/c/std/deflate.c:2683-2726 | the loops at suspension points 9 and 10 emit the part of the expansion that comes from the ring |
| BackRefs.CopyOkRecorded | gen/c/std/deflate.c:952-989 | recording the bytes written in the ring leaves an interrupted copy able to go on |
| BackRefs.CopyFast | gen/c/std/deflate.c:2244-2323 | the fast copy emits the whole expansion at once, or reports bad distance exactly when the slow one does |
| Inflate.AdvanceMore | gen/c/std/deflate.c:1058-1180 | a step of the format that can be taken is not affected by the input that follows |
| Inflate.LeadsByStep | gen/c/std/deflate.c:1058-1180 | taking a step of the format does not change what the whole input decodes to |
| HuffSlow.DecodeHuffmanSlow | gen/c/std/deflate.c:2444-2751 | from any suspension point: output and input left decode to what output and input before did, each error status is the format's verdict, and it stops for room only when there is none or after writing something |
| HuffSlow.ReadingStep | gen/c/std/deflate.c:2458-2650 | one step that only reads refines the format's step |
| HuffSlow.WritingStep | gen/c/std/deflate.c:2479-2742 | one step that writes refines the format's step, and stops for room only when there is none or after writing something |
| HuffSlow.MoveLeads | gen/c/std/deflate.c:2651-2742 | n bytes of a copy are n steps of the format |
| HuffFast.DecodeHuffmanFast | gen/c/std/deflate.c:2041-2341 | output and input left decode to what they did before, with less than eight bits held and none stray; it goes on until there is too little room or input; each error status is the format's verdict |
| HuffFast.FastRound | gen/c/std/deflate.c:2061-2324 | one round reads at most twelve bytes, refines the format's steps and fails only as the format says |
| HuffFast.Unread | gen/c/std/deflate.c:2325-2340 | the unread loop gives back whole bytes, never past the start of the call, and changes nothing that is yet to be decoded |
| HuffFast.OneEnd | gen/c/std/deflate.c:1131-1171 | a block has only one end and one output |
| HuffFast.SlowAlone | gen/c/std/deflate.c:2371-2752 | the end that the slow decoder alone finds for a block is the format's |
| HuffFast.FastThenSlow | gen/c/std/deflate.c:1131-1171 | so is the end that the fast decoder and then the slow one find |
| HuffFast.BothWays | gen/c/std/deflate.c:1131-1171 | one block decoded both ways from the same output: unless one runs out of room, the output, the bits left over, the position in the input and the error are the same |
| StoredBlocks.DecodeUncompressed | gen/c/std/deflate.c:1266-1330 | from any suspension point: refines the format's stored block; inconsistent lengths are reported exactly when the format says so |
| StoredBlocks.Gather | gen/c/std/deflate.c:1277-1304 | the four length bytes are read in one go or one by one, with the same result |
| StoredBlocks.LoadIsStream | cmd/wuffs-c/internal/cgen/base-impl.h:114-117 | a little-endian word is the next 32 bits of the stream |
| DynamicBlocks.InitDynamicHuffman | gen/c/std/deflate.c:1496-1658 | from any suspension point: refines the format's dynamic block header and leaves tables for the codes it transmits, or fails with the format's verdict |
| DynamicBlocks.CountsStep | gen/c/std/deflate.c:1501-1526 | the step at the three counts refines the format's: bad counts are refused exactly when the format refuses them |
| DynamicBlocks.ClenStep | gen/c/std/deflate.c:1528-1544 | one code length code length is stored where the transmission order puts it |
| DynamicBlocks.LengthsStep | gen/c/std/deflate.c:1557-1590 | one symbol of the code length code refines the format's step |
| DynamicBlocks.RepeatStep | gen/c/std/deflate.c:1590-1637 | one repeat code: refused exactly when there is nothing to repeat or the copies are more than there are code lengths, as the format says |
| DynamicBlocks.BuildTrees | gen/c/std/deflate.c:1638-1658 | both tables are built, or the verdict is what the format says of the code lengths |
| DynamicBlocks.BuildableIffComplete | gen/c/std/deflate.c:1744-1989 | for the decoder's three alphabets a table can be built exactly for complete codes |
| FixedCodes.InitFixedHuffman | gen/c/std/deflate.c:1392-1425 | builds tables for the fixed codes of section 3.2.6 of RFC 1951 and never fails |
| FixedCodes.FixedTreesOk | gen/c/std/deflate.c:1395-1415 | the fixed code lengths are complete codes |
| Deflate.HeaderStep | gen/c/std/deflate.c:1062-1079 | reads the three header bits and dispatches as the format says, leaving less than eight bits |
| Deflate.StartBlock | gen/c/std/deflate.c:1080-1151 | a block of each kind starts where the format has it start; for a stored block the bits up to the byte boundary are dropped, and the test for eight or more of them never fires |
| Deflate.DecodeBlocks | gen/c/std/deflate.c:1058-1180 | from any suspension point: output and input left decode to what they did before, less than eight bits are held between blocks, the errors for inconsistent n_bits and end of block never fire, and a short write means a full destination or progress |
| Deflate.Suspend | gen/c/std/deflate.c:952-989 | a suspended call records its output and leaves every coroutine able to go on |
| Deflate.RunExtends | gen/c/std/deflate.c:917-995 | the format only ever adds to the output |
| Deflate.Conclude | gen/c/std/deflate.c:917-995 | what each status says about the whole output: finished, all of what is decodable so far, a prefix of it, or the format's error |
| Deflate.RunMore | gen/c/std/deflate.c:872-1024 | more input adds to the outcome of an incomplete stream and is left over by a finished one |
| Deflate.Decoder.Decode | gen/c/std/deflate.c:872-1024 | for every sequence of calls with any split of input and output: the output is what the format machine makes of all input so far, to the last bit, each status is the machine's verdict, and a short write means that the destination is full or that something was written |
| Sessions.OneCall | gen/c/std/deflate.c:872-1024 | one call with some room: progress on every short write, and a stop is final for the whole input |
| Sessions.DecodeAll | gen/c/std/deflate.c:872-1024 | for every schedule of supplies and non-empty rooms the calls come to an end after at most one short write per byte of output, with the whole output and the verdict of the input, whatever the schedule |
| FormatLimits.NarrowerBy | gen/c/std/deflate.c:1755-1778 | exactly how much narrower than section 3.2.7 of RFC 1951 the codes accepted are: the two incomplete kinds are left out, and nothing else |
| FormatLimits.RefusesPermitted | gen/c/std/deflate.c:1755-1778 | a whole block header that section 3.2.7 allows, with one distance code or with none, and that is refused |
| FixedValues.FixedLitCode | script/make-deflate.go:79-94 | the literal/length codes that the script writes are the canonical codes for the lengths of section 3.2.6 of RFC 1951 |
| FixedValues.FixedDistCode | script/make-deflate.go:249-250 | the fixed distance codes are the symbols themselves |
| Encoder.LengthSaid | script/make-deflate.go:258-284 | encodeLength panics exactly outside 3 to 258, and otherwise returns symbol and extra bits that section 3.2.5 of RFC 1951 reads as that length |
| Encoder.DistanceSaid | script/make-deflate.go:286-334 | encodeDistance panics exactly outside 1 to 32768, and otherwise returns symbol and extra bits that section 3.2.5 of RFC 1951 reads as that distance |
| Encoder.ReverseReads | script/make-deflate.go:336-342 | reverse gives the low n bits in the opposite order, for all 32-bit words |
| Encoder.BitWriter.WriteBits | script/make-deflate.go:61-72 | appends the low n bits, panics exactly for more than 24; the writer stays free of stray bits if and only if no bit beyond n is set among those that the shift keeps |
| Encoder.BitWriter.Write | script/make-deflate.go:61-72 | appends a value of n bits |
| Encoder.BitWriter.WriteBytes | script/make-deflate.go:74-77 | flushes and appends whole bytes |
| Encoder.BitWriter.WriteLCode | script/make-deflate.go:79-94 | appends the bits of the symbol's canonical code, most significant first |
| Encoder.BitWriter.Flush | script/make-deflate.go:96-102 | appends zeroes up to the next byte |
| RoundTrip.CodeStarts | gen/c/std/deflate.c:2460-2478 | for every complete code, the bits of a symbol's code are read back as that symbol, whatever follows |
| RoundTrip.WriteToken | script/make-deflate.go:232-253 | a literal, a length and distance, or the end of a block are written as their codes and extra bits |
| RoundTrip.WriteStored | script/make-deflate.go:203-216 | a stored block is written as its lengths and bytes on a byte boundary |
| RoundTrip.WriteLines | script/make-deflate.go:226-256 | the lines of a fixed Huffman block are written one after the other |
| RoundTrip.WriteBlock | script/make-deflate.go:169-256 | a block of any lines is refused exactly when its stored data is too long, and otherwise written as its header and lines say |
| RoundTrip.WriteFile | script/make-deflate.go:116-167 | for every script without a length or distance that panics: refused exactly when some stored block is too long, and otherwise the blocks' bits and zeroes up to a byte |
| RoundTrip.TokensRead | script/make-deflate.go:226-256 | for every token list, the bits of a fixed Huffman block decode back to the same literals and copies |
| RoundTrip.BlockRead | script/make-deflate.go:169-256 | so does every closed block at every bit position, final or not |
| RoundTrip.FileDecodes | script/make-deflate.go:116-167 | for every script of closed blocks the file decodes to the text up to the first final block, and ends as the script does: finished, incomplete, or with a copy that reaches back too far |
| RoundTrip.DecoderReadsBack | gen/c/std/deflate.c:872-1024 | what each status of the decoder tells about such a file |
| RoundTrip.ReadBack | gen/c/std/deflate.c:872-1024 | from script to file and back: for every script of closed blocks and every schedule the decoder ends with exactly the script's text, and its status tells how the script ends |
| Lzw.Decoder.Start | gen/c/std/gif.c:2228-2234 | a new stream starts with a fresh dictionary |
| Lzw.Decoder.Unwind | gen/c/std/gif.c:2274-2283 | following the links puts the code's string on the stack; links strictly decrease, so the cyclical error is unreachable |
| Lzw.Decoder.Expand | gen/c/std/gif.c:2272-2286 | the string of the current code, also of the one just being defined |
| Lzw.Decoder.Deliver | gen/c/std/gif.c:2287-2305 | writes as much of the string as there is room for and can go on later |
| Lzw.Decoder.Save | gen/c/std/gif.c:2306-2321 | saves the next entry and lengthens codes as the dictionary does, up to the full table |
| Lzw.Decoder.Step | gen/c/std/gif.c:2236-2322 | one round refines the dictionary's reaction to one code |
| Lzw.Decoder.Decode | gen/c/std/gif.c:2225-2324 | for every code stream and every split of input and output: the output is what the dictionary-of-strings decoder (Appendix F of GIF89a) makes of the input so far, and each status is its verdict |
| Lzw.StoresAfter | gen/c/std/gif.c:2254-2258 | saving an entry keeps tables and dictionary in step |
| Adler.ChunkFits | gen/c/std/zlib.c:1217-1257 | within 5552 bytes no 32-bit sum overflows, from any 16-bit sums |
| Adler.LongerChunksOverflow | gen/c/std/zlib.c:1217-1220 | 5553 bytes can overflow, so the bound is tight |
| Adler.RawReduced | gen/c/std/zlib.c:1258-1259 | reducing once per chunk is reducing at every byte |
| Adler.FoldAppend | gen/c/std/zlib.c:1103-1112 | checksums continue over any split |
| Adler.Chunk | gen/c/std/zlib.c:1221-1257 | the unrolled loops compute the running sums, and no addition wraps |
| Adler.Adler32.Update | gen/c/std/zlib.c:1207-1264 | the state becomes the per-byte definition of section 8.2 of RFC 1950 over the state before |
| Adler.ChecksumOfPieces | gen/c/std/zlib.c:1069-1118 | the checksum over the pieces that successive calls write is that of the whole output |
| TopoSort.Sorter.Visit | lang/ast/sort.go:41-68 | terminates; appends a struct after everything it depends on, or finds a real cycle |
| TopoSort.Sort | lang/ast/sort.go:21-39 | ok if and only if the field-type graph is acyclic, and then each struct comes after all that its fields name, and distinct structs come out as a permutation |
| TopoSort.OrderedIsAcyclic | lang/ast/sort.go:21-39 | an order in which each struct follows all it depends on excludes cycles |
| TopoSort.SortedIsPermutation | lang/ast/sort.go:21-39 | for distinct structs the result is a permutation |
| Programs.Eq | lang/ast/eq.go:27-66 | equal expressions have the same value in every state |
| Programs.CondEq | lang/ast/eq.go:27-66 | equal conditions hold in the same states |
| Rendering.ReadsBack | lang/ast/string.go:32-149 | unique readability: the text of an operand determines the operand and where it ends |
| Rendering.WholeReadsBack | lang/ast/string.go:21-149 | so does the text of a whole condition, up to the depth limit |
| Rendering.AlikeMeansEqual | lang/ast/string.go:21-186 | conditions without a remainder, with distinct names and numbers, have the same text only if they are equal |
| Rendering.NumeralsOk | lang/check/assert.go:176-187 | the decimal numbers that folding writes can be read back |
| Facts.EvalUnmentioned | lang/ast/eq.go:68-84 | storing to a variable does not change the expressions that do not mention it |
| Facts.TruthUnmentioned | lang/ast/eq.go:68-84 | nor the conditions, which is what makes dropping facts sound |
| Facts.AppendMeans | lang/check/assert.go:61-88 | after appending, the facts hold exactly where they held before and the new one does |
| Facts.AppendDistinct | lang/check/assert.go:61-88 | appending never repeats a fact |
| Facts.UpdatedAt | lang/check/assert.go:92-109 | the facts after an update are exactly what the function makes of those before |
| Facts.Invert | lang/check/bounds.go:111-169 | the inverse holds in exactly the states where the condition does not |
| Facts.OtherHandSide | lang/check/assert.go:29-57 | what is returned about an expression is equivalent to the fact, on either side of the operator |
| Facts.RefinedSound | lang/check/assert.go:111-168 | where all facts hold, the value stays in the refined range, which is within the old one, and no inconsistency is reported |
| Facts.Refine | lang/check/assert.go:111-168 | the loop over the facts computes that range |
| Facts.SimplifyTerm | lang/check/assert.go:171-206 | a simplified expression has the same value in every state |
| Facts.Simplify | lang/check/assert.go:171-227 | a simplified condition holds in the same states |
| Facts.AssignSound | lang/check/bounds.go:370-420 | after an assignment whose right side does not mention its target, or with an operator other than =, += and -=, all the new facts hold in the new state |
| Facts.AssignSoundIff | lang/check/bounds.go:370-420 | facts that hold turn into facts that hold if and only if the store does not change the value of the right side, or the operator is none of =, += and -= |
| Facts.AssignDistinct | lang/check/bounds.go:370-420 | only `-=` can make two different facts equal |
| Ranges.OpRangeSound | lang/check/bounds.go:1021-1124 | for all operands in their ranges the operator is defined and its value is in the range returned |
| Ranges.FarShiftSoundIff | lang/check/bounds.go:1079-1081 | taking a right shift by 64 or more for zero is right if and only if the largest operand is below two to the smallest shift |
| Ranges.ContainsExact | lang/check/bounds.go:1021-1112 | for 64-bit operands the range of addition, multiplication, both shifts and bitwise and and or contains the interval package's exact result |
| Ranges.NarrowedSound | lang/check/bounds.go:1025-1044 | facts that compare the two sides narrow a difference without losing its value |
| Ranges.TermSound | lang/check/bounds.go:726-772 | an accepted expression evaluates without any part leaving its type, within the range computed |
| Ranges.BinarySound | lang/check/bounds.go:1007-1144 | the same for a binary operator on two expressions |
| Ranges.CondSound | lang/check/bounds.go:726-772 | an accepted condition evaluates without any part leaving its type |
| Ranges.ByRangesExact | lang/check/assert.go:252-268 | against a constant, the comparison of range ends succeeds exactly when the relation holds for all values |
| Ranges.ProvesSound | lang/check/assert.go:270-321 | what proveBinaryOp accepts is true in every state where the facts hold |
| Ranges.RulesSound | lang/check/data.go:24-282 | each of the thirteen rules is a valid inference from its requirements |
| Ranges.ShowsSound | lang/check/bounds.go:332-354 | whatever way an assertion is shown, it is true |
| Checker.AssertSound | lang/check/bounds.go:332-368 | an accepted assertion holds, and so do the facts after it |
| Checker.AssignmentSound | lang/check/bounds.go:370-494 | an accepted assignment neither overflows nor stores a value outside the target's type, and its new facts hold |
| Checker.TerminatesMeans | lang/check/bounds.go:502-529 | a block that terminates by its last statement never falls through |
| Checker.UnifyKeepsShared | lang/check/bounds.go:535-561 | if no branch repeats a text, a join keeps exactly the facts of the first branch whose text all branches have |
| Checker.ChainSound | lang/check/bounds.go:563-610 | a run of an if-else chain that falls through ends in a state of one of the branches joined |
| Checker.LoopSound | lang/check/bounds.go:612-706 | every iteration starts with pre and inv holding, every exit has inv and post holding, breaks and continues to outer loops included |
| Checker.BlockSound | lang/check/bounds.go:222-706 | checker soundness, where joins are clean and return values check: from every state that satisfies the facts and types, for any number of iterations, no accepted run fails an assertion, leaves a type or stores an out-of-range value, and the final facts hold where it falls through |
| Checker.LegibleJoins | lang/check/bounds.go:535-561 | without -= and with expressions that can be read back from their text, no fact list repeats a text and facts with one text are equal, in the whole program |
| Checker.ProgramSound | lang/check/bounds.go:222-706 | soundness of whole function bodies under conditions that can be read off the program |
| CheckerState.Checker.AppendFact | lang/check/assert.go:61-88 | the in-place method does what the function says |
| CheckerState.Checker.Update | lang/check/assert.go:92-109 | the in-place compaction yields the updated list |
| CheckerState.Checker.Prove | lang/check/assert.go:270-321 | the search decides exactly what the predicate says |
| CheckerState.Checker.Assert | lang/check/bounds.go:332-368 | loops over the facts, the requirements of a rule and the proof search, and accepts exactly what CheckAssert does, leaving its facts |
| CheckerState.Checker.Assign | lang/check/bounds.go:370-494 | accepts exactly what CheckAssign does and turns the facts into its facts, in place |
| CheckerState.Checker.Unify | lang/check/bounds.go:535-561 | counting the texts of all branches yields the specified join |
| CheckerState.Checker.Block | lang/check/bounds.go:222-250 | the loop over the statements accepts exactly what CheckBlock does, leaving its facts |
| CheckerState.Checker.Jump | lang/check/bounds.go:282-297 | proves the target loop's conditions and forgets all facts |
| CheckerState.Checker.Chain | lang/check/bounds.go:563-610 | the loop over the chain collects the specified branches and joins them |
| CheckerState.Checker.Loop | lang/check/bounds.go:612-706 | the entry, exit and body checks accept exactly what CheckWhile does, leaving its facts |
| CheckerState.CheckBody | lang/check/bounds.go:222-706 | a fresh checker that accepts a body has shown that no run of it fails |
| CheckerLimits.SelfAssignmentLies | lang/check/bounds.go:386-390 | after `x = x + k` with k not zero, the facts hold in no state |
| CheckerLimits.SelfAssigningFails | lang/check/bounds.go:386-390 | a program that assigns a variable from itself meets all the other conditions, is accepted and fails an assertion |
| CheckerLimits.SelfAddingFails | lang/check/bounds.go:404-414 | so does one that adds a variable to itself |
| CheckerLimits.RepeatingFails | lang/check/bounds.go:548-556 | a program in which one branch repeats a fact meets all the other conditions, is accepted and fails an assertion |
| CheckerLimits.MistakingFails | lang/ast/string.go:151-186 | a program with two remainders that have the same text meets all the other conditions, is accepted and fails an assertion |
| CheckerLimits.WanderingFails | lang/check/bounds.go:626 | a program whose loop guard only checks on entry meets all the other conditions, is accepted and overflows |
| CheckerLimits.ReturningFails | lang/check/bounds.go:299-300 | a program whose return value overflows meets all the other conditions and is accepted |

## Left out

- C text generation, header inlining and command-line tools: text plumbing with no behaviour of its own.
- Tokenizer, parser and type checker of the language: the model starts at typed syntax trees, with the text of names, numbers and types.
- Bounds checker, arrays, slices, pointers, method calls, `iterate`, `yield` and I/O facts: the source marks most of them as unfinished.
- Bounds checker, associative operators and `~+`: folds of the binary case, and a range that is the whole type.
- Bounds checker, boolean variables and constant conditions: appending such a fact recurses through equal facts with no evident measure (lang/check/assert.go:70-75); constant `if` guards and constant false `while` guards are always refused.
- Bounds checker, the error for expressions that are too deep, and variable declarations: a declaration is an assignment of its value or of zero.
- Bounds checker, return types: neither the type checker nor the bounds checker compares a return value with the function's result type (lang/check/type.go:165-166), and the model has no such type.
- Bounds checker, fixed-width evaluation: expressions are evaluated over mathematical integers, and leaving a type counts as failing.
- Checker.BlockSound: assumes the conditions on assignments, joins, guards, return values and shifted constants listed above, because without any of the first five a program is accepted and fails.
- Checker.ProgramSound: excludes every `-=`, and every `%` and compound or negated constant in conditions and assigned expressions, which is more than what makes a join go wrong; Checker.BlockSound has the condition on each join instead.
- Deflate.Decoder.Decode: closed sources, limits on readers and writers, null and magic-number checks, and calls after an error are not modelled.
- HuffSlow.DecodeHuffmanSlow: resuming in the middle of a look-up loop is modelled as resuming at its head, which looks up the same entry again.
- StoredBlocks.Gather: the 64-bit scratch word is modelled as the bits gathered and their number, which it packs together.
- HuffTable.InitHuff: takes the slice of code lengths as a sequence, and its local arrays are sequences; the table of 256 reversed bytes is the function it tabulates.
- Lzw.Decoder.Decode: the literal width is fixed for a decoder, where the source has a setter between streams.
- RoundTrip.WriteFile: parsing of scripts, repeats and I/O are left out; a script is its list of blocks and their lines.
- RoundTrip.ReadBack: fixed Huffman blocks without an end-of-block line, or with one before their last line, are written but not read back, because their bits run into what follows and say something else.
- GIF container, zlib and gzip headers, CRC-32 and base38: branch-by-branch or finite facts.
