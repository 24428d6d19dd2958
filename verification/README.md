# Verification of the server's support code

A Dafny 4.11 model of the algorithms under the server's `common` and `g3dlite` directories, with proofs of
what they promise. `dafny verify dfyconfig.toml` checks it.

The project models, a module or a few for each component:

- **The buffer pool** (`Memories`, `SystemHeap`, `BufferPoolState`, `BufferPools`, `AlignedMemory`,
  `ReallocLoss`, with `ByteValues`, `Arithmetic` and `Bits` below them). Memory is a function from addresses to
  octets; the C heap gives 8-aligned blocks that overlap no other. `State` is a snapshot of the pool, and `View`
  what the application sees of it: each live pointer with its bytes. Every operation of the class refines the
  obvious operation on that view, and `Valid` says where each slot and block is: live, free, pooled or released.
- **Streaming SHA-1** (`Sha1Spec`, `Sha1Stream`, `Sha1Vectors`), against the batch definition of RFC 3174,
  sections 4, 5 and 6.1, with its first test (section 7.3) proved of both.
- **Frustum culling** (`Culling`, `CullingHierarchy`, `CullingGeometry`, `AABoxGeometry`), with infinite
  coordinates, and planes tested as `halfSpaceContains` does: normal times point at least distance, infinite
  coordinates being clamped. Verdicts are proved to be about all the points of a box.
- **The formatting engine** (`Numerals`, `Decimals`, `DecimalText`, `FormatBuffers`, `FormatSpecs`,
  `FormatShapes`, `Writers`, `ArgLists`, `FormatGrammar`, `Formatters`, `FormatLaws`, `FormatRoundTrip`,
  `FormatResults`, `PrintfScanner`). `Meaning` is what a format string stands for; the formatter writes just
  that. `FormatResults` says what that is, for every way of writing a field and every argument it may have.
- **Householder reductions** (`Matrices`, `Reflections`, `Matrix3`), over exact reals. The square root is a
  parameter, of which only its law is used.
- **CRC-32** (`Crypto`), against the bit loop of RFC 1952, section 8.
- **The nested profiler** (`Profiler`). The clock is a parameter. A ghost history keeps each stretch of time
  and the stack during it, and every timer is proved to be a sum over that history.
- **Object pools, watchers and strings** (`ObjectPools`, `Paths`, `Watchers`, `StringUtils`, `HexStrings`).

What the proofs brought to light:

- `realloc` keeps min(old, new) bytes unless the old size did not fit the 32-bit header and the new size is
  more than what is left of it there (`Cut`). Then the part the header admits is kept, and what follows is what
  the new memory held; `LosesBytes` is such a run.
- `bytesAllocated` starts at 1 and goes on counting buffers that are pooled, unlike its comment
  (g3dlite/System.cpp:267-271, 282). It is 1 plus the sizes, with their headers, of all blocks not released,
  as a 32-bit integer.
- `alignedMalloc` passes its alignment through an int, so that alignments from 2^31 on are not honoured, at
  any address below them.
- With a left-aligned precision, `prepare_int_buffer` may return a pointer into storage the buffer has given
  up. `Stale` is the exact condition. The brace formatter never meets it, as integers have no precision there.
- `parse_nonnegative_int` misses some wraps beyond UINT_MAX: up to 9999999999 it misreads exactly 4772185884 to
  6442450943 and the numbers from 9544371768 on. For longer runs each further digit d after the word w is noticed
  just if 9 w + d < 2^32 floor((10 w + d) / 2^32).
- An empty specification, as in `{:}<`, takes its alignment from the text after the brace. It is read as the
  default if and only if the character there is none of `<`, `>`, `=` and `^`.
- `tridiagonal` is not exact for a corner that is below EPSILON without being zero.
- A watcher is stored under its own name, whatever the last name of the path given with it is, and where erasing
  one character more than each name leads. That is the path itself if and only if the names agree and the path has
  at most one slash more than its names need; `MissesItsPath` and `SlashesMislead` are runs where it is not.
- After `destroy`, an object pool's total goes on counting the objects that were deleted with the list: an exact
  total stays exact if and only if `obj_count_` was 0.
- `grow`, called while places are free, can take the pool beyond twice its peak use and 100: it stays within that
  if and only if the old total was at most the peak. A new pool that is grown does not (`GrowsTooFar`).
- A second call of `gc` frees every chunk again, as the map keeps the chunks (`FreesTwice`).

Where a comment of the repository and its code disagree, the model follows the code.

## Model

| member | source | states |
|---|---|---|
| BufferPools.BufferPool.constructor | g3dlite/System.cpp:275-306 | a fresh pool serves no buffer, has every tiny slot free and counts 1 byte as allocated |
| BufferPools.BufferPool.PoolMalloc | g3dlite/System.cpp:235-257 | the block taken is the last one in the array that is large enough, by swap-remove; none means that every block is too small |
| BufferPools.BufferPool.Malloc | g3dlite/System.cpp:355-433 | adds one buffer of the size asked for at a nonzero address not live before, changes the bytes of no other buffer, and takes it from the supplier the sizes and the free lists determine |
| BufferPools.BufferPool.Free | g3dlite/System.cpp:436-474 | drops just that buffer from the application's view, all others keeping their bytes, and puts it where its size and the room in the pools say; freeing null does nothing |
| BufferPools.BufferPool.Realloc | g3dlite/System.cpp:318-352 | replaces one buffer by one of the new size, moved exactly if the header's size is too small, with the first min(old, new) bytes kept unless a size past 32 bits was cut in the header; then what the header admits is kept and the rest is what the new memory held after the malloc inside, a step of Malloc that is also given |
| BufferPoolState.CutKeeps | g3dlite/System.cpp:335-346 | of a buffer so cut, realloc keeps what it should if and only if the new memory happened to hold the rest already |
| ReallocLoss.LosesBytes | g3dlite/System.cpp:318-352 | freeing a slot of 20 zeros and growing a buffer of 2^32 + 10 ones to 20 bytes gives ten ones and ten zeros |
| ReallocLoss.HoldsBoth | g3dlite/System.cpp:275-351 | a new pool comes to hold both of these buffers |
| BufferPools.BufferPool.Memcpy | g3dlite/System.cpp:331-348 | copying into a live buffer that is disjoint from the source fills it with the source's bytes and keeps the pool's invariant and every other buffer |
| BufferPoolState.State.LiveDisjoint | g3dlite/System.cpp:138-159 | in every state that keeps the invariant, two live buffers share no byte |
| BufferPoolState.State.InTinyHeapExact | g3dlite/System.cpp:207-210 | the address test tells tiny slots from heap buffers, for every pointer in use |
| BufferPoolState.State.TinyPoolNotFull | g3dlite/System.cpp:212-219 | freeing a tiny slot always finds room in the array of free slots (pigeonhole over the slots) |
| BufferPoolState.State.WriteLive | g3dlite/System.cpp:402-433 | whatever the application writes inside a live buffer leaves headers, pools and all other buffers as they were |
| BufferPoolState.State.HeaderCut | g3dlite/System.cpp:430-451 | a size header is the size of the block behind it less a multiple of 2^32 |
| BufferPoolState.State.FreedReused | g3dlite/System.cpp:355-474 | a buffer given back to the tiny heap or to a pool with room is the one the next request gets that it is meant for and fits |
| AlignedMemory.AlignedMalloc | g3dlite/System.cpp:589-643 | the buffer is at the aligned address inside one new block, with the redirect word before it |
| AlignedMemory.AlignedFree | g3dlite/System.cpp:646-663 | releases exactly the block behind the aligned buffer, found through the redirect word |
| AlignedMemory.AlignedAddressOk | g3dlite/System.cpp:615-635 | the address is a multiple of the alignment in effect and leaves room for the redirect word before it and the buffer after it |
| AlignedMemory.AlignmentHonoured | g3dlite/System.cpp:593-626 | an alignment of 2^j is honoured at every address if and only if j < 31, since it passes through an int |
| AlignedMemory.LargePowerIgnored | g3dlite/System.cpp:593-626 | with 2^j for j >= 31 every address is the next multiple of 8 past the redirect word, and below 2^j never a multiple of 2^j |
| AlignedMemory.AlignedStays | g3dlite/System.cpp:632-635 | writes inside the user's range never touch the redirect word |
| AlignedMemory.IsPow2Exact | g3dlite/System.cpp:590-590 | num & -num == num singles out just the powers of two among positive words |
| Sha1Stream.SHA1.constructor | common/sha1.cpp:60-74 | a new object has absorbed nothing and can absorb |
| Sha1Stream.SHA1.ProcessMessageBlock | common/sha1.cpp:371-458 | the registers become the compression function of RFC 3174 (section 6.1) of the old registers and the block |
| Sha1Stream.SHA1.Input | common/sha1.cpp:135-172 | absorbs the octets in order; exactly at 2^64 bits, or after a digest was taken, the object is corrupted; empty input changes nothing |
| Sha1Stream.SHA1.CountOctet | common/sha1.cpp:153-163 | the two 32-bit halves count the bits absorbed and overflow exactly at 2^64 bits |
| Sha1Stream.SHA1.PadMessage | common/sha1.cpp:481-525 | padding and the last one or two blocks bring the registers to the batch digest of all that was absorbed |
| Sha1Stream.SHA1.Result | common/sha1.cpp:94-115 | gives the digest of the absorbed message, any number of times, and fails exactly for corrupted objects |
| Sha1Stream.DigestOfPieces | common/sha1.cpp:94-172 | however a message is split into calls, the digest is that of the concatenation, exists if and only if the message is below 2^64 bits, is the same when asked for again, and fails after more input |
| Sha1Spec.FoldBlock | common/sha1.cpp:165-168 | absorbing a whole block is one compression more on the fold over the blocks before |
| Sha1Spec.PadAcrossBlocks | common/sha1.cpp:481-525 | the branch with more than 55 octets in the block pads across two blocks as the standard's one-piece padding does |
| Sha1Spec.PadInBlock | common/sha1.cpp:481-525 | so does the branch with at most 55 |
| Sha1Spec.PadWhole | common/sha1.cpp:481-525 | padding gives whole blocks, with at least nine octets more and fewer than 73 |
| Sha1Spec.PadInjective | common/sha1.cpp:481-525 | no two messages below 2^64 bits are padded alike |
| Sha1Vectors.WordRecurrence | common/sha1.cpp:395-398 | every word of the schedule from the seventeenth on is the exclusive or of four earlier ones, turned left by one bit |
| Sha1Vectors.AbcDigest | common/sha1.cpp:371-458 | the digest of abc is A9993E36 4706816A BA3E2571 7850C26C 9CD0D89D, as in RFC 3174 (section 7.3) |
| Sha1Vectors.DigestOfAbc | common/sha1.cpp:94-172 | so is what the object gives for it, however it is split into calls |
| Culling.AABoxCulledByForChildren | g3dlite/AABox.cpp:136-214 | culls exactly if all corners are behind some tested plane, reports the first such plane, and hands down a mask of just the tested planes the box straddles, or of the culling plane alone |
| Culling.AABoxCulledBy | g3dlite/AABox.cpp:217-279 | the same verdict and plane without the mask |
| Culling.BoxCulledByForChildren | g3dlite/Box.cpp:154-212 | the same for eight arbitrary corners |
| Culling.BoxCulledBy | g3dlite/Box.cpp:215-257 | the same without the mask |
| CullingHierarchy.AABoxDescentExact | g3dlite/AABox.cpp:136-214 | down any chain of nested boxes, testing each with the mask its parent handed down gives the verdict of testing it with the first mask |
| CullingHierarchy.BoxDescentExact | g3dlite/Box.cpp:154-212 | the same for oriented boxes nested as convex hulls, infinite corners taken as the code clamps them |
| CullingHierarchy.AABoxSideInherited | g3dlite/AABox.cpp:136-214 | a box inside another lies on the same side of every plane the outer one does not straddle |
| CullingHierarchy.BoxSideInherited | g3dlite/Box.cpp:154-212 | the same, by convexity |
| CullingHierarchy.ChildMaskSubset | g3dlite/AABox.cpp:136-214 | a child mask names only planes of the mask given |
| CullingGeometry.AABoxOut | g3dlite/AABox.cpp:160-199 | all corners fail the test if and only if every point of the box has nx x + ny y + nz z < distance |
| CullingGeometry.AABoxIn | g3dlite/AABox.cpp:160-206 | all pass it if and only if every point has nx x + ny y + nz z >= distance, so that a straddled plane has points on both sides |
| CullingGeometry.PointsOfFinite | g3dlite/AABox.cpp:146-152 | the points of a finite box are those between its corners |
| CullingGeometry.AABoxVerdict | g3dlite/AABox.cpp:136-214 | a box is culled if and only if all its points are behind some tested plane, by the first such plane; the child mask names that plane, or the tested planes with points of the box on both sides |
| CullingGeometry.BoxOut | g3dlite/Box.cpp:154-212 | all eight corners fail the test if and only if every convex combination of them is behind the plane |
| CullingGeometry.BoxIn | g3dlite/Box.cpp:154-212 | all pass it if and only if none is |
| CullingGeometry.BoxVerdict | g3dlite/Box.cpp:154-212 | the verdict and child mask of an oriented box, in terms of the points its corners span |
| AABoxGeometry.Split | g3dlite/AABox.cpp:31-45 | the halves cover the box and meet only in the plane; they are exactly the box's parts on each side if and only if the plane meets the box |
| AABoxGeometry.IntersectsSphere | g3dlite/AABox.cpp:282-296 | true if and only if some point of the box is within the radius of the center |
| Decimals.CountDigitsExact | common/format.h:541-559 | the bit-length estimate with one table look-up is the length of the decimal numeral for every 32-bit and 64-bit number, and stays inside its table |
| Decimals.CountDigitsByDivision | common/format.h:560-577 | the loop by 10000 counts the same length |
| Decimals.DigitPair | common/format.cpp:427-432 | the table of pairs holds the two digits of every number below 100 |
| Numerals.NumeralDenotes | common/format.h:1884-1977 | a numeral denotes its number, in every base in use, and starts with no needless zero |
| Numerals.NumeralUnique | common/format.h:1884-1977 | and is the only such text |
| Numerals.NumeralLength | common/format.h:542-577 | k digits write just the numbers below the k-th power of the base |
| DecimalText.FormatDecimal | common/format.h:582-608 | the numeral fills its window of the buffer, two digits at a time, and nothing else is written |
| DecimalText.FormatDecimalSigned | common/format.h:2465-2492 | the same for signed numbers, whose end is reported |
| DecimalText.FormatInt.FormatReversed | common/format.h:2394-2417 | digits written backwards from the end of 22 characters never leave them and are the numeral |
| DecimalText.FormatInt.Signed | common/format.h:2419-2436 | the text of every signed 64-bit number, the least included, is its sign and numeral |
| DecimalText.SignedDecimalDenotes | common/format.h:2419-2436 | and reading that text gives the number back |
| FormatBuffers.MemoryBuffer.Grow | common/format.h:379-397 | capacity becomes the larger of the size asked for and half as much again; contents survive |
| FormatBuffers.MemoryBuffer.Append | common/format.h:306-314 | contents are extended by exactly the text |
| FormatBuffers.MemoryBuffer.Resize | common/format.h:275-281 | the size changes and the characters in both sizes survive |
| Writers.FillPadding | common/format.h:1795-1809 | half of the padding, rounded down, before the content and the rest after it |
| Writers.BasicWriter.PrepareIntBuffer | common/format.h:1811-1882 | earlier contents, left padding, prefix, zeros and right padding stand around a gap for the digits, under all five alignments and with a precision; the pointer returned is into the buffer's current storage if and only if Stale does not hold |
| Writers.BasicWriter.WriteInt | common/format.h:1884-1977 | appends exactly the text of the number for its base, sign, prefix, width, fill and alignment, minimum values included; unless the pointer went stale, when all but the digits is there; an unknown type fails and writes nothing |
| Writers.NeverStale | common/format.h:1831-1846 | no pointer goes stale without a precision, without left alignment, or with room for the width |
| Writers.SomeStale | common/format.h:1831-1846 | one does for a left-aligned precision near the end of the inline buffer, as reserve(width) leaves out the current size |
| Writers.BasicWriter.WriteStr | common/format.h:1764-1793 | appends the string padded to its width, and gives its place |
| FormatSpecs.IntTextLength | common/format.h:1811-1882 | padding brings a number to its width and never cuts it |
| FormatShapes.TypeBases | common/format.h:1884-1977 | the digits denote the magnitude in base 10 for d and no type, 16 for x and X, 2 for b and B and 8 for o, without a needless zero |
| FormatShapes.TypeCases | common/format.h:1913-1934 | the letters of X are upper case, those of x lower case |
| FormatShapes.DigitTables | common/format.h:1927-1928 | the digits are those of the two tables |
| FormatShapes.Prefixes | common/format.h:1892-1960 | the prefix is -, + or a blank as value and flags say, then 0x, 0X, 0b, 0B or 0 with a hash |
| FormatShapes.NumberSides | common/format.h:1811-1882 | prefix and digits stand on the right, on the left, in the middle, or apart with the fill between them, as the alignment says, and the rest to the width is fill |
| FormatShapes.PrecisionSides | common/format.h:1816-1848 | a precision puts zeros before the digits, the octal prefix being one of them, and the fill is outside, on the right for left alignment and else on the left |
| FormatShapes.StringSides | common/format.h:1764-1793 | a string stands on the left of its width, on the right for right alignment, and after half of the fill for center alignment |
| FormatSpecs.ReadBack | common/format.h:1884-1977 | a reader of fill, sign, base prefix and digits gets the number back from its text in every base, sign, prefix, width, precision and alignment, if the fill cannot be taken for a digit or minus |
| FormatSpecs.DigitsMislead | common/format.h:1811-1882 | with digits for fill, any number narrower than the width has the text of another number, after it or, if not zeros, before it |
| FormatSpecs.MinusMisleads | common/format.h:1811-1882 | with minuses for fill before it, a positive number narrower than the width has the text of its negative |
| ArgLists.TypeAtPacked | common/format.h:994-1014 | packing up to sixteen type codes and looking one up gives it back, and none at every index past the last |
| ArgLists.MakeTypePacks | common/format.h:1345-1356 | the shifts and ors lose no code: the word is the codes as digits in base 16 |
| ArgLists.ArgList.AtIsValue | common/format.h:994-1014 | so the list's operator[] is the sequence of arguments |
| FormatGrammar.ParsedIntExact | common/format.cpp:211-230 | digit runs up to INT_MAX are read exactly; those up to UINT_MAX are refused |
| FormatGrammar.ParsedIntRight | common/format.cpp:217-228 | over all runs of digits, reading is right (exact or refused) if and only if the number fits, or the number modulo 2^32 is above INT_MAX, or at some digit d with w the word before it 9 w + d < 2^32 floor((10 w + d) / 2^32) |
| FormatGrammar.ParsedIntShort | common/format.cpp:217-228 | a run of value v with v / 10 in 32 bits is accepted if and only if v mod 2^32 <= INT_MAX and 9 (v / 10) + v mod 10 >= 2^32 floor(v / 2^32) |
| FormatGrammar.ParsedIntMisread | common/format.cpp:217-228 | so up to 9999999999 the numbers misread are exactly 4772185884 to 6442450943 and those from 9544371768 on |
| FormatGrammar.ParsedIntWrong | common/format.cpp:217-228 | 10000000000 is read as 1410065408: the wrap test does not catch every wrap |
| FormatGrammar.DecimalParsed | common/format.cpp:211-230 | reading inverts decimal printing up to INT_MAX |
| Formatters.ParseNonnegativeInt | common/format.cpp:211-230 | the loop reads the whole digit run as ParsedInt says |
| Formatters.ScanFill | common/format.cpp:1002-1039 | the two-place search for an alignment finds it, and the fill before it, as the grammar says |
| Formatters.BasicFormatter.ParseArgIndex | common/format.cpp:679-691 | takes the argument the index state allows, or reports which switch of indexing was attempted |
| Formatters.BasicFormatter.ScanField | common/format.cpp:987-1141 | reads one field as the grammar says, nested precisions included; every character it reads is at or before the terminator, as At requires |
| Formatters.BasicFormatter.Format | common/format.cpp:1147-1170 | writes exactly what the format string and arguments mean after what was there; an error is the one the meaning has, with earlier contents kept |
| FormatLaws.UniformIndexing | common/format.cpp:693-720 | where formatting succeeds, either every argument taken, nested precisions too, is the next in order, or every one was indexed explicitly |
| FormatLaws.BracesDouble | common/format.cpp:1147-1170 | for any NUL-free text, formatting it with its braces doubled gives the text and takes no argument |
| FormatLaws.TemplateFilled | common/format.cpp:1147-1170 | for any texts between empty fields, the texts come out with the arguments between them in order |
| FormatLaws.LoneBrace | common/format.cpp:1147-1170 | a closing brace that is not doubled and ends no field is an error, wherever it stands |
| FormatRoundTrip.SpecRoundTrip | common/format.cpp:987-1145 | however a specification is written (fill and alignment, alignment alone, sign, hash, zero flag, width, precision, type, each or none), the parser reads what is meant, up to and with its closing brace |
| FormatRoundTrip.CanBeWritten | common/format.cpp:987-1145 | and every specification with a sign's flags, or these and a hash, can be written |
| FormatRoundTrip.EmptySpecParsed | common/format.cpp:1002-1039 | an empty specification after a colon takes the alignment that the character beyond its brace stands for |
| FormatRoundTrip.EmptySpecRight | common/format.cpp:1002-1039 | and is read as the default if and only if that character is none of < > = ^ |
| FormatRoundTrip.FormattedInteger | common/format.cpp:1147-1170 | formatting one integer by a written specification gives the text for that integer |
| FormatRoundTrip.FormattedIntegerReadsBack | common/format.cpp:1147-1170 | from which the integer can be read again |
| FormatResults.IntegerField | common/format.cpp:1147-1170 | one integer in any writing gives its sign, the prefix asked for and its digits in the base of the type, filled to the width with the fill and on the side that are written |
| FormatResults.ZeroPadded | common/format.cpp:1065-1079 | a zero flag and a width give the minus of a negative integer, zeros, and its decimal digits, to the width |
| FormatResults.Refused | common/format.cpp:1031-1136 | what is written and does not suit the argument is refused: numeric alignment, signs, hash and zero flag for arguments that are no numbers, signs for unsigned ones, precisions for those that are not floating-point |
| FormatResults.NumericArgs | common/format.h:707-715 | numbers are the integers, characters and floating-point arguments |
| FormatResults.StringField | common/format.cpp:1147-1170 | one string in any writing gives the string on its side, or an error for a type that is not its own |
| FormatResults.StringPadded | common/format.h:1764-1793 | an alignment and a width give the string and blanks, on its left for > and else on its right |
| FormatResults.CharNumber | common/format.cpp:1147-1170 | one character with an integer type gives the integer |
| FormatResults.CharText | common/format.cpp:1147-1170 | and otherwise the character, or an error if numeric alignment or a flag is written |
| FormatResults.FloatField | common/format.cpp:1081-1143 | one floating-point argument is shown under what is meant, its precision included |
| FormatResults.NestedPrecision | common/format.cpp:1081-1131 | a precision may be given by the next argument, if that is an integer from 0 to INT_MAX; else the error says which it is not |
| FormatResults.IndexField | common/format.cpp:679-720 | an index in decimal shows that argument, or is out of range |
| FormatResults.AutomaticThenExplicit | common/format.cpp:710-720 | after an automatic index an explicit one is an error |
| FormatResults.ExplicitThenAutomatic | common/format.cpp:702-708 | and the other way round |
| FormatResults.NeverClosed | common/format.cpp:1138-1139 | a field that goes on with anything but a colon or a brace after its index, or ends there, lacks its brace |
| FormatResults.NoArgument | common/format.cpp:679-691 | without arguments a closed field is out of range, and one that is not closed is malformed |
| FormatResults.BraceFill | common/format.cpp:1029-1033 | an opening brace is no fill |
| FormatResults.PointAlone | common/format.cpp:1124-1127 | a point without digits or a field after it lacks its precision |
| FormatResults.TooBig | common/format.cpp:211-230 | an index or a width for which reading the digits fails is too big, whatever follows |
| PrintfScanner.Scan | common/format.cpp:806-822 | writes the literal text up to the next conversion, with doubled percent signs once |
| PrintfScanner.PercentsDouble | common/format.cpp:806-822 | for any NUL-free text, its percent-doubled form is scanned as the text with no conversion |
| PrintfScanner.ConversionFound | common/format.cpp:806-822 | a percent sign that is not doubled ends the text and begins a conversion, after any text |
| Matrices.TimesAssoc | g3dlite/Matrix3.cpp:200-233 | the product of matrices is associative |
| Reflections.Householder | g3dlite/Matrix3.cpp:387-396 | the scaled vector and factor of the code reflect its column to the first axis |
| Reflections.LeftReflection | g3dlite/Matrix3.cpp:394-403 | updating entries by the outer product is multiplying by the reflection |
| Reflections.ReflectionOrthogonal | g3dlite/Matrix3.cpp:405-411 | a reflection is orthogonal and undoes itself |
| Matrix3.MapFirstColumn | g3dlite/Matrix3.cpp:383-416 | the first column is cleared by a reflection that is left in kL |
| Matrix3.MapFirstRow | g3dlite/Matrix3.cpp:418-444 | then the first row from the right, by one left in kR |
| Matrix3.MapSecondColumn | g3dlite/Matrix3.cpp:446-481 | then the second column, by one multiplied into kL |
| Matrix3.Bidiagonalize | g3dlite/Matrix3.cpp:377-481 | kL and kR are orthogonal, and kL times the diagonal and superdiagonal of kA times kR is the matrix given |
| Matrix3.Tridiagonalize | g3dlite/Matrix3.cpp:1428-1481 | Q is orthogonal, and Q T QT is the symmetric matrix given if and only if its corner is 0 or at least EPSILON in size |
| Matrix3.LosesCorner | g3dlite/Matrix3.cpp:1428-1481 | run on the symmetric matrix with ones on its diagonal and a corner of 0.0000005, it gives Q and T with Q T QT another matrix |
| Crypto.TableCorrect | g3dlite/Crypto.cpp:66-134 | each of the 256 entries is eight turns of the bit loop of RFC 1952 (section 8) |
| Crypto.TableStep | g3dlite/Crypto.cpp:140-140 | one turn of the table loop is eight of the bit loop, for every register and octet |
| Crypto.Crc32 | g3dlite/Crypto.cpp:65-144 | the checksum of every byte string is the bit-at-a-time register, without the final complement |
| Crypto.BurstDetected | g3dlite/Crypto.cpp:65-144 | messages of equal length that differ only inside four consecutive octets never get the same checksum |
| Crypto.CheckValue | g3dlite/Crypto.cpp:65-144 | the register after the digits 1 to 9 is the complement of CBF43926, the check value of this checksum |
| Crypto.ChecksDigits | g3dlite/Crypto.cpp:65-144 | and so is what the function returns for them |
| Profiler.Profile.Start | common/Profile.cpp:70-99 | the profile goes on the stack, the time since the last event is credited to the profile that was on top, and all timers go on agreeing with the history; mutual recursion included |
| Profiler.Profile.Stop | common/Profile.cpp:100-131 | the same for taking the top off the stack, also when nothing is left on it; the quantity and the number of stops are counted in 32 bits |
| Profiler.Profiles.constructor | common/Profile.cpp:13-19 | the first profile runs from birth at the bottom of the stack |
| Profiler.Profiles.RunningTime | common/Profile.cpp:27-30 | the running time is all the history since birth and the time since the last event |
| Profiler.TimeConserved | common/Profile.cpp:70-131 | the internal times of all profiles and the top's time since its last event add up to the running time |
| Profiler.Timed | common/Profile.cpp:70-131 | a profile is in progress as often as it is on the stack; out of progress, its time is all the time it was there and no less than its internal time |
| Profiler.TimesInRange | common/Profile.cpp:70-131 | while the clock stays in 64 bits so do all the sums |
| ObjectPools.ACE_ObjectPool.Grow | common/ace_object_pool.h:450-475 | a chunk of twice the last size is added under a key of its own, and its places are free, whether or not others are; total <= 2 peak + 100 after it if and only if the old total was at most the peak |
| ObjectPools.GrowsTooFar | common/ace_object_pool.h:450-475 | growing a new pool breaks that bound |
| ObjectPools.ACE_ObjectPool.GetFreePointer | common/ace_object_pool.h:482-491 | a place that was free is in use; live and free places go on partitioning the chunks, with used + unused = total, and total <= 2 peak + 100 once so stays so |
| ObjectPools.ACE_ObjectPool.Dtor | common/ace_object_pool.h:567-580 | and the reverse |
| ObjectPools.ACE_ObjectPool.Gc | common/ace_object_pool.h:589-602 | frees every chunk exactly once per call |
| ObjectPools.FreesTwice | common/ace_object_pool.h:589-602 | after two calls of gc a new pool's chunk was freed twice |
| ObjectPools.ChunksBySizeHas | common/ace_object_pool.h:460-472 | doubling sizes are distinct keys, so that no chunk is missing from the map |
| ObjectPools.ObjectPool.CreateObject | common/ace_object_pool.h:118-135 | hands out the head of the list, after sixteen new objects if it was empty |
| ObjectPools.ObjectPool.ReclaimObject | common/ace_object_pool.h:139-155 | takes an object back, or deletes it when the list is full or destroyed |
| ObjectPools.ObjectPool.Destroy | common/ace_object_pool.h:84-99 | deletes the objects on the list; a total that was exact, the objects pooled and handed out, stays exact if and only if obj_count_ was 0 |
| ObjectPools.CountsDestroyed | common/ace_object_pool.h:84-135 | after one createObject and destroy, 16 are counted where one is left |
| Watchers.WatcherPaths.AddWatcher | common/Watcher.cpp:143-193 | wherever the slashes of the path are, the watcher goes under its own name where the directory of the path leads, every other path keeps its watcher, and it fails exactly if that place is taken; the place is the path itself if and only if the path is tidy and ends with the watcher's name |
| Watchers.WatcherPaths.AddBelow | common/Watcher.cpp:166-193 | the recursion terminates by the length of the path, makes missing directories, and goes where Route says |
| Watchers.WatcherPaths.HasWatcherPath | common/Watcher.cpp:264-288 | true exactly for paths of two or more names whose directory is there |
| Watchers.WatcherPaths.DelWatcher | common/Watcher.cpp:290-320 | removes exactly the watcher at the names of the path, if there is one and the path has a directory |
| Watchers.WatcherPaths.GetWatcher | common/Watcher.cpp:322-352 | the watcher the flat map has at the names of the path, if the path has a directory |
| Watchers.Watcher.constructor | common/Watcher.cpp:9-30 | the last name of a watcher's own path, and the path without as many characters at its end as that name and a slash have, which for single slashes is the directory |
| Watchers.MissesItsPath | common/Watcher.cpp:143-352 | a watcher made from a/c and added under a/b is not found at a/b, but at a/c, for any names |
| Paths.SplitJoin | common/strulti.h:149-179 | splitting names joined by slashes gives the names |
| Paths.RouteRight | common/Watcher.cpp:166-184 | erasing name after name from the front goes through just the names of a path if and only if it has at most one slash more than they need, and is not a lone slash |
| Paths.DirRight | common/Watcher.cpp:143-184 | for every path with a name, addWatcher goes through just the names before the last if and only if the path has at most one slash more than its names need |
| Paths.SlashesMislead | common/Watcher.cpp:143-184 | a///b/c leads to a, b and then the last character of b, for any names |
| StringUtils.Replace | common/strulti.h:115-130 | cuts the string at the pattern's occurrences from left to right, joins the pieces by the new text, and counts the cuts |
| StringUtils.ReplacedLength | common/strulti.h:115-130 | the length changes by as much as the occurrences do |
| StringUtils.FirstPiece | common/strulti.h:115-130 | the first piece ends at the first occurrence |
| StringUtils.Splits | common/strulti.h:181-208 | appends the pieces in order, the empty ones only on request |
| StringUtils.PiecesRejoin | common/strulti.h:181-208 | pieces joined by the delimiter are the string |
| StringUtils.PiecesFree | common/strulti.h:181-208 | no piece has the delimiter in it |
| StringUtils.KeptPieces | common/strulti.h:189-199 | on request all the pieces are kept, and otherwise each that is not empty as often as it occurs |
| HexStrings.Bytes2String | common/strulti.h:210-231 | two digits for each byte and a NUL, or nothing if it does not fit |
| HexStrings.String2Bytes | common/strulti.h:233-256 | the bytes that scanning each pair of the text in upper case gives, or nothing if they do not fit, or the text is empty or odd in length |
| HexStrings.ScannedDigits | common/strulti.h:233-256 | of digits in either case these are the bytes the pairs stand for |
| HexStrings.HexInverts | common/strulti.h:210-256 | reading the digits of any bytes gives the bytes |
| HexStrings.HexOf | common/strulti.h:210-231 | the high half of a byte comes first, and letters are upper case |
| HexStrings.ScansOthers | common/strulti.h:247-252 | blanks are skipped, one digit is enough, a sign counts, and what is no number gives 0 |
| HexStrings.ReadsBack | common/strulti.h:210-256 | running the one and then the other on any bytes gives them back |

## Left out

- BufferPools.BufferPool.Malloc: the C heap always has memory, so that flushing the pools and the out-of-memory
  callback are not modelled; nor are the counters that serve only statistics, calloc and the locks (each call is
  one step).
- BufferPools.BufferPool.Realloc: the requested sizes are below what the address space holds; sizes are unbounded
  integers but for the 32-bit header and the 32-bit count.
- AlignedMemory.AlignedMalloc: the padded size is taken to fit size_t.
- Culling.AABoxCulledBy: coordinates are reals or infinite, without rounding and not-a-number.
- Formatters.BasicFormatter.Format: floating-point, pointer, C-string and wide-string arguments are shown by a
  function that is a parameter; arguments of custom types, which run user code, are left out.
- PrintfScanner.Scan: conversions themselves (flags, lengths, argument conversion) are left out; only the text
  between them is modelled.
- Writers.BasicWriter.WriteInt: after the pointer went stale the digits' characters are left unspecified; writing
  to storage that was given up is not described further. Characters are narrow.
- FormatBuffers.MemoryBuffer.Grow: releasing the old storage, inline storage as opposed to allocated storage, and
  moves between buffers are left out.
- FormatSpecs.ReadBack: fills that are digits or minuses are excluded, for which DigitsMislead and MinusMisleads
  show numbers that look alike, and so are zeros other than between sign and digits and zeros with a precision,
  which this reader does not skip.
- Matrix3.Bidiagonalize: rounding is left out. Entries that the code leaves alone are updated by adding zero.
  What is below the diagonal and at the corner of kA afterwards is not zero and is not read by later steps.
- Profiler.Profile.Stop: stopping a profile that is not on top of the stack is outside the discipline of
  nesting; the watcher that is set up after ten stops has no effect and is left out.
- Profiler.Profile.Start: the stack is taken to be shallower than 2^31.
- ObjectPools.ACE_ObjectPool.Grow: called while sizes keep to 32 bits; the constructors and destructors of the
  objects are left out.
- ObjectPools.ObjectPool.ReclaimObject: null pointers are left out, and lists of objects, which are loops of this.
- Watchers.WatcherPaths.AddWatcher: a path in which nothing but slashes is left where the code takes a name has no
  defined behaviour and is excluded; watcher numbers, streams and the assertion on a failed add are left out.
- Watchers.WatcherPaths.DelWatcher: the assertion that the watcher's pointer has no other owner
  (common/Watcher.cpp:97) is left out; pointers are not counted.
- Paths.SplitJoin: the tokenizer behind kbe_split is taken to give the nonempty pieces between slashes.
- StringUtils.Replace: empty patterns and delimiters, for which the loops do not end, are left out.
- HexStrings.String2Bytes: sscanf is taken to work as C says and in the C locale.
- Crypto: RSA, Blowfish, MD5, base64, and the wrappers over OpenSSL, ACE, Mono and the file system.
- Matrix3: singular values, QL iteration, cubic roots and Euler angles, which depend on rounding or trigonometry.
- Plane: its constructor from homogeneous vectors.
