# A verified model of the Booter's decompressor and loader

The booter reads kernels that are compressed with gzip and loads them as ELF programs.  Everything between
the compressed bytes and the loaded image is modelled here: the zlib 1.0.4 decompressor in `zlib/`
(RFC 1950, 1951 and 1952), the random-access layer over it in `gzip.c`, the two checksums, the search for a
synchronisation marker, and the ELF loader in `loadfile.c`.

## What is proved

The format is defined first, independently of the program: `Huffman` is section 3.2.2 of RFC 1951 (canonical
codes, and what a bit stream decodes to), `Deflate` is section 3.2 (blocks, code lengths, matches),
`ZlibFormat` is RFC 1950 and `GzipFormat` is section 2.3 of RFC 1952.

These definitions are checked from the other side, by a compressor that is free in all its choices and shares with
them only the canonical codes, which of them are accepted, what a match appends and the checksums: bits packed into
bytes (`BitStrings`), symbols and extra bits of matches by arithmetic (`MatchCodes`, `Tokens`), the codes of a block
(`Codebooks`), blocks of all three types (`DeflateWriter`), the zlib wrapper (`ZlibWriter`), gzip headers and files
(`GzipWriter`, `GzipFiles`).  Whatever it writes is decoded as what went in (`PartsRead`, `ZlibRoundTrip`,
`GzipRoundTrip`), and not if it is cut off (`ZlibCut`, `HeaderCut`).  What must be refused is in `Refusals`, likewise bit
by bit; streams given byte by byte or bit by bit are in `Samples` and `OwnCodes`.  Which codes are accepted is said by
counts (`UsableByCounts`), the fixed codes are listed (`FixedCode`), and the checksums have known values (`Checksums`).
`ElfWriter` and `ElfPrograms` do the same for ELF programs.  `Restoring`, `RandomAccess`, `SkipDamage` and
`LoadProgram` then run the modelled program on what was written.

The program then is modelled in its own form, loops over mutable state, and proved against that definition:

* **Tables.** `huft_build`, with its table stack, adaptive subtable sizes and backwards increment, is proved to
  build tables that decode the canonical code for every bit stream (`TablesDecode`, `HuftBuild`).  It accepts
  exactly the sets without codes, the complete ones and a single code of one bit (`Accepted`).  Every set the
  decompressor builds meets the size hypothesis (`UsableRoomy`, `FixedLitShape`, `FixedDistShape`).
* **Resumable decoding.** One invariant, `InfState.Valid`, says of any suspended state that *finishing from here
  gives the outcome of the whole input*.  Every step of `inflate_codes`, `inflate_fast` and `inflate_blocks` keeps
  it, whether the step completes or must wait in the middle of a code, of extra bits, of a repeat code, of a match
  or of a stored block.  A wrong bit count, a swapped byte, a skipped or repeated symbol breaks it.  Within a block
  the invariant also says what the literal or match in progress comes to (`Partial`), so that the slow path from
  START back to START (`StepLit`, `StepCopy`) and one pass of the fast path (`FastOne`) are both proved to end at
  the position and with the history that `Deflate.OneSymbol` gives.
* **Lookahead.** A look at a table may take more bits than the code it finds, so a decoder by tables wants more input
  a little before the format runs out of it.  How many bits `huft_build`'s tables look at is a function of the code
  lengths and the stream (`CodeCounts.Looks`), proved of the tables; with it the format is defined once for both
  (`Stream.looks`), and `Lookahead` proves that both agree wherever the data suffice, that the decoder is never ahead
  of the format, and that one byte more always suffices, for the end of a stream as well as for an error in it.
* **The window.** One circular buffer is at once the queue of undelivered bytes (`WindowOK`, `Drain`, `Flush`) and
  the history that matches copy from (`SourceHolds`, `CopyOne`, `FastCopy`).
* **Whole runs.** `Sessions.Run` supplies input and output room in any portions over any number of calls.  What is
  delivered always begins the contents of the stream.  Once the whole input has been supplied, the totals decide
  (`Settled`, `TotalsDecide`) which bytes are delivered, and that `Z_STREAM_END` is returned if and only if there is
  room for all of them.  For corrupt streams `Exposed` says which call reports the error and what is delivered
  until then.  `Expand` states the result by the format alone.  Every loop of the decompressor is shown to terminate.
* **Random access.** `Gzip.ReadAt`: whatever was read and sought before, seeking to `pos` and reading `len` bytes
  gives bytes `pos` to `pos + len` of the decompressed data.  This is false of some files; see below.
* **Checksums.** Deferred-modulo Adler-32 never overflows and equals the defined sums; table-driven CRC-32 equals
  the bit-at-a-time definition; both continue over concatenation.  Changes confined to four bytes never keep the CRC,
  and data with their CRC behind them always have the same one (`Residue`).
* **Loading.** After `elf_exec` the appended image describes itself, and the counting pass gives the marks of the
  loading pass (`ElfExec`, `SelfConsistent`).  Of any program that was written, every loaded segment stands in
  memory with zeros behind its bytes, and every symbol section is reached through the copied headers (`LoadProgram`).

Where the code does not do what one would expect, the exact condition is proved:

* **A byte that was given back may be gone** (gzip.c:193-206 with zlib/inffast.c:23).  gzboot_read fetches every buffer
  to the same place.  If bits are pending in the bit buffer when it does so, inflate_fast may afterwards give back a byte
  of the buffer before, and NEEDBITS then takes up what stands in front of the new one.  It happens if and only if eight or
  more of those bits are left at the end of the fast run (`UnGrab`, `InflateFast`), and it spoils the bit buffer if
  and only if the byte in front has a bit that the lost one did not have (`FetchedRight`, `LeftToFront`).  So random
  access is right for every history if no byte in front does that (`Tame`, which a zero byte always meets).
  Otherwise a single read is right if it begins quietly (`Quiet`): either the buffer at hand will not be left to the
  front, or, where a new one must be fetched at once, fewer than eight of the pending bits can be left when something is
  given back.  That is so with up to seven bits in any state, and later refills in the same read always meet it,
  because then the decoder waits for input.  The first read after gzboot_open or after starting over is always quiet.
  `Quiet` is sufficient; whether a read that does not begin so loses a byte depends on the codes that follow.  That a
  file leads to the failing state is not proved, and what stands in front of the buffer is taken not to change.
* **Files without gzip header** (gzip.c:90-107, 306-322) are read from their beginning if and only if they are empty,
  or have 4096 bytes or more and do not begin with 1f (`CheckHeader`; failing inputs in `NotWhole`).  A gzip header is recognised if and only if
  it ends within the whole 4096-byte buffers of the file (`HeaderFound`).
* **Symbols 286 and 287** of the fixed code are not rejected but read as lengths of 0; a length symbol is good if and only
  if it is at most 285 (`SymbolsMean`; failing input in `LengthZero`).  For a length below 3 the unrolled loop of
  inflate_fast copies 2^32 bytes more than it should (`Unrolled`).
* **After an error nothing more is delivered** (zlib/inflate.c:221-230).  How much of a corrupt stream arrives depends on
  how much room there was up to the call that reported the error (`Run`; both cases in `PortionsMatter`), and at most a
  window of it is lost (`LossBound`).  A call that has all of the input reports the error if and only if the
  window takes in all that comes before it, which is a whole window if a multiple of its size has been delivered and
  a byte less otherwise (`Capacity`, `Waiting`), as long as nothing may have to be delivered first for which there
  was no room (`ReportedJust`).  That may be what stands before the end of a block with codes, as inflate_codes waits
  there (zlib/infcodes.c:223-227), and all of it before a wrong check value; `Bad` and `Corrupt` name the amount (`held`).
  Without a fast run it must be delivered first, and the condition is exact (`EndWaits` has an input where the window
  alone would suffice); after a fast run inflate_codes returns without waiting, so that for longer inputs, with less
  room than that, either may happen.

## How the model stands for the program

* `State` merges `z_stream`, `inflate_blocks_state` and `inflate_codes_state`; the locals that LOAD and UPDATE copy
  in and out are the fields themselves, and `m` is the function `WAvail`.  A member of a C union goes with the mode
  that uses it.  A fall-through from one case to the next is another pass of the switch.
* The input is one sequence through which `next_in` moves and of which `avail_in` more bytes have been supplied.
  `first` is where the part of it begins that is still in memory, and `front` the byte that stands there in front of
  it.  The theorems about runs are for a caller that keeps its input in place (`first` is 0); gzboot_read does not.
  What the program does once it has taken up a wrong byte is not modelled: there the run ends (`Misses`, `Spoilt`).
  `next_in` is at most one byte in front of `first` (`BitsOK`).
* The whole input is what is supplied over a run; what becomes of a run on part of it is the case of a shorter input.
* The output area is the sequence `out` that delivered bytes are appended to.
* Words are unbounded numbers; that the bit buffer stays within 32 bits, the Adler sums below 2^32 and all counters
  non-negative is proved.  Shifts and masks are defined one bit at a time in `BitMath`.
* Ghost fields record what the C code leaves implicit: how many bits of the buffer are input bits (more than `bitk`
  after a byte has been given back, because the buffer is not masked), all bytes written so far, where the element
  being decoded begins, and which codes the trees stand for.
* Each tree has its own pool of entries, a table being named by its index.

Hypotheses, all of them conditions on the input: the outcome of the data is not `Undefined`, which is the case when
no distance exceeds the output so far or the window size, no fixed block uses symbol 286 or 287, no stream runs into an
unused code of an incomplete set, and the literal/length and code length sets are not empty, nor the distance set if a
match occurs.  `ElfExec` promises its marks and image when no address wraps around.

## Model

| member | source | states |
|---|---|---|
| Huffman.DecodeUnique | zlib/inftrees.c:198-214 | no bit stream begins with the canonical codes of two different symbols, for any code lengths |
| Huffman.DecodeIs | zlib/inftrees.c:198-214 | a stream that begins with the code of a symbol decodes to that symbol |
| Huffman.CompleteDecodes | zlib/inftrees.c:173-179 | every bit stream begins with some code if and only if the Kraft sum reaches 1 |
| Huffman.IntervalsOrdered | zlib/inftrees.c:284-287 | codes padded to 15 bits occupy disjoint intervals, in the order in which huft_build visits them |
| Huffman.Covered | zlib/inftrees.c:173-179 | every value below the Kraft sum lies in the interval of some code |
| Huffman.MsbInjective | zlib/inftrees.c:281-287 | reading a code backwards, bit by bit, loses nothing |
| RoundTrips.CodesRoundTrip | zlib/inftrees.c:198-296 | any sequence of symbols encoded with the canonical codes of a set that is not over-subscribed decodes to itself, whatever bits follow |
| CodeCounts.CountLengths | zlib/inftrees.c:138-147 | c[k] is the number of codes of k bits |
| CodeCounts.LengthRange | zlib/inftrees.c:156-167 | the least and greatest code lengths in use |
| CodeCounts.Leftover | zlib/inftrees.c:173-178 | over-subscription is found if and only if the Kraft sum exceeds 1; otherwise y codes of the greatest length make it exactly 1 |
| CodeCounts.SortValues | zlib/inftrees.c:182-195 | every symbol with a code ends up in v at its place in the order of length and then value |
| CodeCounts.PlacesApart | zlib/inftrees.c:190-195 | two symbols never share a place in v |
| TableBuilder.TableBits | zlib/inftrees.c:220-234 | the size chosen for a new table: large enough for the current code; unless it has l bits, the codes below it fit in it and would not fit in one bit less |
| TableBuilder.AddTable | zlib/inftrees.c:215-262 | a new table starts where the code has only zero bits left, is linked from the right entry of its parent, and keeps the table-stack invariant |
| TableBuilder.SubtableFits | zlib/inftrees.c:220-234 | under the size hypothesis a new subtable never exceeds l bits |
| TableBuilder.EntryFor | zlib/inftrees.c:264-277 | the entry for the next value: simple, from the lists, or the invalid-code entry beyond the last value |
| TableBuilder.FillEntries | zlib/inftrees.c:279-282 | exactly the slots of the current table whose low bits are the code get the entry |
| TableBuilder.NextBackwards | zlib/inftrees.c:284-287 | the reversed code is incremented: read from its first bit it is the next code, or zero after the last |
| TableBuilder.BackUp | zlib/inftrees.c:289-294 | the stack is popped to the deepest table that the next code passes through |
| TableBuilder.Enter | zlib/inftrees.c:264-295 | after a code is entered the stack invariant holds, and under the size hypothesis every code before the next one is in place |
| TableBuilder.PlaceCode | zlib/inftrees.c:211-295 | one pass of the inner loop keeps the invariant: i is the reversal of the next canonical code, and under the size hypothesis all before it are in place |
| TableBuilder.BuildTables | zlib/inftrees.c:198-296 | under the size hypothesis (Fits): after the loops every slot of every table is final, the first table has l bits, and every table has the smallest width that its codes fit in, or l |
| TableInvariant.FillDone | zlib/inftrees.c:279-282 | filling the slots of one code leaves every slot of a lower code right |
| TableInvariant.SettledNext | zlib/inftrees.c:284-294 | moving on to the next code keeps the tables waiting on the stack right |
| HuftTables.TablesDecode | zlib/inftrees.c:198-296 | finished tables decode their code set for every bit stream: symbol, length, base and extra bits, and how many bits are looked at; every other stream meets an invalid entry when all symbols have codes |
| HuftTables.WalkFrom | zlib/infcodes.c:121-148 | from a table reached by its own path a walk ends at the entry of the one code the stream begins with |
| InfTrees.HuftBuild | zlib/inftrees.c:101-301 | for every code-length set: Z_OK for exactly the sets without codes, the complete ones and those of one code of one bit, Z_DATA_ERROR for exactly the over-subscribed ones, Z_BUF_ERROR for the rest; and the tables decode the set under the size hypothesis |
| InfTrees.UsableByCounts | zlib/inftrees.c:297-300 | the accepted sets with codes, by counts: those whose Kraft sum is 1, and those of one code, of one bit |
| InfTrees.Accepted | zlib/inftrees.c:150-154 | huft_build's status is Z_OK for exactly the sets without codes, the complete ones and those of one code of one bit, and Z_DATA_ERROR for exactly the over-subscribed ones |
| InfTrees.ShortCode | zlib/inftrees.c:156-170 | a complete set of fewer than 2^n codes has a code shorter than n bits, so l is never raised above the width asked for |
| InfTrees.UsableRoomy | zlib/inftrees.c:215-235 | every accepted set of fewer than 2^m codes meets the size hypothesis for table width m |
| InfTrees.FixedLitShape | zlib/inftrees.c:429-439 | the fixed literal code is complete and builds with a 7-bit root |
| InfTrees.FixedDistShape | zlib/inftrees.c:441-445 | the fixed distance code lacks two codes of five bits and still builds |
| InfTrees.FixedCode | zlib/inftrees.c:429-439 | every literal/length code of a fixed block, with its value and its length as section 3.2.6 of RFC 1951 lists them |
| InfTrees.FixedDistanceCode | zlib/inftrees.c:441-445 | a distance code of a fixed block is the symbol itself in five bits |
| InfTrees.TreesBits | zlib/inftrees.c:304-322 | accepted if and only if empty or usable; then one look of at most 7 bits decodes it |
| InfTrees.TreesDynamic | zlib/inftrees.c:325-372 | accepted if and only if both sets are empty or usable; the tables decode them, with roots of the widths huft_build settles on when asked for 9 and 6 bits |
| InfTrees.TreesFixed | zlib/inftrees.c:410-456 | the fixed tables decode the fixed codes of section 3.2.6 of RFC 1951 |
| InfTrees.SymbolsMean | zlib/inftrees.c:264-277 | what the entry of every literal/length symbol says; beyond 256 it is a length of the format if and only if the symbol is at most 285; 286 and 287 become lengths of 0 |
| InfTrees.Unrolled | zlib/inffast.c:98-119 | the copy loop with its two copies ahead and its 32-bit counter writes as many bytes as the length says if that is at least 3; for less the counter wraps and it writes 2^32 more |
| Decoding.LengthZero | zlib/inffast.c:96-119 | the failing input: eight bits of a fixed block that are read as a length of 0 |
| DeflateFacts.CopyRepeats | zlib/infcodes.c:208-215 | a match appends, byte by byte, what stands dist bytes before, also when it overlaps itself |
| DeflateFacts.CodesAhead | zlib/infcodes.c:102-237 | decoding only appends to the output, and the end of complete data lies ahead |
| DeflateFacts.OneSymbolAhead | zlib/infcodes.c:102-237 | one symbol takes the decoder forward within the data and only appends to the output |
| DeflateFacts.BlockAhead | zlib/infblock.c:133-378 | from any block on, output only grows and the end lies ahead |
| Lookahead.NeedBound | zlib/inftrees.c:220-234 | decoding a code looks at most eight bits beyond it |
| Lookahead.CodeWithin | zlib/infcodes.c:121-148 | if the data suffice for a code it is decoded alike whatever follows; if not, it ends less than a byte before the end of the data, or beyond |
| Lookahead.BlockAgrees | zlib/infblock.c:133-378 | data seen by a decoder that looks ahead come to what the format says, or to a part of it, cut short less than a byte after the end of what they hold; likewise with more data |
| Lookahead.NeverAhead | zlib/inflate.c:152-271 | what the decompressor makes of a stream is what the stream holds by the format, or a part of it with more input wanted |
| Lookahead.OneByteMore | zlib/inflate.c:152-271 | whether a stream is whole, corrupt or in need of a dictionary is seen by the decompressor at the latest with one byte more than the format needs to tell |
| Lookahead.EndSeen | zlib/inflate.c:221-263 | the end of a stream is seen at once if a check value or another byte follows it |
| RoundTrips.PackInflates | zlib/infblock.c:183-213 | any data packed into stored blocks expands to itself, whatever stands before and after |
| RoundTrips.PackedContents | zlib/inflate.c:221-238 | a raw stream of packed data holds exactly the data and ends where the packing ends |
| RoundTrips.ReservedAfter | zlib/infblock.c:135-182 | a stored block followed by a block of the reserved type is corrupt, with the data of the former before the error |
| RoundTrips.HeldContents | zlib/infblock.c:135-182 | three bytes that are a fixed block of one literal and a block of the reserved type, decoded by the format |
| RoundTrips.EndMeansChecked | zlib/inflate.c:239-263 | a zlib stream is whole only if its last four bytes are the Adler-32 of everything it holds |
| MatchCodes.DistanceLaw | zlib/inftrees.c:51-58 | the distance tables by their law: each symbol begins where the one before it ends, two symbols to a number of extra bits from the fourth on, up to 32768 |
| MatchCodes.LengthLaw | zlib/inftrees.c:44-50 | the length tables by their law: four symbols to a number of extra bits from the eighth on, and one for the length 258 alone |
| MatchCodes.LengthCoded | zlib/inftrees.c:44-50 | the symbol and extra bits of every length from 3 to 258, found by halving, are those that the tables give back as that length |
| MatchCodes.DistanceCoded | zlib/inftrees.c:51-58 | the same for every distance from 1 to 32768 |
| BitStrings.ReadLsb | zlib/infutil.h:76-77 | a number sent with its lowest bit first is read as that number |
| BitStrings.ReadMsb | zlib/infcodes.c:121-126 | a code sent with its highest bit first is read as that code |
| BitStrings.PackedWritten | zlib/infutil.h:75-76 | bits packed into bytes from the lowest place up lie in the input in that order, whatever stands before and behind |
| Tokens.TokenRead | zlib/infcodes.c:102-237 | what is written for a literal, or for any match of length 3 to 258 at a distance of 1 to 32768 within the output and the window, is decoded as that literal or match, for every pair of prefix codes |
| Tokens.TokensRead | zlib/infcodes.c:102-237 | literals and matches followed by the end of the block come out one after the other |
| Codebooks.OrderLaw | zlib/infblock.c:17-18 | where the length of each code length symbol is sent, by arithmetic |
| Codebooks.CodeLengthsRead | zlib/infblock.c:238-244 | the code length code lengths are read back as they were sent in that order, those not sent being 0 |
| Codebooks.CommandsRead | zlib/infblock.c:260-301 | lengths, copies of the previous one (16: 3 to 6) and runs of zeros (17: 3 to 10, 18: 11 to 138) are read back as the lengths they stand for |
| Codebooks.CodebookRead | zlib/infblock.c:214-338 | the header of a block with its own codes, for every choice of sizes within 286 and 30 and all accepted codes, is read back as those codes |
| DeflateWriter.PartRead | zlib/infblock.c:133-363 | a stored block, a block with the fixed codes or one with its own is decoded as what went in, wherever it starts |
| DeflateWriter.PartsRead | zlib/infblock.c:116-379 | any blocks one after the other are decoded as what went in, and end where they were written to |
| DeflateWriter.RawRoundTrip | zlib/inflate.c:221-238 | raw deflate data with any blocks hold what went in, whatever follows, also for a decoder that looks ahead if a byte follows |
| DeflateWriter.RawCut | zlib/infblock.c:116-379 | raw data that are cut off anywhere come to a part of what went in, and more is asked for |
| ZlibWriter.ZlibRoundTrip | zlib/inflate.c:164-263 | a zlib stream of any level and any window up to that of the decoder holds what was compressed, and ends behind its check value, highest byte first |
| ZlibWriter.ZlibCut | zlib/inflate.c:152-271 | a zlib stream that is cut off anywhere is never taken for a whole or a corrupt one |
| ZlibWriter.WrongChecksum | zlib/inflate.c:239-263 | any other check value makes the stream corrupt, with all of its data before the error |
| ZlibWriter.DictionaryWanted | zlib/inflate.c:192-220 | a header with a preset dictionary asks for it |
| ZlibWriter.HeaderRefused | zlib/inflate.c:164-188 | another method, a window greater than that of the decoder and a header that is no multiple of 31 are refused |
| Refusals.ReservedType | zlib/infblock.c:176-181 | a block of the reserved type is an error |
| Refusals.WrongComplement | zlib/infblock.c:183-190 | a stored block whose second length field is not the complement of the first is an error |
| Refusals.TooManyCodes | zlib/infblock.c:214-225 | a block with 287 or 288 codes of literals and lengths, or 31 or 32 of distances, is an error, and no other number is |
| Refusals.WrongLengthCode | zlib/infblock.c:245-254 | a code length code that is neither complete nor one code of one bit is an error |
| Refusals.WrongRun | zlib/infblock.c:286-294 | a copy without a length before it and a run beyond the last length are errors |
| Refusals.WrongCodes | zlib/infblock.c:302-327 | a code of literals and lengths, or one of distances that is not empty, that is neither complete nor one code of one bit is an error |
| Refusals.WrongDistance | zlib/infcodes.c:184-190 | the distance codes 30 and 31 of a fixed block are errors |
| Samples.ShortContents | zlib/inflate.c:152-271 | twelve given bytes are a whole zlib stream that holds abcbcb, with a match that overlaps itself |
| OwnCodes.SampleContents | zlib/infblock.c:214-338 | a given block with its own codes, bit by bit, holds one byte: 0 has a code length code of one bit, 8 and 18 have codes of two |
| OwnCodes.SampleStream | zlib/infblock.c:116-379 | the same as a whole stream, for a decoder that looks ahead if another byte follows |
| Decoding.Look | zlib/infcodes.c:121-148 | one look of a walk: a link to follow with the right bits, or the final entry |
| Decoding.CodesEntry | zlib/infcodes.c:126-158 | what a literal/length entry means: literal, length with its extra bits, end of block, or invalid code |
| Decoding.DistanceEntry | zlib/infcodes.c:173-190 | what a distance entry means |
| Decoding.LitExop | zlib/inftrees.c:44-50 | the base values and extra bits of literal/length symbols are those of section 3.2.5 of RFC 1951, which MatchCodes.LengthLaw gives by their law |
| Decoding.DistExop | zlib/inftrees.c:51-58 | the base values and extra bits of distance symbols are those of section 3.2.5 of RFC 1951, which MatchCodes.DistanceLaw gives by their law |
| InfUtil.ByteAt | zlib/infutil.h:76 | byte p of the input is the eight bits at position 8p |
| InfUtil.NeedBits | zlib/infutil.h:76 | the buffer is topped up without moving the logical position and never beyond 32 bits; if it fails, all input is used up or the next byte is no longer in memory |
| InfUtil.NextByte | zlib/infutil.h:75-76 | one byte goes in above the bits that are valid, also over leftover bits of a byte that was given back |
| InfUtil.FetchedRight | zlib/infutil.h:75-76 | taking up the byte at next_in keeps the bit buffer right if and only if it is still the byte of the input, or what stands there instead adds no bit to it |
| InfUtil.TakeBits | zlib/infutil.h:77 | the next j bits of the input are read and dropped |
| InfUtil.FlushSegment | zlib/infutil.c:36-52 | one copy to the caller: counters and check value follow the delivered bytes |
| InfUtil.Drain | zlib/infutil.c:36-60 | one copy and the wrap at the end of the window keep the window a queue of undelivered bytes |
| InfUtil.Flush | zlib/infutil.c:23-87 | afterwards everything written is delivered or the output space is used up; delivered plus free space is unchanged |
| InfUtil.Wrap | zlib/infutil.h:81 | writing goes on at the start of the window only when no unread byte can be hit |
| InfUtil.NeedOut | zlib/infutil.h:79-83 | succeeds if and only if a byte can be written; fails only with output left and no room for it |
| InfUtil.Waiting | zlib/infutil.h:79-83 | at most a window of output waits to be delivered, one byte less unless as much as a multiple of the window has been delivered; and just as much when there is no space left |
| InfUtil.OutByte | zlib/infutil.h:84 | a byte is appended to the history without touching unread bytes |
| InfUtil.OutBytes | zlib/infblock.c:201-206 | a stretch of input is appended to the history |
| InfUtil.SourceHolds | zlib/infcodes.c:200-206 | the window still holds every byte a distance may reach, also across the wrap |
| InfCodesSteps.TakeEntry | zlib/infcodes.c:122-126 | the entry looked up and the bits dropped: the walk goes on or has ended at its symbol |
| InfCodesSteps.StepLen | zlib/infcodes.c:121-158 | LEN, suspended or not, keeps what the symbol in progress comes to and what the whole input comes to; it waits only where the input, if there is no more, is cut short |
| InfCodesSteps.LenStarved | zlib/infcodes.c:121-123 | when fewer bits are left of the whole input than the next look takes, the outcome is that the data are cut short right here |
| InfCodesSteps.StepLenExt | zlib/infcodes.c:159-167 | LENEXT keeps what the symbol comes to |
| InfCodesSteps.StepDist | zlib/infcodes.c:168-190 | DIST keeps what the symbol comes to |
| InfCodesSteps.StepDistExt | zlib/infcodes.c:191-197 | DISTEXT keeps what the symbol comes to |
| InfCodesSteps.CopyOne | zlib/infcodes.c:208-215 | one byte of a match is copied, with f wrapping at the end of the window, or the copy waits for room |
| InfCodesSteps.StepCopy | zlib/infcodes.c:198-217 | COPY, resumable after any byte, ends with the position and the history that the symbol had to come to from its first bit on |
| InfCodesSteps.StepLit | zlib/infcodes.c:218-222 | LIT appends the literal, or waits for room; then position and history are what the symbol had to come to |
| InfCodesSteps.StepStart | zlib/infcodes.c:118-120 | a symbol begins: what it has to come to is fixed by the format, the position and the history |
| InfCodesSteps.AfterLenMeans | zlib/infcodes.c:127-157 | the mode chosen after a look carries on with the same symbol |
| InfCodesSteps.AfterDistMeans | zlib/infcodes.c:173-189 | the mode chosen after a look at a distance table carries on with the same symbol |
| InfCodesSteps.StepWash | zlib/infcodes.c:223-227 | WASH waits until everything is delivered |
| InfCodes.Step | zlib/infcodes.c:102-237 | every pass keeps the invariant and either uses bits or lowers the mode rank |
| InfCodes.InflateCodes | zlib/infcodes.c:81-238 | terminates; what it writes and where it stops agree with the format; it waits only for input or for room, or when a byte that was given back is no longer in memory |
| InfFast.GrabBits | zlib/inffast.c:22 | the unchecked refill stays within the bytes that are there and within 32 bits |
| InfFast.UnGrab | zlib/inffast.c:23 | whole bytes go back without moving the logical position; one of them lies in front of the buffer if and only if eight or more bits from before it are still to come |
| InfFast.WalkAll | zlib/inffast.c:62-161 | the unchecked walk ends at the entry of the code, with its length used up |
| InfFast.CopyRun | zlib/inffast.c:110-119 | a stretch of a match copied without checks is a stretch of the match of the format |
| InfFast.FastCopy | zlib/inffast.c:96-119 | the copy in one or two stretches, the first two bytes unrolled, is the whole match |
| InfFast.FastMatch | zlib/inffast.c:74-133 | a match takes up at most seven more bytes of input and 258 bytes of room, and ends where the symbol in progress had to end |
| InfFast.FastOne | zlib/inffast.c:59-161 | one pass, entered with room for 258 bytes and 10 bytes of input, keeps both counters non-negative and does what the slow path does from START back to START: it writes the same bytes and moves the position by the same amount, namely to where OneSymbol says |
| InfFast.InflateFast | zlib/inffast.c:30-168 | the fast path ends with the meaning of the run unchanged, fewer than 8 bits in the buffer, and at most one byte given back that it did not take, namely just when eight or more of the bits pending at a new buffer are left |
| InfCodes.StepFast | zlib/infcodes.c:104-120 | a fast run, when there is room for one, fits between two symbols of the slow path |
| InfBlockSteps.StepType | zlib/infblock.c:135-182 | the block header is decoded as section 3.2.3 of RFC 1951 says; a block type is rejected if and only if it is the reserved one |
| InfBlockSteps.ToByteBoundary | zlib/infblock.c:143-146 | the position moves to the next byte boundary |
| InfBlockSteps.StepLens | zlib/infblock.c:183-196 | the data are rejected if and only if the two length fields are not complements; no buffered bit is lost |
| InfBlockSteps.StepStored | zlib/infblock.c:197-213 | stored bytes go to the window as far as input and room allow |
| InfTreeSteps.StepTable | zlib/infblock.c:214-237 | the table sizes are read; they are rejected if and only if they say more than 286 or 30 codes |
| InfTreeSteps.Positions | zlib/infblock.c:17-18 | the order of the code length code lengths is a permutation of 0 to 18 |
| InfTreeSteps.TakeLength | zlib/infblock.c:241-243 | one code length code length is stored where it belongs, which is where section 3.2.7 of RFC 1951 has it sent (Codebooks.OrderLaw) |
| InfTreeSteps.StepBTree | zlib/infblock.c:238-259 | the code length code lengths are read, resumable between any two, and their tree built |
| InfTreeSteps.BuildBits | zlib/infblock.c:245-259 | the code length code is rejected if and only if it is not usable; otherwise its tree is built |
| InfLengthSteps.StoreRun | zlib/infblock.c:296-298 | a run of lengths is stored |
| InfLengthSteps.StepRepeat | zlib/infblock.c:277-300 | once its bits are there a repeat is rejected if and only if it overflows or has nothing to repeat; it may cross from one code to the other |
| InfLengthSteps.StepLength | zlib/infblock.c:263-301 | one code length symbol is decoded, resumable inside its code and its extra bits |
| InfLengthSteps.BuildCodes | zlib/infblock.c:302-338 | the codes are rejected if and only if one of them is not usable (the distance code may be empty); otherwise both trees are built and stand for the lengths read |
| InfLengthSteps.StepDTree | zlib/infblock.c:260-338 | the code lengths of section 3.2.7 of RFC 1951 are decoded and the block begun |
| InfBlock.ReturnByte | zlib/infblock.c:356-362 | at the end of the last block at most one byte goes back and the position is kept |
| InfBlock.StepCodes | zlib/infblock.c:339-363 | inflate_codes is run; at the end of the block the next one follows or the stream ends |
| InfBlock.StepDry | zlib/infblock.c:364-368 | the end is reached only with everything delivered |
| InfBlock.Step | zlib/infblock.c:133-378 | every pass keeps the invariant and either uses bits or lowers the mode rank |
| InfBlock.InflateBlocks | zlib/infblock.c:116-379 | terminates; finishing from wherever it stops gives the outcome of the whole input; it stops early only for input or room, or when a byte that was given back is no longer in memory; what it has written is delivered as far as there is room |
| InfSafety.PartialAhead | zlib/infcodes.c:102-237 | from any point inside a symbol, its end lies ahead and the output only grows |
| InfSafety.NeverWrong | zlib/infblock.c:116-379 | at every point between steps the bytes delivered, and those written, begin what the input expands to |
| ZlibInflate.InflateInit2 | zlib/inflate.c:83-136 | window sizes outside 2^8 to 2^15 are refused; otherwise a decompressor for the stream at next_in is set up |
| ZlibInflate.StepMethod | zlib/inflate.c:164-180 | the method byte is checked |
| ZlibInflate.StepFlag | zlib/inflate.c:181-198 | the header check, the preset-dictionary flag |
| ZlibInflate.StepDict | zlib/inflate.c:198-220 | the dictionary identifier is read, highest byte first, then Z_NEED_DICT once, Z_STREAM_ERROR once and errors after |
| ZlibInflate.StepBlocks | zlib/inflate.c:221-238 | blocks are run; their end leads to the check value or, without wrapper, to the end |
| ZlibInflate.StepCheck | zlib/inflate.c:239-263 | the check value is read byte by byte and compared |
| ZlibInflate.Inflate | zlib/inflate.c:152-271 | every call terminates and keeps the invariant; Z_STREAM_END, Z_DATA_ERROR, Z_NEED_DICT only when the stream says so; Z_BUF_ERROR only without progress and Z_OK only with; a dictionary is asked for once, with its identifier, then Z_STREAM_ERROR comes once; the marker says that inflateSync can be tried just after errors of the blocks and for want of a dictionary; if it waits with all of the input supplied then there is output that has no room, or the stream is cut short, so that corruption and the end must be reported; what has been written is delivered as far as there is room, also before an error |
| ZlibInflate.BlocksWait | zlib/inflate.c:221-230 | a run that waits lacks room for output it has, or input, of which, if there is no more, the stream is cut short; or a byte of it has been lost |
| Sessions.DeliveredRight | zlib/inflate.c:152-271 | between any two calls the bytes delivered begin what the stream holds |
| Sessions.Run | zlib/inflate.c:152-271 | over any number of calls with input and room supplied in any portions: once the whole input has been supplied the totals decide which bytes are delivered and what is returned at the end (Settled); of a corrupt stream a call that has all of the input reports the error if the window takes in all that comes before it and nothing may have to be delivered first for which there has been no room; a report implies the former, and, for inputs too short for a fast run, the latter; what had room up to the call that reported it is delivered and nothing afterwards, so that at most a window of output is lost (Exposed) |
| Sessions.MustSettle | zlib/inflate.c:152-271 | a call that has been given all of the input settles the matter, as far as there was room |
| Sessions.ReportedJust | zlib/infcodes.c:223-227 | when a call holding all of the input reports the error of a corrupt stream, as an if and only if |
| Sessions.LossBound | zlib/inflate.c:221-230 | when the error has been reported at most a window of output is lost |
| Sessions.PortionsMatter | zlib/inflate.c:221-230 | the failing inputs: of a stored block before an error nothing is delivered if the room for it comes one call after the input, all of it if both come together |
| Sessions.EndWaits | zlib/infcodes.c:223-227 | the failing input for the window alone: the byte before the error fits in it, but at the end of its block it must be delivered first, and the error is reported by the next call |
| Sessions.Expand | zlib/inflate.c:83-271 | a whole input, in any portions, gives what it holds by the format alone, if a check value or a byte follows its end |
| Sessions.TotalsDecide | zlib/inflate.c:152-271 | two runs with equal totals end alike: if the stream is not corrupt they deliver equal bytes; both or none report the end; both or none report the error of a corrupt stream, unless something may have to be delivered before it for which there is no room; and then they deliver equal bytes but for a window |
| Restoring.Restore | zlib/inflate.c:83-271 | whatever blocks were written as a zlib stream, of whatever level, and however it is supplied: what comes out is what went in, as far as there is room, and 1 is returned at the end if and only if there is room for all of it |
| Restoring.RestoreRaw | zlib/inflate.c:83-271 | the same without a wrapper, if something follows |
| Restoring.Mistrust | zlib/inflate.c:239-263 | with a wrong check value, and room for everything, -3 is returned at the end |
| Restoring.Starve | zlib/inflate.c:152-271 | of a stream that is cut off anywhere a part comes out, and neither its end nor an error is reported |
| Restoring.Ask | zlib/inflate.c:192-220 | a stream with a preset dictionary, in any portions, gives nothing but 0 or -5 until 2 is returned once, then -2 once, and -3 from then on |
| Restoring.Begin | zlib/inflate.c:83-136 | a window of 2^8 to 2^15 bytes, with or without wrapper, gives 0, any other -2 |
| InflateSync.NextIsOverlap | zlib/inflate.c:320-329 | the step of the search keeps the length of the longest suffix seen that begins the marker |
| InflateSync.SyncStream.Search | zlib/inflate.c:319-335 | the search stops at the first occurrence or has used all input |
| InflateSync.SyncStream.Sync | zlib/inflate.c:298-345 | a call goes on with the search and stops right after the first 00 00 FF FF of all it was given; totals follow; a state that cannot be synchronised stays put |
| InflateSync.SyncAll | zlib/inflate.c:298-345 | a search over a list of portions finds the marker if and only if it occurs in them, and then stops right behind its first occurrence |
| Resuming.FlushEndsInMarker | zlib/inflate.c:318-329 | an empty stored block, which a flush ends with, ends with the four bytes that are searched for, wherever it starts |
| Resuming.SkipDamage | zlib/inflate.c:298-345 | of damaged data, a marker and blocks the search skips the damage in any portions, and from where it stops the data hold what went into the blocks |
| Adler32.NoOverflow | zlib/adler32.c:10-12 | NMAX bytes can be summed from any 16-bit sums without reaching 2^32 |
| Adler32.SumChunk | zlib/adler32.c:38-45 | sums deferred over up to NMAX bytes are exact |
| Adler32.Adler32 | zlib/adler32.c:21-48 | the deferred-modulo sum is the checksum of section 9 of RFC 1950 |
| Adler32.AdlerConcat | zlib/infutil.c:45-47 | a checksum continued over a second part is the checksum of the concatenation |
| Crc32.ShiftXor | zlib/crc32.c:60-62 | shifting the register is linear |
| Crc32.FeedIs | zlib/crc32.c:31-38 | feeding bits one at a time is adding them all first and then shifting |
| Crc32.FeedByte | zlib/crc32.c:138 | one look at the table feeds eight bits |
| Crc32.Entry | zlib/crc32.c:57-63 | a table entry is what eight shifts make of its index |
| Crc32.CrcTable.Make | zlib/crc32.c:44-65 | the table holds what eight shifts make of every byte |
| Crc32.Crc32 | zlib/crc32.c:144-164 | the table form computes the bit-at-a-time CRC of section 8 of RFC 1952 |
| Crc32.CrcConcat | gzip.c:208-227 | a CRC continued over a second part is the CRC of the concatenation |
| Crc32.DetectsBursts | zlib/crc32.c:20-42 | data that differ only within four bytes never have the same CRC |
| Checksums.PolyIs | zlib/crc32.c:44-56 | the polynomial is assembled from its exponents 0, 1, 2, 4, 5, 7, 8, 10, 11, 12, 16, 22, 23 and 26, the highest in the lowest bit |
| Checksums.TableBasis | zlib/crc32.c:70-123 | the entries of the table at 128, 64, 32, 16, 8 and 4 are those of the literal table, and those at 2 and 1 are two more shifts |
| Checksums.EntrySum | zlib/crc32.c:57-63 | the entry of a sum is the sum of the entries |
| Checksums.Residue | zlib/crc32.c:144-164 | data with their checksum behind them, the lowest byte first, have the checksum of four zeros, whatever they are |
| Checksums.AllOnes | zlib/crc32.c:144-164 | the CRC of four bytes 255, which cancel what the register begins with |
| Checksums.SumsReduced | zlib/adler32.c:10-48 | the Adler-32 of 300 bytes 255, where both sums pass 65521 |
| Checksums.GreatestChunk | zlib/adler32.c:11-12 | n bytes can be summed from reduced sums in 32 bits if and only if n is at most NMAX |
| Gzip.GetByte | gzip.c:90-107 | the next byte of the part of the file that comes in whole buffers, or EOF for good |
| Gzip.SkipExtraField | gzip.c:336-341 | an extra field is skipped; a length cut off by the end of the file ends the loop |
| Gzip.SkipToZero | gzip.c:342-347 | a name or comment is skipped |
| Gzip.CheckHeader | gzip.c:306-352 | the three outcomes are those of section 2.3 of RFC 1952 on the readable part of the file; after gzboot_open a file without header is read from its beginning if and only if it is empty, or has 4096 bytes or more and its first byte is not 1f |
| Gzip.NotWhole | gzip.c:90-107 | the failing inputs: a file of one byte, for which next_in is never set, and one that begins with 1f 00, whose first byte is not given back |
| Gzip.HeaderFound | gzip.c:90-107 | a header is recognised if and only if the file has one that ends within its whole buffers; a file shorter than a buffer never is |
| GzipWriter.HeaderSkipped | gzip.c:58-64 | whatever is there of text flag, header check, extra field, name and comment, a header written as section 2.3.1 of RFC 1952 says is skipped to its last byte |
| GzipWriter.HeaderCut | gzip.c:324-351 | a header that is cut off anywhere is malformed, or no header if less than two bytes are left |
| GzipWriter.HeaderRefused | gzip.c:306-331 | another beginning is not taken for gzip data, and another method or a reserved flag is refused |
| GzipFiles.GzipRoundTrip | gzip.c:306-352 | a gzip file of any header and any blocks is found to hold what went in, up to eight bytes before its end |
| GzipFiles.RandomAccess | gzip.c:154-304 | opened once, it gives any parts of the data, but for the last byte, in any order, sought by lseek from the beginning (0) or from where the last one ended (1), if its header ends within its whole buffers and a zero byte stands before the buffer |
| Gzip.Open | gzip.c:355-398 | any file can be opened, with what check_header finds; a whole gzip member that is not empty is ready to be read at position 0, and its first read will not leave the buffer to the front |
| Gzip.MustGoOn | gzip.c:174-226 | before the last byte is delivered inflate neither ends nor fails, and stops only when the buffer is full, the input used up or a byte lost |
| Gzip.LeftToFront | gzip.c:193-206 | the failing state, any in which eight or more bits from before the buffer are still to come after inflate_fast has given back what it did not need: then next_in is one in front of inbuf, and taking up what stands there spoils the bit buffer if and only if it has a bit that the lost byte did not have |
| Gzip.TameKeeps | gzip.c:193-206 | nothing is lost that matters if what stands in front of inbuf adds no bit to the last byte of any buffer of the file |
| Gzip.FewPending | gzip.c:193-206 | with no input at hand and at most seven bits pending the next read is safe |
| Gzip.Fill | gzip.c:174-226 | the loop terminates with the buffer full, or with a byte lost; with none lost if it begins quietly |
| Gzip.Read | gzip.c:154-230 | stores exactly the next bytes of the data, and keeps the running CRC; they are len bytes if the call begins quietly (of the bits pending at a refill fewer than eight can be left when something is given back), or if the file is tame, or otherwise as long as no byte has been lost |
| Gzip.Rewind | gzip.c:258-280 | starting over leads back to position 0 |
| Gzip.Lseek | gzip.c:232-304 | ends at the position asked for, backwards or forwards, and returns it, as long as no byte has been lost, which never happens to a tame file; rejects other whence values |
| Gzip.ReadAt | gzip.c:232-304 | random access: whatever was read and sought before, seeking to pos and reading len bytes gives bytes pos to pos + len of the data if the file is tame, or as long as no byte has been lost |
| LoadFile.Extend | loadfile.c:324-345 | the lowest address and the end of the program grow to include a segment and its bss |
| LoadFile.LoadSegment | loadfile.c:305-340 | file bytes, then zeros, and nothing else changes |
| LoadFile.LoadSegments | loadfile.c:284-346 | fails if and only if something is missing from the file; extents are those of all loaded segments; disjoint segments all stand in memory |
| LoadFile.LoadSections | loadfile.c:374-410 | symbol and string sections go one behind the other, their offsets are rewritten accordingly, in 32 bits |
| ElfFormat.PlaceMono | loadfile.c:404-407 | kept sections get places that are disjoint and increasing |
| ElfFormat.RewrittenFields | loadfile.c:406 | only sh_offset of the kept sections changes, to 32 bits of their places |
| ElfFormat.FrobbedFields | loadfile.c:424-430 | the copied ELF header has no program headers and its section headers right behind it |
| LoadFile.ElfExec | loadfile.c:269-438 | LOAD_ALL and COUNT_ALL give the same marks; loading fails if and only if something is missing; what is appended lies above the segments and leaves them alone; all of this unless addresses wrap around |
| LoadFile.SelfConsistent | loadfile.c:351-437 | the image read as an ELF file at the symbol mark leads to the bytes of every symbol and string table, without overlap, up to the end mark |
| ElfWriter.PhdrRead | loadfile.c:284-297 | a program header written field by field is read as it was written |
| ElfWriter.EhdrRead | loadfile.c:284-288 | so are the entry point and the places and numbers of program and section headers of the ELF header |
| ElfWriter.EhdrFrobbed | loadfile.c:424-430 | the copied ELF header is the one written with no program headers, entries of size 0 and section headers at 52 |
| ElfWriter.ShdrRead | loadfile.c:381-398 | so are type, offset and size of a section header |
| ElfWriter.ShdrRewritten | loadfile.c:406 | rewriting sh_offset makes the header that is written with that offset |
| ElfPrograms.SegmentRead | loadfile.c:284-317 | a segment of a program file is found with its header, and its bytes where the header says |
| ElfPrograms.SectionRead | loadfile.c:357-398 | so is a section |
| ElfPrograms.LoadProgram | loadfile.c:269-438 | a program of any segments that do not overlap, and any sections, is loaded: every writable or executable segment stands in memory with zeros up to its size; the marks are its least address, entry point and end; behind it stand its header and, if it has symbols, its section headers, leading to copies of the symbol and string tables, each padded to four bytes |

## Left out

- Running out of memory, ZALLOC and ZFREE, `z->msg`, traces, and the variants for other compilers and PKZIP_BUG_WORKAROUND.
- InfTrees.HuftBuild: does not model the contents of the table entries of unused codes in incomplete sets with zero-length symbols, because the C code takes them from uninitialised elements of `v`.
- InfTrees.TreesFixed: builds the fixed trees at every call, where the C code builds them once and keeps them.
- InfTreeSteps.StepTable: a new `blens` is filled with zeros, where the C code gets memory that may hold anything; no proof uses the zeros.
- TableBuilder.BuildTables: the table stack and the tables are values that every step replaces, not arrays updated in place, so that aliasing between tables is not captured; the counts and the sorted values are arrays.
- inflateSetDictionary and decompression with a preset dictionary; inflate is modelled up to Z_NEED_DICT and the error after it.
- inflateReset and inflateEnd, except where gzboot_lseek sets up a stream anew; `total_in`, which is `next_in` less the start, except in inflateSync.
- InflateSync.SyncStream.Sync: does not model the restart itself, because that begins a new stream at `next_in`; what data behind a marker hold is in Resuming.SkipDamage.
- Crc32.CrcTable.Make: the table is computed (zlib/crc32.c:44-65), where the active configuration has it as a literal (zlib/crc32.c:70-123) that is said to be made by the same loop; of the literal the entries at powers of two are compared (Checksums.TableBasis, at 1 and 2 as shifts of the one at 4), which with Checksums.EntrySum give all others.
- Adler32.Adler32: DO16 is a loop of sixteen DO1; the null buffer, which returns the initial value, is not modelled.
- Gzip.ReadAt: does not model transparent files, the trailer check and concatenated members after the last byte, or failing reads and seeks of the underlying file; the file is a sequence that boot_read delivers in order.
- Gzip.Read: does not model what the C code decodes after it has taken up a wrong byte in front of the buffer; the model then stops with what it has.
- Gzip.GetByte: after a short read leftover bytes are at hand but `next_in` does not point to them (`astray`); which bytes a read of a file without header would then copy is not modelled.
- Gzip.Open: the table of open files and the lookup by descriptor are not modelled.
- DeflateWriter.PartRead: stored blocks are padded with zero bits to the next byte, though any bits would do.
- LoadFile.ElfExec: does not model addresses and file offsets that wrap around at 2^32, because memory has no end in the model; only sh_offset is cut to 32 bits as in the C code.
- LoadFile.LoadSegments: does not model partial flag sets, because the text and data tests of loadfile.c:324-325 mix up their flags; only LOAD_ALL and COUNT_ALL are covered.
- aout_exec, coff_exec and the recognition of the file type in loadfile.c.
- Dialogs, monitors, serial ports, network boot, and the assembler glue.
