# A verified model of Golf's tester, its collector, and the Go packages beside them

The repository extends the Go runtime with a collector that finds partial deadlocks, carries
a Go standard library next to it, and a tester that names goroutines from source annotations.
This project models the stateful and arithmetical core of it in Dafny and proves what the
code is meant to guarantee.

`dafny verify dfyconfig.toml` checks everything. The modules stand alone; none needs a library.

## How the parts are modelled

**Floating point** (`Powers`, `Words`, `WordFacts`, `Floats`, `Sticky`, `TwoWords`, `Fma`,
`FmaZero`, `Rounding`, `Scaling`). A float64 is its 64-bit pattern, with every shift, mask and wrap-around
of the source written out on words. Its magnitude is an exact integer, counted in units of
2^-1074. `Floats.IsNearest(num, den, r)` is the reference: no other magnitude, infinity
standing at 2^1024, is closer to num/den than pattern r, and a tie goes to the even pattern. It
says nothing about how rounding is done, and `NearestUnique` shows that it determines the
result. `Sticky.IsSticky` says what a word with a sticky bit stands for. FMA, ldexp, frexp,
Round and RoundToEven are methods with the source's assignments, proved against these
references.

**Pipe** (`Pipe`, `PipeProgress`, `PipeHistory`). Every read, write and close call is a record with a program
point; the 17 actions are the channel operations, lock operations and loads of the source.
`Conservation` and the lemmas beside it hold of every finite run of any number of calls.
`PipeProgress` says exactly when the calls wait, and bounds their steps. `PipeHistory` speaks of the
actions: the errors given to close calls, the sizes of the slices, and what calls made after a close
can do.

**Contexts** (`Context`, `ContextInvariants`, `ContextSteps`, `ContextTheorems`,
`ContextProgress`, `ContextHistory`). Nodes with their `children`, `err`, `cause`, done channel, mutex and timer,
and calls (cancel, creation, AfterFunc's stop) with program points. Recursive cancellation is
one call per context, the caller waiting with its lock held. `StepKeeps` and `RunKept` carry
the invariant through every interleaving; the theorems of `ContextTheorems` follow from it.
The parent of a context is data: values around another context, around the background, or around
one that is cut off; `IsChild` and `IsDetached` read it off, and the theorems are stated with them.
`ContextProgress` has a measure that every step of a call makes smaller, so that all calls end.
`ContextHistory` traces contexts, errors and causes back to the actions of a run.

**Buffered streams** (`Streams`, `BufReader`, `BufWriter`, `BufScanner`, `Splits`, `SplitWords`,
`Utf8`, `RuneReader`). The source of bytes is an object with a ghost plan: it may return any chunk,
nothing at all, EOF with or after the last bytes, or an error. The buffered objects are classes
with the source's fields and loops. A ghost position in a ghost constant stream ties them to
the stream: the bytes in the buffer and those not yet read are always exactly the rest of it. The
errors of the source and of the sink are history, too: each is reported once, or is the one at hand.
`Steady` means a source that never fails and stalls fewer than 100 times in a row; the
contracts that need it say so, the others hold of failing sources too.

**The Golf collector** (`Golf`, `PartialDeadlock`, `ConcurrentMark`). `PartialDeadlock` is a
small semantics of goroutine programs over a heap. There it is proved that goroutines which are
cut off never wake, whatever the program does next, and that reclaiming them changes no run of
the others. `Golf.Collector` has the collector's root array, its counters and its mark set,
with the loops that sort, swap and mask the roots, for a program that is stopped during the
cycle. `LeastLive` is liveness defined without the collector: the least pair of live goroutines
and marked objects closed under reference and wake-up. `GcMarkDone` reports exactly the rest.
`ConcurrentMark` lets the program run: its steps interleave with scanning, the write barrier
shades into a buffer that is flushed later, and detection happens in pauses that may find more
work and resume. There the report is sound for the program as it is at the pause, and complete
for what was cut off when the cycle began. It is not exact for what happened in between:
`FloatingChannel` is a run in which a goroutine cut off during the cycle is not reported. What is
exact is `SureExactly`: from any point of a cycle a goroutine is in every report that can follow if
and only if it belongs to a set that is cut off at that point, with nothing of it a root, marked or
in the barrier's buffer yet. At the start of a cycle (`SureAtStart`) that means cut off and blocked
in the snapshot. A report does come: `CanReport`.

**In-place text** (`Html`, `NumericReferences`, `NamedReferences`, `ByteSlices`). The decoder writes into the
array it reads; the replace, join and repeat loops fill a preallocated array. Each is proved
equal to a pure function, and the round trips are proved of those functions.

**State machines** (`WasmRefs`, `FunctionNames`, `FunctionTexts`). The table of JavaScript values
with a multiset of outstanding references as history, and the visitor that pushes and pops counters
while it walks a syntax tree.

## Where the code and its documentation part

- `Ldexp` is documented as frac * 2^exp. The exponent is added up in a 64-bit int, and wraps
  when exp plus the exponent of frac leaves it: zero and infinity change places. `Scaling.Ldexp` holds
  the exact condition.
- `FMA` computes x*y+z by a multiplication and an addition when an operand is zero, since "at most
  one rounding will occur". But a negative product too small for a double rounds to -0, which is the
  result asked for, and adding +0 to it gives +0. `FmaZero.FiniteFMA` holds the exact condition.
- A numeric character reference differs from the HTML standard in three ways. Its number is
  accumulated in an int32 rune, so that `&#4294967361;` decodes to "A". `&#x;` decodes to U+FFFD though
  it has no digit, since the semicolon counts as a character matched. And a single decimal digit
  without a semicolon is not decoded. `NumericReferences.NumericMeaning` is the exact condition.
  Named references do not differ: `NamedReferences.ReferenceMeaning`.
- A rune read again after UnreadRune gets the length of its encoding as its width. That is not
  the number of bytes it took when the byte was ill-formed: `Utf8.WidthOfDecoded`.
- An error other than EOF in the middle of a rune loses the bytes of it that have been read, so that
  the rest of the input can decode to other runes: `RuneReader.LostByte`.
- `Discard` on a Reader with an error pending behind an empty buffer reads again, and what that read
  reports takes the place of the error, which nobody sees: `BufReader.Reader.Discard` says exactly
  when. No other call loses an error.
- Big integers get no type flag from storeValue, so that Value.Type panics on them:
  `WasmRefs.FlagTells`.
- `Repeat` and `Join` panic over an overflow also at one size that fits: one byte repeated MaxInt
  times, or separators of exactly MaxInt/(pieces - 1) bytes. `ByteSlices.GuardIsTight` shows that
  there is no other.
- UnreadRune on a reader that has read nothing succeeds, and the next rune is a zero that is not
  in the input: `RuneReader.Reread`.
- Function literals outside any function declaration all get the same, empty, suffix. Names are
  distinct exactly inside a declaration, or when no more than one literal is outermost:
  `FunctionNames.NamesDistinct`.

## Model

| member | source | states |
|---|---|---|
| TwoWords.ShlPairValue | baseline/src/math/fma.go:27-31 | The two-word left shift multiplies the 128-bit value by 2^n whenever the product fits, for n up to 127 although each word shift is by n, 64-n or n-64. |
| TwoWords.ShrCompressValue | baseline/src/math/fma.go:39-63 | For every shift count, all five branches give the 128-bit quotient by 2^n with the lost bits collected in the last bit. |
| Sticky.JamSticky | baseline/src/math/fma.go:39-43 | Compressing lost bits into the last one keeps every comparison with even multiples that later rounding makes. |
| Sticky.RoundsOnce | baseline/src/math/fma.go:162-174 | From a sticky word, dropping ten bits with ties to even and adding the significand onto the exponent field gives the nearest magnitude, including the carry into the exponent and the subnormals. |
| Sticky.Overflows | baseline/src/math/fma.go:163-166 | The overflow test is sound: in that range the nearest magnitude is infinity. |
| Floats.NearestUnique | baseline/src/math/fma.go:93-94 | The reference rounding of a rational has one result. |
| Floats.Nearest | baseline/src/math/fma.go:93-94 | Every rational has a nearest magnitude, so the reference is never empty. |
| Floats.NearestExact | baseline/src/math/fma.go:93-94 | A representable value rounds to itself. |
| Floats.NearestInfinity | baseline/src/math/fma.go:163-166 | Infinity is the result exactly from half a unit above the largest float on. |
| Floats.NearestScaled | baseline/src/math/ldexp.go:7-9 | Rounding depends on the quotient alone. |
| Fma.Split | baseline/src/math/fma.go:76-91 | Sign, exponent and a normalised 53-bit mantissa with exactly the operand's value, for normal and subnormal operands. |
| Fma.Product | baseline/src/math/fma.go:114-128 | Sign, exponent and two-word mantissa hold the exact product with its leading bit at 126. |
| Fma.Combine | baseline/src/math/fma.go:130-160 | After swap, alignment, addition or subtraction and renormalisation, the word is a sticky representation of the exact sum with its sign; exact cancellation is reported if and only if the sum is zero. |
| Fma.NormaliseDifference | baseline/src/math/fma.go:152-160 | After a subtraction, however many bits cancel, shifting the leading bit back loses nothing that the sticky bit needs. |
| Fma.Pack64 | baseline/src/math/fma.go:162-174 | Overflow, underflow with a second sticky shift, rounding and packing give the nearest magnitude with the right sign. |
| Fma.FMA | baseline/src/math/fma.go:93-175 | For all finite nonzero x, y, z the result is the exact x*y+z rounded once to nearest even, with +0 on exact cancellation; an infinite or NaN z is returned for finite nonzero x and y; the remaining cases go to the hardware operation. |
| FmaZero.FiniteFMA | baseline/src/math/fma.go:98-101 | With hardware that multiplies and adds with correct rounding: for all finite operands, zeros included, a sum that is not zero is rounded once, if and only if it is not a negative product of at most half the smallest double, plus +0; then the result is +0 and -0 would be right. A zero sum is -0 exactly when a negative zero product and -0 are added. |
| FmaZero.SmallestSquare | baseline/src/math/fma.go:98-101 | An instance of the failing case: the smallest double times its negative, plus +0, gives +0 where the sum rounded once is -0. |
| Rounding.TruncAwayIsNearest | baseline/src/math/floor.go:84-92 | The documented program (truncate, step away when at least half is lost) is the nearest integer, ties away, and the only one. |
| Rounding.TruncEvenIsNearest | baseline/src/math/floor.go:122-131 | The documented program with its parity test is the nearest integer, ties to even, and the only one. |
| Rounding.Round | baseline/src/math/floor.go:83-112 | For every pattern: infinities and NaN unchanged, otherwise a finite pattern of the same sign whose value is the nearest integer, ties away, carry into the exponent included. |
| Rounding.RoundToEven | baseline/src/math/floor.go:121-151 | The same with ties to even. |
| Scaling.Normalize | baseline/src/math/bits.go:54-62 | A normal y of the same sign with y * 2^exp equal to x, exp being 0 or -52. |
| Scaling.Frexp | baseline/src/math/frexp.go:7-39 | Zero, infinities and NaN come back with exponent 0; otherwise a fraction in [1/2, 1) of the same sign, exact, subnormals included. |
| Scaling.Ldexp | baseline/src/math/ldexp.go:22-51 | For every finite nonzero frac and every int exp, the result is frac * 2^exp rounded once, if and only if exp plus the exponent of frac fits in an int; above, it is zero, and below, infinity. The sign is kept. |
| Scaling.NearestScaledByUnique | baseline/src/math/ldexp.go:7-14 | Scaling by a power of two, rounded, has one result. |
| Scaling.LdexpWraps | baseline/src/math/ldexp.go:30-42 | Ldexp(2, MaxInt) returns zero where infinity is right. |
| Scaling.LdexpUndoesFrexp | baseline/src/math/ldexp.go:7-8 | Whatever splits f and is scaled back correctly is the pattern of f. |
| Scaling.RoundTrip | baseline/src/math/ldexp.go:7-51 | Frexp and then Ldexp return every finite nonzero f unchanged. |
| Pipe.InvStep | baseline/src/io/pipe.go:50-123 | Every action of every call keeps the protocol's invariant. |
| Pipe.RunInv | baseline/src/io/pipe.go:50-123 | So does every run. |
| Pipe.Conservation | baseline/src/io/pipe.go:50-96 | In every run the hand-overs, in order, are the consumed prefixes of the writes in the order they took wrMu, so that no two writes mix; no write takes wrMu twice; each successful read got exactly one hand-over, and each hand-over went to its own read; a returned write's count is what was handed over, all of it when the error is nil. |
| Pipe.OneInFlight | baseline/src/io/pipe.go:50-96 | At most one write waits for an acknowledgement. |
| Pipe.HandoverFinishes | baseline/src/io/pipe.go:54-62 | A hand-over begun on wrCh can finish on rdCh even after done closes, with the one read that holds its bytes. |
| PipeHistory.CallsAfterClose | baseline/src/io/pipe.go:51-55 | A read or write made after done is closed moves no byte, and returns zero and an error. |
| PipeHistory.StoredErrors | baseline/src/io/pipe.go:64-70 | In every run each stored error was given to a close of that side, or stands for none: ErrClosedPipe on the read side, EOF on the write side. |
| PipeHistory.PlainClose | baseline/src/io/pipe.go:98-114 | If no close of the write side gives an error and the read side is open, every failed read returns EOF. |
| PipeHistory.OwnSideFirst | baseline/src/io/pipe.go:108-123 | A call made after its own side's error was stored fails with ErrClosedPipe only, whatever the other side says. |
| PipeHistory.SlicesFull | baseline/src/io/pipe.go:58-60 | Each hand-over moves the smaller of the read's slice and what is left of the write's data, both as the calls were made. |
| PipeHistory.SendsOnce | baseline/src/io/pipe.go:85-95 | A write reports success only after a hand-over, be its data empty, and waits for a reader only while bytes are left or nothing was sent. |
| Pipe.FailuresExplained | baseline/src/io/pipe.go:108-123 | A failed read returns no bytes; while the read side has no error it returns the write side's first error, and otherwise that one or ErrClosedPipe; symmetrically for writes. |
| Pipe.ErrorsStay | baseline/src/io/pipe.go:21-33 | Along every run each side's first error is never replaced, and done is never reopened. |
| Pipe.NobodyStuckAfterClose | baseline/src/io/pipe.go:50-106 | Once done is closed, as long as a read or write has not returned, a call can move. |
| PipeProgress.PartnersMove | baseline/src/io/pipe.go:50-96 | As long as a read and a write are both unfinished, a call can move, before close as after it. |
| PipeProgress.StuckExactly | baseline/src/io/pipe.go:50-106 | No call can move if and only if no close is under way and all calls left are reads at the select, or all are writes at it or behind its lock, of a pipe still open. |
| PipeProgress.RunsEnd | baseline/src/io/pipe.go:76-96 | Without new calls every run is bounded by the work left at its start: the write loop pays for each round with a read that returns. |
| PipeProgress.AllReturn | baseline/src/io/pipe.go:50-106 | After done is closed, every read and write returns. |
| BufReader.Reader.constructor | baseline/src/bufio/bufio.go:47-56 | An empty reader at the start of its stream, with at least the minimum buffer. |
| BufReader.Reader.Fill | baseline/src/bufio/bufio.go:96-124 | The unread bytes move to the front and stay a prefix of the buffer, which then holds more bytes or an error is stored; the stream equation holds after it. |
| BufReader.Reader.ReadErr | baseline/src/bufio/bufio.go:126-130 | The stored error is returned once and cleared. |
| BufReader.Reader.Peek | baseline/src/bufio/bufio.go:139-166 | The next bytes of the stream without moving; short exactly with an error, EOF only at the end of the stream, ErrBufferFull exactly when more is asked for than the buffer holds; nothing can be unread afterwards. |
| BufReader.Reader.Discard | baseline/src/bufio/bufio.go:173-203 | The position moves by the count returned, short exactly with an error; what is buffered is skipped without touching the source. Of the source's errors only one can go unreported: one pending behind an empty window, if and only if another error or a lack of progress takes its place. |
| BufReader.Reader.Read | baseline/src/bufio/bufio.go:212-259 | The bytes delivered are the next of the stream, by the direct path and by the buffer alike, as many as the window holds or one read of the source delivers; buffered bytes come first; without an error no bytes means that the source gave none; EOF only at the end; the last byte can be unread; an error of the source is reported once. |
| BufReader.ReadAll | baseline/src/bufio/bufio.go:212-259 | Reading a steady source to its end through Read alone, with any buffer and any slice, gives the whole stream. |
| BufReader.Reader.ReadByte | baseline/src/bufio/bufio.go:263-275 | The next byte of the stream, which can be unread, or an error and no movement. |
| BufReader.Reader.UnreadByte | baseline/src/bufio/bufio.go:282-297 | Exactly when a byte can be unread, the position goes back by one and the byte stands in front of the buffer again, so that ReadByte is undone. |
| BufReader.Reader.ReadSlice | baseline/src/bufio/bufio.go:347-386 | Without error the next bytes up to and including the first delimiter; with an error no delimiter in them, ErrBufferFull only for a full buffer. |
| BufReader.Reader.CollectFragments | baseline/src/bufio/bufio.go:446-468 | The full buffers and the last fragment together are the next bytes of the stream, the delimiter in none but the last place. |
| BufReader.Reader.ReadBytes | baseline/src/bufio/bufio.go:477-488 | From any state, for any chunks and buffer size: the stream up to and including the first delimiter, or all of it when there is none. |
| BufReader.LineIsDetermined | baseline/src/bufio/bufio.go:470-477 | What ReadBytes returns without a source error is determined by the stream and the position alone. |
| BufWriter.Writer.constructor | baseline/src/bufio/bufio.go:586-599 | An empty writer with a buffer of the size asked for, or the default. |
| BufWriter.Writer.Flush | baseline/src/bufio/bufio.go:632-653 | Sink contents plus buffer stay what was accepted, also after a short write; without error all of it is in the sink; the stored error is the first that the sink reported, or stands for a short write, and makes it do nothing. |
| BufWriter.Writer.Write | baseline/src/bufio/bufio.go:673-695 | Exactly the reported prefix is accepted, short only with an error; after an error nothing is accepted or written; it ends for every sink. |
| BufWriter.Writer.WriteByte | baseline/src/bufio/bufio.go:698-708 | The byte is accepted exactly when no error is returned. |
| BufWriter.Writer.WriteString | baseline/src/bufio/bufio.go:744-775 | The same as Write, also when the sink takes strings directly. |
| BufWriter.Writer.ReadFrom | baseline/src/bufio/bufio.go:781-825 | What is taken from the source is what is accepted, in order, also when the sink reads by itself; without error the source is exhausted; an error of the source other than EOF is returned. |
| BufScanner.Scanner.constructor | baseline/src/bufio/scan.go:89-95 | A scanner at the start of its stream, nothing found, the default token size. |
| BufScanner.Scanner.Buffer | baseline/src/bufio/scan.go:272-278 | Any starting buffer and limit may be set before scanning, without loss. |
| BufScanner.FirstErrorStays | baseline/src/bufio/scan.go:257-261 | Of any errors set one after the other, the first that is not EOF stays. |
| BufScanner.Scanner.Advance | baseline/src/bufio/scan.go:243-254 | A count within the window moves start by it; any other is refused with an error and no movement. |
| BufScanner.Scanner.TrySplit | baseline/src/bufio/scan.go:143-187 | For a stable split function: a token found in the window is the next of the stream and moves the position; without one only what the function skips is passed over, and at the end of the stream there is none left. |
| BufScanner.Scanner.MakeRoom | baseline/src/bufio/scan.go:195-221 | Shifting and growing keep the unread bytes; either Read gets a nonempty slice or a token too long for the limit is on hand. |
| BufScanner.Scanner.ReadMore | baseline/src/bufio/scan.go:222-240 | The inner loop ends with more bytes or an error, after at most 100 empty reads. |
| BufScanner.Scanner.Scan | baseline/src/bufio/scan.go:139-241 | For every split function whose tokens do not change with more input or without what it skips, over every chunking and starting buffer: each token returned is the next of the stream, and a scan that ends without error has found the tokens of the whole stream; a steady source can only end it with ErrTooLong, and only when a window of the maximal size holds no token; the buffer never grows beyond the limit, and a token was cut from a window that fits it; an error of the source is the scanner's. |
| BufScanner.OnTrackToken | baseline/src/bufio/scan.go:149-181 | A token cut from any window, before or at the end of the stream, is the next token of the rest of the stream. |
| BufScanner.OnTrackSkip | baseline/src/bufio/scan.go:149-194 | Skipping without a token, as such a function does, passes over no token; at the end of the stream none is left behind it. |
| BufScanner.OnTrackEnd | baseline/src/bufio/scan.go:182-194 | When the rest holds no token, those found are all. |
| Splits.DropCR | baseline/src/bufio/scan.go:342-347 | At most the last byte is dropped, exactly when it is a carriage return. |
| Splits.ScanLinesStable | baseline/src/bufio/scan.go:355-369 | More input never changes a line already found. |
| Splits.RawLinesCut | baseline/src/bufio/scan.go:349-354 | The reference lines put together are the stream; each but the last ends in a newline, with none before it. |
| Splits.ScanLinesTokens | baseline/src/bufio/scan.go:349-369 | The tokens of ScanLines are the lines of the stream without newline and carriage return, one for one. |
| Splits.NeverOverlong | baseline/src/bufio/scan.go:204-210 | When every line with its terminator is shorter than the limit, ErrTooLong cannot arise, whatever the chunks. |
| Splits.LinesUpTo | baseline/src/bufio/scan.go:139-241 | Scanning a steady source with any starting buffer gives its lines up to the end, or up to a line that is not shorter than the limit, and then ErrTooLong; no line found is longer than the limit and the starting buffer. |
| Splits.AllLines | baseline/src/bufio/scan.go:139-241 | Scanning a steady source to the end with any starting buffer and a limit above every line with its terminator gives the lines of the stream, and no error. |
| Splits.ScanBytesStable | baseline/src/bufio/scan.go:294-299 | More input never changes a byte already found. |
| Splits.ScanBytesTokens | baseline/src/bufio/scan.go:294-299 | The tokens of ScanBytes are the bytes of the stream. |
| Splits.ScanRunesStable | baseline/src/bufio/scan.go:309-339 | More input never changes a rune already found. |
| Splits.ScanRunesTokens | baseline/src/bufio/scan.go:301-339 | The tokens of ScanRunes are the encodings of the decoded runes of the stream, U+FFFD for each bad byte. |
| SplitWords.SpacesAreWhite | baseline/src/bufio/scan.go:374-390 | The spaces are exactly the characters with the White_Space property, as package unicode lists them. |
| SplitWords.FindWord | baseline/src/bufio/scan.go:396-428 | The two loops find where the spaces end and where the word ends. |
| SplitWords.ScanWordsStable | baseline/src/bufio/scan.go:396-428 | More input never changes a word already found, a rune cut in two included, and the spaces skipped change no later word, so that Scan finds the words of the whole stream for every chunking. |
| SplitWords.ScanWordsTokens | baseline/src/bufio/scan.go:392-428 | The tokens of ScanWords are the words of the stream, gathered in one pass over its runes. |
| SplitWords.WordsCover | baseline/src/bufio/scan.go:392-395 | No word is empty, and together they are the stream without its spaces. |
| Utf8.DecodeEncoded | baseline/src/unicode/utf8/utf8.go:342-372 | Decoding an encoded rune gives it back with its length, whatever follows. |
| Utf8.DecodeExact | baseline/src/unicode/utf8/utf8.go:151-189 | A decoded rune's encoding is the prefix it was decoded from; U+FFFD of width 1 is returned otherwise, and only when no rune's encoding is a prefix. |
| Utf8.DecodeFull | baseline/src/unicode/utf8/utf8.go:104-121 | Once FullRune holds, more bytes do not change the decoding. |
| Utf8.NotFullShape | baseline/src/unicode/utf8/utf8.go:104-121 | A proper prefix of a rune is a leading byte and continuation bytes only. |
| Utf8.DecodeAllEncoded | baseline/src/unicode/utf8/utf8.go:342-372 | Decoding a whole encoded text gives its runes. |
| Utf8.WidthOfDecoded | baseline/src/fmt/scan.go:331-335 | The width reported for a rune read again is the width it had, if and only if the bytes begin with the encoding of a rune. |
| Utf8.RuneLenIs | baseline/src/unicode/utf8/utf8.go:321-337 | The length of the encoding for every rune, and -1 for surrogates and what is no rune. |
| Utf8.WidthOfBadByte | baseline/src/fmt/scan.go:331-335 | The byte FF is one byte wide when read and three when read again. |
| RuneReader.ReadRuner.constructor | baseline/src/fmt/scan.go:388-394 | A reader at the start of its stream with nothing held back. |
| RuneReader.ReadRuner.ReadByte | baseline/src/fmt/scan.go:314-326 | The next byte of the stream, held bytes first; on an error nothing is lost. |
| RuneReader.ReadRuner.ReadRune | baseline/src/fmt/scan.go:330-367 | For every stream, well-formed or not: each rune and size is what decoding the stream at that position gives, leftover bytes are put back in order, a peeked rune comes back unchanged, an error is the last of the source, and at EOF the runes returned are those of the whole stream, unless an earlier error has cost bytes. It has if and only if the position moved in a call that returned an error, which EOF never does. |
| RuneReader.LostByte | baseline/src/fmt/scan.go:348-356 | An error behind the first byte of C3 A9 costs that byte: the rest decodes to U+FFFD, the whole to U+00E9. |
| RuneReader.ReadRuner.UnreadRune | baseline/src/fmt/scan.go:369-376 | Unless a rune is already put back, the last rune read is held for the next read; a second unread is refused. |
| RuneReader.Reread | baseline/src/fmt/scan.go:330-376 | Unread and read give the last rune read again without moving in the stream, if and only if a rune has been read; else they give zero. |
| RuneReader.RereadFresh | baseline/src/fmt/scan.go:369-388 | On a fresh reader they give a rune that is not in the input. |
| RuneReader.AllRunes | baseline/src/fmt/scan.go:328-367 | Reading a steady source to its end gives the runes of decoding the whole stream, for every byte string and every chunking. |
| ContextSteps.EnteredKeeps | baseline/src/context/context.go:536-555 | The first cancel call may set the error and cause and close done with the invariant kept. |
| ContextSteps.ChildCalledKeeps | baseline/src/context/context.go:556-559 | So may the loop pass the error to one more child, under the lock. |
| ContextSteps.LoopDoneKeeps | baseline/src/context/context.go:560-562 | So may the children map be dropped when all have been cancelled. |
| ContextSteps.RemovedKeeps | baseline/src/context/context.go:389-403 | So may a cancelled child be taken out of its parent's map. |
| ContextSteps.ChildAddedKeeps | baseline/src/context/context.go:480-491 | So may a new child be registered with a parent found uncancelled under its lock. |
| ContextSteps.HoldCalledKeeps | baseline/src/context/context.go:480-485 | So may a child be cancelled on the spot when its parent was cancelled before registration. |
| ContextSteps.TimerArmedKeeps | baseline/src/context/context.go:618-650 | So may the timer of a context not yet cancelled be armed. |
| ContextSteps.TimerStoppedKeeps | baseline/src/context/context.go:665-677 | So may the timer be stopped after cancellation. |
| ContextSteps.FuncStartedKeeps | baseline/src/context/context.go:342-350 | So may f be started once. |
| ContextSteps.StopWonKeeps | baseline/src/context/context.go:324-337 | So may stop win against f and cancel the registration. |
| ContextTheorems.StepKeeps | baseline/src/context/context.go:315-677 | Every action of every call keeps the invariant, and errors, causes and counts only grow. |
| ContextTheorems.RunKept | baseline/src/context/context.go:315-677 | So does every run. |
| ContextTheorems.ErrorsStay | baseline/src/context/context.go:536-555 | Error and cause are set together and never change again. |
| ContextTheorems.CauseExplained | baseline/src/context/context.go:277-295 | A cancelled context has the error and cause of a direct cancellation of itself or of an ancestor, unchanged on the way down. |
| ContextTheorems.ChildIsNearest | baseline/src/context/context.go:757-777 | The innermost cancelable ancestor is p if and only if the parent is p with nothing but values around it. |
| ContextTheorems.DetachedAlone | baseline/src/context/context.go:568-600 | A context whose parent is values around the background, or around one that WithoutCancel has cut off, is in no children map and is only cancelled by a call on itself. |
| ContextTheorems.TreeAtRest | baseline/src/context/context.go:462-492 | When no call is running: a cancelled context has no children and no timer, and the children of any other are exactly the uncancelled contexts made from it, with nothing but values between. |
| ContextTheorems.CancelledBelow | baseline/src/context/context.go:536-566 | When no call is running, everything below a cancelled context is cancelled, also what was created while it was being cancelled. |
| ContextTheorems.CancelReturned | baseline/src/context/context.go:536-566 | As soon as one cancel call has returned, its context and every context below it whose constructor has returned is cancelled, whatever else is running. |
| ContextTheorems.AfterFuncOnce | baseline/src/context/context.go:315-350 | Of "f was started" and "stop returned true" at most one happens to a registration, and that at most once; exactly one when it is cancelled and no call is running. |
| ContextTheorems.NoWatcher | baseline/src/context/context.go:494-515 | Among standard contexts the watcher goroutine is never needed. |
| ContextTheorems.HolderWaits | baseline/src/context/context.go:543-565 | A call that keeps a context's lock waits only for cancel calls on contexts directly below it, which are created later. |
| ContextTheorems.NoDeadlock | baseline/src/context/context.go:462-566 | In every reachable state with an unfinished call some call can move. |
| ContextProgress.MoveWorks | baseline/src/context/context.go:315-677 | Every step of every call, recursive cancellation included, makes a measure of the work left smaller. |
| ContextProgress.RunsEnd | baseline/src/context/context.go:315-677 | So without new calls no run is longer than that measure: no call goes on for ever, and none waits for ever while others move. |
| ContextProgress.AllFinish | baseline/src/context/context.go:315-677 | From every reachable state all calls run to their end. |
| ContextHistory.ContextsMade | baseline/src/context/context.go:262-275 | Contexts are those that were created, each with the kind and the parent it was created with. |
| ContextHistory.ErrorGiven | baseline/src/context/context.go:228-295 | The error and cause of a cancelled context were given to it or to one above it: Canceled with the cause of the cancel function, or with Canceled for none and for a context with a deadline; Canceled by the stop function of AfterFunc; or DeadlineExceeded with the cause of the deadline. |
| ContextHistory.DeadlineArmed | baseline/src/context/context.go:618-650 | When no call is running, the timer of every uncancelled context with a deadline can fire. |
| ContextHistory.CancelLeaves | baseline/src/context/context.go:389-403 | When a cancel call returns, be it late, the timer of a deadline is stopped, the function of AfterFunc has been started or stopped, and the context is off its parent's list, if the call was to remove it and was the first or the context is not a plain one. |
| ContextHistory.CancelWorks | baseline/src/context/context.go:228-262 | From every reachable state, cancelling a context leads, when all calls have ended, to its being cancelled with everything below it. |
| Golf.MaskRoundTrip | golf/src/runtime/mgcmark.go:54-73 | Unmasking undoes masking for every address below 2^60, leaves plain addresses alone, and exactly masked ones are skipped by the scan. |
| Golf.AllGsSnapshotSortedForGC | golf/src/runtime/mgcmark.go:99-126 | The array holds the unblocked goroutines from the left and the blocked ones, masked, from the right, and the count returned separates them. |
| Golf.SnapshotSplits | golf/src/runtime/mgcmark.go:92-126 | Each goroutine is in exactly the part its status asks for, plain in the first and masked in the second. |
| Golf.SnapshotDistinct | golf/src/runtime/mgcmark.go:92-126 | No goroutine is listed twice. |
| Golf.ValidMonotone | golf/src/runtime/mgc.go:1001-1041 | A goroutine that may be woken stays so when more is marked. |
| Golf.InvalidWaits | golf/src/runtime/mgc.go:1001-1041 | A waiting goroutine refused by stackRootValid waits for unmarked heap objects and nothing else. |
| Golf.Collector.constructor | golf/src/runtime/mgcmark.go:173-189 | The cycle starts from the sorted snapshot with nothing marked and the unblocked goroutines as roots. |
| Golf.Collector.GcDiscoverMoreStackRoots | golf/src/runtime/mgc.go:1043-1085 | The two indices meet with all wakeable goroutines left and all others right; old roots stay in place, no goroutine is lost or doubled, and the jobs counter follows. |
| Golf.Collector.GcDrain | golf/src/runtime/mgcmark.go:1392-1510 | With the program stopped: afterwards every job is done, and what is marked is contained in every closed set that holds the old marks and the valid roots' references. |
| Golf.Collector.DetectPartialDeadlocks | golf/src/runtime/mgc.go:1087-1151 | Either it finds wakeable goroutines, changes no mark and makes them roots, or exactly the remaining goroutines are reported and turned as the mode says, the names in the array unchanged. |
| Golf.Collector.ReportDeadlocks | golf/src/runtime/mgc.go:1128-1150 | The reported goroutines, and only they, become unreachable and then reclaimed, or deadlocked with their stacks kept and marked; every root is drained, and the marks are closed under reference. |
| Golf.Collector.DrainDeadlocks | golf/src/runtime/mgcmark.go:402-412 | Draining an unreachable goroutine exits it in mode 1, its stack gone; in mode 2 it becomes deadlocked and keeps what it waits for and its stack, all of which is marked. |
| Golf.Collector.GcMarkDone | golf/src/runtime/mgc.go:815-981 | With the program stopped for the whole cycle: it ends, the goroutines reported are exactly those outside the least liveness fixpoint, live ones are untouched, all others are ended in mode 1, and in mode 2 kept as they were with all that their stacks reach marked, and the program left is the one before without them. For a running program see ConcurrentMark. |
| Golf.ReportIsExact | golf/src/runtime/mgc.go:1087-1151 | Marks and roots at the end of a cycle are the least consistent pair, and the report its complement. |
| Golf.UnliveAreCut | golf/src/runtime/mgc.go:1087-1151 | Goroutines outside a consistent live set, with the unmarked objects, are cut off from everything live. |
| Golf.ReportedNeverWake | golf/src/runtime/mgc.go:1087-1151 | In every run of the program from the collection on, a reported goroutine stays blocked where it is; taking all of them away gives the same runs of the others, step for step. |
| Golf.ProgramLeft | golf/src/runtime/mgcmark.go:402-412 | In mode 1 the goroutines left are the program without the reported ones; in mode 2 those are in it, cut off and never scheduled. |
| ConcurrentMark.AsleepIsInvalid | golf/src/runtime/mgc.go:1001-1041 | For a waiting goroutine, stackRootValid refuses exactly those blocked on unmarked objects only. |
| ConcurrentMark.StepKeeps | golf/src/runtime/mbarrier.go:23-60 | Whatever the program writes, copies or spawns and the collector scans meanwhile, globals, scanned objects and scanned stacks refer only to what is marked or will be: the write barrier hides nothing. |
| ConcurrentMark.ReportIsSound | golf/src/runtime/mgc.go:815-981 | For every interleaving of program and collector: the goroutines reported at the pause never wake in any later run, and taking them away changes no run of the others. |
| ConcurrentMark.ReportIsComplete | golf/src/runtime/mgc.go:1087-1151 | For every interleaving: each goroutine that was cut off, and blocked in the snapshot, when the cycle began is reported in it. |
| ConcurrentMark.StoppedIsExact | golf/src/runtime/mgc.go:1087-1151 | If the program takes no step, the report is the greatest set of goroutines cut off. |
| ConcurrentMark.CanReport | golf/src/runtime/mgc.go:815-981 | From every state of a cycle the collector's own steps lead to a report, whatever the program has done before. |
| ConcurrentMark.SureExactly | golf/src/runtime/mgc.go:1087-1151 | From any point of a cycle, a goroutine is in every report that can follow if and only if it belongs to a set of listed goroutines cut off at that point, none of them a root, and with none of their objects marked or buffered. |
| ConcurrentMark.SureAtStart | golf/src/runtime/mgc.go:1087-1151 | When a cycle begins, the goroutines sure to be reported in it are exactly those in a set that is blocked in the snapshot and cut off. |
| ConcurrentMark.FloatingChannel | golf/src/runtime/mgc.go:869-923 | An instance of what is not sure: a run in which a goroutine cut off during the cycle is not reported in it, its channel having been marked before. |
| PartialDeadlock.CutStep | README.md:78-86 | No step of a program reconnects goroutines that are cut off. |
| PartialDeadlock.DeadForEver | README.md:78-86 | Goroutines cut off once are never woken in any run. |
| PartialDeadlock.ReclaimKeepsRuns | golf/src/runtime/mgcmark.go:237-335 | The program without them has the same runs, in both directions. |
| Html.EntityShrinks | baseline/src/html/escape.go:53-56 | No reference decodes to more bytes than it has, so that dst never passes src. |
| Html.ReadNumber | baseline/src/html/escape.go:80-109 | The digit loop gives the number of the reference in a wrapping int32, and its end behind an optional semicolon. |
| NumericReferences.NumberValue | baseline/src/html/escape.go:80-109 | That number is the positional value of the digits, modulo 2^32 as a signed word. |
| NumericReferences.DigitMeaning | baseline/src/html/escape.go:80-97 | A byte counts as digit d exactly when it is the d-th of the ten or sixteen digits, in either case. |
| NumericReferences.CharacterConforms | baseline/src/html/escape.go:80-122 | A number stands for the character the HTML standard gives it if and only if it is at most 0x10FFFF, or its remainder modulo 2^32 is zero, no scalar value or U+FFFD. |
| NumericReferences.NumericMeaning | baseline/src/html/escape.go:69-121 | For every text that begins with "&#", the decoder does what sections 13.2.5.75 to 13.2.5.80 of the HTML standard ask if and only if: without digits, it is not "&#x" or "&#X" before a semicolon; with digits, it is not a single decimal digit without a semicolon, and the number conforms. |
| NumericReferences.WrapsAround | baseline/src/html/escape.go:80-109 | "&#4294967361;" decodes to "A" where the standard has U+FFFD. |
| NumericReferences.NoDigits | baseline/src/html/escape.go:101-110 | "&#x;" decodes to U+FFFD where the standard leaves the text. |
| NumericReferences.OneDigit | baseline/src/html/escape.go:107-110 | "&#5 " stays as it is where the standard decodes it. |
| Html.ReadName | baseline/src/html/escape.go:129-141 | The name is the longest run of letters and digits, with its semicolon. |
| Html.FindPrefix | baseline/src/html/escape.go:149-159 | The longest proper prefix in the table, of at most the given length. |
| NamedReferences.LongestName | baseline/src/html/escape.go:123-163 | For every text and every table whose names without a semicolon have two to six bytes and stand for one character, the decoder takes the longest name of the table that begins the text, as section 13.2.5.73 of the HTML standard asks. |
| NamedReferences.ReferenceMeaning | baseline/src/html/escape.go:56-164 | For such a table every reference, named or numeric, is decoded as the standard asks if and only if it is not a numeric one that fails to conform. |
| Html.UnescapeNumeric | baseline/src/html/escape.go:64-125 | In place, the reference is decoded as the pure decoder does, and nothing behind src1 changes. |
| Html.UnescapeNamed | baseline/src/html/escape.go:127-163 | The same for named references, one or two characters, and for text that is none. |
| Html.UnescapeEntity | baseline/src/html/escape.go:56-164 | The same for every reference: src1 ends it, dst1 ends its text, dst1 is at most src1. |
| Html.PlainText | baseline/src/html/escape.go:187-214 | Text without an ampersand decodes to itself. |
| Html.UnescapeString | baseline/src/html/escape.go:187-214 | For every string the in-place decoder equals the pure left-to-right decoder. |
| Html.EscapedSafe | baseline/src/html/escape.go:166-180 | Escaped text has no quotes and no angle brackets, and an ampersand only where one of the five references begins. |
| Html.NothingToEscape | baseline/src/html/escape.go:174-175 | Text without the five characters is left as it is. |
| Html.EscapedByte | baseline/src/html/escape.go:166-180 | Each escaped byte decodes to itself, whatever follows. |
| Html.UnescapeEscaped | baseline/src/html/escape.go:172-186 | UnescapeString(EscapeString(s)) is s for every byte string. |
| ByteSlices.Index | baseline/src/bytes/bytes.go:1239-1324 | The first occurrence or -1, on every path: single byte, equal length, short and long separators, and the switch to brute force, wherever the thresholds lie. |
| ByteSlices.SearchOn | baseline/src/bytes/bytes.go:1263-1324 | The scanning loops never skip an occurrence. |
| ByteSlices.Count | baseline/src/bytes/bytes.go:55-72 | One less than the number of pieces, or one more than the number of runes for an empty separator. |
| ByteSlices.Explode | baseline/src/bytes/bytes.go:32-51 | The slices of the first runes, and the rest in the last. |
| ByteSlices.FlattenExploded | baseline/src/bytes/bytes.go:32-51 | The slices put together are the string, for every limit. |
| ByteSlices.ExplodedRunes | baseline/src/bytes/bytes.go:32-51 | Slice k decodes to rune k of the string and is as long as it; only the last may hold more, when there are more runes than slices asked for. |
| ByteSlices.ExplodedCount | baseline/src/bytes/bytes.go:32-51 | There are as many slices as runes, or as asked for. |
| ByteSlices.GenSplit | baseline/src/bytes/bytes.go:323-351 | The preallocated loop gives the reference pieces, with part of the separator kept, for every limit. |
| ByteSlices.SavedLimit | baseline/src/bytes/bytes.go:334-336 | There are at most as many pieces as asked for, and a limit above the length means no limit. |
| ByteSlices.PiecesAll | baseline/src/bytes/bytes.go:383-383 | A limit no piece count reaches changes nothing. |
| ByteSlices.JoinPieces | baseline/src/bytes/bytes.go:363-363 | Joining the pieces of a limited split with the separator gives the string back. |
| ByteSlices.PiecesFree | baseline/src/bytes/bytes.go:383-383 | No piece of an unlimited split contains the separator. |
| ByteSlices.SplitIsPieces | baseline/src/bytes/bytes.go:383-383 | Split is the reference split, and joining it gives the string back. |
| ByteSlices.FlattenSavedPieces | baseline/src/bytes/bytes.go:365-391 | The pieces of SplitAfter put together are the string. |
| ByteSlices.JoinLength | baseline/src/bytes/bytes.go:513-527 | The computed length is that of the result; it fails exactly when an int cannot hold the length or the separators alone reach the limit. |
| ByteSlices.Join | baseline/src/bytes/bytes.go:505-535 | Join is the reference join, the buffer filled exactly, or the overflow panic. |
| ByteSlices.ReplacedLength | baseline/src/bytes/bytes.go:1119-1121 | The preallocated length is exact for every number of replacements. |
| ByteSlices.ReplacedIsJoined | baseline/src/bytes/bytes.go:1122-1141 | Replacing k occurrences is joining the first k+1 pieces with the new text. |
| ByteSlices.Replace | baseline/src/bytes/bytes.go:1107-1141 | The result of the loop is that of the pure replacement, for an empty old too; for a nonempty one it is the join of SplitN(s, old, n+1), or of Split(s, old) for a negative n; for an empty one the join of the runes with an empty piece in front, and behind if n reaches so far. |
| ByteSlices.Repeat | baseline/src/bytes/bytes.go:575-623 | The doubling copies give count copies, whatever the chunk limit; it fails exactly for a negative count or the overflow test. |
| ByteSlices.GuardIsTight | baseline/src/bytes/bytes.go:582-587 | The overflow test refuses what an int cannot count, and beyond that only the size MaxInt/count. |
| ByteSlices.RepeatRefuses | baseline/src/bytes/bytes.go:582-587 | One byte repeated MaxInt times fits, and is refused. |
| ByteSlices.JoinRefuses | baseline/src/bytes/bytes.go:513-527 | Join refuses exactly results that an int cannot count, and separators of that one size. |
| WasmRefs.Go.constructor | baseline/misc/wasm/wasm_exec.js:471-489 | The static table, each entry with its id and an infinite count. |
| WasmRefs.Go.StoreValue | baseline/misc/wasm/wasm_exec.js:139-187 | Loading the cell written gives the value; a known value keeps its id, a new one gets an id that was not live; no live id is lost or reassigned; one reference is added. |
| WasmRefs.FlagTells | baseline/src/syscall/js/js.go:259-284 | What Value.Type reads off the cell is the type of the value stored, or the panic for a big integer. |
| WasmRefs.Go.Allocate | baseline/misc/wasm/wasm_exec.js:157-167 | A pooled id is used before a new one, and starts with one reference. |
| WasmRefs.Go.FinalizeRef | baseline/misc/wasm/wasm_exec.js:299-309 | One reference goes; the id dies exactly when it was the last, and no other changes. |
| WasmRefs.Replay | baseline/misc/wasm/wasm_exec.js:126-187 | Over every sequence of stores and releases: the references still held load the values they were stored with, in order, and the outstanding counts are exactly theirs. |
| WasmRefs.Reuse | baseline/misc/wasm/wasm_exec.js:159-165 | Taking an id from the pool keeps values and ids inverse, the pool without repetition and exactly the dead ids, and each count the number of outstanding references. |
| WasmRefs.Extend | baseline/misc/wasm/wasm_exec.js:160-165 | So does extending the table. |
| WasmRefs.Free | baseline/misc/wasm/wasm_exec.js:303-308 | So does freeing an id. |
| FunctionNames.Visitor.IncFun | tester/func.go:72-79 | Only the innermost function's literal counter grows. |
| FunctionNames.Visitor.IncGoWrap | tester/func.go:81-88 | Only the innermost function's wrapper counter grows. |
| FunctionNames.PushedPopped | tester/func.go:90-106 | A wrapper pushed and popped again leaves the stack as it was, with one more wrapper counted in the innermost function. |
| FunctionNames.Visitor.PopGowrap | tester/func.go:95-106 | A wrapper on top goes and is counted; anything else stays. |
| FunctionNames.SuffixIsName | tester/func.go:108-145 | The suffix computed from the stack is the name made of the path of enclosing functions and the kind of the innermost one. |
| FunctionNames.Visitor.VisitLiteral | tester/annotations.go:175-178 | A literal is named, walked in its own scope and counted, the stack otherwise as before. |
| FunctionNames.Visitor.VisitGoLiteral | tester/annotations.go:120-156 | A wrapped literal is named as wrapper and both counters grow. |
| FunctionNames.Visitor.VisitGoCall | tester/annotations.go:131-167 | A wrapped call consumes one wrapper number, with a name for go and none for defer. |
| FunctionNames.Visitor.Visit | tester/annotations.go:76-183 | For every tree, names and counters are those of the recursive naming, and the stack is as deep as before. |
| FunctionNames.Visitor.VisitDecl | tester/annotations.go:169-174 | Visiting a function declaration leaves the stack as it was, and the names it adds are pairwise distinct. |
| FunctionNames.NamesDiffer | tester/annotations.go:119-183 | The names given below one node are fresh: different from each other and from all given before or after at that level. |
| FunctionNames.DeclarationNamesDiffer | tester/annotations.go:169-174 | Within one declaration no two literals or wrapped calls get the same suffix. |
| FunctionNames.NamesDistinct | tester/annotations.go:119-183 | For every list of trees, the names given are pairwise distinct if and only if there is a function around them or at most one literal or wrapped go call is outermost. |
| FunctionNames.NumberedInOrder | tester/annotations.go:119-183 | Numbers are consecutive: a literal's is one more than the literals before it in its function, a wrapper's one more than the wrappers; inside a literal they begin with one below its own number. |
| FunctionTexts.SuffixIsText | tester/func.go:108-145 | The text that FunctionSuffix builds is that of the name: .funcN for the first literal, .N for those below, .gowrapN for a wrapper. |
| FunctionTexts.TextDiffers | tester/func.go:108-145 | Different names have different texts, in decimal. |
| FunctionNames.PackageLevelNames | tester/func.go:115-117 | An instance of the failing case: two literals next to each other outside a declaration. |

## Left out

- Fma.FMA: for a zero, infinite or NaN operand in x or y, or a zero z, the source computes x*y+z in hardware; that operation is a parameter. FmaZero.FiniteFMA puts two correctly rounded operations there, for finite operands; infinities and NaN stay with the parameter.
- Scaling.Ldexp: the multiplications by 2^52 and 2^-53 are floating-point operations of the machine; they are modelled as one correct rounding of the exact product.
- Floor, Ceil, Trunc, the transcendental functions and the assembly variants.
- Pipe.Conservation: calls and channels are values in a state, not objects; what a call does alone between two channel or lock operations is one step, and copying into the reader's slice is part of the hand-over.
- ContextTheorems.NoDeadlock: contexts are values in a map; storing err and closing the done channel is one step, since both happen under one lock. That every call ends is ContextProgress.RunsEnd with this lemma.
- Pipe.NobodyStuckAfterClose: says that some call can move; that all return is PipeProgress.AllReturn with PipeProgress.RunsEnd.
- Contexts that are not of this package: custom Context types, the AfterFunc method a parent may have and the watcher goroutine, which standard contexts never need (ContextTheorems.NoWatcher). Also values, deadlines as times, and String. A timer may fire at any moment, and whether a deadline has passed at creation is a choice.
- BufReader.Reader.Peek: slices that share the reader's buffer are returned as values, so that their invalidation by the next call is not modelled; likewise ReadSlice and Scanner's tokens.
- BufReader.Reader.ReadBytes: sources that return a negative or too large count, or ErrBufferFull as their own error, which make the original panic or loop.
- ReadLine, ReadRune, UnreadRune, Reset and WriteTo of bufio.Reader, and WriteRune and AvailableBuffer of bufio.Writer.
- BufReader.Reader.Read, BufScanner.Scanner.Scan, BufWriter.Writer.Write and other long methods of the source are several methods here, one for each loop or branch; the pieces have contracts of their own.
- BufScanner.Scanner.Scan: the panic over too many empty tokens is a result, which no stable split function can cause.
- Html.UnescapeString: the entity table is a parameter; its validity (Html.TableOk) asks for the three names that escaping uses and for the width bound that the source's comment claims. Unescaping for attributes, a constant that is off, is left out.
- ByteSlices.Index: the machine routines for short separators and single bytes are the specification of first occurrence; the thresholds at which the source changes its strategy are parameters.
- ByteSlices.Replace: an overflow of the preallocated length is not modelled.
- Case mapping, EqualFold, Fields, Trim and the other functions of the bytes package.
- WasmRefs.Go.StoreValue: memory cells are values that hold a number, undefined or an id with a type flag; the bits of the NaN encoding and negative zero, which is stored as zero, are left out.
- FunctionNames.Visitor.Visit: trees are reduced to what naming depends on; positions, comments and parsed expressions of an annotation are left out. Names are lists of parts; FunctionTexts has their text. Tokens are values, as no two stack entries share one.
- The rest of the tester: processes, reports, statistics.
- Golf.Collector.GcMarkDone: the heap and the goroutines are those of a program that is stopped for the whole cycle; interleaving with a running program is in ConcurrentMark, on values instead of the collector's arrays.
- Golf.Collector.GcDrain: marking is sequential and runs to its end, without preemption, assists or a write barrier; ConcurrentMark has single scanning steps and the barrier.
- Golf.ReportedNeverWake: speaks of the state at the collection; ConcurrentMark.ReportIsSound has the program at the pause, and Golf.ProgramLeft what is left of it.
- ConcurrentMark.ReportIsSound: scanning one stack or one object is one step, memory is sequentially consistent, and finalizers, tracing and printing are not modelled. The barrier may shade anything between what the pseudocode of mbarrier.go asks for and both pointers whatever the colour of the stack, as the implementation does.
- PartialDeadlock.CutStep: waking a goroutine is one step in which the waker still holds the object. notifyListNotifyAll (golf/src/runtime/sema.go:719) takes the list of waiters off the notifier first and readies them later; the time between is not modelled.
- Golf.Collector.DrainDeadlocks: the exit of a reclaimed goroutine takes its stack and its status away; unlinking it from semaphore and notification queues is left out.
- The regular collection cycle with detection switched off, and the pacing of the collector.
