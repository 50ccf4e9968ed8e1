# AteRecordReader in Dafny

A model of the split-boundary record reader `AteRecordReader` (ate-inputformat, a
Hadoop input format). A reader gets one byte range `[start, end)` of a larger stream.
It turns that range into `(offset, line)` records so that, across adjacent splits,
every line of the stream is emitted exactly once.

The model covers:

- the split constructor. Unless the split begins the stream, it discards the first
  (partial) line with one read.
- the stream constructors.
- `maxBytesToConsume`, `getFilePosition`, `skipUtfByteOrderMark`, `next` and `getPos`.
- the numerator of `getProgress`.

Files:

- `primitives.dfy`: Java `int` as the subset type `Int32`, with `Min` and `Max`.
- `scanner.dfy`: the line scanner `AteLineReader`. Its source is not part of this
  model. It is a function value `LineScanner`, and the predicate `Sound` is the
  contract the reader relies on. That contract is an assumption: a scan consumes
  nothing exactly at the end of the stream, never more than what is left, and
  delivers at most the line cap and only the stream's own bytes.
- `newline_scanner.dfy`: a concrete scanner for records ended by one `'\n'`. It is
  an ASSUMPTION about the scanner, which this model does not cover, used only for the end-to-end theorems.
  `LineScanSound` proves that it meets `Sound`.
- `record_reader.dfy`: the reader. `Reader` is an immutable state. `Next` is the
  state transition of one `next(key, value)` call: a recursive function, one level
  per skipped oversized line, that terminates on the bytes left in the stream.
  `Run` is everything a reader emits before `next` first returns false.
- `splits.dfy`: the split protocol with the newline scanner.
  - `Lines` is an independent, line-by-line description of what a reader owns.
  - `RunIsLines` and `EmittedIsOwned` prove that the reader emits exactly that.
  - `OwnedAtCut` and `PartitionEmitsOnce` prove that adjacent splits emit each line
    once, in order.
  - These end-to-end theorems cover uncompressed splits only: `SplitReader` fixes
    `compressed := false`, and `NextIsNextLine` requires `origin == 0` and an uncompressed reader. Compressed
    input is covered by the reader's own contracts in `record_reader.dfy`.

Positions are unbounded naturals. A compressed file's position is the parameter
`filePos`: a function of the decompressed bytes read so far.

Three behaviours of the code that a reader might not expect:

- **Compressed splits.** The code does not seek a compressed stream. When such a
  split begins anywhere but offset 0, the discard read takes the first line of the
  decompressed stream, and positions count from `start`. The field `origin` models
  that.
- **Owning the boundary record.** A split owns the records that start in
  `(start, end]`; the split at offset 0 also owns its first record. A record that
  crosses `end` is read whole by the split it starts in. The line that starts
  exactly at `end` belongs to the left split, and the right split discards it
  (`Owns`, `OwnedRecords`).
- **Key of the first record.** The key of the stream's first record is 0 even when a
  byte-order mark was removed from it (`BomScenarios`).

## Model

| member | source | states |
|---|---|---|
| RecordReader.MaxBytesToConsume | src/main/java/fr/ibp/hadoop/mapred/AteRecordReader.java:152-155 | Integer.MAX_VALUE for compressed input. Otherwise the result is never below maxLineLength, and it covers `end - pos` unless clamped at Integer.MAX_VALUE, also when pos is past end. It is one of the three candidates, and the cast to int loses nothing. |
| RecordReader.BomCap | src/main/java/fr/ibp/hadoop/mapred/AteRecordReader.java:171 | The first read's line cap is maxLineLength plus 3, clamped at Integer.MAX_VALUE, and never below maxLineLength. |
| RecordReader.OpenSplit | src/main/java/fr/ibp/hadoop/mapred/AteRecordReader.java:80-110 | A split at 0 starts with pos 0 and reads nothing. Any other split makes exactly one read, with line cap 0 and budget maxBytesToConsume(start); afterwards start and pos both equal the split start plus the bytes consumed. end is start plus length; a compressed stream is read from its beginning. |
| RecordReader.OpenStream | src/main/java/fr/ibp/hadoop/mapred/AteRecordReader.java:112-138 | The stream constructors set start and pos to the given offset and end to endOffset, keep no file handle, and read nothing. |
| Splits.StreamReaderEmits | src/main/java/fr/ibp/hadoop/mapred/AteRecordReader.java:112-123 | A reader built on a stream at offset 0 emits exactly the line-by-line description from 0 to endOffset. |
| RecordReader.FilePosition | src/main/java/fr/ibp/hadoop/mapred/AteRecordReader.java:157-165 | For compressed input with a file handle, the position the loop tests is the handle's position after the decompressed bytes read so far (`filePos`); otherwise it is pos. |
| RecordReader.ProgressNumerator | src/main/java/fr/ibp/hadoop/mapred/AteRecordReader.java:236 | For uncompressed input the numerator of the progress fraction is pos - start. |
| RecordReader.SkipBom | src/main/java/fr/ibp/hadoop/mapred/AteRecordReader.java:167-197 | pos advances by everything consumed, the mark included. A mark is found exactly when the record has at least 3 bytes and the stream holds EF BB BF there. Then the value is the record without those 3 bytes and the size is the bytes consumed minus 3; otherwise value and size are unchanged. |
| RecordReader.ReadRecord | src/main/java/fr/ibp/hadoop/mapred/AteRecordReader.java:207-213 | A read never moves pos back, and moves it exactly when bytes remain. Away from pos 0, size is the bytes consumed, the value is the stream's bytes there and fits the cap. At pos 0 the value is the stream's bytes either from 0 or after a mark at 0. Size is 0 only at the end of the stream or after a first line holding only a mark. Away from pos 0 the read is one scanner call with line cap maxLineLength and budget maxBytesToConsume(pos): pos moves by the bytes consumed, and the value, size and overrun flag are the scanner's. At pos 0 the read is skipUtfByteOrderMark. |
| RecordReader.Next | src/main/java/fr/ibp/hadoop/mapred/AteRecordReader.java:200-227 | When the loop condition fails, next returns false and changes nothing. A returned key lies between the old pos and the new pos, inside the stream. A returned value is shorter than maxLineLength; a record not at 0 consumed fewer than maxLineLength bytes. Only pos and the overrun flag change, pos never decreases, and the loop terminates. |
| RecordReader.NextDone | src/main/java/fr/ibp/hadoop/mapred/AteRecordReader.java:215-226 | next returns false only when the loop condition fails, the stream is exhausted, or the first read found nothing but a byte-order mark. |
| RecordReader.NextFromStream | src/main/java/fr/ibp/hadoop/mapred/AteRecordReader.java:205-213 | A record's value is the stream's bytes at its key. Only the record at key 0 may have had a byte-order mark removed; no other read strips a mark. |
| RecordReader.ExhaustedStaysDone | src/main/java/fr/ibp/hadoop/mapred/AteRecordReader.java:204-217 | Once the stream is exhausted, next returns false and pos stays put. |
| RecordReader.ReadsThroughEnd | src/main/java/fr/ibp/hadoop/mapred/AteRecordReader.java:202-204 | While pos is at most end (uncompressed input) or the scanner reports a pending record, and bytes remain, next reads. So the record that starts exactly at end is still read. |
| RecordReader.GetPosIsLoopPosition | src/main/java/fr/ibp/hadoop/mapred/AteRecordReader.java:240-242 | For input without a compressed file handle, getPos is the position that the loop in next tests. |
| RecordReader.RunKeys | src/main/java/fr/ibp/hadoop/mapred/AteRecordReader.java:204-205 | Successive next calls emit strictly increasing keys, from the starting pos to the end of the stream, with values shorter than maxLineLength. |
| RecordReader.RunFromStream | src/main/java/fr/ibp/hadoop/mapred/AteRecordReader.java:208-213 | Every emitted record with a nonzero key holds exactly the stream's bytes at that key. |
| NewlineScanner.LineScanSound | src/main/java/fr/ibp/hadoop/mapred/AteRecordReader.java:211 | The '\n' scanner meets the contract the reader assumes of readLine. |
| Splits.LineReadFacts | src/main/java/fr/ibp/hadoop/mapred/AteRecordReader.java:207-213 | With the '\n' scanner, one read moves pos to the start of the next line. It yields the line's record exactly when 0 < size < maxLineLength. |
| Splits.NextIsNextLine | src/main/java/fr/ibp/hadoop/mapred/AteRecordReader.java:204-224 | One next call emits exactly the first record of the line-by-line description and resumes at the rest of it, skipping oversized lines. |
| Splits.RunIsLines | src/main/java/fr/ibp/hadoop/mapred/AteRecordReader.java:200-227 | A reader emits exactly the line-by-line description from its pos to its end. |
| Splits.DoneIsFinal | src/main/java/fr/ibp/hadoop/mapred/AteRecordReader.java:215-226 | Once next returns false, calling it again returns false and leaves the reader, and so getPos, unchanged. |
| Splits.SplitReaderStart | src/main/java/fr/ibp/hadoop/mapred/AteRecordReader.java:103-109 | The split constructor leaves pos at 0 for the first split, and otherwise at the start of the line after the one holding start. |
| Splits.EmittedIsOwned | src/main/java/fr/ibp/hadoop/mapred/AteRecordReader.java:103-109 | The reader of a split emits exactly the records of the lines the split owns. |
| Splits.OwnedRecords | src/main/java/fr/ibp/hadoop/mapred/AteRecordReader.java:202-224 | A split owns only records of lines that start in (start, end], or at 0 for the first split, in increasing order. Each is the record the line itself gives: the whole line, within the line cap, so an oversized line is never owned. |
| Splits.OwnedComplete | src/main/java/fr/ibp/hadoop/mapred/AteRecordReader.java:202-204 | Every line that starts in a split's window and fits the cap is among the records the split owns. |
| Splits.OwnedAtCut | src/main/java/fr/ibp/hadoop/mapred/AteRecordReader.java:103-105 | Two adjacent splits together own exactly what their union owns, in order, when the cut is not at offset 0. |
| Splits.PartitionEmitsOnce | src/main/java/fr/ibp/hadoop/mapred/AteRecordReader.java:202-203 | The readers of any number of adjacent splits together emit exactly the records the whole range owns, each once, in order. |
| Splits.LineRecordIsLine | src/main/java/fr/ibp/hadoop/mapred/AteRecordReader.java:218-220 | Away from 0, a line is returned whole, without its '\n', exactly when the line and its '\n' are shorter than maxLineLength. |
| Splits.LineRecordAtStart | src/main/java/fr/ibp/hadoop/mapred/AteRecordReader.java:179-197 | The first line is returned without a leading mark, and the mark's 3 bytes do not count against the cap. |
| Splits.BoundaryLeftSplit | src/main/java/fr/ibp/hadoop/mapred/AteRecordReader.java:103-109 | For "aaa\nbbb\nccc\n" cut at 5, the first split reads past its end and owns "aaa" and "bbb". |
| Splits.BoundaryRightSplit | src/main/java/fr/ibp/hadoop/mapred/AteRecordReader.java:103-109 | For the same cut, the second split skips the partial line at 5 and owns only "ccc". |
| Splits.TwoSplitsAtZero | src/main/java/fr/ibp/hadoop/mapred/AteRecordReader.java:103-109 | Two splits that both begin at offset 0 skip the discard read, so together they emit what each owns, one after the other. |
| Splits.EmptyFirstSplitDuplicates | src/main/java/fr/ibp/hadoop/mapred/AteRecordReader.java:103-109 | For any stream whose first line yields a record, an empty split at 0 followed by any split at 0 emits that record twice, because the empty split still reads the line at its end. |
| Splits.AbcEmptySplit | src/main/java/fr/ibp/hadoop/mapred/AteRecordReader.java:103-109 | An empty split at 0 of "aaa\nbbb\nccc\n" still owns the record of "aaa". |
| Splits.AbcWholeStream | src/main/java/fr/ibp/hadoop/mapred/AteRecordReader.java:202-224 | The whole of "aaa\nbbb\nccc\n" as one split owns all three lines, in order. |
| Splits.BomScenarios | src/main/java/fr/ibp/hadoop/mapred/AteRecordReader.java:182-195 | For a stream starting with EF BB BF, the first record is the line without the mark, under a cap of 3. A stream that is only the mark has no record. |
| Splits.OversizedScenario | src/main/java/fr/ibp/hadoop/mapred/AteRecordReader.java:218-223 | For "a\nbbbbb\nc\n" with a cap of 4, the split owns "a" and "c": the long line is skipped and scanning resumes after it. |

## Left out

- Hadoop plumbing is left out: opening the file, seeking, the codec factory and decompressor pool (lines 85-101), and `close` (lines 244-255). These are I/O and foreign calls. For an uncompressed split the stream `s` is the whole file (`origin` 0), and `seek(start)` becomes the scanner reading `s` at offset `start`.
- A compressed file handle's position (`filePosition.getPos()`, line 160) belongs to foreign code. It is the parameter `filePos`.
- `getProgress` (lines 232-238) divides in floating point. Only its numerator is modelled (`ProgressNumerator`); the clamping, the `start == end` case and its monotonicity are not stated.
- AteLineReader is not part of this model. The reader's operations assume only `Sound`. The '\n' instance:
  - ignores the byte budget;
  - does not handle `\r`, `\r\n` or custom multi-byte delimiters;
  - never reports a pending record after the split (needAdditionalRecordAfterSplit).
- The end-to-end theorems in `splits.dfy` therefore hold for that instance only.
- The configuration lookup of maxLineLength (lines 81-82, 131-132) is a lookup in foreign code. maxLineLength is a parameter.
- The deprecated `LineReader` wrapper (lines 49-74), `createKey`/`createValue` (lines 140-146), `synchronized` and the `LOG.info` calls (lines 185, 223) are glue and logging.
- Positions are Java `long` values. They are unbounded here: 64-bit overflow is not modelled.
- `readLine` returns an `int`. The model's consumed count is a natural number, so `LineRecordAtStart` requires the first line to be at most Integer.MAX_VALUE bytes.
- I/O failures are not modelled. In the code, `readLine` and `getFilePosition` can throw `IOException` (lines 157, 172, 200, 204, 211), and `next` propagates it instead of returning false. The model's scanner is total, so a read always completes, and `Next` always ends in `Done` or `Record`.
- When next returns false, Java has still set `key` to pos and may have filled `value`. A `Done` outcome carries neither.
- Next: states bounds on the key (between the position before the call and the one after it, and within one line cap of the new position for keys other than 0) instead of naming the position before the last read, because skipped oversized lines make that position an intermediate state.
- PartitionEmitsOnce: requires that only the first split begins at offset 0. Two splits that both begin the stream would both read its first line, as `EmptyFirstSplitDuplicates` shows for an empty split at 0 followed by any split at 0.
- Splits.DoneIsFinal: proved for the '\n' instance only. Under the weaker assumed contract, a first read holding only a byte-order mark that stops before the end of the stream could be followed by further records.
