/**
 * AteRecordReader: turns the byte range [start, end) of a larger stream into
 * (offset, line) records, so that across adjacent splits every line is emitted by
 * exactly one reader. The reader is an immutable state; `Next` is the state
 * transition of one `next(key, value)` call.
 */
module RecordReader {
  import opened Primitives
  import opened Scanner

  /** The UTF-8 byte-order mark (section 6 of RFC 3629). */
  const BOM: seq<bv8> := [0xEF, 0xBB, 0xBF]

  /**
   * The state of one reader.
   * - `pos` is the logical offset of the next unread byte, `start` and `end` bound the split;
   * - `origin` is the logical offset of the first byte of the stream the scanner reads:
   *   0 for an uncompressed file (it is seeked to the split start), the split start for a
   *   compressed file (which is not seeked), the given offset for a reader built on a stream;
   * - `hasHandle` says a file handle is kept for position queries (`filePosition`);
   * - `needMore` is the scanner's needAdditionalRecordAfterSplit flag after the latest read.
   */
  datatype Reader = Reader(
    start: nat, pos: nat, end: int, maxLineLength: Int32,
    compressed: bool, hasHandle: bool, origin: nat, needMore: bool)
  {
    predicate Valid() {
      origin <= pos
    }

    /** Offset of `pos` in the scanner's stream. */
    function Offset(): nat
      requires Valid()
    {
      pos - origin
    }
  }

  /** One emitted record: the key (offset of the record's first byte) and the value. */
  datatype Entry = Entry(key: nat, value: seq<bv8>)

  /** What one `next` call does: no record (false), or a record with its key and value. */
  datatype Outcome =
    | Done(reader: Reader)
    | Record(reader: Reader, key: nat, value: seq<bv8>)

  /** One read inside `next`: the size checked against the line cap, the value, the new state. */
  datatype Read = Read(size: int, value: seq<bv8>, after: Reader)

  /** The first three bytes of `v` are the byte-order mark. */
  predicate HasBom(v: seq<bv8>) {
    |v| >= 3 && v[0] == 0xEF && v[1] == 0xBB && v[2] == 0xBF
  }

  /** The stream holds the byte-order mark at `offset`. */
  predicate StartsWithBom(s: seq<bv8>, offset: nat) {
    offset + 3 <= |s| && s[offset..offset + 3] == BOM
  }

  /**
   * maxBytesToConsume(p): how far one read starting at `p` may go. Unbounded for
   * compressed input; otherwise enough to reach `end`, never less than one full
   * line and never more than Integer.MAX_VALUE, so the narrowing to `int` loses nothing.
   */
  function MaxBytesToConsume(r: Reader, p: int): (b: Int32)
    ensures r.compressed ==> b == MAX_INT
    ensures !r.compressed ==> r.maxLineLength <= b
    ensures !r.compressed ==> r.end - p <= b || b == MAX_INT
    ensures !r.compressed && b == MAX_INT ==> MAX_INT <= r.end - p || r.maxLineLength == MAX_INT
    ensures !r.compressed ==> b == r.maxLineLength || b == r.end - p || b == MAX_INT
  {
    if r.compressed then MAX_INT else Max(Min(MAX_INT, r.end - p), r.maxLineLength)
  }

  /** The line cap of the first read: three more bytes for a byte-order mark, within `int`. */
  function BomCap(m: Int32): (c: Int32)
    ensures m <= c <= m + 3
    ensures c == m + 3 || c == MAX_INT
  {
    Min(3 + m, MAX_INT)
  }

  /**
   * The constructor on a file split: starts at the split, and unless the split
   * begins the stream, throws away the first (partial) record with one read.
   */
  function OpenSplit(s: seq<bv8>, start: nat, length: nat, maxLineLength: Int32,
                     compressed: bool, scan: LineScanner): (r: Reader)
    requires Sound(scan)
    ensures r.Valid() && r.hasHandle && r.start == r.pos
    ensures r.end == start + length && r.maxLineLength == maxLineLength
    ensures r.compressed == compressed && r.origin == (if compressed then start else 0)
    ensures start == 0 ==> r.pos == 0 && !r.needMore
    ensures start != 0 ==> start <= r.pos && r.pos - start <= Remaining(s, start - r.origin)
    ensures start != 0 ==> (r.pos == start <==> start - r.origin >= |s|)
    ensures start != 0 ==>
              var sc := scan(s, start - r.origin, 0, MaxBytesToConsume(r, start));
              r.pos == start + sc.consumed && r.needMore == sc.needMore
  {
    var origin := if compressed then start else 0;
    var r0 := Reader(start, start, start + length, maxLineLength, compressed, true, origin, false);
    if start == 0 then r0
    else
      var sc := scan(s, start - origin, 0, MaxBytesToConsume(r0, start));
      r0.(start := start + sc.consumed, pos := start + sc.consumed, needMore := sc.needMore)
  }

  /**
   * The constructors on an input stream: the stream is read from its current
   * position, which is labelled `offset`; nothing is read or discarded.
   */
  function OpenStream(offset: nat, endOffset: int, maxLineLength: Int32): (r: Reader)
    ensures r.Valid() && r.Offset() == 0
    ensures r.start == r.pos == offset && r.end == endOffset && r.maxLineLength == maxLineLength
    ensures !r.compressed && !r.hasHandle && !r.needMore
  {
    Reader(offset, offset, endOffset, maxLineLength, false, false, offset, false)
  }

  /**
   * getFilePosition: the position the loop in `next` and the progress report use.
   * For compressed input with a file handle it is the handle's own position,
   * `filePos` of the decompressed bytes read so far; otherwise it is `pos`.
   */
  function FilePosition(r: Reader, filePos: nat -> int): (p: int)
    requires r.Valid()
    ensures !(r.compressed && r.hasHandle) ==> p == r.pos
    ensures r.compressed && r.hasHandle ==> p == filePos(r.Offset())
  {
    if r.compressed && r.hasHandle then filePos(r.Offset()) else r.pos
  }

  /**
   * The numerator of getProgress: how far the position the loop tests has moved
   * past the split start (the float division by `end - start` is not modelled).
   */
  function ProgressNumerator(r: Reader, filePos: nat -> int): (n: int)
    requires r.Valid()
    ensures !(r.compressed && r.hasHandle) ==> n == r.pos - r.start
  {
    FilePosition(r, filePos) - r.start
  }

  /** getPos */
  function GetPos(r: Reader): nat {
    r.pos
  }

  /** The condition of the loop in `next`. */
  predicate Guard(r: Reader, filePos: nat -> int)
    requires r.Valid()
  {
    FilePosition(r, filePos) <= r.end || r.needMore
  }

  /**
   * skipUtfByteOrderMark: the first read, with a line cap three bytes larger.
   * `pos` advances by everything consumed; a leading byte-order mark is removed
   * from the value and from the size that is checked against the line cap.
   */
  function SkipBom(s: seq<bv8>, r: Reader, scan: LineScanner): (rd: Read)
    requires r.Valid() && Sound(scan)
    ensures var sc := scan(s, r.Offset(), BomCap(r.maxLineLength), MaxBytesToConsume(r, r.pos));
            && rd.after == r.(pos := r.pos + sc.consumed, needMore := sc.needMore)
            && (HasBom(sc.record) <==> |sc.record| >= 3 && StartsWithBom(s, r.Offset()))
            && (HasBom(sc.record) ==> sc.record == BOM + rd.value && rd.size == sc.consumed - 3)
            && (!HasBom(sc.record) ==> rd.value == sc.record && rd.size == sc.consumed)
  {
    var sc := scan(s, r.Offset(), BomCap(r.maxLineLength), MaxBytesToConsume(r, r.pos));
    var after := r.(pos := r.pos + sc.consumed, needMore := sc.needMore);
    assert |sc.record| >= 3 ==> sc.record[..3] == s[r.Offset()..r.Offset() + 3];
    if HasBom(sc.record) then
      assert sc.record == BOM + sc.record[3..];
      Read(sc.consumed - 3, sc.record[3..], after)
    else
      Read(sc.consumed, sc.record, after)
  }

  /**
   * The read made by one iteration of the loop in `next`: the byte-order-mark read
   * when `pos` is 0, a plain read with the configured line cap otherwise.
   */
  function ReadRecord(s: seq<bv8>, r: Reader, scan: LineScanner): (rd: Read)
    requires r.Valid() && Sound(scan)
    ensures rd.after == r.(pos := rd.after.pos, needMore := rd.after.needMore)
    ensures r.pos <= rd.after.pos && rd.after.pos - r.pos <= Remaining(s, r.Offset())
    ensures rd.after.pos == r.pos <==> r.Offset() >= |s|
    ensures |rd.value| <= rd.size <= rd.after.pos - r.pos
    ensures r.pos != 0 ==> rd.size == rd.after.pos - r.pos && Verbatim(s, r.Offset(), rd.value)
    ensures r.pos != 0 && r.maxLineLength >= 0 ==> |rd.value| <= r.maxLineLength
    ensures r.pos == 0 ==>
              || (Verbatim(s, 0, rd.value) && rd.size == rd.after.pos)
              || (StartsWithBom(s, 0) && Verbatim(s, 3, rd.value) && rd.size == rd.after.pos - 3)
    ensures rd.size == 0 ==> rd.after.Offset() >= |s| || (rd.after.pos == 3 && StartsWithBom(s, 0))
    ensures r.pos != 0 ==>
              var sc := scan(s, r.Offset(), r.maxLineLength, MaxBytesToConsume(r, r.pos));
              && rd.after.pos == r.pos + sc.consumed && rd.after.needMore == sc.needMore
              && rd.value == sc.record && rd.size == sc.consumed
    ensures r.pos == 0 ==> rd == SkipBom(s, r, scan)
  {
    if r.pos == 0 then
      SkipBom(s, r, scan)
    else
      var sc := scan(s, r.Offset(), r.maxLineLength, MaxBytesToConsume(r, r.pos));
      Read(sc.consumed, sc.record, r.(pos := r.pos + sc.consumed, needMore := sc.needMore))
  }

  /**
   * next(key, value). Reads while the position is at most `end` or the scanner
   * reports a pending overrun; a read that consumes nothing ends the split, an
   * oversized line is skipped and the loop retries, any other line is returned
   * with the position it started at as its key.
   */
  function Next(s: seq<bv8>, r: Reader, scan: LineScanner, filePos: nat -> int): (out: Outcome)
    requires r.Valid() && Sound(scan)
    ensures out.reader == r.(pos := out.reader.pos, needMore := out.reader.needMore)
    ensures r.pos <= out.reader.pos
    ensures !Guard(r, filePos) ==> out == Done(r)
    ensures out.Record? ==> r.pos <= out.key < out.reader.pos <= r.origin + |s|
    ensures out.Record? ==> |out.value| < r.maxLineLength
    ensures out.Record? && out.key != 0 ==> out.reader.pos - out.key < r.maxLineLength
    decreases Remaining(s, r.Offset())
  {
    if !Guard(r, filePos) then Done(r)
    else
      var rd := ReadRecord(s, r, scan);
      if rd.size == 0 then Done(rd.after)
      else if rd.size < r.maxLineLength then Record(rd.after, r.pos, rd.value)
      else Next(s, rd.after, scan, filePos)
  }

  /**
   * A record whose key is not 0 holds exactly the stream bytes at its key: only the
   * record at offset 0 can have had a byte-order mark removed.
   */
  predicate FromStream(s: seq<bv8>, origin: nat, e: Entry) {
    e.key != 0 ==> origin <= e.key && Verbatim(s, e.key - origin, e.value)
  }

  /** The value of one read is the stream's bytes at the position read, less a removed mark. */
  lemma ReadFromStream(s: seq<bv8>, r: Reader, scan: LineScanner)
    requires r.Valid() && Sound(scan)
    ensures var rd := ReadRecord(s, r, scan);
            && FromStream(s, r.origin, Entry(r.pos, rd.value))
            && (r.pos == 0 ==> Verbatim(s, 0, rd.value) || (StartsWithBom(s, 0) && Verbatim(s, 3, rd.value)))
  {
  }

  /**
   * The value `next` returns is the stream's own bytes at its key, except that the
   * record at offset 0 may have had a byte-order mark removed from its front.
   */
  lemma {:induction false} NextFromStream(s: seq<bv8>, r: Reader, scan: LineScanner, filePos: nat -> int)
    requires r.Valid() && Sound(scan)
    ensures var out := Next(s, r, scan, filePos);
            out.Record? ==>
              && FromStream(s, r.origin, Entry(out.key, out.value))
              && (out.key == 0 ==> Verbatim(s, 0, out.value) || (StartsWithBom(s, 0) && Verbatim(s, 3, out.value)))
    decreases Remaining(s, r.Offset())
  {
    if Guard(r, filePos) {
      var rd := ReadRecord(s, r, scan);
      if rd.size != 0 && rd.size >= r.maxLineLength {
        NextFromStream(s, rd.after, scan, filePos);
      } else {
        ReadFromStream(s, r, scan);
      }
    }
  }

  /**
   * Why `next` returns false: the loop condition failed, the stream is exhausted,
   * or the stream's first read found nothing but a byte-order mark.
   */
  lemma {:induction false} NextDone(s: seq<bv8>, r: Reader, scan: LineScanner, filePos: nat -> int)
    requires r.Valid() && Sound(scan)
    ensures var out := Next(s, r, scan, filePos);
            out.Done? ==>
              || !Guard(out.reader, filePos)
              || out.reader.Offset() >= |s|
              || (out.reader.pos == 3 && StartsWithBom(s, 0))
    decreases Remaining(s, r.Offset())
  {
    if Guard(r, filePos) {
      var rd := ReadRecord(s, r, scan);
      if rd.size != 0 && rd.size >= r.maxLineLength {
        NextDone(s, rd.after, scan, filePos);
      }
    }
  }

  /**
   * Once the stream is exhausted `next` keeps returning false: a read there consumes
   * nothing, so the position stays put.
   */
  lemma ExhaustedStaysDone(s: seq<bv8>, r: Reader, scan: LineScanner, filePos: nat -> int)
    requires r.Valid() && Sound(scan) && r.Offset() >= |s|
    ensures Next(s, r, scan, filePos).Done? && Next(s, r, scan, filePos).reader.pos == r.pos
  {
  }

  /**
   * Reading one line past the end: for a reader whose loop position is `pos`, a
   * position at most `end` (the record starting exactly at `end` included) is read
   * as long as the stream has bytes there; so is any position while the scanner
   * reports a pending record after the split.
   */
  lemma ReadsThroughEnd(s: seq<bv8>, r: Reader, scan: LineScanner, filePos: nat -> int)
    requires r.Valid() && Sound(scan) && r.Offset() < |s|
    requires (r.pos <= r.end && !(r.compressed && r.hasHandle)) || r.needMore
    ensures r.pos < Next(s, r, scan, filePos).reader.pos
  {
  }

  /** For a reader without a compressed file handle, getPos is the position the loop in `next` tests. */
  lemma GetPosIsLoopPosition(r: Reader, filePos: nat -> int)
    requires r.Valid() && !(r.compressed && r.hasHandle)
    ensures GetPos(r) == FilePosition(r, filePos)
  {
  }

  /** Record keys strictly increase: no record is emitted twice, none out of order. */
  predicate Increasing(es: seq<Entry>) {
    forall i, j :: 0 <= i < j < |es| ==> es[i].key < es[j].key
  }

  /** Every key of `es` lies in [lo, hi). */
  predicate KeysIn(es: seq<Entry>, lo: int, hi: int) {
    forall i :: 0 <= i < |es| ==> lo <= es[i].key < hi
  }

  /** Every value of `es` is shorter than `m` bytes. */
  predicate ValuesBelow(es: seq<Entry>, m: int) {
    forall i :: 0 <= i < |es| ==> |es[i].value| < m
  }

  /** All records a reader emits from state `r` on, by calling `next` until it returns false. */
  function Run(s: seq<bv8>, r: Reader, scan: LineScanner, filePos: nat -> int): seq<Entry>
    requires r.Valid() && Sound(scan)
    decreases Remaining(s, r.Offset())
  {
    var o := Next(s, r, scan, filePos);
    if o.Done? then []
    else [Entry(o.key, o.value)] + Run(s, o.reader, scan, filePos)
  }

  /** Putting a record with a smaller key in front of increasing records keeps them increasing. */
  lemma ConsKeys(e: Entry, rest: seq<Entry>, lo: int, mid: int, hi: int, m: int)
    requires lo <= e.key < mid && e.key < hi && |e.value| < m
    requires KeysIn(rest, mid, hi) && Increasing(rest) && ValuesBelow(rest, m)
    ensures KeysIn([e] + rest, lo, hi) && Increasing([e] + rest) && ValuesBelow([e] + rest, m)
  {
    var out := [e] + rest;
    forall i | 0 < i < |out|
      ensures out[i] == rest[i - 1]
    {
    }
  }

  /**
   * The records a reader emits have keys from its position up to the end of the
   * stream, in strictly increasing order, and values below the line cap.
   */
  lemma {:induction false} RunKeys(s: seq<bv8>, r: Reader, scan: LineScanner, filePos: nat -> int)
    requires r.Valid() && Sound(scan)
    ensures var out := Run(s, r, scan, filePos);
            KeysIn(out, r.pos, r.origin + |s|) && Increasing(out) && ValuesBelow(out, r.maxLineLength)
    decreases Remaining(s, r.Offset())
  {
    var o := Next(s, r, scan, filePos);
    if o.Record? {
      var e, rest := Entry(o.key, o.value), Run(s, o.reader, scan, filePos);
      assert KeysIn(rest, o.reader.pos, r.origin + |s|) && Increasing(rest)
          && ValuesBelow(rest, r.maxLineLength) by {
        RunKeys(s, o.reader, scan, filePos);
      }
      ConsKeys(e, rest, r.pos, o.reader.pos, r.origin + |s|, r.maxLineLength);
      assert Run(s, r, scan, filePos) == [e] + rest;
    }
  }

  /** Every record of `es` passes `FromStream`. */
  predicate AllFromStream(s: seq<bv8>, origin: nat, es: seq<Entry>) {
    forall i :: 0 <= i < |es| ==> FromStream(s, origin, es[i])
  }

  /** Putting a record of the stream in front of records of the stream. */
  lemma ConsFromStream(s: seq<bv8>, origin: nat, e: Entry, rest: seq<Entry>)
    requires FromStream(s, origin, e) && AllFromStream(s, origin, rest)
    ensures AllFromStream(s, origin, [e] + rest)
  {
    var out := [e] + rest;
    forall i | 0 < i < |out|
      ensures out[i] == rest[i - 1]
    {
    }
  }

  /** Only the record at offset 0 can differ from the stream bytes at its key. */
  lemma {:induction false} RunFromStream(s: seq<bv8>, r: Reader, scan: LineScanner, filePos: nat -> int)
    requires r.Valid() && Sound(scan)
    ensures AllFromStream(s, r.origin, Run(s, r, scan, filePos))
    decreases Remaining(s, r.Offset())
  {
    var o := Next(s, r, scan, filePos);
    if o.Record? {
      var e, rest := Entry(o.key, o.value), Run(s, o.reader, scan, filePos);
      assert AllFromStream(s, r.origin, rest) by {
        RunFromStream(s, o.reader, scan, filePos);
      }
      assert FromStream(s, r.origin, e) by {
        NextFromStream(s, r, scan, filePos);
      }
      ConsFromStream(s, r.origin, e, rest);
      assert Run(s, r, scan, filePos) == [e] + rest;
    }
  }
}
