/**
 * End-to-end properties of the split protocol when the scanner is the newline
 * scanner (an assumption about AteLineReader, see NewlineScanner): which records
 * the reader of a split owns, and that cutting a range of the stream into adjacent
 * splits emits every record exactly once, in order.
 */
module Splits {
  import opened Primitives
  import opened Scanner
  import opened NewlineScanner
  import opened RecordReader

  /** A file-handle position; readers of uncompressed input never consult it. */
  function NoFilePos(consumed: nat): int {
    consumed
  }

  /** A line of the stream begins at offset `k`. */
  predicate IsLineStart(s: seq<bv8>, k: nat) {
    k == 0 || (k <= |s| && s[k - 1] == NL)
  }

  /**
   * The reader of split [start, start + length) is responsible for the record that
   * starts at `k`: the split's first record belongs to the previous split unless
   * the split begins the stream, and the record starting exactly at the end is its own.
   */
  predicate Owns(start: nat, length: nat, k: nat) {
    (start == 0 || start < k) && k <= start + length
  }

  /** One read with the newline scanner. */
  function LineRead(s: seq<bv8>, r: Reader): Read
    requires r.Valid()
  {
    LineScanSound();
    ReadRecord(s, r, LineScan)
  }

  /** next() with the newline scanner. */
  function LineNext(s: seq<bv8>, r: Reader): Outcome
    requires r.Valid()
  {
    LineScanSound();
    Next(s, r, LineScan, NoFilePos)
  }

  /** Everything a reader emits with the newline scanner. */
  function LineRun(s: seq<bv8>, r: Reader): seq<Entry>
    requires r.Valid()
  {
    LineScanSound();
    Run(s, r, LineScan, NoFilePos)
  }

  /** The reader on the uncompressed split [start, start + length), once constructed. */
  function SplitReader(s: seq<bv8>, start: nat, length: nat, m: Int32): Reader {
    LineScanSound();
    OpenSplit(s, start, length, m, false, LineScan)
  }

  /** The bytes of the line starting at `p`, without its '\n'. */
  function LineAt(s: seq<bv8>, p: nat): seq<bv8>
    requires p < |s|
  {
    s[p..NewlineAt(s, p)]
  }

  /** The line cap of the read at `p`: larger by three bytes for the first read of the stream. */
  function CapAt(p: nat, m: Int32): int {
    if p == 0 then BomCap(m) else m
  }

  /** The part of the line at `p` that a read with line cap `cap` delivers. */
  function Kept(s: seq<bv8>, p: nat, cap: int): seq<bv8>
    requires p < |s|
  {
    var line := LineAt(s, p);
    if cap < 0 then [] else line[..Min(|line|, cap)]
  }

  /** The read at `p` removes a byte-order mark. */
  predicate Stripped(s: seq<bv8>, p: nat, m: Int32)
    requires p < |s|
  {
    p == 0 && HasBom(Kept(s, p, CapAt(p, m)))
  }

  /**
   * The record a reader at `p` returns for the line there, if any: the line's size
   * (bytes consumed, less a removed byte-order mark) must be positive and below `m`.
   */
  function LineRecord(s: seq<bv8>, p: nat, m: Int32): (head: seq<Entry>)
    requires p < |s|
    ensures |head| <= 1 && (|head| == 1 ==> head[0].key == p)
  {
    var kept := Kept(s, p, CapAt(p, m));
    var strip := Stripped(s, p, m);
    var size := LineEnd(s, p) - p - (if strip then 3 else 0);
    var value := if strip then kept[3..] else kept;
    if 0 < size < m then [Entry(p, value)] else []
  }

  /**
   * The records of the lines from `p` on, one line at a time, while the line starts
   * no later than `e`.
   */
  function Lines(s: seq<bv8>, p: nat, e: int, m: Int32): seq<Entry>
    decreases Remaining(s, p)
  {
    if p > e || p >= |s| then []
    else
      var q := LineEnd(s, p);
      var rest := Lines(s, q, e, m);
      var head := LineRecord(s, p, m);
      head + rest
  }

  /** The newline scanner delivers the kept part of the line and consumes the whole line. */
  lemma ScanIsKept(s: seq<bv8>, p: nat, cap: int, budget: int)
    requires p < |s|
    ensures LineScan(s, p, cap, budget).record == Kept(s, p, cap)
  {
    var e := NewlineAt(s, p);
    if cap >= 0 {
      assert s[p..e][..Min(e - p, cap)] == s[p..p + Min(e - p, cap)];
    }
  }

  /**
   * A read with the newline scanner goes to the next line, and returns the record
   * of the line-by-line description.
   */
  lemma LineReadFacts(s: seq<bv8>, r: Reader)
    requires r.origin == 0 && !r.compressed && r.pos < |s|
    ensures var rd := LineRead(s, r);
            && rd.after == r.(pos := LineEnd(s, r.pos), needMore := false)
            && LineRecord(s, r.pos, r.maxLineLength) ==
                 (if 0 < rd.size < r.maxLineLength then [Entry(r.pos, rd.value)] else [])
  {
    if r.pos == 0 {
      FirstLineRead(s, r);
    } else {
      LaterLineRead(s, r);
    }
  }

  /** `LineReadFacts` for the read at offset 0, which removes a byte-order mark. */
  lemma FirstLineRead(s: seq<bv8>, r: Reader)
    requires r.origin == 0 && !r.compressed && r.pos == 0 < |s|
    ensures var rd := LineRead(s, r);
            && rd.after == r.(pos := LineEnd(s, r.pos), needMore := false)
            && LineRecord(s, r.pos, r.maxLineLength) ==
                 (if 0 < rd.size < r.maxLineLength then [Entry(r.pos, rd.value)] else [])
  {
    LineScanSound();
    var cap := BomCap(r.maxLineLength);
    var sc := LineScan(s, 0, cap, MaxBytesToConsume(r, 0));
    ScanIsKept(s, 0, cap, MaxBytesToConsume(r, 0));
    var rd := SkipBom(s, r, LineScan);
    assert rd == LineRead(s, r);
    assert HasBom(sc.record) ==> rd.value == sc.record[3..];
  }

  /** `LineReadFacts` for a read past offset 0. */
  lemma LaterLineRead(s: seq<bv8>, r: Reader)
    requires r.origin == 0 && !r.compressed && 0 < r.pos < |s|
    ensures var rd := LineRead(s, r);
            && rd.after == r.(pos := LineEnd(s, r.pos), needMore := false)
            && LineRecord(s, r.pos, r.maxLineLength) ==
                 (if 0 < rd.size < r.maxLineLength then [Entry(r.pos, rd.value)] else [])
  {
    LineScanSound();
    var p := r.pos;
    var sc := LineScan(s, p, r.maxLineLength, MaxBytesToConsume(r, p));
    ScanIsKept(s, p, r.maxLineLength, MaxBytesToConsume(r, p));
    var rd := Read(sc.consumed, sc.record, r.(pos := p + sc.consumed, needMore := sc.needMore));
    assert rd == LineRead(s, r);
  }

  /** A read with the newline scanner delivers nothing only at the end of the stream. */
  lemma ZeroSizeOnlyAtEnd(s: seq<bv8>, r: Reader)
    requires r.origin == 0 && !r.compressed && r.pos < |s|
    ensures LineRead(s, r).size == 0 ==> LineEnd(s, r.pos) >= |s|
  {
    LineScanSound();
    LineReadFacts(s, r);
  }

  /** `next` with the newline scanner emits exactly the first record of the line-by-line description. */
  lemma {:induction false} NextIsNextLine(s: seq<bv8>, r: Reader)
    requires r.origin == 0 && !r.compressed && !r.needMore
    ensures match LineNext(s, r)
            case Done(_) => Lines(s, r.pos, r.end, r.maxLineLength) == []
            case Record(r', k, v) =>
              && r' == r.(pos := r'.pos)
              && Lines(s, r.pos, r.end, r.maxLineLength) == [Entry(k, v)] + Lines(s, r'.pos, r.end, r.maxLineLength)
    decreases Remaining(s, r.pos)
  {
    LineScanSound();
    var m := r.maxLineLength;
    var o := Next(s, r, LineScan, NoFilePos);
    if r.pos > r.end {
      assert o == Done(r);
    } else if r.pos >= |s| {
      assert o.Done?;
    } else {
      var rd := ReadRecord(s, r, LineScan);
      LineReadFacts(s, r);
      ZeroSizeOnlyAtEnd(s, r);
      var q := LineEnd(s, r.pos);
      assert rd.after == r.(pos := q);
      var rest := Lines(s, q, r.end, m);
      if rd.size == 0 {
        assert o == Done(rd.after);
        assert rest == [];
      } else if rd.size < m {
        assert o == Record(rd.after, r.pos, rd.value);
        assert Lines(s, r.pos, r.end, m) == [Entry(r.pos, rd.value)] + rest;
      } else {
        assert o == Next(s, rd.after, LineScan, NoFilePos);
        assert Lines(s, r.pos, r.end, m) == rest;
        NextIsNextLine(s, rd.after);
      }
    }
  }

  /** A reader with the newline scanner emits exactly the line-by-line description. */
  lemma {:induction false} RunIsLines(s: seq<bv8>, r: Reader)
    requires r.origin == 0 && !r.compressed && !r.needMore
    ensures LineRun(s, r) == Lines(s, r.pos, r.end, r.maxLineLength)
    decreases Remaining(s, r.pos)
  {
    LineScanSound();
    var o := Next(s, r, LineScan, NoFilePos);
    NextIsNextLine(s, r);
    if o.Record? {
      RunIsLines(s, o.reader);
    }
  }

  /** A reader built by the stream constructors at offset 0 emits the lines from 0 to `endOffset`. */
  lemma StreamReaderEmits(s: seq<bv8>, endOffset: int, m: Int32)
    ensures LineRun(s, OpenStream(0, endOffset, m)) == Lines(s, 0, endOffset, m)
  {
    RunIsLines(s, OpenStream(0, endOffset, m));
  }

  /** At or past the end of the stream `next` returns false and changes nothing. */
  lemma ExhaustedLineNext(s: seq<bv8>, r: Reader)
    requires r.origin == 0 && !r.compressed && !r.needMore && r.pos >= |s|
    ensures LineNext(s, r) == Done(r)
  {
    LineScanSound();
    if Guard(r, NoFilePos) {
      assert LineScan(s, r.pos, CapAt(r.pos, r.maxLineLength), MaxBytesToConsume(r, r.pos)).consumed == 0;
    }
  }

  /**
   * Once `next` with the newline scanner returns false, calling it again returns
   * false again and leaves the reader, and so getPos, unchanged.
   */
  lemma {:induction false} DoneIsFinal(s: seq<bv8>, r: Reader)
    requires r.origin == 0 && !r.compressed && !r.needMore
    ensures var o := LineNext(s, r);
            o.Done? ==> LineNext(s, o.reader) == o
    decreases Remaining(s, r.pos)
  {
    LineScanSound();
    if r.pos >= |s| {
      ExhaustedLineNext(s, r);
    } else if Guard(r, NoFilePos) {
      var rd := LineRead(s, r);
      LineReadFacts(s, r);
      ZeroSizeOnlyAtEnd(s, r);
      if rd.size == 0 {
        assert LineNext(s, r) == Done(rd.after);
        ExhaustedLineNext(s, rd.after);
      } else if rd.size >= r.maxLineLength {
        assert LineNext(s, r) == LineNext(s, rd.after);
        DoneIsFinal(s, rd.after);
      }
    }
  }

  /** Every offset inside a line leads to the same next line. */
  lemma LineEndWithinLine(s: seq<bv8>, q: nat, a: nat)
    requires q <= a < LineEnd(s, q)
    ensures LineEnd(s, a) == LineEnd(s, q)
  {
    var eq := NewlineAt(s, q);
    var ea := NewlineAt(s, a);
    if ea < eq {
      BeforeNewline(s, q, ea);
    } else if eq < ea {
      BeforeNewline(s, a, eq);
    }
  }

  /** Cutting the line-by-line description at `a` and resuming after the line holding `a` changes nothing. */
  lemma {:induction false} LinesCut(s: seq<bv8>, p: nat, a: nat, b: int, m: Int32)
    requires p <= a <= b
    ensures Lines(s, p, a, m) + Lines(s, LineEnd(s, a), b, m) == Lines(s, p, b, m)
    decreases Remaining(s, p)
  {
    if p < |s| {
      var q := LineEnd(s, p);
      var head, tail := LineRecord(s, p, m), Lines(s, LineEnd(s, a), b, m);
      LinesStep(s, p, a, m);
      LinesStep(s, p, b, m);
      assert Lines(s, q, a, m) + tail == Lines(s, q, b, m) by {
        if q <= a {
          LinesCut(s, q, a, b, m);
        } else {
          LineEndWithinLine(s, p, a);
        }
      }
      PrependEqual(head, Lines(s, q, a, m), tail, Lines(s, q, b, m), Lines(s, p, a, m), Lines(s, p, b, m));
    } else {
      assert LineEnd(s, a) >= |s|;
    }
  }

  /** The description from a line start inside the window: that line's record, then the rest. */
  lemma LinesStep(s: seq<bv8>, p: nat, e: int, m: Int32)
    requires p <= e && p < |s|
    ensures Lines(s, p, e, m) == LineRecord(s, p, m) + Lines(s, LineEnd(s, p), e, m)
  {
  }

  /** Putting the same front on both sides of an equation between concatenations. */
  lemma PrependEqual<T>(head: seq<T>, x: seq<T>, y: seq<T>, z: seq<T>, u: seq<T>, w: seq<T>)
    requires x + y == z && u == head + x && w == head + z
    ensures u + y == w
  {
    assert u + y == head + (x + y);
  }

  /** Where the reader of a split starts reading once constructed. */
  function FirstOwned(s: seq<bv8>, start: nat): nat {
    if start == 0 then 0 else LineEnd(s, start)
  }

  /** The split constructor with the newline scanner skips to the end of the line holding `start`. */
  lemma SplitReaderStart(s: seq<bv8>, start: nat, length: nat, m: Int32)
    ensures var r := SplitReader(s, start, length, m);
            && r.origin == 0 && !r.compressed && !r.needMore
            && r.end == start + length && r.maxLineLength == m
            && r.pos == FirstOwned(s, start)
  {
    LineScanSound();
  }

  /** The records the reader of split [start, start + length) emits. */
  function Emitted(s: seq<bv8>, start: nat, length: nat, m: Int32): seq<Entry> {
    LineRun(s, SplitReader(s, start, length, m))
  }

  /** What the reader of split [start, start + length) is responsible for, line by line. */
  function Owned(s: seq<bv8>, start: nat, length: nat, m: Int32): seq<Entry> {
    Lines(s, FirstOwned(s, start), start + length, m)
  }

  /** The reader of a split emits exactly the records the split owns. */
  lemma EmittedIsOwned(s: seq<bv8>, start: nat, length: nat, m: Int32)
    ensures Emitted(s, start, length, m) == Owned(s, start, length, m)
  {
    SplitReaderStart(s, start, length, m);
    StartedReaderEmits(s, start, length, m, SplitReader(s, start, length, m));
  }

  /** A reader positioned where the split constructor leaves it emits what the split owns. */
  lemma StartedReaderEmits(s: seq<bv8>, start: nat, length: nat, m: Int32, r: Reader)
    requires r.origin == 0 && !r.compressed && !r.needMore
    requires r.pos == FirstOwned(s, start) && r.end == start + length && r.maxLineLength == m
    ensures LineRun(s, r) == Owned(s, start, length, m)
  {
    RunIsLines(s, r);
    OwnedIs(s, start, length, m, r.pos, r.end, r.maxLineLength);
  }

  /** The split [start, start + length) owns the lines from its first owned offset up to its end. */
  lemma OwnedIs(s: seq<bv8>, start: nat, length: nat, m: Int32, p: nat, e: int, m': Int32)
    requires p == FirstOwned(s, start) && e == start + length && m' == m
    ensures Owned(s, start, length, m) == Lines(s, p, e, m')
  {
  }

  /** Every key of `out` is a line start of the stream in [p, e], or `p` itself. */
  predicate KeysFrom(s: seq<bv8>, p: nat, e: int, out: seq<Entry>) {
    forall i :: 0 <= i < |out| ==>
      p <= out[i].key <= e && out[i].key < |s| && (out[i].key == p || IsLineStart(s, out[i].key))
  }

  /** Every entry is the record of the line starting at its key: whole, and within the cap. */
  predicate LineRecords(s: seq<bv8>, m: Int32, es: seq<Entry>) {
    forall i :: 0 <= i < |es| ==> es[i].key < |s| && es[i] in LineRecord(s, es[i].key, m)
  }

  /** The line-by-line description holds only records of lines, one per line start. */
  lemma {:induction false} LinesValues(s: seq<bv8>, p: nat, e: int, m: Int32)
    ensures LineRecords(s, m, Lines(s, p, e, m))
    decreases Remaining(s, p)
  {
    if p <= e && p < |s| {
      var q := LineEnd(s, p);
      var head, rest := LineRecord(s, p, m), Lines(s, q, e, m);
      assert LineRecords(s, m, rest) by {
        LinesValues(s, q, e, m);
      }
      ConsLineValues(s, m, head, rest);
      assert Lines(s, p, e, m) == head + rest;
    }
  }

  lemma ConsLineValues(s: seq<bv8>, m: Int32, head: seq<Entry>, rest: seq<Entry>)
    requires LineRecords(s, m, head) && LineRecords(s, m, rest)
    ensures LineRecords(s, m, head + rest)
  {
    var out := head + rest;
    forall i | 0 <= i < |out|
      ensures out[i].key < |s| && out[i] in LineRecord(s, out[i].key, m)
    {
      if i < |head| {
        assert out[i] == head[i];
      } else {
        assert out[i] == rest[i - |head|];
      }
    }
  }

  /** The keys of the records a split owns: line starts inside its window, in increasing order. */
  lemma OwnedKeys(s: seq<bv8>, start: nat, length: nat, m: Int32)
    ensures var out := Owned(s, start, length, m);
            && (forall i :: 0 <= i < |out| ==>
                  Owns(start, length, out[i].key) && out[i].key < |s| && IsLineStart(s, out[i].key))
            && Increasing(out)
  {
    var p := FirstOwned(s, start);
    var out := Owned(s, start, length, m);
    LinesKeys(s, p, start + length, m);
    forall i | 0 <= i < |out|
      ensures Owns(start, length, out[i].key) && out[i].key < |s| && IsLineStart(s, out[i].key)
    {
      var k := out[i].key;
      assert p <= k <= start + length && k < |s|;
      if start != 0 {
        assert start < p;
        assert s[p - 1] == NL;
      }
    }
  }

  /**
   * A split owns only records of lines of the stream that start inside its window,
   * in increasing order of offset, each the whole line within the line cap: an
   * oversized line is never among them.
   */
  lemma OwnedRecords(s: seq<bv8>, start: nat, length: nat, m: Int32)
    ensures var out := Owned(s, start, length, m);
            && (forall i :: 0 <= i < |out| ==>
                  Owns(start, length, out[i].key) && out[i].key < |s| && IsLineStart(s, out[i].key))
            && Increasing(out)
            && LineRecords(s, m, out)
  {
    OwnedKeys(s, start, length, m);
    LinesValues(s, FirstOwned(s, start), start + length, m);
  }

  /**
   * The line-by-line description from `p` holds records of line starts from `p` up to
   * `e`, in strictly increasing order of offset.
   */
  lemma {:induction false} LinesKeys(s: seq<bv8>, p: nat, e: int, m: Int32)
    ensures KeysFrom(s, p, e, Lines(s, p, e, m)) && Increasing(Lines(s, p, e, m))
    decreases Remaining(s, p)
  {
    if p <= e && p < |s| {
      var q := LineEnd(s, p);
      var head, rest := LineRecord(s, p, m), Lines(s, q, e, m);
      assert KeysFrom(s, q, e, rest) && Increasing(rest) by {
        LinesKeys(s, q, e, m);
      }
      ConsLineKeys(s, p, q, e, head, rest);
      assert Lines(s, p, e, m) == head + rest;
    }
  }

  /** The record of the line at `p`, if any, in front of the records from the next line on. */
  lemma ConsLineKeys(s: seq<bv8>, p: nat, q: nat, e: int, head: seq<Entry>, rest: seq<Entry>)
    requires p <= e && p < |s| && p < q && (q < |s| ==> s[q - 1] == NL)
    requires |head| <= 1 && (|head| == 1 ==> head[0].key == p)
    requires KeysFrom(s, q, e, rest) && Increasing(rest)
    ensures KeysFrom(s, p, e, head + rest) && Increasing(head + rest)
  {
    var out := head + rest;
    forall i | 0 <= i < |out|
      ensures p <= out[i].key <= e && out[i].key < |s| && (out[i].key == p || IsLineStart(s, out[i].key))
    {
      if i < |head| {
        assert out[i] == head[i];
      } else {
        assert out[i] == rest[i - |head|];
      }
    }
    forall i, j | 0 <= i < j < |out|
      ensures out[i].key < out[j].key
    {
      assert out[j] == rest[j - |head|];
      if i < |head| {
        assert out[i] == head[i];
      } else {
        assert out[i] == rest[i - |head|];
      }
    }
  }

  /**
   * Exactly once across one cut: the splits [x, x + l) and [x + l, x + l + r) together
   * own what the split [x, x + l + r) owns, provided the cut is not at the stream start.
   */
  lemma OwnedAtCut(s: seq<bv8>, x: nat, l: nat, r: nat, m: Int32)
    requires 0 < x + l
    ensures Owned(s, x, l, m) + Owned(s, x + l, r, m) == Owned(s, x, l + r, m)
  {
    if FirstOwned(s, x) <= x + l {
      CutAfterFirst(s, x, l, r, m);
    } else {
      CutBeforeFirst(s, x, l, r, m);
    }
  }

  /** The cut falls at or after the first line the left split reads. */
  lemma CutAfterFirst(s: seq<bv8>, x: nat, l: nat, r: nat, m: Int32)
    requires 0 < x + l && FirstOwned(s, x) <= x + l
    ensures Owned(s, x, l, m) + Owned(s, x + l, r, m) == Owned(s, x, l + r, m)
  {
    var p, e := FirstOwned(s, x), x + (l + r);
    var left, right := Lines(s, p, x + l, m), Lines(s, LineEnd(s, x + l), e, m);
    assert Owned(s, x, l, m) == left by {
      OwnedIs(s, x, l, m, p, x + l, m);
    }
    assert Owned(s, x + l, r, m) == right by {
      OwnedAfterCut(s, x + l, r, e, m);
    }
    assert left + right == Owned(s, x, l + r, m) by {
      LinesCut(s, p, x + l, e, m);
      OwnedIs(s, x, l + r, m, p, e, m);
      Meet(left + right, Lines(s, p, e, m), Owned(s, x, l + r, m));
    }
    AppendEqual(Owned(s, x, l, m), Owned(s, x + l, r, m), left, right, Owned(s, x, l + r, m));
  }

  /** A split that does not begin the stream owns the lines after the one holding its start. */
  lemma OwnedAfterCut(s: seq<bv8>, a: nat, r: nat, e: int, m: Int32)
    requires 0 < a && e == a + r
    ensures Owned(s, a, r, m) == Lines(s, LineEnd(s, a), e, m)
  {
  }

  /** The cut falls inside the line that the left split skips: the left split owns nothing. */
  lemma CutBeforeFirst(s: seq<bv8>, x: nat, l: nat, r: nat, m: Int32)
    requires 0 < x + l && x + l < FirstOwned(s, x)
    ensures Owned(s, x, l, m) + Owned(s, x + l, r, m) == Owned(s, x, l + r, m)
  {
    var a := x + l;
    assert |Owned(s, x, l, m)| == 0;
    assert FirstOwned(s, a) == FirstOwned(s, x) by {
      LineEndWithinLine(s, x, a);
    }
  }

  /** Total length of consecutive splits. */
  function Sum(lengths: seq<nat>): nat {
    if |lengths| == 0 then 0 else lengths[0] + Sum(lengths[1..])
  }

  /**
   * What the readers of adjacent splits emit, in split order: the first split starts
   * at `start`, each next one where the previous one ends.
   */
  function EmittedBySplits(s: seq<bv8>, start: nat, lengths: seq<nat>, m: Int32): seq<Entry>
    decreases |lengths|
  {
    if |lengths| == 0 then []
    else Emitted(s, start, lengths[0], m) + EmittedBySplits(s, start + lengths[0], lengths[1..], m)
  }

  /** The reader of [x, x + l) followed by the split [x + l, x + total) owns what [x, x + total) owns. */
  lemma EmittedThenOwned(s: seq<bv8>, x: nat, l: nat, r: nat, total: nat, rest: seq<Entry>, m: Int32)
    requires 0 < x + l && total == l + r && rest == Owned(s, x + l, r, m)
    ensures Emitted(s, x, l, m) + rest == Owned(s, x, total, m)
  {
    EmittedIsOwned(s, x, l, m);
    OwnedAtCut(s, x, l, r, m);
    AppendEqual(Emitted(s, x, l, m), rest, Owned(s, x, l, m), Owned(s, x + l, r, m), Owned(s, x, l + r, m));
    OwnedSameLength(s, x, l + r, total, m);
    Trans(Emitted(s, x, l, m) + rest, Owned(s, x, l + r, m), Owned(s, x, total, m));
  }

  /** Equal lengths, equal ownership. */
  lemma OwnedSameLength(s: seq<bv8>, x: nat, n1: nat, n2: nat, m: Int32)
    requires n1 == n2
    ensures Owned(s, x, n1, m) == Owned(s, x, n2, m)
  {
  }

  /** Equality of sequences is transitive. */
  lemma Trans<T>(a: seq<T>, b: seq<T>, c: seq<T>)
    requires a == b && b == c
    ensures a == c
  {
  }

  /** Two sequences equal to a third are equal. */
  lemma Meet<T>(a: seq<T>, b: seq<T>, c: seq<T>)
    requires a == b && c == b
    ensures a == c
  {
  }

  /** Equal pieces give equal concatenations. */
  lemma AppendEqual<T>(u1: seq<T>, u2: seq<T>, v1: seq<T>, v2: seq<T>, z: seq<T>)
    requires u1 == v1 && u2 == v2 && v1 + v2 == z
    ensures u1 + u2 == z
  {
  }

  /**
   * No loss and no duplication: the readers of adjacent splits together emit exactly
   * the records the whole range owns, each once, in order. Only the first split may
   * begin at offset 0 (two splits that both begin the stream would both read its
   * first line).
   */
  lemma {:induction false} PartitionEmitsOnce(s: seq<bv8>, start: nat, lengths: seq<nat>, m: Int32)
    requires |lengths| >= 1 && (|lengths| >= 2 ==> 0 < start + lengths[0])
    ensures EmittedBySplits(s, start, lengths, m) == Owned(s, start, Sum(lengths), m)
    decreases |lengths|
  {
    if |lengths| == 1 {
      OneSplit(s, start, lengths, m);
    } else {
      assert EmittedBySplits(s, start, lengths, m) == Owned(s, start, Sum(lengths), m) by {
        PartitionEmitsOnce(s, start + lengths[0], lengths[1..], m);
        FrontSplit(s, start, lengths, m);
      }
    }
  }

  /** A single split emits what it owns. */
  lemma OneSplit(s: seq<bv8>, start: nat, lengths: seq<nat>, m: Int32)
    requires |lengths| == 1
    ensures EmittedBySplits(s, start, lengths, m) == Owned(s, start, Sum(lengths), m)
  {
    var l := lengths[0];
    assert Sum(lengths) == l;
    assert EmittedBySplits(s, start, lengths, m) == Emitted(s, start, l, m);
    EmittedIsOwned(s, start, l, m);
  }

  /** The first split's reader, followed by the readers of the others, when those emit what they own. */
  lemma FrontSplit(s: seq<bv8>, start: nat, lengths: seq<nat>, m: Int32)
    requires |lengths| >= 2 && 0 < start + lengths[0]
    requires EmittedBySplits(s, start + lengths[0], lengths[1..], m) == Owned(s, start + lengths[0], Sum(lengths[1..]), m)
    ensures EmittedBySplits(s, start, lengths, m) == Owned(s, start, Sum(lengths), m)
  {
    var l, tail := lengths[0], lengths[1..];
    var whole := EmittedBySplits(s, start, lengths, m);
    var split := Emitted(s, start, l, m) + EmittedBySplits(s, start + l, tail, m);
    assert whole == split;
    EmittedThenOwned(s, start, l, Sum(tail), Sum(lengths), EmittedBySplits(s, start + l, tail, m), m);
  }

  /** A '\n' at `k - 1` ends the line holding any earlier offset `q` no later than `k`. */
  lemma LineEndBefore(s: seq<bv8>, q: nat, k: nat)
    requires q < k <= |s| && s[k - 1] == NL
    ensures LineEnd(s, q) <= k
  {
    if NewlineAt(s, q) > k - 1 {
      BeforeNewline(s, q, k - 1);
    }
  }

  /**
   * Walking the lines from a line start `p` visits every later line start `k` up to
   * `e`: the record of the line at `k`, if any, is among the records from `p` on.
   */
  lemma {:induction false} LinesComplete(s: seq<bv8>, p: nat, e: int, m: Int32, k: nat)
    requires p <= k <= e && k < |s| && (k == p || s[k - 1] == NL)
    ensures forall x | x in LineRecord(s, k, m) :: x in Lines(s, p, e, m)
    decreases Remaining(s, p)
  {
    var q := LineEnd(s, p);
    assert Lines(s, p, e, m) == LineRecord(s, p, m) + Lines(s, q, e, m);
    if p < k {
      LineEndBefore(s, p, k);
      LinesComplete(s, q, e, m, k);
    }
  }

  /**
   * No loss: every line of the stream that starts in a split's window and fits the
   * line cap is among the records the split owns.
   */
  lemma OwnedComplete(s: seq<bv8>, start: nat, length: nat, m: Int32, k: nat)
    requires Owns(start, length, k) && k < |s| && IsLineStart(s, k)
    ensures forall x | x in LineRecord(s, k, m) :: x in Owned(s, start, length, m)
  {
    var p := FirstOwned(s, start);
    if start != 0 {
      LineEndBefore(s, start, k);
    }
    LinesComplete(s, p, start + length, m, k);
  }

  /**
   * Away from offset 0 the record of a line is the whole line without its '\n',
   * exactly when the bytes consumed (the line and its '\n') stay below the line cap.
   */
  lemma LineRecordIsLine(s: seq<bv8>, k: nat, m: Int32)
    requires 0 < k < |s|
    ensures LineRecord(s, k, m) == if LineEnd(s, k) - k < m then [Entry(k, LineAt(s, k))] else []
  {
    var line := LineAt(s, k);
    if LineEnd(s, k) - k < m {
      assert line[..Min(|line|, m)] == line;
    }
  }

  /**
   * At offset 0 the record is the first line less a leading byte-order mark, and the
   * mark's three bytes do not count against the line cap. Lines of more than
   * Integer.MAX_VALUE bytes are excluded: the scanner reports its count as an `int`.
   */
  lemma LineRecordAtStart(s: seq<bv8>, m: Int32)
    requires 0 < |s| && LineEnd(s, 0) <= MAX_INT
    ensures var line := LineAt(s, 0);
            var bom := |line| >= 3 && line[..3] == BOM;
            var size := LineEnd(s, 0) - (if bom then 3 else 0);
            LineRecord(s, 0, m) == if 0 < size < m then [Entry(0, if bom then line[3..] else line)] else []
  {
    var line := LineAt(s, 0);
    var cap := BomCap(m);
    var kept := Kept(s, 0, cap);
    var bom := |line| >= 3 && line[..3] == BOM;
    var size := LineEnd(s, 0) - (if bom then 3 else 0);
    if 0 < size < m {
      assert kept == line;
      assert HasBom(kept) == bom;
    } else if bom && 3 <= cap {
      assert kept[..3] == line[..3];
    }
  }

  /** The stream "aaa\nbbb\nccc\n". */
  const ABC: seq<bv8> := [0x61, 0x61, 0x61, 0x0A, 0x62, 0x62, 0x62, 0x0A, 0x63, 0x63, 0x63, 0x0A]

  /** The first line of "aaa\nbbb\nccc\n" and its record under a line cap of 100. */
  lemma AbcFirstLine()
    ensures LineEnd(ABC, 0) == 4 && LineRecord(ABC, 0, 100) == [Entry(0, [0x61, 0x61, 0x61])]
  {
    var s := ABC;
    assert NewlineAt(s, 3) == 3 && NewlineAt(s, 2) == 3 && NewlineAt(s, 1) == 3 && NewlineAt(s, 0) == 3;
    LineRecordAtStart(s, 100);
    assert LineAt(s, 0) == [0x61, 0x61, 0x61];
    assert LineAt(s, 0)[..3][0] != BOM[0];
  }

  /** The second line of "aaa\nbbb\nccc\n", also reached from offset 5 inside it. */
  lemma AbcSecondLine()
    ensures LineEnd(ABC, 4) == 8 && LineEnd(ABC, 5) == 8
    ensures LineRecord(ABC, 4, 100) == [Entry(4, [0x62, 0x62, 0x62])]
  {
    var s := ABC;
    assert NewlineAt(s, 7) == 7 && NewlineAt(s, 6) == 7 && NewlineAt(s, 5) == 7 && NewlineAt(s, 4) == 7;
    LineRecordIsLine(s, 4, 100);
    assert LineAt(s, 4) == [0x62, 0x62, 0x62];
  }

  /** The third line of "aaa\nbbb\nccc\n". */
  lemma AbcThirdLine()
    ensures LineEnd(ABC, 8) == 12 && LineRecord(ABC, 8, 100) == [Entry(8, [0x63, 0x63, 0x63])]
  {
    var s := ABC;
    assert NewlineAt(s, 11) == 11 && NewlineAt(s, 10) == 11 && NewlineAt(s, 9) == 11 && NewlineAt(s, 8) == 11;
    LineRecordIsLine(s, 8, 100);
    assert LineAt(s, 8) == [0x63, 0x63, 0x63];
  }

  /**
   * "aaa\nbbb\nccc\n" cut into [0, 5) and [5, 12): the first split reads one line past
   * its end and owns "aaa" and "bbb".
   */
  lemma BoundaryLeftSplit()
    ensures Owned(ABC, 0, 5, 100) == [Entry(0, [0x61, 0x61, 0x61]), Entry(4, [0x62, 0x62, 0x62])]
  {
    var s := ABC;
    AbcFirstLine();
    AbcSecondLine();
    AbcThirdLine();
    assert Lines(s, 8, 5, 100) == [];
    assert Lines(s, 4, 5, 100) == LineRecord(s, 4, 100) + Lines(s, 8, 5, 100);
    assert Owned(s, 0, 5, 100) == LineRecord(s, 0, 100) + Lines(s, 4, 5, 100);
  }

  /**
   * The second split of the same cut skips the rest of the line holding offset 5 and
   * owns only "ccc", so each line is owned once.
   */
  lemma BoundaryRightSplit()
    ensures Owned(ABC, 5, 7, 100) == [Entry(8, [0x63, 0x63, 0x63])]
  {
    var s := ABC;
    AbcSecondLine();
    AbcThirdLine();
    assert Lines(s, 12, 12, 100) == [];
    assert Owned(s, 5, 7, 100) == LineRecord(s, 8, 100) + Lines(s, 12, 12, 100);
  }

  /** The whole of "aaa\nbbb\nccc\n" as one split owns all three lines. */
  lemma AbcWholeStream()
    ensures Owned(ABC, 0, 12, 100)
         == [Entry(0, [0x61, 0x61, 0x61]), Entry(4, [0x62, 0x62, 0x62]), Entry(8, [0x63, 0x63, 0x63])]
  {
    var s := ABC;
    AbcFirstLine();
    AbcSecondLine();
    AbcThirdLine();
    assert Lines(s, 12, 12, 100) == [];
    assert Lines(s, 8, 12, 100) == LineRecord(s, 8, 100) + Lines(s, 12, 12, 100);
    assert Lines(s, 4, 12, 100) == LineRecord(s, 4, 100) + Lines(s, 8, 12, 100);
    assert Owned(s, 0, 12, 100) == LineRecord(s, 0, 100) + Lines(s, 4, 12, 100);
  }

  /** An empty split at offset 0 of "aaa\nbbb\nccc\n" still reads the line at its end. */
  lemma AbcEmptySplit()
    ensures Owned(ABC, 0, 0, 100) == [Entry(0, [0x61, 0x61, 0x61])]
  {
    AbcFirstLine();
    assert Lines(ABC, 4, 0, 100) == [];
    assert Owned(ABC, 0, 0, 100) == LineRecord(ABC, 0, 100) + Lines(ABC, 4, 0, 100);
  }

  /** Two splits that both begin at offset 0 emit what each of them owns, one after the other. */
  lemma TwoSplitsAtZero(s: seq<bv8>, l: nat, m: Int32)
    ensures EmittedBySplits(s, 0, [0, l], m) == Owned(s, 0, 0, m) + Owned(s, 0, l, m)
  {
    assert EmittedBySplits(s, 0, [l], m) == Emitted(s, 0, l, m) + EmittedBySplits(s, l, [], m);
    assert EmittedBySplits(s, 0, [0, l], m) == Emitted(s, 0, 0, m) + EmittedBySplits(s, 0, [l], m);
    EmittedIsOwned(s, 0, 0, m);
    EmittedIsOwned(s, 0, l, m);
  }

  /**
   * Why only the first split may begin at offset 0: an empty split at 0 followed by
   * any split at 0 emits the first line's record twice, because both readers skip the
   * discard read and the empty one still reads the line at its end.
   */
  lemma EmptyFirstSplitDuplicates(s: seq<bv8>, l: nat, m: Int32)
    requires 0 < |s| && |LineRecord(s, 0, m)| == 1
    ensures var out := EmittedBySplits(s, 0, [0, l], m);
            2 <= |out| && out[0] == out[1] == LineRecord(s, 0, m)[0]
  {
    var head := LineRecord(s, 0, m);
    var q := LineEnd(s, 0);
    assert Owned(s, 0, 0, m) == head by {
      assert Lines(s, q, 0, m) == [];
      LinesStep(s, 0, 0, m);
    }
    assert Owned(s, 0, l, m) == head + Lines(s, q, l, m) by {
      LinesStep(s, 0, l, m);
    }
    TwoSplitsAtZero(s, l, m);
  }

  /**
   * A stream starting with a byte-order mark: the mark is removed from the first
   * record and not counted against a line cap of 3, and a stream holding nothing
   * but the mark has no record at all.
   */
  lemma BomScenarios()
    ensures Owned([0xEF, 0xBB, 0xBF, 0x61, 0x0A], 0, 5, 3) == [Entry(0, [0x61])]
    ensures Owned([0xEF, 0xBB, 0xBF], 0, 3, 3) == []
  {
    var s: seq<bv8> := [0xEF, 0xBB, 0xBF, 0x61, 0x0A];
    assert NewlineAt(s, 4) == 4;
    assert NewlineAt(s, 3) == 4;
    assert NewlineAt(s, 2) == 4;
    assert NewlineAt(s, 1) == 4;
    assert NewlineAt(s, 0) == 4;
    LineRecordAtStart(s, 3);
    assert LineAt(s, 0)[..3] == BOM && LineAt(s, 0)[3..] == [0x61];
    assert Owned(s, 0, 5, 3) == LineRecord(s, 0, 3) + Lines(s, 5, 5, 3);
    var b: seq<bv8> := [0xEF, 0xBB, 0xBF];
    assert NewlineAt(b, 3) == 3;
    assert NewlineAt(b, 2) == 3;
    assert NewlineAt(b, 1) == 3;
    assert NewlineAt(b, 0) == 3;
    LineRecordAtStart(b, 3);
    assert LineAt(b, 0)[..3] == BOM;
    assert Owned(b, 0, 3, 3) == LineRecord(b, 0, 3) + Lines(b, 3, 3, 3);
  }

  /** The stream "a\nbbbbb\nc\n". */
  const LONG: seq<bv8> := [0x61, 0x0A, 0x62, 0x62, 0x62, 0x62, 0x62, 0x0A, 0x63, 0x0A]

  /** The lines of "a\nbbbbb\nc\n" under a line cap of 4: the middle one consumes 6 bytes. */
  lemma LongLines()
    ensures LineEnd(LONG, 0) == 2 && LineRecord(LONG, 0, 4) == [Entry(0, [0x61])]
    ensures LineEnd(LONG, 2) == 8 && LineRecord(LONG, 2, 4) == []
    ensures LineEnd(LONG, 8) == 10 && LineRecord(LONG, 8, 4) == [Entry(8, [0x63])]
  {
    var s := LONG;
    assert NewlineAt(s, 1) == 1 && NewlineAt(s, 0) == 1;
    LineRecordAtStart(s, 4);
    assert LineAt(s, 0) == [0x61];
    assert NewlineAt(s, 7) == 7 && NewlineAt(s, 6) == 7 && NewlineAt(s, 5) == 7;
    assert NewlineAt(s, 4) == 7 && NewlineAt(s, 3) == 7 && NewlineAt(s, 2) == 7;
    LineRecordIsLine(s, 2, 4);
    assert NewlineAt(s, 9) == 9 && NewlineAt(s, 8) == 9;
    LineRecordIsLine(s, 8, 4);
    assert LineAt(s, 8) == [0x63];
  }

  /**
   * An oversized line between two short ones: with a line cap of 4 the single split
   * over "a\nbbbbb\nc\n" owns "a" and "c" only, and the skip does not lose "c".
   */
  lemma OversizedScenario()
    ensures Owned(LONG, 0, 10, 4) == [Entry(0, [0x61]), Entry(8, [0x63])]
  {
    var s := LONG;
    LongLines();
    assert Lines(s, 10, 10, 4) == [];
    assert Lines(s, 8, 10, 4) == LineRecord(s, 8, 4) + Lines(s, 10, 10, 4);
    assert Lines(s, 2, 10, 4) == LineRecord(s, 2, 4) + Lines(s, 8, 10, 4);
    assert Owned(s, 0, 10, 4) == LineRecord(s, 0, 4) + Lines(s, 2, 10, 4);
  }
}
