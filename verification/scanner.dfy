/**
 * The line scanner that the record reader drives (AteLineReader: `readLine` and
 * `needAdditionalRecordAfterSplit`). Its source is not part of this model, so it is
 * represented by a function value together with the contract the reader relies on.
 * That contract is an assumption about the scanner, which this model does not
 * cover, taken as a hypothesis (`Sound`) by every operation that calls it.
 */
module Scanner {
  import opened Primitives

  /**
   * The result of one `readLine(value, cap, budget)` call: the record bytes put in
   * `value`, the number of stream bytes the call advanced past (the return value),
   * and the scanner's needAdditionalRecordAfterSplit flag after the call.
   */
  datatype Scan = Scan(record: seq<bv8>, consumed: nat, needMore: bool)

  /** A scanner reads stream `s` at an offset, with a line cap and a byte budget. */
  type LineScanner = (seq<bv8>, nat, int, int) -> Scan

  /** Bytes of `s` left at `offset` (none once the offset is past the end). */
  function Remaining(s: seq<bv8>, offset: nat): nat {
    if offset < |s| then |s| - offset else 0
  }

  /** `v` is exactly the bytes of `s` starting at `offset`. */
  predicate Verbatim(s: seq<bv8>, offset: nat, v: seq<bv8>) {
    |v| == 0 || (offset + |v| <= |s| && v == s[offset..offset + |v|])
  }

  /**
   * What the reader assumes of one scan at `offset` with line cap `cap`: it consumes
   * nothing exactly at the end of the stream, never more than what is left, delivers
   * at most `cap` bytes and no more than it consumed, and delivers the stream's own
   * bytes from the offset on.
   */
  predicate ScanOk(s: seq<bv8>, offset: nat, cap: int, sc: Scan) {
    && (sc.consumed == 0 <==> offset >= |s|)
    && sc.consumed <= Remaining(s, offset)
    && |sc.record| <= sc.consumed
    && (cap >= 0 ==> |sc.record| <= cap)
    && Verbatim(s, offset, sc.record)
  }

  /** The assumed contract of the scanner, for every stream, offset, cap and budget. */
  ghost predicate Sound(scan: LineScanner) {
    forall s: seq<bv8>, offset: nat, cap: int, budget: int ::
      ScanOk(s, offset, cap, scan(s, offset, cap, budget))
  }
}
