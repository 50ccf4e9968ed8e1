/**
 * A concrete scanner for records terminated by one '\n' byte.
 *
 * ASSUMPTION: AteLineReader is not part of this model. This instance stands for it
 * with a single '\n' delimiter: it delivers the bytes before the next
 * '\n' (truncated to the line cap), consumes the line together with its '\n', never
 * looks past the delimiter (so it never reports an overrun), and ignores the byte
 * budget, as the buffered scanner effectively does for lines shorter than its
 * buffer. It is used only to prove end-to-end properties of the split protocol.
 */
module NewlineScanner {
  import opened Primitives
  import opened Scanner

  const NL: bv8 := 0x0A

  /** Index of the first '\n' at or after `offset`, or |s| when there is none. */
  function NewlineAt(s: seq<bv8>, offset: nat): (e: nat)
    requires offset <= |s|
    ensures offset <= e <= |s|
    ensures e < |s| ==> s[e] == NL
    decreases |s| - offset
  {
    if offset == |s| || s[offset] == NL then offset else NewlineAt(s, offset + 1)
  }

  /** No '\n' lies between `offset` and the first one found from there. */
  lemma {:induction false} BeforeNewline(s: seq<bv8>, offset: nat, i: nat)
    requires offset <= |s| && offset <= i < NewlineAt(s, offset)
    ensures s[i] != NL
    decreases |s| - offset
  {
    if i > offset {
      BeforeNewline(s, offset + 1, i);
    }
  }

  /** Offset at which the line after the one starting at `offset` begins. */
  function LineEnd(s: seq<bv8>, offset: nat): (n: nat)
    ensures offset < |s| ==> offset < n <= |s|
    ensures offset >= |s| ==> n == offset
    ensures offset < |s| && n < |s| ==> s[n - 1] == NL
  {
    if offset >= |s| then offset
    else
      var e := NewlineAt(s, offset);
      if e < |s| then e + 1 else |s|
  }

  /** One read of the line starting at `offset`. */
  function LineScan(s: seq<bv8>, offset: nat, cap: int, budget: int): (sc: Scan)
    ensures ScanOk(s, offset, cap, sc)
    ensures offset + sc.consumed == LineEnd(s, offset)
    ensures !sc.needMore
    ensures offset < |s| ==> |sc.record| <= NewlineAt(s, offset) - offset
    ensures offset < |s| && cap >= NewlineAt(s, offset) - offset ==>
              sc.record == s[offset..NewlineAt(s, offset)]
  {
    if offset >= |s| then Scan([], 0, false)
    else
      var e := NewlineAt(s, offset);
      var keep := if cap < 0 then 0 else Min(e - offset, cap);
      Scan(s[offset..offset + keep], LineEnd(s, offset) - offset, false)
  }

  /** The newline scanner meets the contract the reader assumes of any scanner. */
  lemma LineScanSound()
    ensures Sound(LineScan)
  {
    forall s: seq<bv8>, offset: nat, cap: int, budget: int
      ensures ScanOk(s, offset, cap, LineScan(s, offset, cap, budget))
    {
    }
  }
}
