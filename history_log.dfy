/**
 * The persisted scan history both storage helpers keep: one blob under a
 * fixed file name or key, holding the whole log as JSON, most recent first.
 * JSON is taken to round-trip exactly, so a blob is either absent, a log, or
 * content that `JSON.parse` rejects.
 */
module HistoryLog {

  datatype Blob<T> = Absent | Stored(log: seq<T>) | Corrupt

  /**
   * What `getHistory` returns: the stored log, or `[]` when the blob is
   * absent, unparsable, or could not be read (`readOk` false).
   */
  function Loaded<T>(b: Blob<T>, readOk: bool): (items: seq<T>)
    ensures b.Absent? || b.Corrupt? || !readOk ==> items == []
    ensures b.Stored? && readOk ==> items == b.log
  {
    if readOk && b.Stored? then b.log else []
  }

  /**
   * The blob after an append: the loaded log with `item` in front, written
   * back whole; a failed write (`writeOk` false) leaves the blob as it was.
   */
  function Appended<T>(b: Blob<T>, item: T, readOk: bool, writeOk: bool): (r: Blob<T>)
    ensures writeOk ==> r.Stored? && |r.log| == |Loaded(b, readOk)| + 1
    ensures writeOk ==> r.log[0] == item && r.log[1..] == Loaded(b, readOk)
    ensures !writeOk ==> r == b
  {
    if writeOk then Stored([item] + Loaded(b, readOk)) else b
  }

  /** The blob after a clear: gone, unless the delete failed. */
  function Cleared<T>(b: Blob<T>, deleteOk: bool): (r: Blob<T>)
    ensures deleteOk ==> forall readOk :: Loaded(r, readOk) == []
    ensures !deleteOk ==> r == b
  {
    if deleteOk then Absent else b
  }

  /** A successful append puts the item first and keeps every earlier entry, in order, behind it. */
  lemma AppendPrepends<T>(b: Blob<T>, item: T)
    ensures var after := Loaded(Appended(b, item, true, true), true);
      |after| == |Loaded(b, true)| + 1 && after[0] == item && after[1..] == Loaded(b, true)
  {
  }

  /** Appending A and then B lists B before A, ahead of what was there. */
  lemma AppendTwice<T>(b: Blob<T>, x: T, y: T)
    ensures Loaded(Appended(Appended(b, x, true, true), y, true, true), true) == [y, x] + Loaded(b, true)
  {
  }

  /** An unparsable blob, or one that could not be read, is overwritten by a one-entry log. */
  lemma AppendOverUnreadable<T>(b: Blob<T>, item: T, readOk: bool)
    requires b.Corrupt? || !readOk
    ensures Appended(b, item, readOk, true) == Stored([item])
  {
  }

  /** A failed write changes nothing. */
  lemma FailedWriteKeepsLog<T>(b: Blob<T>, item: T, readOk: bool)
    ensures Appended(b, item, readOk, false) == b
  {
  }

  /** Clearing is idempotent and leaves an empty history. */
  lemma ClearIdempotent<T>(b: Blob<T>, readOk: bool)
    ensures Cleared(Cleared(b, true), true) == Cleared(b, true)
    ensures Loaded(Cleared(b, true), readOk) == []
  {
  }
}
