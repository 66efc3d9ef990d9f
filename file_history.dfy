/**
 * services/storage.ts: the scan history kept in the file `history.json` of
 * the app's document directory. File-system failures are parameters:
 * `readOk` for the existence check and read, `writeOk` for the write,
 * `deleteOk` for the delete; the clock is the `now` parameter.
 */
module FileHistory {

  import opened HistoryLog
  import Verification

  /** A `Medication` of services/verification.ts with the time it was recorded. */
  datatype HistoryItem = HistoryItem(
    id: string,
    names: seq<string>,
    description: string,
    dosage: string,
    interactions: seq<string>,
    warnings: string,
    timestamp: int)

  /** A new entry: a copy of the medication's fields plus the timestamp. */
  function Stamp(med: Verification.Medication, now: int): (h: HistoryItem)
    ensures Snapshot(h) == med && h.timestamp == now
  {
    HistoryItem(med.id, med.names, med.description, med.dosage, med.interactions, med.warnings, now)
  }

  /** The medication fields of a history entry. */
  function Snapshot(h: HistoryItem): Verification.Medication {
    Verification.Medication(h.id, h.names, h.description, h.dosage, h.interactions, h.warnings)
  }

  /** An entry carries every field of its medication plus the timestamp, and nothing else. */
  lemma StampRoundTrip(med: Verification.Medication, now: int, h: HistoryItem)
    ensures Snapshot(Stamp(med, now)) == med && Stamp(med, now).timestamp == now
    ensures Stamp(Snapshot(h), h.timestamp) == h
  {
  }

  class FileHistoryStore {
    /** The contents of `history.json`. */
    var file: Blob<HistoryItem>

    constructor (initial: Blob<HistoryItem>)
      ensures file == initial
    {
      file := initial;
    }

    /** `getHistory`: never fails; `[]` when the file is absent, unreadable or unparsable. */
    method GetHistory(readOk: bool) returns (items: seq<HistoryItem>)
      ensures items == Loaded(file, readOk)
    {
      if !readOk {
        return [];
      }
      match file
      case Absent => items := [];
      case Corrupt => items := [];
      case Stored(log) => items := log;
    }

    /** `addToHistory`: read the log, put the stamped medication in front, write it all back. */
    method AddToHistory(med: Verification.Medication, now: int, readOk: bool, writeOk: bool)
      modifies this
      ensures file == Appended(old(file), Stamp(med, now), readOk, writeOk)
    {
      var history := GetHistory(readOk);
      var newItem := Stamp(med, now);
      var newHistory := [newItem] + history;
      if writeOk {
        file := Stored(newHistory);
      }
    }

    /** `clearHistory`: delete the file; deleting a missing file is not an error. */
    method ClearHistory(deleteOk: bool)
      modifies this
      ensures file == Cleared(old(file), deleteOk)
    {
      if deleteOk {
        file := Absent;
      }
    }
  }

  /** Adding A and then B to a readable history lists B, then A, then the earlier entries. */
  method AddTwiceThenList(earlier: seq<HistoryItem>, a: Verification.Medication, b: Verification.Medication,
                          t1: int, t2: int) returns (items: seq<HistoryItem>)
    ensures items == [Stamp(b, t2), Stamp(a, t1)] + earlier
  {
    var store := new FileHistoryStore(Stored(earlier));
    store.AddToHistory(a, t1, true, true);
    store.AddToHistory(b, t2, true, true);
    items := store.GetHistory(true);
  }

  /** On a fresh device, one add lists exactly that entry, with its timestamp. */
  method AddToEmptyThenList(med: Verification.Medication, now: int) returns (items: seq<HistoryItem>)
    ensures |items| == 1 && Snapshot(items[0]) == med && items[0].timestamp == now
  {
    var store := new FileHistoryStore(Absent);
    store.AddToHistory(med, now, true, true);
    items := store.GetHistory(true);
  }

  /** Adding over an unparsable file replaces it with a one-entry log. */
  method AddOverCorruptThenList(med: Verification.Medication, now: int) returns (items: seq<HistoryItem>)
    ensures items == [Stamp(med, now)]
  {
    var store := new FileHistoryStore(Corrupt);
    store.AddToHistory(med, now, true, true);
    items := store.GetHistory(true);
  }

  /** A failed write leaves the listed history as it was. */
  method FailedAddThenList(earlier: seq<HistoryItem>, med: Verification.Medication, now: int)
    returns (items: seq<HistoryItem>)
    ensures items == earlier
  {
    var store := new FileHistoryStore(Stored(earlier));
    store.AddToHistory(med, now, true, false);
    items := store.GetHistory(true);
  }

  /** Clearing twice is harmless and leaves an empty history. */
  method ClearTwiceThenList(initial: Blob<HistoryItem>) returns (items: seq<HistoryItem>)
    ensures items == []
  {
    var store := new FileHistoryStore(initial);
    store.ClearHistory(true);
    store.ClearHistory(true);
    items := store.GetHistory(true);
  }
}
