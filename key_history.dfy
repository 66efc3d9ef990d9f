/**
 * utils/storage.ts: the scan history kept under the AsyncStorage key
 * `rxverify_history`. Storage failures are parameters: `readOk` for
 * `getItem`, `writeOk` for `setItem`, `removeOk` for `removeItem`; the clock
 * is the `now` parameter.
 */
module KeyHistory {

  import opened HistoryLog
  import Medications

  const HistoryKey := "rxverify_history"

  /** A `Medication` of constants/medications.ts with the time it was scanned. */
  datatype HistoryItem = HistoryItem(
    id: string,
    name: string,
    usage: string,
    warnings: seq<string>,
    verified: bool,
    kind: Medications.MedType,
    timestamp: int)

  /** A new entry: a copy of the medication's fields plus the timestamp. */
  function Stamp(med: Medications.Medication, now: int): (h: HistoryItem)
    ensures Snapshot(h) == med && h.timestamp == now
  {
    HistoryItem(med.id, med.name, med.usage, med.warnings, med.verified, med.kind, now)
  }

  /** The medication fields of a history entry. */
  function Snapshot(h: HistoryItem): Medications.Medication {
    Medications.Medication(h.id, h.name, h.usage, h.warnings, h.verified, h.kind)
  }

  /** An entry carries every field of its medication plus the timestamp, and nothing else. */
  lemma StampRoundTrip(med: Medications.Medication, now: int, h: HistoryItem)
    ensures Snapshot(Stamp(med, now)) == med && Stamp(med, now).timestamp == now
    ensures Stamp(Snapshot(h), h.timestamp) == h
  {
  }

  class KeyHistoryStore {
    /** The value stored under `HistoryKey`. */
    var stored: Blob<HistoryItem>

    constructor (initial: Blob<HistoryItem>)
      ensures stored == initial
    {
      stored := initial;
    }

    /** `getHistory`: never fails; `[]` when the key is missing, unreadable or unparsable. */
    method GetHistory(readOk: bool) returns (items: seq<HistoryItem>)
      ensures items == Loaded(stored, readOk)
    {
      if !readOk {
        return [];
      }
      match stored
      case Absent => items := [];
      case Corrupt => items := [];
      case Stored(log) => items := log;
    }

    /** `saveScan`: read the log, put the stamped medication in front, store it all back. */
    method SaveScan(med: Medications.Medication, now: int, readOk: bool, writeOk: bool)
      modifies this
      ensures stored == Appended(old(stored), Stamp(med, now), readOk, writeOk)
    {
      var history := GetHistory(readOk);
      var newItem := Stamp(med, now);
      var newHistory := [newItem] + history;
      if writeOk {
        stored := Stored(newHistory);
      }
    }

    /** `clearHistory`: remove the key; removing a missing key is not an error. */
    method ClearHistory(removeOk: bool)
      modifies this
      ensures stored == Cleared(old(stored), removeOk)
    {
      if removeOk {
        stored := Absent;
      }
    }
  }

  /** Saving A and then B to a readable history lists B, then A, then the earlier entries. */
  method SaveTwiceThenList(earlier: seq<HistoryItem>, a: Medications.Medication, b: Medications.Medication,
                           t1: int, t2: int) returns (items: seq<HistoryItem>)
    ensures items == [Stamp(b, t2), Stamp(a, t1)] + earlier
  {
    var store := new KeyHistoryStore(Stored(earlier));
    store.SaveScan(a, t1, true, true);
    store.SaveScan(b, t2, true, true);
    items := store.GetHistory(true);
  }

  /** Saving over an unparsable value replaces it with a one-entry log. */
  method SaveOverCorruptThenList(med: Medications.Medication, now: int) returns (items: seq<HistoryItem>)
    ensures items == [Stamp(med, now)]
  {
    var store := new KeyHistoryStore(Corrupt);
    store.SaveScan(med, now, true, true);
    items := store.GetHistory(true);
  }

  /** A failed `setItem` leaves the listed history as it was. */
  method FailedSaveThenList(earlier: seq<HistoryItem>, med: Medications.Medication, now: int)
    returns (items: seq<HistoryItem>)
    ensures items == earlier
  {
    var store := new KeyHistoryStore(Stored(earlier));
    store.SaveScan(med, now, true, false);
    items := store.GetHistory(true);
  }

  /** Clearing twice is harmless and leaves an empty history. */
  method ClearTwiceThenList(initial: Blob<HistoryItem>) returns (items: seq<HistoryItem>)
    ensures items == []
  {
    var store := new KeyHistoryStore(initial);
    store.ClearHistory(true);
    store.ClearHistory(true);
    items := store.GetHistory(true);
  }
}
