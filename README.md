# RxVerify matching and scan history, in Dafny

RxVerify is a mobile app. It photographs medication packaging, sends the image to an OCR web service, and looks the recognised text up in a small list of known medications. Almost all of it is screens. This project models its two pieces of logic:

- **The matchers.** Three prototypes turn recognised text into at most one known medication. Each does a first-match, case-insensitive substring search over a catalog:
  - `findMedication` (services/verification.ts) takes a list of lines and checks every alias of every record. Module `Verification`.
  - `analyzeDrugText` (src/utils/drugSearch.js) validates and normalises one text, then checks brand and generic names. It returns a status/data/message triple. Module `DrugSearch`.
  - `searchMedication` (utils/ocr.ts) checks one name per entry of the built-in five-entry database (constants/medications.ts). Modules `Ocr` and `Medications`.
- **The scan history.** This is a most-recent-first log kept as one serialised blob. Appending reads the whole log, puts the new entry in front and writes everything back. Listing returns `[]` on any problem. Clearing deletes the blob. There are two copies:
  - over a file (services/storage.ts): class `FileHistory.FileHistoryStore`;
  - over an AsyncStorage key (utils/storage.ts): class `KeyHistory.KeyHistoryStore`.

  Both share the blob states and transitions of module `HistoryLog`.

Module `Text` models the JavaScript string primitives the matchers use: lower-casing, `includes`, `trim`, and collapsing whitespace runs. Whitespace is exactly ECMAScript's WhiteSpace and LineTerminator set, which `trim` and the regular-expression class `\s` share. The empty needle occurs in every text, as with `includes`.

The catalogs that `findMedication` and `analyzeDrugText` import (data/medications.json and assets/data/drugs.json) are not part of this model. They are parameters. The built-in database of constants/medications.ts is written out in full as `Medications.Database`.

For the history stores, the clock (`Date.now()`) is a `now` parameter. Each storage call can fail, so its outcome is a boolean parameter: `readOk`, `writeOk`, `deleteOk`/`removeOk`. The stored blob is `Absent`, `Stored(log)` or `Corrupt` (content that `JSON.parse` rejects), and JSON is taken to round-trip exactly.

## Model

| member | source | states |
|---|---|---|
| Text.Lower | services/verification.ts:13 | ASCII `toLowerCase`: same length, each character mapped on its own (upper-case ASCII letters to lower case, everything else unchanged); with LowerIsLower and LowerEqualIffIgnoringCase it is idempotent and identifies exactly the texts equal up to ASCII case |
| Text.LowerIsLower | services/verification.ts:13 | lower-casing leaves no upper-case ASCII letter and is idempotent |
| Text.LowerEqualIffIgnoringCase | services/verification.ts:13 | two texts lower-case to the same string if and only if they differ only in ASCII case (case is defined independently of the lower-casing function) |
| Text.Contains | services/verification.ts:19 | `includes`: the needle occurs at some position; a contained needle is never longer than the text, and with ContainsEmpty, ContainsInfix and ContainsWiden it is substring containment, the empty needle included |
| Text.ContainsEmpty | services/verification.ts:19 | the empty name is contained in every text, as with `includes` |
| Text.ContainsInfix | services/verification.ts:18-19 | a name placed anywhere inside a longer text is contained in it (substring, not equality) |
| Text.ContainsWiden | services/verification.ts:18-19 | containment survives adding text on both sides |
| Text.NotContainedInEmpty | utils/ocr.ts:21-23 | a non-empty name never occurs in the empty text |
| Text.LowerKeepsSpaces | src/utils/drugSearch.js:38 | lower-casing neither creates nor removes whitespace |
| Text.Trim | src/utils/drugSearch.js:26 | `trim`: never longer than its input; TrimShape and the shape lemmas of its two halves state that it drops exactly the leading and trailing whitespace |
| Text.TrimStartShape | src/utils/drugSearch.js:38 | trimming the front keeps a suffix of the input, drops only whitespace, and leaves a result that does not start with whitespace |
| Text.TrimEndShape | src/utils/drugSearch.js:38 | trimming the back keeps a prefix of the input, drops only whitespace, and leaves a result that does not end with whitespace |
| Text.TrimShape | src/utils/drugSearch.js:26 | the trimmed text has no whitespace at either end, holds only characters of the input, and is empty exactly when the input is blank |
| Text.TrimIgnoresPadding | src/utils/drugSearch.js:38 | trimming ignores whitespace padding of any length on either side |
| Text.TrimAroundRun | src/utils/drugSearch.js:38 | with text on both sides, trimming keeps an interior whitespace run as it is |
| Text.Collapse | src/utils/drugSearch.js:38 | `replace(/\s+/g, ' ')`: never longer than its input (each run shrinks to one space); CollapseEnds, CollapseSingleSpaced, CollapseKeepsChars and CollapseAnyRun state what it keeps and removes |
| Text.CollapseEnds | src/utils/drugSearch.js:38 | collapsing keeps a text empty or non-empty, and keeps whether it starts or ends with whitespace |
| Text.CollapseSingleSpaced | src/utils/drugSearch.js:38 | after collapsing, the only whitespace is the plain space and no two whitespace characters are adjacent |
| Text.CollapseKeepsChars | src/utils/drugSearch.js:38 | every non-whitespace character of the collapsed text comes from the input |
| Text.CollapseAnyRun | src/utils/drugSearch.js:38 | replacing one non-empty whitespace run by any other leaves the collapsed text unchanged |
| Text.CollapseKeepsWord | src/utils/drugSearch.js:38 | a space-free word at the front passes through collapsing unchanged |
| Verification.LowerAll | services/verification.ts:13 | the lower-cased lines, one for one with the input lines |
| Verification.SomeIncludes | services/verification.ts:19 | true if and only if some lower-cased line contains the needle |
| Verification.AnyNameIncluded | services/verification.ts:16-21 | true if and only if some name of the record, lower-cased, is contained in some line |
| Verification.FirstIncluded | services/verification.ts:15-24 | the index of the first catalog record with an included name, or none when no record has one |
| Verification.MentionedIffIncluded | services/verification.ts:13-19 | the nested search over the lower-cased lines agrees with the specification "some alias occurs case-insensitively in some line" |
| Verification.FindMedication | services/verification.ts:12-25 | soundness and completeness: none if and only if no alias of any record occurs in any lower-cased line; otherwise the unmodified earliest catalog record having a matching alias; none for an empty input |
| Verification.FindMedicationIgnoresCase | services/verification.ts:13 | lines that differ only in ASCII case give the same result |
| Verification.NoiseDoesNotHideMatch | services/verification.test.ts:4-8 | any one line containing an alias of record i, among any noise lines, yields a match that is record i or an earlier one |
| Verification.NameAloneMatches | services/verification.ts:15-22 | a single line spelling an alias of record i in any case matches record i or an earlier one |
| Verification.PanadolExample | services/verification.ts:12-25 | with a Panadol-only catalog, "Scanned: PANADOL EXTRA 500MG" matches the Panadol record |
| Verification.AspirinExample | services/verification.ts:12-25 | with a Panadol-only catalog, "Aspirin" matches nothing |
| Verification.PanadolExtraAmongNoise | services/verification.test.ts:4-8 | the test input with "Panadol Extra" among noise lines matches whenever the catalog lists the alias "Panadol" |
| DrugSearch.Normalize | src/utils/drugSearch.js:38 | lower-case, trim, collapse: never longer than the input; the Normalize lemmas below state what the normalised text looks like |
| DrugSearch.NormalizeIsLower | src/utils/drugSearch.js:38 | the normalised text has no upper-case ASCII letter |
| DrugSearch.NormalizeSingleSpaced | src/utils/drugSearch.js:38 | the normalised text has no leading or trailing whitespace and its only whitespace is single spaces |
| DrugSearch.NormalizeEmptyIffBlank | src/utils/drugSearch.js:26-38 | the normalised text is empty exactly for blank input, which validation rejects first |
| DrugSearch.NormalizeIgnoresCase | src/utils/drugSearch.js:38 | texts that differ only in ASCII case normalise alike |
| DrugSearch.NormalizeIgnoresPadding | src/utils/drugSearch.js:38 | whitespace padding around the text is dropped |
| DrugSearch.NormalizeAnyRun | src/utils/drugSearch.js:38 | any interior whitespace run, whatever its length or characters, normalises alike |
| DrugSearch.NormalizeKeepsLeadingWord | src/utils/drugSearch.js:38 | a space-free word at the front survives normalisation, lower-cased |
| DrugSearch.FirstDrug | src/utils/drugSearch.js:43-58 | the index of the first drug whose brand or generic name the text contains, or none when no drug's name occurs |
| DrugSearch.AnalyzeDrugText | src/utils/drugSearch.js:23-66 | non-string or blank input gives failed/none/'No text was provided for analysis.'; otherwise success if and only if some drug's lower-cased brand or generic name occurs in the normalised text; the data is then the first such drug with 'Drug identified successfully.'; otherwise failed/none with the not-identified message; status is success if and only if data is present, on every path |
| DrugSearch.AnalyzeIgnoresCaseAndSpacing | src/utils/drugSearch.js:38-50 | changing ASCII case and changing an interior whitespace run do not change the outcome |
| DrugSearch.AnalyzeIgnoresPadding | src/utils/drugSearch.js:26-50 | whitespace padding around the scanned text does not change the outcome |
| DrugSearch.MatchFoundNoLaterThan | src/utils/drugSearch.js:43-57 | a non-blank text whose normalised form contains a name of drug i is identified as drug i or an earlier drug |
| DrugSearch.LeadingBrandIdentified | src/utils/drugSearch.js:47-50 | a text beginning with a drug's space-free brand name is identified as that drug or an earlier one |
| DrugSearch.PanadolTabletsExample | src/utils/drugSearch.js:47-50 | "Panadol 500mg tablets" identifies a drug branded "Panadol" |
| Medications.Database | constants/medications.ts:10-51 | `MEDICATION_DATABASE`: exactly five entries, written out field by field in declared order; the lemmas below state its ids, flags and names |
| Medications.DatabaseIdsDistinct | constants/medications.ts:10-51 | the ids '1' to '5' are pairwise distinct |
| Medications.DatabaseRiskFlags | constants/medications.ts:10-51 | only 'Unknown Pills' is of type risk, and an entry is verified exactly when it is safe |
| Medications.LowerNames | constants/medications.ts:13-45 | the lower-cased names of the five entries |
| Medications.DatabaseNamesNonEmpty | constants/medications.ts:13-45 | every lower-cased name is non-empty |
| Medications.DatabaseNamesUnrelated | constants/medications.ts:13-45 | no entry's lower-cased name is a substring of another entry's |
| Ocr.FindNamed | utils/ocr.ts:22-24 | the index of the first entry whose lower-cased name occurs in the text, or none when no name occurs |
| Ocr.SearchMedication | utils/ocr.ts:20-25 | none if and only if no database name occurs case-insensitively in the text; otherwise the first such database entry |
| Ocr.SearchIgnoresCase | utils/ocr.ts:21-23 | texts equal up to ASCII case find the same entry |
| Ocr.SearchShortText | utils/ocr.ts:20-25 | a text shorter than six characters, the empty text included, finds nothing, because every name is at least that long |
| Ocr.SearchSingleMention | utils/ocr.ts:22-24 | a text naming exactly one entry finds that entry |
| Ocr.SearchFindsEachName | utils/ocr.ts:20-25 | each entry's own name, in any case, finds that entry and no other |
| HistoryLog.Loaded | services/storage.ts:10-22 | listing gives the stored log, or `[]` when the blob is absent, unparsable or unreadable |
| HistoryLog.Appended | services/storage.ts:24-34 | the blob after `addToHistory` (and `saveScan`, utils/storage.ts:10-19): on a successful write a stored log one longer than the loaded log, with the new entry first and the loaded log behind it; on a failed write the blob as it was |
| HistoryLog.Cleared | services/storage.ts:36-42 | the blob after `clearHistory` (both copies; utils/storage.ts:31-37): after a successful delete every listing is `[]`; after a failed one the blob is unchanged |
| HistoryLog.AppendPrepends | services/storage.ts:26-30 | a successful append grows the log by one, puts the new entry first, and keeps the old entries in order behind it |
| HistoryLog.AppendTwice | services/storage.ts:29 | appending A then B lists B, A, then the earlier entries |
| HistoryLog.AppendOverUnreadable | services/storage.ts:17-30 | an unparsable or unreadable blob is overwritten by a one-entry log |
| HistoryLog.FailedWriteKeepsLog | services/storage.ts:30-33 | a failed write leaves the blob unchanged |
| HistoryLog.ClearIdempotent | services/storage.ts:36-42 | clearing twice equals clearing once, and afterwards the history lists as `[]` |
| FileHistory.Stamp | services/storage.ts:27 | `{ ...med, timestamp }`: the entry's medication fields are exactly the medication's, and its timestamp is the given time |
| FileHistory.StampRoundTrip | services/storage.ts:27 | an entry carries every field of its medication plus the given timestamp, and nothing else |
| FileHistory.FileHistoryStore.GetHistory | services/storage.ts:10-22 | returns the loaded log and never fails |
| FileHistory.FileHistoryStore.AddToHistory | services/storage.ts:24-34 | the file becomes the loaded log with the stamped medication in front; unchanged on a failed write |
| FileHistory.FileHistoryStore.ClearHistory | services/storage.ts:36-42 | the file is gone after a successful delete; unchanged otherwise |
| FileHistory.AddTwiceThenList | services/storage.ts:26-30 | adding A then B to a readable history lists B, A, then the earlier entries |
| FileHistory.AddToEmptyThenList | services/storage.ts:12-15 | on a fresh device one add lists exactly one entry, with the medication's fields and the given timestamp |
| FileHistory.AddOverCorruptThenList | services/storage.ts:17-20 | adding over an unparsable file leaves a one-entry log |
| FileHistory.FailedAddThenList | services/storage.ts:31-33 | a failed write leaves the listed history as it was |
| FileHistory.ClearTwiceThenList | services/storage.ts:38 | clearing twice is harmless and leaves an empty history |
| KeyHistory.Stamp | utils/storage.ts:13 | `{ ...medication, timestamp }`: the entry's medication fields are exactly the medication's, and its timestamp is the given time |
| KeyHistory.StampRoundTrip | utils/storage.ts:13 | an entry carries every field of its medication plus the given timestamp, and nothing else |
| KeyHistory.KeyHistoryStore.GetHistory | utils/storage.ts:21-29 | returns the loaded log: `[]` when the key is missing, unreadable or unparsable; never fails |
| KeyHistory.KeyHistoryStore.SaveScan | utils/storage.ts:10-19 | the stored value becomes the loaded log with the stamped medication in front; unchanged on a failed write |
| KeyHistory.KeyHistoryStore.ClearHistory | utils/storage.ts:31-37 | the key is gone after a successful remove; unchanged otherwise |
| KeyHistory.SaveTwiceThenList | utils/storage.ts:12-15 | saving A then B to a readable history lists B, A, then the earlier entries |
| KeyHistory.SaveOverCorruptThenList | utils/storage.ts:23-28 | saving over an unparsable value leaves a one-entry log |
| KeyHistory.FailedSaveThenList | utils/storage.ts:15-18 | a failed write leaves the listed history as it was |
| KeyHistory.ClearTwiceThenList | utils/storage.ts:31-36 | clearing twice is harmless and leaves an empty history |

## Left out

- Full Unicode `toLowerCase`: only ASCII letters are lower-cased. Whitespace, however, is the full ECMAScript set.
- `processImage` (utils/ocr.ts:3-17): it picks a random entry after a timer, so there is nothing to state about it beyond membership.
- The OCR clients, the screens, navigation, camera and styling: these are I/O and presentation.
- The JSON datasets data/medications.json and assets/data/drugs.json: they are not part of this model, so the catalogs are parameters. `DrugSearch.Drug` keeps only the two names the search reads; the entry's other fields stand in a single `details` string.
- JSON encoding and decoding: a blob is absent, a log that round-trips exactly, or unparsable. A blob holding valid JSON that is not an array is not modelled. For such a blob, `getHistory` returns the parsed value itself rather than `[]` (services/storage.ts:17, utils/storage.ts:24). An append then depends on the value. For `null`, a number, a boolean or an object, the array spread throws, the error is caught, and nothing is written. A top-level string is spread character by character, and the mangled log of the new entry followed by one entry per character is written back (services/storage.ts:29-30, utils/storage.ts:14-15).
- Runtime type errors inside the matchers: a dataset entry without a string name would throw in the source. The model's records always carry strings.
- The `readOk`/`writeOk`/`deleteOk` parameters stand for every I/O failure. The logged diagnostic (`console.error`) is not modelled.
- Concurrency: two overlapping asynchronous appends can lose an entry in the source. The model runs each operation to completion.
- `Date.now()` is a parameter. Nothing requires successive timestamps to grow, and the source does not enforce it either.
- The field `type` of constants/medications.ts is named `kind`, because `type` is a Dafny keyword.
