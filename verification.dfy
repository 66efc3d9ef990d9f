/**
 * `findMedication` of services/verification.ts: the first catalog record one of
 * whose names occurs, case-insensitively, inside one of the recognised text
 * lines. The catalog is the bundled reference dataset, passed in.
 */
module Verification {

  import opened Wrappers
  import opened Text

  /** A reference record; `names` are its brand and generic aliases. */
  datatype Medication = Medication(
    id: string,
    names: seq<string>,
    description: string,
    dosage: string,
    interactions: seq<string>,
    warnings: string)

  // ---------------------------------------------------------------------------
  // Specification

  /** Some recognised line, lower-cased, contains the lower-cased `name`. */
  ghost predicate NameRecognised(texts: seq<string>, name: string) {
    exists j :: 0 <= j < |texts| && Contains(Lower(texts[j]), Lower(name))
  }

  /** Some name of `med` is recognised in `texts`. */
  ghost predicate Mentioned(texts: seq<string>, med: Medication) {
    exists k :: 0 <= k < |med.names| && NameRecognised(texts, med.names[k])
  }

  /** `catalog[i]` is mentioned and no earlier record is. */
  ghost predicate EarliestMentioned(texts: seq<string>, catalog: seq<Medication>, i: int) {
    0 <= i < |catalog| && Mentioned(texts, catalog[i]) &&
    forall j :: 0 <= j < i ==> !Mentioned(texts, catalog[j])
  }

  // ---------------------------------------------------------------------------
  // The search as the source runs it

  /** Every recognised line, lower-cased. */
  function LowerAll(texts: seq<string>): (r: seq<string>)
    ensures |r| == |texts| && forall j :: 0 <= j < |texts| ==> r[j] == Lower(texts[j])
  {
    seq(|texts|, j requires 0 <= j < |texts| => Lower(texts[j]))
  }

  /** Does some lower-cased line contain `needle`? */
  function SomeIncludes(normalized: seq<string>, needle: string): (b: bool)
    ensures b <==> exists j :: 0 <= j < |normalized| && Contains(normalized[j], needle)
  {
    if normalized == [] then false
    else Contains(normalized[0], needle) || SomeIncludes(normalized[1..], needle)
  }

  /** The inner loop over `med.names`: does any of `names` occur in a line? */
  function AnyNameIncluded(normalized: seq<string>, names: seq<string>): (b: bool)
    ensures b <==> (exists k :: 0 <= k < |names| &&
                     exists j :: 0 <= j < |normalized| && Contains(normalized[j], Lower(names[k])))
  {
    if names == [] then false
    else if SomeIncludes(normalized, Lower(names[0])) then true
    else
      var b := AnyNameIncluded(normalized, names[1..]);
      assert forall k :: 1 <= k < |names| ==> names[k] == names[1..][k - 1];
      b
  }

  /** The outer loop over the catalog: the index of the first record with an included name. */
  function FirstIncluded(normalized: seq<string>, catalog: seq<Medication>): (r: Option<nat>)
    ensures r.Some? ==> r.value < |catalog| && AnyNameIncluded(normalized, catalog[r.value].names)
    ensures r.Some? ==> forall j :: 0 <= j < r.value ==> !AnyNameIncluded(normalized, catalog[j].names)
    ensures r.None? ==> forall j :: 0 <= j < |catalog| ==> !AnyNameIncluded(normalized, catalog[j].names)
  {
    if catalog == [] then None
    else if AnyNameIncluded(normalized, catalog[0].names) then Some(0)
    else match FirstIncluded(normalized, catalog[1..])
      case None => None
      case Some(i) => Some(i + 1)
  }

  /** A record mentioned in `texts` is one whose names the lower-cased lines include. */
  lemma MentionedIffIncluded(texts: seq<string>, med: Medication)
    ensures Mentioned(texts, med) <==> AnyNameIncluded(LowerAll(texts), med.names)
  {
  }

  /**
   * `findMedication`: the earliest catalog record that is mentioned, or `None`
   * exactly when no name of any record occurs in any line.
   */
  function FindMedication(texts: seq<string>, catalog: seq<Medication>): (r: Option<Medication>)
    ensures r.None? <==> forall i :: 0 <= i < |catalog| ==> !Mentioned(texts, catalog[i])
    ensures texts == [] ==> r.None?
    ensures r.Some? ==> exists i :: EarliestMentioned(texts, catalog, i) && r.value == catalog[i]
  {
    var normalized := LowerAll(texts);
    var found := FirstIncluded(normalized, catalog);
    assert forall i :: 0 <= i < |catalog| ==>
      (Mentioned(texts, catalog[i]) <==> AnyNameIncluded(normalized, catalog[i].names)) by {
      forall i | 0 <= i < |catalog| {
        MentionedIffIncluded(texts, catalog[i]);
      }
    }
    match found
    case None => None
    case Some(i) =>
      assert EarliestMentioned(texts, catalog, i);
      Some(catalog[i])
  }

  // ---------------------------------------------------------------------------
  // Properties

  /** Lines that differ only in ASCII case give the same result. */
  lemma {:induction false} FindMedicationIgnoresCase(texts: seq<string>, texts': seq<string>, catalog: seq<Medication>)
    requires |texts| == |texts'|
    requires forall j :: 0 <= j < |texts| ==> EqualIgnoringCase(texts[j], texts'[j])
    ensures FindMedication(texts, catalog) == FindMedication(texts', catalog)
  {
    forall j | 0 <= j < |texts| ensures Lower(texts[j]) == Lower(texts'[j]) {
      LowerEqualIffIgnoringCase(texts[j], texts'[j]);
    }
    assert LowerAll(texts) == LowerAll(texts');
  }

  /**
   * Substring, not equality: when any one line `texts[j]`, among any other
   * noise lines, contains a name of `catalog[i]`, there is a match, and the
   * match is never later than `i`.
   */
  lemma NoiseDoesNotHideMatch(texts: seq<string>, j: nat, catalog: seq<Medication>, i: nat, k: nat)
    requires j < |texts| && i < |catalog| && k < |catalog[i].names|
    requires Contains(Lower(texts[j]), Lower(catalog[i].names[k]))
    ensures FindMedication(texts, catalog).Some?
    ensures exists m :: 0 <= m <= i && FindMedication(texts, catalog) == Some(catalog[m])
  {
    assert NameRecognised(texts, catalog[i].names[k]);
    assert Mentioned(texts, catalog[i]);
  }


  /** A single line spelling a name of `catalog[i]`, in any case, yields a match no later than `i`. */
  lemma NameAloneMatches(line: string, catalog: seq<Medication>, i: nat, k: nat)
    requires i < |catalog| && k < |catalog[i].names|
    requires EqualIgnoringCase(line, catalog[i].names[k])
    ensures exists m :: 0 <= m <= i && FindMedication([line], catalog) == Some(catalog[m])
  {
    LowerEqualIffIgnoringCase(line, catalog[i].names[k]);
    ContainsInfix([], Lower(line), []);
    assert [] + Lower(line) + [] == Lower(line);
    NoiseDoesNotHideMatch([line], 0, catalog, i, k);
  }

  /** A catalog holding only Panadol. */
  function PanadolCatalog(): seq<Medication> {
    [Medication("1", ["Panadol"], "Pain reliever", "1-2 tablets", [], "")]
  }

  /** Upper-case noise around the name still identifies it. */
  lemma PanadolExample()
    ensures FindMedication(["Scanned: PANADOL EXTRA 500MG"], PanadolCatalog()) == Some(PanadolCatalog()[0])
  {
    var before, name, after := "Scanned: ", "PANADOL", " EXTRA 500MG";
    var line := before + name + after;
    assert line == "Scanned: PANADOL EXTRA 500MG";
    assert Lower("Panadol") == "panadol" == Lower(name);
    LowerAppend(before, name);
    LowerAppend(before + name, after);
    ContainsInfix(Lower(before), "panadol", Lower(after));
    NoiseDoesNotHideMatch([line], 0, PanadolCatalog(), 0, 0);
  }

  /** An unrelated name identifies nothing. */
  lemma AspirinExample()
    ensures FindMedication(["Aspirin"], PanadolCatalog()) == None
  {
    assert Lower("Aspirin") == "aspirin";
    assert !Contains("aspirin", "panadol") by {
      forall k: nat | k <= 7 ensures !OccursAt("aspirin", "panadol", k) {
        if k == 0 { assert "aspirin"[0] != "panadol"[0]; }
      }
    }
    assert !Mentioned(["Aspirin"], PanadolCatalog()[0]);
  }

  /** The first case of the module's own test: "Panadol Extra" among noise lines. */
  lemma PanadolExtraAmongNoise(catalog: seq<Medication>, i: nat, k: nat)
    requires i < |catalog| && k < |catalog[i].names| && catalog[i].names[k] == "Panadol"
    ensures FindMedication(["Some random text", "Panadol Extra", "500mg"], catalog).Some?
  {
    var texts := ["Some random text", "Panadol Extra", "500mg"];
    var name, tail := "Panadol", " Extra";
    assert texts[1] == name + tail;
    LowerAppend(name, tail);
    ContainsInfix([], Lower(name), Lower(tail));
    assert [] + Lower(name) + Lower(tail) == Lower(texts[1]);
    NoiseDoesNotHideMatch(texts, 1, catalog, i, k);
  }

}
