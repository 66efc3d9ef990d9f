/**
 * constants/medications.ts: the medication record of the scanner prototype and
 * its five-entry built-in database.
 */
module Medications {

  import opened Text

  /** The record's `type` field ('safe' or 'risk'). */
  datatype MedType = Safe | Risk

  datatype Medication = Medication(
    id: string,
    name: string,
    usage: string,
    warnings: seq<string>,
    verified: bool,
    kind: MedType)

  /** `MEDICATION_DATABASE`, in its declared order: five entries. */
  function Database(): (db: seq<Medication>)
    ensures |db| == 5
  {
    [
      Medication("1", "Panadol",
        "Take 1-2 tablets every 4-6 hours. Do not exceed 8 tablets in 24 hours.",
        ["Contains Paracetamol", "Do not take with other paracetamol products"], true, Safe),
      Medication("2", "Amoxil",
        "Take 1 capsule every 8 hours. Complete the full course.",
        ["Contains Penicillin", "May cause allergic reaction"], true, Safe),
      Medication("3", "Lipitor",
        "Take 1 tablet daily at the same time.",
        ["Avoid grapefruit juice", "May cause muscle pain"], true, Safe),
      Medication("4", "Ibuprofen",
        "Take with food to avoid stomach upset.",
        ["Do not take if you have stomach ulcers", "May increase risk of heart attack"], true, Safe),
      Medication("5", "Unknown Pills",
        "Unknown usage. Consult a doctor immediately.",
        ["Verification Failed", "Potential Counterfeit"], false, Risk)
    ]
  }

  /** The ids '1' to '5' are pairwise distinct. */
  lemma DatabaseIdsDistinct()
    ensures forall i, j :: 0 <= i < j < |Database()| ==> Database()[i].id != Database()[j].id
  {
  }

  /** Only 'Unknown Pills' is a risk, and an entry is verified exactly when it is safe. */
  lemma DatabaseRiskFlags()
    ensures forall i :: 0 <= i < |Database()| ==>
      (Database()[i].kind == Risk <==> Database()[i].name == "Unknown Pills") &&
      (Database()[i].verified <==> Database()[i].kind == Safe)
  {
  }

  /** The lower-cased names, as `searchMedication` compares them. */
  lemma LowerNames()
    ensures Lower(Database()[0].name) == "panadol"
    ensures Lower(Database()[1].name) == "amoxil"
    ensures Lower(Database()[2].name) == "lipitor"
    ensures Lower(Database()[3].name) == "ibuprofen"
    ensures Lower(Database()[4].name) == "unknown pills"
  {
    assert Lower("Panadol") == "panadol";
    assert Lower("Amoxil") == "amoxil";
    assert Lower("Lipitor") == "lipitor";
    assert Lower("Ibuprofen") == "ibuprofen";
    assert Lower("Unknown Pills") == "unknown pills";
  }

  /** Every name is non-empty, so no name occurs in the empty text. */
  lemma DatabaseNamesNonEmpty()
    ensures forall i :: 0 <= i < |Database()| ==> Lower(Database()[i].name) != ""
  {
    LowerNames();
  }

  /** A needle whose first two characters never appear together in `hay` does not occur in it. */
  lemma NotOccurring(hay: string, needle: string)
    requires |needle| >= 2
    requires forall k :: 0 <= k <= |hay| - |needle| ==> hay[k] != needle[0] || hay[k + 1] != needle[1]
    ensures !Contains(hay, needle)
  {
    forall k: nat | k <= |hay| ensures !OccursAt(hay, needle, k) {
      if k + |needle| <= |hay| {
        assert hay[k..k + |needle|][0] == hay[k] && hay[k..k + |needle|][1] == hay[k + 1];
      }
    }
  }

  /**
   * No lower-cased name occurs inside another, so a text that spells one
   * name mentions no other entry.
   */
  lemma DatabaseNamesUnrelated()
    ensures forall i, j :: 0 <= i < |Database()| && 0 <= j < |Database()| && i != j ==>
      !Contains(Lower(Database()[i].name), Lower(Database()[j].name))
  {
    var names := ["panadol", "amoxil", "lipitor", "ibuprofen", "unknown pills"];
    forall i, j | 0 <= i < |names| && 0 <= j < |names| && i != j
      ensures !Contains(names[i], names[j])
    {
      NotOccurring(names[i], names[j]);
    }
    forall i | 0 <= i < |Database()| ensures Lower(Database()[i].name) == names[i] {
      LowerNames();
      assert i == 0 || i == 1 || i == 2 || i == 3 || i == 4;
    }
  }
}
