/**
 * `searchMedication` of utils/ocr.ts: the first entry of the built-in
 * database whose lower-cased name occurs in the lower-cased text.
 */
module Ocr {

  import opened Wrappers
  import opened Text
  import opened Medications

  /** The lower-cased text contains the entry's lower-cased name. */
  predicate NameIn(normalized: string, med: Medication) {
    Contains(normalized, Lower(med.name))
  }

  /** `meds[i]` is named in the text and no earlier entry is. */
  ghost predicate EarliestNamed(normalized: string, meds: seq<Medication>, i: int) {
    0 <= i < |meds| && NameIn(normalized, meds[i]) &&
    forall j :: 0 <= j < i ==> !NameIn(normalized, meds[j])
  }

  /** The array search: the index of the first entry named in the text. */
  function FindNamed(normalized: string, meds: seq<Medication>): (r: Option<nat>)
    ensures r.Some? ==> EarliestNamed(normalized, meds, r.value)
    ensures r.None? ==> forall j :: 0 <= j < |meds| ==> !NameIn(normalized, meds[j])
  {
    if meds == [] then None
    else if NameIn(normalized, meds[0]) then Some(0)
    else match FindNamed(normalized, meds[1..])
      case None => None
      case Some(i) => Some(i + 1)
  }

  /**
   * `searchMedication`: the first database entry named in `text`, ignoring
   * ASCII case, or `None` exactly when no entry's name occurs in it.
   */
  function SearchMedication(text: string): (r: Option<Medication>)
    ensures r.None? <==> forall i :: 0 <= i < |Database()| ==> !NameIn(Lower(text), Database()[i])
    ensures r.Some? ==> exists i :: EarliestNamed(Lower(text), Database(), i) && r.value == Database()[i]
  {
    match FindNamed(Lower(text), Database())
    case None => None
    case Some(i) => Some(Database()[i])
  }

  /** Texts equal up to ASCII case find the same entry. */
  lemma SearchIgnoresCase(s: string, t: string)
    requires EqualIgnoringCase(s, t)
    ensures SearchMedication(s) == SearchMedication(t)
  {
    LowerEqualIffIgnoringCase(s, t);
  }

  /** A text shorter than every name, the empty text included, finds nothing. */
  lemma SearchShortText(text: string)
    requires |text| < 6
    ensures SearchMedication(text) == None
  {
    var db := Database();
    forall i | 0 <= i < |db| ensures !NameIn(Lower(text), db[i]) {
      assert |db[i].name| >= 6 by {
        assert i == 0 || i == 1 || i == 2 || i == 3 || i == 4;
      }
    }
  }


  /** A text naming exactly one entry finds that entry. */
  lemma SearchSingleMention(text: string, i: nat)
    requires i < |Database()| && NameIn(Lower(text), Database()[i])
    requires forall j :: 0 <= j < |Database()| && j != i ==> !NameIn(Lower(text), Database()[j])
    ensures SearchMedication(text) == Some(Database()[i])
  {
  }

  /** Each entry's own name, in any case, finds that entry and no other. */
  lemma SearchFindsEachName(text: string, i: nat)
    requires i < |Database()| && EqualIgnoringCase(text, Database()[i].name)
    ensures SearchMedication(text) == Some(Database()[i])
  {
    LowerEqualIffIgnoringCase(text, Database()[i].name);
    ContainsInfix([], Lower(text), []);
    assert [] + Lower(text) + [] == Lower(text);
    DatabaseNamesUnrelated();
    SearchSingleMention(text, i);
  }
}
