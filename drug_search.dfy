/**
 * `analyzeDrugText` of src/utils/drugSearch.js: validate the scanned text,
 * normalise it, and report the first drug of the dataset whose brand or
 * generic name it contains. The dataset (a JSON file) is passed in.
 */
module DrugSearch {

  import opened Wrappers
  import opened Text

  /** A dataset entry; `details` stands for the entry's remaining fields, returned untouched. */
  datatype Drug = Drug(brandName: string, genericName: string, details: string)

  datatype Status = Success | Failed

  /** The status/data/message triple the analysis returns. */
  datatype Analysis = Analysis(status: Status, data: Option<Drug>, message: string)

  const NoTextMessage := "No text was provided for analysis."
  const FoundMessage := "Drug identified successfully."
  const NotFoundMessage := "Could not identify the drug from the text. Please try scanning again."

  // ---------------------------------------------------------------------------
  // Normalisation

  /** The normalisation step: lower-case, trim, then collapse each whitespace run to one space. */
  function Normalize(s: string): (r: string)
    ensures |r| <= |s|
  {
    Collapse(Trim(Lower(s)))
  }

  /** The normalised text holds no upper-case ASCII letter. */
  lemma NormalizeIsLower(s: string)
    ensures IsLowerText(Normalize(s))
  {
    var l := Lower(s);
    var t := Trim(l);
    var r := Collapse(t);
    LowerIsLower(s);
    TrimShape(l);
    CollapseKeepsChars(t);
    forall i | 0 <= i < |r| ensures !IsUpper(r[i]) {
      if !IsSpace(r[i]) {
        assert r[i] in t;
        assert r[i] in l;
        var j :| 0 <= j < |l| && l[j] == r[i];
      }
    }
  }

  /**
   * The normalised text has no leading or trailing whitespace and its only
   * whitespace is single spaces between words.
   */
  lemma NormalizeSingleSpaced(s: string)
    ensures SingleSpaced(Normalize(s))
    ensures Normalize(s) == [] || (!IsSpace(Normalize(s)[0]) && !IsSpace(Normalize(s)[|Normalize(s)| - 1]))
  {
    var t := Trim(Lower(s));
    TrimShape(Lower(s));
    CollapseEnds(t);
    CollapseSingleSpaced(t);
  }

  /** Normalisation empties exactly the blank texts, which validation rejects. */
  lemma NormalizeEmptyIffBlank(s: string)
    ensures Normalize(s) == [] <==> AllSpace(s)
  {
    LowerKeepsSpaces(s);
    TrimShape(Lower(s));
    CollapseEnds(Trim(Lower(s)));
  }

  /** Texts that differ only in ASCII case normalise alike. */
  lemma NormalizeIgnoresCase(s: string, t: string)
    requires EqualIgnoringCase(s, t)
    ensures Normalize(s) == Normalize(t)
  {
    LowerEqualIffIgnoringCase(s, t);
  }

  /** Whitespace padding around the text is dropped by normalisation. */
  lemma NormalizeIgnoresPadding(u: string, s: string, v: string)
    requires AllSpace(u) && AllSpace(v)
    ensures Normalize(u + s + v) == Normalize(s)
  {
    LowerAppend(u, s);
    LowerAppend(u + s, v);
    LowerOfSpace(u);
    LowerOfSpace(v);
    TrimIgnoresPadding(u, Lower(s), v);
  }

  /** A space-free word at the front of a text survives normalisation, lower-cased. */
  lemma NormalizeKeepsLeadingWord(w: string, m: string)
    requires w != [] && NoSpace(w)
    ensures |Normalize(w + m)| >= |w| && Normalize(w + m)[..|w|] == Lower(w)
  {
    var x, y := Lower(w), Lower(m);
    LowerAppend(w, m);
    LowerKeepsNoSpace(w);
    assert |x| == |w| && !IsSpace(x[0]) && !IsSpace(x[|x| - 1]);
    assert !AllSpace(x) && TrimStart(x) == x;
    TrimStartKeepsTail(x, y);
    assert TrimEnd(x) == x;
    var z;
    if AllSpace(y) {
      TrimEndSpaceSuffix(x, y);
      z := [];
      assert x == x + z;
    } else {
      TrimEndKeepsHead(x, y);
      z := TrimEnd(y);
    }
    assert Trim(x + y) == x + z;
    CollapseKeepsWord(x, z);
  }

  /** Lower-casing the three parts of a text around a whitespace run. */
  lemma LowerAroundRun(a: string, u: string, b: string)
    requires AllSpace(u)
    ensures Lower(a + u + b) == Lower(a) + u + Lower(b)
  {
    LowerAppend(a, u);
    LowerAppend(a + u, b);
    LowerOfSpace(u);
  }

  /** An interior run of whitespace normalises to one space, however long it is. */
  lemma NormalizeAnyRun(a: string, u: string, v: string, b: string)
    requires u != [] && AllSpace(u) && v != [] && AllSpace(v)
    ensures Normalize(a + u + b) == Normalize(a + v + b)
  {
    var x, y := Lower(a), Lower(b);
    LowerAroundRun(a, u, b);
    LowerAroundRun(a, v, b);
    var tu, tv := Trim(x + u + y), Trim(x + v + y);
    assert Normalize(a + u + b) == Collapse(tu) && Normalize(a + v + b) == Collapse(tv);
    if AllSpace(x) && AllSpace(y) {
      assert AllSpace(x + u + y) && AllSpace(x + v + y);
      TrimShape(x + u + y);
      TrimShape(x + v + y);
    } else if AllSpace(x) {
      TrimAfterBlankRun(x, u, y);
      TrimAfterBlankRun(x, v, y);
    } else if AllSpace(y) {
      TrimBeforeBlankRun(x, u, y);
      TrimBeforeBlankRun(x, v, y);
    } else {
      TrimAroundRun(x, u, y);
      TrimAroundRun(x, v, y);
      CollapseAnyRun(TrimStart(x), u, v, TrimEnd(y));
    }
  }

  // ---------------------------------------------------------------------------
  // The search

  /** The normalised text contains the drug's lower-cased brand name or its lower-cased generic name. */
  predicate DrugMatches(text: string, d: Drug) {
    Contains(text, Lower(d.brandName)) || Contains(text, Lower(d.genericName))
  }

  /** `drugs[i]` matches and no earlier drug does. */
  ghost predicate EarliestDrug(text: string, drugs: seq<Drug>, i: int) {
    0 <= i < |drugs| && DrugMatches(text, drugs[i]) &&
    forall j :: 0 <= j < i ==> !DrugMatches(text, drugs[j])
  }

  /** The scan over the dataset with its early return: the index of the first matching drug. */
  function FirstDrug(text: string, drugs: seq<Drug>): (r: Option<nat>)
    ensures r.Some? ==> EarliestDrug(text, drugs, r.value)
    ensures r.None? ==> forall j :: 0 <= j < |drugs| ==> !DrugMatches(text, drugs[j])
  {
    if drugs == [] then None
    else if DrugMatches(text, drugs[0]) then Some(0)
    else match FirstDrug(text, drugs[1..])
      case None => None
      case Some(i) => Some(i + 1)
  }

  /**
   * `analyzeDrugText`. `input` is `None` for a value that is not a string
   * (`null`, `undefined`, a number, ...).
   */
  function AnalyzeDrugText(input: Option<string>, drugs: seq<Drug>): (r: Analysis)
    ensures r.status == Success <==> r.data.Some?
    ensures input.None? || AllSpace(input.value) ==> r == Analysis(Failed, None, NoTextMessage)
    ensures input.Some? && !AllSpace(input.value) ==>
      (r.data.Some? <==> exists i :: 0 <= i < |drugs| && DrugMatches(Normalize(input.value), drugs[i]))
    ensures r.data.Some? ==>
      input.Some? && exists i :: EarliestDrug(Normalize(input.value), drugs, i) && r.data.value == drugs[i]
    ensures r.status == Success ==> r.message == FoundMessage
    ensures input.Some? && !AllSpace(input.value) && r.status == Failed ==>
      r == Analysis(Failed, None, NotFoundMessage)
  {
    if input.None? then
      Analysis(Failed, None, NoTextMessage)
    else
      TrimShape(input.value);
      if |Trim(input.value)| == 0 then
        Analysis(Failed, None, NoTextMessage)
      else
        NormalizeEmptyIffBlank(input.value);
        var normalized := Normalize(input.value);
        match FirstDrug(normalized, drugs)
        case Some(i) => Analysis(Success, Some(drugs[i]), FoundMessage)
        case None => Analysis(Failed, None, NotFoundMessage)
  }

  // ---------------------------------------------------------------------------
  // Properties

  /** Case and the length or kind of an interior whitespace run do not change the outcome. */
  lemma AnalyzeIgnoresCaseAndSpacing(a: string, u: string, v: string, b: string, t: string, drugs: seq<Drug>)
    requires u != [] && AllSpace(u) && v != [] && AllSpace(v)
    requires EqualIgnoringCase(a + u + b, t)
    ensures AnalyzeDrugText(Some(t), drugs) == AnalyzeDrugText(Some(a + v + b), drugs)
  {
    NormalizeIgnoresCase(a + u + b, t);
    NormalizeAnyRun(a, u, v, b);
    NormalizeEmptyIffBlank(t);
    NormalizeEmptyIffBlank(a + v + b);
  }

  /** Whitespace padding around the scanned text does not change the outcome. */
  lemma AnalyzeIgnoresPadding(u: string, s: string, v: string, drugs: seq<Drug>)
    requires AllSpace(u) && AllSpace(v)
    ensures AnalyzeDrugText(Some(u + s + v), drugs) == AnalyzeDrugText(Some(s), drugs)
  {
    NormalizeIgnoresPadding(u, s, v);
    NormalizeEmptyIffBlank(s);
    NormalizeEmptyIffBlank(u + s + v);
  }

  /** A non-blank text whose normalised form contains a name of `drugs[i]` identifies a drug no later than it. */
  lemma MatchFoundNoLaterThan(s: string, drugs: seq<Drug>, i: nat)
    requires !AllSpace(s) && i < |drugs| && DrugMatches(Normalize(s), drugs[i])
    ensures exists m :: 0 <= m <= i &&
                        AnalyzeDrugText(Some(s), drugs) == Analysis(Success, Some(drugs[m]), FoundMessage)
  {
    var found := FirstDrug(Normalize(s), drugs);
    assert found.Some? && found.value <= i;
    assert AnalyzeDrugText(Some(s), drugs) == Analysis(Success, Some(drugs[found.value]), FoundMessage);
  }

  /** A text that starts with a drug's (space-free) brand name identifies a drug no later than that one. */
  lemma LeadingBrandIdentified(drugs: seq<Drug>, i: nat, rest: string)
    requires i < |drugs| && drugs[i].brandName != [] && NoSpace(drugs[i].brandName)
    ensures exists m :: 0 <= m <= i &&
                        AnalyzeDrugText(Some(drugs[i].brandName + rest), drugs) == Analysis(Success, Some(drugs[m]), FoundMessage)
  {
    var w := drugs[i].brandName;
    NormalizeKeepsLeadingWord(w, rest);
    var n := Normalize(w + rest);
    assert n[0..|Lower(w)|] == Lower(w);
    assert OccursAt(n, Lower(w), 0);
    assert DrugMatches(n, drugs[i]);
    assert (w + rest)[0] == w[0];
    MatchFoundNoLaterThan(w + rest, drugs, i);
  }

  /** The source's own illustration: "Panadol 500mg tablets" identifies a drug branded Panadol. */
  lemma PanadolTabletsExample(d: Drug)
    requires d.brandName == "Panadol"
    ensures AnalyzeDrugText(Some("Panadol 500mg tablets"), [d]) == Analysis(Success, Some(d), FoundMessage)
  {
    assert "Panadol 500mg tablets" == d.brandName + " 500mg tablets";
    LeadingBrandIdentified([d], 0, " 500mg tablets");
  }
}
