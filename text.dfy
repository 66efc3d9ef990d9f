/**
 * The JavaScript string primitives the matchers rely on: `toLowerCase` (over
 * ASCII letters), `includes`, `trim` and a global replace of whitespace runs. Whitespace is
 * ECMAScript's WhiteSpace and LineTerminator classes, which `trim` and `\s`
 * share.
 */
module Text {

  /** An upper-case ASCII letter. */
  predicate IsUpper(c: char) {
    'A' <= c <= 'Z'
  }

  function LowerChar(c: char): char {
    if IsUpper(c) then (c as int + 32) as char else c
  }

  /** `toLowerCase`, restricted to ASCII letters. */
  function Lower(s: string): (r: string)
    ensures |r| == |s|
    ensures forall i :: 0 <= i < |s| ==> r[i] == LowerChar(s[i])
  {
    seq(|s|, i requires 0 <= i < |s| => LowerChar(s[i]))
  }

  /** No upper-case ASCII letter occurs in `s`. */
  predicate IsLowerText(s: string) {
    forall i :: 0 <= i < |s| ==> !IsUpper(s[i])
  }

  /** `s` and `t` spell the same text with possibly different ASCII case. */
  predicate EqualIgnoringCase(s: string, t: string) {
    |s| == |t| &&
    forall i :: 0 <= i < |s| ==>
      s[i] == t[i] ||
      (IsUpper(s[i]) && t[i] as int == s[i] as int + 32) ||
      (IsUpper(t[i]) && s[i] as int == t[i] as int + 32)
  }

  lemma LowerIsLower(s: string)
    ensures IsLowerText(Lower(s))
    ensures Lower(Lower(s)) == Lower(s)
  {
  }

  /** Two texts lower-case to the same string exactly when they differ in case only. */
  lemma LowerEqualIffIgnoringCase(s: string, t: string)
    ensures Lower(s) == Lower(t) <==> EqualIgnoringCase(s, t)
  {
    if Lower(s) == Lower(t) {
      forall i | 0 <= i < |s|
        ensures s[i] == t[i] || (IsUpper(s[i]) && t[i] as int == s[i] as int + 32) ||
                (IsUpper(t[i]) && s[i] as int == t[i] as int + 32)
      {
        assert Lower(s)[i] == Lower(t)[i];
      }
    }
    if EqualIgnoringCase(s, t) {
      assert forall i :: 0 <= i < |s| ==> Lower(s)[i] == Lower(t)[i];
    }
  }

  lemma LowerAppend(a: string, b: string)
    ensures Lower(a + b) == Lower(a) + Lower(b)
  {
    assert forall i :: 0 <= i < |a + b| ==> Lower(a + b)[i] == (Lower(a) + Lower(b))[i];
  }

  /** Lower-casing neither creates nor removes whitespace. */
  lemma LowerKeepsSpaces(s: string)
    ensures AllSpace(Lower(s)) <==> AllSpace(s)
  {
    var l := Lower(s);
    assert forall i :: 0 <= i < |s| ==> (IsSpace(l[i]) <==> IsSpace(s[i]));
  }

  // ---------------------------------------------------------------------------
  // Substring containment

  /** `needle` occurs in `hay` starting at index `k`. */
  predicate OccursAt(hay: string, needle: string, k: nat) {
    k + |needle| <= |hay| && hay[k..k + |needle|] == needle
  }

  /** String `includes`: plain substring containment; the empty needle occurs in every text. */
  predicate Contains(hay: string, needle: string)
    ensures Contains(hay, needle) ==> |needle| <= |hay|
  {
    exists k: nat | k <= |hay| :: OccursAt(hay, needle, k)
  }

  lemma ContainsEmpty(hay: string)
    ensures Contains(hay, "")
  {
    assert OccursAt(hay, "", 0);
  }

  /** A text that is placed anywhere inside a longer text is contained in it. */
  lemma ContainsInfix(a: string, needle: string, b: string)
    ensures Contains(a + needle + b, needle)
  {
    assert (a + needle + b)[|a|..|a| + |needle|] == needle;
    assert OccursAt(a + needle + b, needle, |a|);
  }

  /** Containment survives extending the text on both sides. */
  lemma ContainsWiden(a: string, hay: string, b: string, needle: string)
    requires Contains(hay, needle)
    ensures Contains(a + hay + b, needle)
  {
    var k: nat :| k <= |hay| && OccursAt(hay, needle, k);
    assert (a + hay + b)[|a| + k..|a| + k + |needle|] == hay[k..k + |needle|];
    assert OccursAt(a + hay + b, needle, |a| + k);
  }

  /** A non-empty needle never occurs in the empty text. */
  lemma NotContainedInEmpty(needle: string)
    requires needle != ""
    ensures !Contains("", needle)
  {
  }

  // ---------------------------------------------------------------------------
  // Whitespace, trim and run collapsing

  /** ECMAScript WhiteSpace or LineTerminator: what `trim` removes and `\s` matches. */
  predicate IsSpace(c: char) {
    c == '\t' || c == '\n' || c == '\U{000B}' || c == '\U{000C}' || c == '\r' ||
    c == ' ' || c == '\U{00A0}' || c == '\U{1680}' ||
    ('\U{2000}' <= c <= '\U{200A}') ||
    c == '\U{2028}' || c == '\U{2029}' || c == '\U{202F}' || c == '\U{205F}' ||
    c == '\U{3000}' || c == '\U{FEFF}'
  }

  predicate AllSpace(s: string) {
    forall i :: 0 <= i < |s| ==> IsSpace(s[i])
  }

  /** No whitespace character occurs in `s`. */
  predicate NoSpace(s: string) {
    forall i :: 0 <= i < |s| ==> !IsSpace(s[i])
  }

  lemma LowerKeepsNoSpace(s: string)
    requires NoSpace(s)
    ensures NoSpace(Lower(s))
  {
    var l := Lower(s);
    assert forall i :: 0 <= i < |s| ==> (IsSpace(l[i]) <==> IsSpace(s[i]));
  }

  /** Lower-casing never touches whitespace. */
  lemma LowerOfSpace(u: string)
    requires AllSpace(u)
    ensures Lower(u) == u
  {
  }

  /** Drops the leading whitespace of `s`; it is shorter whenever `s` starts with whitespace. */
  function TrimStart(s: string): (r: string)
    ensures |r| <= |s|
    ensures s != [] && IsSpace(s[0]) ==> |r| < |s|
  {
    if s != [] && IsSpace(s[0]) then TrimStart(s[1..]) else s
  }

  /** `TrimStart` keeps a suffix, drops only whitespace, and stops at a non-space character. */
  lemma {:induction false} TrimStartShape(s: string)
    ensures var r := TrimStart(s);
      r == s[|s| - |r|..] && AllSpace(s[..|s| - |r|]) && (r == [] || !IsSpace(r[0]))
  {
    if s != [] && IsSpace(s[0]) {
      var u := s[1..];
      var r := TrimStart(u);
      TrimStartShape(u);
      var n := |s| - |r|;
      assert r == s[n..] by {
        assert u[n - 1..] == s[n..];
      }
      forall i | 0 <= i < n
        ensures IsSpace(s[..n][i])
      {
        if i > 0 {
          assert s[..n][i] == u[..n - 1][i - 1];
        }
      }
    }
  }

  /** Drops the trailing whitespace of `s`. */
  function TrimEnd(s: string): (r: string)
    ensures |r| <= |s|
  {
    if s != [] && IsSpace(s[|s| - 1]) then TrimEnd(s[..|s| - 1]) else s
  }

  /** `TrimEnd` keeps a prefix, drops only whitespace, and stops at a non-space character. */
  lemma {:induction false} TrimEndShape(s: string)
    ensures var r := TrimEnd(s);
      r == s[..|r|] && AllSpace(s[|r|..]) && (r == [] || !IsSpace(r[|r| - 1]))
  {
    if s != [] && IsSpace(s[|s| - 1]) {
      var p := s[..|s| - 1];
      var r := TrimEnd(p);
      TrimEndShape(p);
      assert r == s[..|r|] by {
        assert p[..|r|] == s[..|r|];
      }
      forall i | 0 <= i < |s| - |r|
        ensures IsSpace(s[|r|..][i])
      {
        if i < |p| - |r| {
          assert s[|r|..][i] == p[|r|..][i];
        }
      }
    }
  }

  /** `trim`: the text between the leading and the trailing whitespace. */
  function Trim(s: string): (r: string)
    ensures |r| <= |s|
  {
    TrimEnd(TrimStart(s))
  }

  /**
   * The trimmed text has no whitespace at either end, holds only characters
   * of `s`, and is empty exactly when `s` is blank.
   */
  lemma TrimShape(s: string)
    ensures var r := Trim(s);
      && (r == [] || (!IsSpace(r[0]) && !IsSpace(r[|r| - 1])))
      && (r == [] <==> AllSpace(s))
      && (forall c :: c in r ==> c in s)
  {
    var t := TrimStart(s);
    var r := TrimEnd(t);
    TrimStartShape(s);
    TrimEndShape(t);
    if r == [] {
      assert s == s[..|s| - |t|] + t;
    }
    if r != [] {
      assert r[0] == t[0];
    }
  }

  /** Regular-expression replacement of whitespace runs: every maximal run of whitespace becomes one space. */
  function Collapse(s: string): (r: string)
    ensures |r| <= |s|
    decreases |s|
  {
    if s == [] then []
    else if IsSpace(s[0]) then [' '] + Collapse(TrimStart(s))
    else [s[0]] + Collapse(s[1..])
  }

  /** The whitespace of a text is exactly the single spaces between its words. */
  predicate SingleSpaced(r: string) {
    (forall i :: 0 <= i < |r| && IsSpace(r[i]) ==> r[i] == ' ') &&
    (forall i :: 0 <= i < |r| - 1 ==> !(IsSpace(r[i]) && IsSpace(r[i + 1])))
  }

  /** What `Collapse` still has to process after the first character or whitespace run of `s`. */
  function CollapseRest(s: string): string
    requires s != []
  {
    if IsSpace(s[0]) then TrimStart(s) else s[1..]
  }

  /** One step of `Collapse`: one output character, then the rest, which is a shorter suffix. */
  lemma CollapseStep(s: string)
    requires s != []
    ensures var t := CollapseRest(s);
      && |t| < |s| && t == s[|s| - |t|..]
      && Collapse(s) == [if IsSpace(s[0]) then ' ' else s[0]] + Collapse(t)
      && (IsSpace(s[0]) ==> t == [] || !IsSpace(t[0]))
      && (IsSpace(s[0]) && t == [] ==> IsSpace(s[|s| - 1]))
  {
    if IsSpace(s[0]) {
      TrimStartShape(s);
      if TrimStart(s) == [] {
        assert s[..|s|] == s;
      }
    }
  }

  /** `Collapse` keeps a text empty or not, and keeps whether it starts or ends with whitespace. */
  lemma {:induction false} CollapseEnds(s: string)
    ensures |Collapse(s)| == 0 <==> |s| == 0
    ensures |s| > 0 ==> (IsSpace(Collapse(s)[0]) <==> IsSpace(s[0]))
    ensures |s| > 0 ==> (IsSpace(Collapse(s)[|Collapse(s)| - 1]) <==> IsSpace(s[|s| - 1]))
    decreases |s|
  {
    if s != [] {
      var t := CollapseRest(s);
      CollapseStep(s);
      CollapseEnds(t);
      if t != [] {
        assert t[|t| - 1] == s[|s| - 1];
      }
    }
  }

  /** `Collapse` leaves single spaces only. */
  lemma {:induction false} CollapseSingleSpaced(s: string)
    ensures SingleSpaced(Collapse(s))
    decreases |s|
  {
    if s != [] {
      var t := CollapseRest(s);
      CollapseStep(s);
      CollapseSingleSpaced(t);
      CollapseEnds(t);
      var r, rt := Collapse(s), Collapse(t);
      assert forall i :: 1 <= i < |r| ==> r[i] == rt[i - 1];
      assert |rt| > 0 ==> (IsSpace(rt[0]) <==> IsSpace(t[0]));
    }
  }

  /** Every non-space character `Collapse` produces comes from its input. */
  lemma {:induction false} CollapseKeepsChars(s: string)
    ensures forall i :: 0 <= i < |Collapse(s)| && !IsSpace(Collapse(s)[i]) ==> Collapse(s)[i] in s
    decreases |s|
  {
    if s != [] {
      var t := CollapseRest(s);
      CollapseStep(s);
      CollapseKeepsChars(t);
      var r, rt := Collapse(s), Collapse(t);
      forall i | 0 <= i < |r| && !IsSpace(r[i]) ensures r[i] in s {
        if i > 0 {
          assert r[i] == rt[i - 1];
          assert rt[i - 1] in t;
          var j :| 0 <= j < |t| && t[j] == rt[i - 1];
          assert s[|s| - |t| + j] == t[j];
        }
      }
    }
  }

  /** Leading whitespace is absorbed by `TrimStart`, however long it is. */
  lemma {:induction false} TrimStartSpacePrefix(u: string, v: string)
    requires AllSpace(u)
    ensures TrimStart(u + v) == TrimStart(v)
  {
    if u != [] {
      assert (u + v)[1..] == u[1..] + v;
      TrimStartSpacePrefix(u[1..], v);
    } else {
      assert u + v == v;
    }
  }

  /** Once a non-space character is reached, `TrimStart` leaves the rest alone. */
  lemma {:induction false} TrimStartKeepsTail(u: string, v: string)
    requires !AllSpace(u)
    ensures TrimStart(u + v) == TrimStart(u) + v
  {
    if IsSpace(u[0]) {
      assert (u + v)[1..] == u[1..] + v;
      TrimStartKeepsTail(u[1..], v);
    }
  }

  /** Trailing whitespace is absorbed by `TrimEnd`, however long it is. */
  lemma {:induction false} TrimEndSpaceSuffix(u: string, v: string)
    requires AllSpace(v)
    ensures TrimEnd(u + v) == TrimEnd(u)
  {
    if v != [] {
      assert (u + v)[..|u + v| - 1] == u + v[..|v| - 1];
      TrimEndSpaceSuffix(u, v[..|v| - 1]);
    } else {
      assert u + v == u;
    }
  }

  /** Once a non-space character is reached from the right, `TrimEnd` leaves the front alone. */
  lemma {:induction false} TrimEndKeepsHead(u: string, v: string)
    requires !AllSpace(v)
    ensures TrimEnd(u + v) == u + TrimEnd(v)
  {
    if IsSpace(v[|v| - 1]) {
      assert (u + v)[..|u + v| - 1] == u + v[..|v| - 1];
      TrimEndKeepsHead(u, v[..|v| - 1]);
    } else {
      assert TrimEnd(v) == v;
    }
  }

  /** `trim` ignores any whitespace padding on either side. */
  lemma {:induction false} TrimIgnoresPadding(u: string, x: string, v: string)
    requires AllSpace(u) && AllSpace(v)
    ensures Trim(u + x + v) == Trim(x)
  {
    var xv := x + v;
    assert u + x + v == u + xv;
    TrimStartSpacePrefix(u, xv);
    assert TrimStart(u + x + v) == TrimStart(xv);
    if AllSpace(x) {
      assert AllSpace(xv);
      assert xv + [] == xv && x + [] == x;
      TrimStartSpacePrefix(xv, []);
      TrimStartSpacePrefix(x, []);
      assert TrimStart(xv) == [] == TrimStart(x);
    } else {
      TrimStartKeepsTail(x, v);
      assert TrimStart(xv) == TrimStart(x) + v;
      TrimEndSpaceSuffix(TrimStart(x), v);
    }
  }

  /** Blank text before a whitespace run is trimmed away with it. */
  lemma TrimAfterBlankRun(x: string, u: string, y: string)
    requires AllSpace(u) && AllSpace(x)
    ensures Trim(x + u + y) == Trim(y)
  {
    assert x + u + y == (x + u) + y + [];
    TrimIgnoresPadding(x + u, y, []);
  }

  /** Blank text after a whitespace run is trimmed away with it. */
  lemma TrimBeforeBlankRun(x: string, u: string, y: string)
    requires AllSpace(u) && AllSpace(y)
    ensures Trim(x + u + y) == Trim(x)
  {
    assert x + u + y == [] + x + (u + y);
    TrimIgnoresPadding([], x, u + y);
  }

  /** `trim` keeps an interior whitespace run whenever there is text on both sides of it. */
  lemma TrimAroundRun(x: string, u: string, y: string)
    requires !AllSpace(x) && !AllSpace(y) && AllSpace(u)
    ensures Trim(x + u + y) == TrimStart(x) + u + TrimEnd(y)
  {
    assert x + u + y == x + (u + y);
    TrimStartKeepsTail(x, u + y);
    assert TrimStart(x) + (u + y) == (TrimStart(x) + u) + y;
    TrimEndKeepsHead(TrimStart(x) + u, y);
  }

  /** A leading run of whitespace collapses to one space. */
  lemma {:induction false} CollapseLeadingRun(u: string, b: string)
    requires u != [] && AllSpace(u)
    ensures Collapse(u + b) == [' '] + Collapse(TrimStart(b))
  {
    TrimStartSpacePrefix(u, b);
    assert (u + b)[0] == u[0];
  }

  /** Collapsing a text that starts with a whitespace run inside a longer prefix. */
  lemma {:induction false} CollapseSpaceStep(a: string, m: string)
    requires a != [] && IsSpace(a[0]) && !AllSpace(a)
    ensures |TrimStart(a)| < |a|
    ensures Collapse(a + m) == [' '] + Collapse(TrimStart(a) + m)
  {
    assert (a + m)[0] == a[0];
    TrimStartKeepsTail(a, m);
  }

  /** A space-free word at the front passes through `Collapse` unchanged. */
  lemma {:induction false} CollapseKeepsWord(w: string, m: string)
    requires NoSpace(w)
    ensures Collapse(w + m) == w + Collapse(m)
  {
    if w != [] {
      CollapseCharStep(w, m);
      CollapseKeepsWord(w[1..], m);
      assert w == [w[0]] + w[1..];
    } else {
      assert w + m == m;
    }
  }

  /** Collapsing a text that starts with a non-space character. */
  lemma {:induction false} CollapseCharStep(a: string, m: string)
    requires a != [] && !IsSpace(a[0])
    ensures Collapse(a + m) == [a[0]] + Collapse(a[1..] + m)
  {
    assert (a + m)[0] == a[0];
    assert (a + m)[1..] == a[1..] + m;
  }

  /**
   * A run of whitespace collapses to one space whatever its length and its
   * characters: replacing one non-empty run by another leaves the result alone.
   */
  lemma {:induction false} CollapseAnyRun(a: string, u: string, v: string, b: string)
    requires u != [] && AllSpace(u) && v != [] && AllSpace(v)
    ensures Collapse(a + u + b) == Collapse(a + v + b)
    decreases |a|
  {
    if a == [] {
      assert a + u + b == u + b && a + v + b == v + b;
      CollapseLeadingRun(u, b);
      CollapseLeadingRun(v, b);
    } else if AllSpace(a) {
      assert a + u + b == (a + u) + b && a + v + b == (a + v) + b;
      assert AllSpace(a + u) && AllSpace(a + v);
      CollapseLeadingRun(a + u, b);
      CollapseLeadingRun(a + v, b);
    } else {
      assert a + u + b == a + (u + b) && a + v + b == a + (v + b);
      if IsSpace(a[0]) {
        var t := TrimStart(a);
        CollapseSpaceStep(a, u + b);
        CollapseSpaceStep(a, v + b);
        assert t + (u + b) == t + u + b && t + (v + b) == t + v + b;
        CollapseAnyRun(t, u, v, b);
      } else {
        CollapseCharStep(a, u + b);
        CollapseCharStep(a, v + b);
        assert a[1..] + (u + b) == a[1..] + u + b && a[1..] + (v + b) == a[1..] + v + b;
        CollapseAnyRun(a[1..], u, v, b);
      }
    }
  }
}
