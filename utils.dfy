/**
 * `slugify_case_name` of src/utils.py: a chain of character-class substitutions
 * that turns a case name into a URL slug over `a-z`, `0-9` and `-`.
 */
module Utils {
  import opened Wrappers
  import opened Strings

  predicate IsDash(c: char) { c == '-' }

  predicate IsSlugChar(c: char) { IsAsciiLower(c) || IsDigit(c) || IsDash(c) }

  /** A dash at `i` and another right after it. */
  predicate DashPairAt(s: string, i: int) {
    0 <= i < |s| - 1 && IsDash(s[i]) && IsDash(s[i + 1])
  }

  /** No two dashes side by side. */
  predicate NoDoubleDash(s: string) {
    forall i :: 0 <= i < |s| - 1 ==> !DashPairAt(s, i)
  }

  /** What a slug looks like: its alphabet, no `--`, no dash at either end. */
  predicate IsSlug(s: string) {
    && (forall i :: 0 <= i < |s| ==> IsSlugChar(s[i]))
    && NoDoubleDash(s)
    && (s == [] || (!IsDash(s[0]) && !IsDash(s[|s| - 1])))
  }

  /** `re.sub(r"[^a-z0-9\s-]", "", s)`: keeps slug characters and whitespace, in order. */
  function KeepSlugAlphabet(s: string): (r: string)
    ensures forall i :: 0 <= i < |r| ==> IsSlugChar(r[i]) || IsSpace(r[i])
    ensures (forall i :: 0 <= i < |s| ==> IsSlugChar(s[i]) || IsSpace(s[i])) ==> r == s
    decreases |s|
  {
    if s == [] then []
    else (if IsSlugChar(s[0]) || IsSpace(s[0]) then [s[0]] else []) + KeepSlugAlphabet(s[1..])
  }

  /** `re.sub(r"\s+", "-", s)`: each whitespace run becomes one dash. */
  function DashSpaces(s: string): (r: string)
    ensures forall i :: 0 <= i < |r| ==> !IsSpace(r[i]) && (r[i] in s || IsDash(r[i]))
    ensures (forall i :: 0 <= i < |s| ==> !IsSpace(s[i])) ==> r == s
    decreases |s|
  {
    if s == [] then []
    else if IsSpace(s[0]) then
      var t := TrimStart(s, Whitespace);
      assert forall c :: c in t ==> c in s by { assert t == s[|s| - |t|..]; }
      ['-'] + DashSpaces(t)
    else
      [s[0]] + DashSpaces(s[1..])
  }

  /** How `NoDoubleDash` looks at a string one character longer at the front. */
  lemma NoDoubleDashCons(c: char, s: string)
    ensures NoDoubleDash([c] + s) <==> NoDoubleDash(s) && !(IsDash(c) && s != [] && IsDash(s[0]))
  {
    var t := [c] + s;
    forall i | 0 <= i < |s| - 1 ensures DashPairAt(t, i + 1) <==> DashPairAt(s, i) {
      assert t[i + 1] == s[i] && t[i + 2] == s[i + 1];
    }
    if NoDoubleDash(s) && !(IsDash(c) && s != [] && IsDash(s[0])) {
      forall i | 0 <= i < |t| - 1 ensures !DashPairAt(t, i) {
        if i > 0 { assert DashPairAt(t, i) <==> DashPairAt(s, i - 1); }
      }
    }
    if NoDoubleDash(t) && s != [] {
      assert !DashPairAt(t, 0);
      forall i | 0 <= i < |s| - 1 ensures !DashPairAt(s, i) {
        assert !DashPairAt(t, i + 1);
      }
    }
  }

  /** `re.sub(r"-+", "-", s)`: each dash run becomes one dash. */
  function CollapseDashes(s: string): (r: string)
    ensures NoDoubleDash(r)
    ensures forall i :: 0 <= i < |r| ==> r[i] in s
    ensures r != [] ==> s != [] && (IsDash(r[0]) <==> IsDash(s[0]))
    ensures NoDoubleDash(s) ==> r == s
    decreases |s|
  {
    if s == [] then []
    else if IsDash(s[0]) then
      var t := TrimStart(s, Dashes);
      assert forall c :: c in t ==> c in s by { assert t == s[|s| - |t|..]; }
      assert s == [s[0]] + s[1..];
      NoDoubleDashCons(s[0], s[1..]);
      assert NoDoubleDash(s) ==> t == s[1..] by {
        if NoDoubleDash(s) && |s| > 1 { assert !IsDash(s[1]); }
      }
      var rest := CollapseDashes(t);
      NoDoubleDashCons('-', rest);
      ['-'] + rest
    else
      assert s == [s[0]] + s[1..];
      NoDoubleDashCons(s[0], s[1..]);
      var rest := CollapseDashes(s[1..]);
      NoDoubleDashCons(s[0], rest);
      [s[0]] + rest
  }

  /** `s.strip("-")` keeps the absence of `--`: what it returns is a slice of `s`. */
  lemma StripDashesKeepsNoDoubleDash(s: string)
    requires NoDoubleDash(s)
    ensures NoDoubleDash(StripBy(s, Dashes))
  {
    StripBySlice(s, Dashes);
    NoDoubleDashPart(s, StripBy(s, Dashes), LeadingCount(s, Dashes));
  }

  /** A part `r` of `s` found at `a` has no `--` when `s` has none. */
  lemma NoDoubleDashPart(s: string, r: string, a: nat)
    requires NoDoubleDash(s) && a + |r| <= |s| && r == s[a..a + |r|]
    ensures NoDoubleDash(r)
  {
    forall i | 0 <= i < |r| - 1 ensures !DashPairAt(r, i) {
      assert r[i] == s[a + i] && r[i + 1] == s[a + i + 1];
      assert !DashPairAt(s, a + i);
    }
  }

  /** `s.strip("-")` keeps only characters of `s`. */
  lemma StripDashesKeepsAlphabet(s: string)
    requires forall i :: 0 <= i < |s| ==> IsSlugChar(s[i])
    ensures forall i :: 0 <= i < |StripBy(s, Dashes)| ==> IsSlugChar(StripBy(s, Dashes)[i])
  {
    StripBySlice(s, Dashes);
    SlugCharsPart(s, StripBy(s, Dashes), LeadingCount(s, Dashes));
  }

  /** A part `r` of `s` found at `a` keeps to the slug alphabet when `s` does. */
  lemma SlugCharsPart(s: string, r: string, a: nat)
    requires forall i :: 0 <= i < |s| ==> IsSlugChar(s[i])
    requires a + |r| <= |s| && r == s[a..a + |r|]
    ensures forall i :: 0 <= i < |r| ==> IsSlugChar(r[i])
  {
    assert forall i :: 0 <= i < |r| ==> r[i] == s[a + i];
  }

  /** The dash-producing steps keep the slug alphabet. */
  lemma DashStepsKeepAlphabet(s3: string)
    requires forall i :: 0 <= i < |s3| ==> IsSlugChar(s3[i]) || IsSpace(s3[i])
    ensures forall i :: 0 <= i < |CollapseDashes(DashSpaces(s3))| ==> IsSlugChar(CollapseDashes(DashSpaces(s3))[i])
  {
    var s4 := DashSpaces(s3);
    forall i | 0 <= i < |s4| ensures IsSlugChar(s4[i]) {
      if !IsDash(s4[i]) {
        var j :| 0 <= j < |s3| && s3[j] == s4[i];
      }
    }
    var s5 := CollapseDashes(s4);
    forall i | 0 <= i < |s5| ensures IsSlugChar(s5[i]) {
      var j :| 0 <= j < |s4| && s4[j] == s5[i];
    }
  }

  /** `slugify_case_name(name)`; `None` is Python's `None`. */
  function SlugifyCaseName(name: Option<string>): (r: string)
    ensures IsSlug(r)
    ensures name == None || name == Some("") ==> r == ""
  {
    var s0 := match name case None => "" case Some(n) => n;
    var s1 := Lower(s0);
    var s2 := ReplaceAll(s1, "v.", "v");
    var s3 := KeepSlugAlphabet(s2);
    var s4 := DashSpaces(s3);
    var s5 := CollapseDashes(s4);
    DashStepsKeepAlphabet(s3);
    StripDashesKeepsNoDoubleDash(s5);
    StripDashesKeepsAlphabet(s5);
    StripBy(s5, Dashes)
  }

  /** Every slug is a fixed point: no step of the chain changes it. */
  lemma SlugIsFixedPoint(t: string)
    requires IsSlug(t)
    ensures SlugifyCaseName(Some(t)) == t
  {
    assert Lower(t) == t;
    forall j ensures !OccursAt(t, "v.", j) {
      if 0 <= j && j + 2 <= |t| { assert t[j..j + 2][1] == t[j + 1]; }
    }
    ReplaceAbsent(t, "v.", "v");
    assert KeepSlugAlphabet(t) == t;
    assert DashSpaces(t) == t;
    assert CollapseDashes(t) == t;
    assert StripBy(t, Dashes) == t;
  }

  /** `slugify(slugify(x)) == slugify(x)`. */
  lemma SlugifyIdempotent(name: Option<string>)
    ensures SlugifyCaseName(Some(SlugifyCaseName(name))) == SlugifyCaseName(name)
  {
    SlugIsFixedPoint(SlugifyCaseName(name));
  }
}
