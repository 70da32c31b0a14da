/**
 * The Python `str` built-ins that the report pipeline relies on, written out:
 * `isspace`, `strip`, `split`, `join`, `lower`, `str.replace`, substring search,
 * `re.sub(r"\s+", " ", ...)`, code-point ordering of strings and `str(int)`.
 * Whitespace and case are the ASCII part of Python's Unicode tables.
 */
module Strings {
  import opened Wrappers

  /** Python's `str.isspace` on the ASCII range (also what `\s` and `strip()` use). */
  predicate IsSpace(c: char) {
    c == ' ' || c == '\t' || c == '\n' || c == '\r' || c == '\U{000B}' || c == '\U{000C}'
    || ('\U{001C}' <= c <= '\U{001F}')
  }

  predicate IsDigit(c: char) { '0' <= c <= '9' }

  predicate IsAsciiLower(c: char) { 'a' <= c <= 'z' }

  /** Python's `\w` on the ASCII range: letters, digits and underscore. */
  predicate IsWordChar(c: char) {
    IsAsciiLower(c) || ('A' <= c <= 'Z') || IsDigit(c) || c == '_'
  }

  // ---------------------------------------------------------------------------
  // strip / lstrip / rstrip

  /** The character sets the source strips: whitespace, `-`, and `" ,"`. */
  datatype CharSet = Whitespace | Dashes | SpacesAndCommas

  predicate InSet(c: char, cs: CharSet) {
    match cs
    case Whitespace => IsSpace(c)
    case Dashes => c == '-'
    case SpacesAndCommas => c == ' ' || c == ','
  }

  /** How many characters at the front of `s` are in `cs`. */
  function LeadingCount(s: string, cs: CharSet): (n: nat)
    ensures n <= |s|
    ensures forall i :: 0 <= i < n ==> InSet(s[i], cs)
    ensures n == |s| || !InSet(s[n], cs)
    decreases |s|
  {
    if s != [] && InSet(s[0], cs) then
      var m := LeadingCount(s[1..], cs);
      assert forall i :: 0 <= i < m ==> s[1..][i] == s[i + 1];
      1 + m
    else 0
  }

  /** How many characters at the back of `s` are in `cs`. */
  function TrailingCount(s: string, cs: CharSet): (n: nat)
    ensures n <= |s|
    ensures forall i :: |s| - n <= i < |s| ==> InSet(s[i], cs)
    ensures n == |s| || !InSet(s[|s| - n - 1], cs)
    decreases |s|
  {
    if s != [] && InSet(s[|s| - 1], cs) then
      var m := TrailingCount(s[..|s| - 1], cs);
      assert forall i :: 0 <= i < |s| - 1 ==> s[i] == s[..|s| - 1][i];
      1 + m
    else 0
  }

  /** `s.lstrip(chars)`, where `cs` is the set `chars`. */
  function TrimStart(s: string, cs: CharSet): (r: string)
    ensures |r| <= |s| && r == s[|s| - |r|..]
    ensures forall i :: 0 <= i < |s| - |r| ==> InSet(s[i], cs)
    ensures r == [] || !InSet(r[0], cs)
  {
    s[LeadingCount(s, cs)..]
  }

  /** `s.rstrip(chars)`. */
  function TrimEnd(s: string, cs: CharSet): (r: string)
    ensures |r| <= |s| && r == s[..|r|]
    ensures forall i :: |r| <= i < |s| ==> InSet(s[i], cs)
    ensures r == [] || !InSet(r[|r| - 1], cs)
  {
    s[..|s| - TrailingCount(s, cs)]
  }

  /**
   * `s.strip(chars)`: drops characters of `cs` at either end, one at a time.
   * `StripByIsTrim` shows it is `lstrip` followed by `rstrip`.
   */
  function StripBy(s: string, cs: CharSet): (r: string)
    ensures |r| <= |s|
    ensures r == [] || (!InSet(r[0], cs) && !InSet(r[|r| - 1], cs))
    ensures (forall i :: 0 <= i < |s| ==> !InSet(s[i], cs)) ==> r == s
    decreases |s|
  {
    if s != [] && InSet(s[0], cs) then StripBy(s[1..], cs)
    else if s != [] && InSet(s[|s| - 1], cs) then StripBy(s[..|s| - 1], cs)
    else s
  }

  /**
   * What `strip` keeps is the slice of `s` right after its leading run of `cs`,
   * followed in `s` only by characters of `cs`.
   */
  lemma StripBySlice(s: string, cs: CharSet)
    ensures LeadingCount(s, cs) + |StripBy(s, cs)| <= |s|
    ensures StripBy(s, cs) == s[LeadingCount(s, cs)..LeadingCount(s, cs) + |StripBy(s, cs)|]
    ensures forall i :: LeadingCount(s, cs) + |StripBy(s, cs)| <= i < |s| ==> InSet(s[i], cs)
  {
    StripByIsTrim(s, cs);
    var u := TrimStart(s, cs);
    assert u == s[LeadingCount(s, cs)..];
    PrefixOfSuffix(s, u, StripBy(s, cs), LeadingCount(s, cs), cs);
  }

  /** A prefix `r` of the suffix `u == s[a..]`, followed in `u` only by characters of `cs`. */
  lemma PrefixOfSuffix(s: string, u: string, r: string, a: nat, cs: CharSet)
    requires a <= |s| && u == s[a..]
    requires |r| <= |u| && r == u[..|r|] && forall i :: |r| <= i < |u| ==> InSet(u[i], cs)
    ensures a + |r| <= |s| && r == s[a..a + |r|]
    ensures forall i :: a + |r| <= i < |s| ==> InSet(s[i], cs)
  {
    assert forall i :: 0 <= i < |r| ==> r[i] == s[a + i];
    forall i | a + |r| <= i < |s| ensures InSet(s[i], cs) {
      assert u[i - a] == s[i];
    }
  }

  lemma TrimStartStep(s: string, cs: CharSet)
    requires s != [] && InSet(s[0], cs)
    ensures TrimStart(s, cs) == TrimStart(s[1..], cs)
  {
    assert LeadingCount(s, cs) == 1 + LeadingCount(s[1..], cs);
  }

  lemma TrimEndStep(s: string, cs: CharSet)
    requires s != [] && InSet(s[|s| - 1], cs)
    ensures TrimEnd(s, cs) == TrimEnd(s[..|s| - 1], cs)
  {
    assert TrailingCount(s, cs) == 1 + TrailingCount(s[..|s| - 1], cs);
  }

  /** Stripping both ends is `rstrip(lstrip(s))`; what is left is a slice of `s`. */
  lemma {:induction false} StripByIsTrim(s: string, cs: CharSet)
    ensures StripBy(s, cs) == TrimEnd(TrimStart(s, cs), cs)
    decreases |s|
  {
    if s != [] && InSet(s[0], cs) {
      StripByIsTrim(s[1..], cs);
      TrimStartStep(s, cs);
    } else if s != [] && InSet(s[|s| - 1], cs) {
      var init := s[..|s| - 1];
      StripByIsTrim(init, cs);
      assert LeadingCount(s, cs) == 0;
      assert init != [] ==> init[0] == s[0];
      assert LeadingCount(init, cs) == 0;
      TrimEndStep(s, cs);
    } else {
      assert LeadingCount(s, cs) == 0;
      assert TrailingCount(s, cs) == 0;
    }
  }

  /** `s.strip()` with no argument. */
  function Strip(s: string): (r: string)
    ensures |r| <= |s|
    ensures r == [] || (!IsSpace(r[0]) && !IsSpace(r[|r| - 1]))
  {
    StripBy(s, Whitespace)
  }

  /** `strip()` returns the slice of `s` after its leading whitespace, followed in `s` only by whitespace. */
  lemma StripSlice(s: string)
    ensures LeadingCount(s, Whitespace) + |Strip(s)| <= |s|
    ensures Strip(s) == s[LeadingCount(s, Whitespace)..LeadingCount(s, Whitespace) + |Strip(s)|]
    ensures forall i :: LeadingCount(s, Whitespace) + |Strip(s)| <= i < |s| ==> IsSpace(s[i])
  {
    StripBySlice(s, Whitespace);
  }

  /** Stripping twice strips nothing more. */
  lemma StripIdempotent(s: string)
    ensures Strip(Strip(s)) == Strip(s)
  {
    var r := Strip(s);
    if r != [] {
      assert StripBy(r, Whitespace) == r;
    }
  }

  // ---------------------------------------------------------------------------
  // split / join

  /** `s.split(sep)` for a one-character separator: never empty, no piece holds `sep`. */
  function Split(s: string, sep: char): (parts: seq<string>)
    ensures |parts| >= 1
    ensures forall k :: 0 <= k < |parts| ==> sep !in parts[k]
    decreases |s|
  {
    if s == [] then [""]
    else
      var rest := Split(s[1..], sep);
      if s[0] == sep then [""] + rest else [[s[0]] + rest[0]] + rest[1..]
  }

  /** `sep.join(parts)`. */
  function Join(parts: seq<string>, sep: string): string
    decreases |parts|
  {
    if parts == [] then ""
    else if |parts| == 1 then parts[0]
    else parts[0] + sep + Join(parts[1..], sep)
  }

  /** Joining the pieces of a split gives back the text. */
  lemma {:induction false} JoinSplit(s: string, sep: char)
    ensures Join(Split(s, sep), [sep]) == s
    decreases |s|
  {
    if s != [] {
      var rest := Split(s[1..], sep);
      JoinSplit(s[1..], sep);
      if s[0] != sep {
        if |rest| == 1 {
          assert Split(s, sep) == [[s[0]] + rest[0]];
        } else {
          assert Split(s, sep)[1..] == rest[1..];
          assert Join(rest, [sep]) == rest[0] + [sep] + Join(rest[1..], [sep]);
        }
      }
    }
  }

  /** And splitting a join of separator-free pieces gives back the pieces. */
  lemma {:induction false} SplitJoin(parts: seq<string>, sep: char)
    requires |parts| >= 1
    requires forall k :: 0 <= k < |parts| ==> sep !in parts[k]
    ensures Split(Join(parts, [sep]), sep) == parts
    decreases |parts|, |parts[0]|
  {
    if parts[0] != [] {
      var p := parts[0];
      var tail := [p[1..]] + parts[1..];
      assert forall k :: 0 <= k < |tail| ==> sep !in tail[k] by {
        forall k | 0 <= k < |tail| ensures sep !in tail[k] {
          if k == 0 { assert forall c :: c in p[1..] ==> c in p; } else { assert tail[k] == parts[k]; }
        }
      }
      SplitJoin(tail, sep);
      if |parts| == 1 {
        assert Join(parts, [sep]) == [p[0]] + Join(tail, [sep]);
      } else {
        assert Join(parts, [sep]) == [p[0]] + Join(tail, [sep]);
      }
      assert p[0] in p;
      assert [p[0]] + p[1..] == p && tail[1..] == parts[1..];
      assert [[p[0]] + p[1..]] + tail[1..] == parts;
    } else if |parts| > 1 {
      SplitJoin(parts[1..], sep);
      assert Join(parts, [sep]) == [sep] + Join(parts[1..], [sep]);
    }
  }

  // ---------------------------------------------------------------------------
  // lower

  function LowerChar(c: char): (d: char)
    ensures 'A' <= c <= 'Z' ==> IsAsciiLower(d)
    ensures !('A' <= c <= 'Z') ==> d == c
  {
    if 'A' <= c <= 'Z' then (c as int + 32) as char else c
  }

  /** `s.lower()` on ASCII letters; every other character is kept. */
  function Lower(s: string): (r: string)
    ensures |r| == |s|
    ensures forall i :: 0 <= i < |s| ==> r[i] == LowerChar(s[i])
    decreases |s|
  {
    if s == [] then [] else [LowerChar(s[0])] + Lower(s[1..])
  }

  lemma {:induction false} LowerAppend(a: string, b: string)
    ensures Lower(a + b) == Lower(a) + Lower(b)
  {
    LowerCharsAppend(a, b, Lower(a), Lower(b), Lower(a + b));
  }

  /** Strings lower-cased character by character concatenate like their sources. */
  lemma LowerCharsAppend(a: string, b: string, la: string, lb: string, lab: string)
    requires |la| == |a| && forall i :: 0 <= i < |a| ==> la[i] == LowerChar(a[i])
    requires |lb| == |b| && forall i :: 0 <= i < |b| ==> lb[i] == LowerChar(b[i])
    requires |lab| == |a + b| && forall i :: 0 <= i < |a + b| ==> lab[i] == LowerChar((a + b)[i])
    ensures lab == la + lb
  {
    forall i | 0 <= i < |lab| ensures lab[i] == (la + lb)[i] {
      if i < |a| { assert (a + b)[i] == a[i]; } else { assert (a + b)[i] == b[i - |a|]; }
    }
  }

  // ---------------------------------------------------------------------------
  // substring search and replace

  /** `sub` occurs in `s` at index `j`. */
  predicate OccursAt(s: string, sub: string, j: int) {
    0 <= j && j + |sub| <= |s| && s[j..j + |sub|] == sub
  }

  lemma OccursAtTail(s: string, sub: string, j: int)
    requires s != [] && 1 <= j
    ensures OccursAt(s, sub, j) <==> OccursAt(s[1..], sub, j - 1)
  {
    if j + |sub| <= |s| {
      assert s[1..][j - 1..j - 1 + |sub|] == s[j..j + |sub|];
    }
  }

  /** `s.find(sub)`, as an option: the first index where `sub` occurs. */
  function IndexOf(s: string, sub: string): (r: Option<nat>)
    ensures r.Some? ==> OccursAt(s, sub, r.value)
    ensures r.Some? ==> forall j :: 0 <= j < r.value ==> !OccursAt(s, sub, j)
    ensures r.None? ==> forall j :: !OccursAt(s, sub, j)
    decreases |s|
  {
    if sub <= s then
      assert s[..|sub|] == sub;
      Some(0)
    else if s == [] then None
    else
      assert !OccursAt(s, sub, 0);
      assert forall j :: 1 <= j ==> (OccursAt(s, sub, j) <==> OccursAt(s[1..], sub, j - 1)) by {
        forall j | 1 <= j ensures OccursAt(s, sub, j) <==> OccursAt(s[1..], sub, j - 1) {
          OccursAtTail(s, sub, j);
        }
      }
      match IndexOf(s[1..], sub)
      case Some(k) => Some(k + 1)
      case None => None
  }

  /** `sub in s`. */
  predicate Contains(s: string, sub: string) {
    IndexOf(s, sub).Some?
  }

  /** What `s.replace("", rep)` does: `rep` before, between and after every character. */
  function Interleave(s: string, rep: string): (r: string)
    ensures |r| == |s| + (|s| + 1) * |rep|
    decreases |s|
  {
    if s == [] then rep else rep + [s[0]] + Interleave(s[1..], rep)
  }

  /** `s.replace(pat, rep)`: every non-overlapping occurrence, scanning left to right. */
  function ReplaceAll(s: string, pat: string, rep: string): string
    decreases |s|
  {
    if pat == [] then Interleave(s, rep)
    else if pat <= s then rep + ReplaceAll(s[|pat|..], pat, rep)
    else if s == [] then []
    else [s[0]] + ReplaceAll(s[1..], pat, rep)
  }

  /** A text without the pattern is left as it is. */
  lemma {:induction false} ReplaceAbsent(s: string, pat: string, rep: string)
    requires pat != [] && !Contains(s, pat)
    ensures ReplaceAll(s, pat, rep) == s
    decreases |s|
  {
    if s != [] {
      assert !OccursAt(s, pat, 0);
      assert !(pat <= s) by { assert |pat| <= |s| ==> s[0..|pat|] == s[..|pat|]; }
      forall j ensures !OccursAt(s[1..], pat, j) {
        if 0 <= j { OccursAtTail(s, pat, j + 1); }
      }
      ReplaceAbsent(s[1..], pat, rep);
    }
  }

  /** A text made of the pattern and a pattern-free rest: the pattern is replaced. */
  lemma {:induction false} ReplaceLeading(pat: string, rest: string, rep: string)
    requires pat != [] && !Contains(rest, pat)
    ensures ReplaceAll(pat + rest, pat, rep) == rep + rest
  {
    assert pat <= pat + rest;
    assert (pat + rest)[|pat|..] == rest;
    ReplaceAbsent(rest, pat, rep);
  }

  /** `str.replace` rewrites every occurrence, not only the first. */
  lemma ReplaceEveryOccurrence(pat: string, rep: string)
    requires pat != []
    ensures ReplaceAll(pat + pat, pat, rep) == rep + rep
  {
    assert pat <= pat + pat;
    assert (pat + pat)[|pat|..] == pat;
    assert pat <= pat && pat[|pat|..] == [];
    assert ReplaceAll([], pat, rep) == [];
    assert ReplaceAll(pat, pat, rep) == rep;
  }

  /**
   * The step that makes `replace` rewrite every occurrence: when the first occurrence of
   * `pat` starts right after `a`, the text up to it is kept, that occurrence becomes `rep`,
   * and the scan goes on in the rest `b`. With `ReplaceAbsent` this fixes the result on
   * every text.
   */
  lemma {:induction false} ReplaceAtFirst(a: string, pat: string, b: string, rep: string)
    requires pat != [] && forall j :: 0 <= j < |a| ==> !OccursAt(a + pat + b, pat, j)
    ensures ReplaceAll(a + pat + b, pat, rep) == a + rep + ReplaceAll(b, pat, rep)
    decreases |a|
  {
    var s := a + pat + b;
    if a == [] {
      assert s == pat + b && pat <= s && s[|pat|..] == b;
    } else {
      assert !OccursAt(s, pat, 0);
      assert !(pat <= s) by { assert |pat| <= |s| ==> s[0..|pat|] == s[..|pat|]; }
      assert s[1..] == a[1..] + pat + b;
      forall j | 0 <= j < |a[1..]| ensures !OccursAt(a[1..] + pat + b, pat, j) {
        OccursAtTail(s, pat, j + 1);
      }
      ReplaceAtFirst(a[1..], pat, b, rep);
      assert [a[0]] + (a[1..] + rep + ReplaceAll(b, pat, rep)) == a + rep + ReplaceAll(b, pat, rep);
    }
  }

  // ---------------------------------------------------------------------------
  // re.sub(r"\s+", " ", s)

  /** The characters of `s` that are not whitespace, in order. */
  function NonSpace(s: string): string
    decreases |s|
  {
    if s == [] then [] else (if IsSpace(s[0]) then [] else [s[0]]) + NonSpace(s[1..])
  }

  lemma {:induction false} NonSpaceOfSpaces(s: string)
    requires forall i :: 0 <= i < |s| ==> IsSpace(s[i])
    ensures NonSpace(s) == []
    decreases |s|
  {
    if s != [] { NonSpaceOfSpaces(s[1..]); }
  }

  lemma {:induction false} NonSpaceAppend(a: string, b: string)
    ensures NonSpace(a + b) == NonSpace(a) + NonSpace(b)
    decreases |a|
  {
    if a != [] {
      assert (a + b)[0] == a[0] && (a + b)[1..] == a[1..] + b;
      NonSpaceAppend(a[1..], b);
      assert NonSpace(a + b) == (if IsSpace(a[0]) then [] else [a[0]]) + NonSpace(a[1..] + b);
    } else {
      assert a + b == b;
    }
  }

  /** Whitespace at `i` and again right after it. */
  predicate SpacePairAt(s: string, i: int) {
    0 <= i < |s| - 1 && IsSpace(s[i]) && IsSpace(s[i + 1])
  }

  /** No two whitespace characters side by side. */
  predicate NoSpacePair(s: string) {
    forall i :: 0 <= i < |s| - 1 ==> !SpacePairAt(s, i)
  }

  /** Adding a character at the front keeps `NoSpacePair` unless it makes a new pair. */
  lemma NoSpacePairCons(c: char, s: string)
    requires NoSpacePair(s)
    requires !(IsSpace(c) && s != [] && IsSpace(s[0]))
    ensures NoSpacePair([c] + s)
  {
    var t := [c] + s;
    forall i | 0 <= i < |t| - 1 ensures !SpacePairAt(t, i) {
      if i > 0 {
        assert t[i] == s[i - 1] && t[i + 1] == s[i];
        assert !SpacePairAt(s, i - 1);
      }
    }
  }

  /**
   * `re.sub(r"\s+", " ", s)`: every run of whitespace becomes one space, so no two
   * whitespace characters are adjacent and the other characters are kept in order.
   */
  function CollapseSpaces(s: string): (r: string)
    ensures (r == []) == (s == [])
    ensures r != [] ==> (IsSpace(r[0]) <==> IsSpace(s[0]))
    ensures forall i :: 0 <= i < |r| && IsSpace(r[i]) ==> r[i] == ' '
    ensures NoSpacePair(r)
    ensures NonSpace(r) == NonSpace(s)
    decreases |s|
  {
    if s == [] then []
    else if IsSpace(s[0]) then
      var t := TrimStart(s, Whitespace);
      NonSpaceOfSpaces(s[..|s| - |t|]);
      assert s == s[..|s| - |t|] + t;
      NonSpaceAppend(s[..|s| - |t|], t);
      var rest := CollapseSpaces(t);
      NoSpacePairCons(' ', rest);
      [' '] + rest
    else
      var rest := CollapseSpaces(s[1..]);
      NoSpacePairCons(s[0], rest);
      [s[0]] + rest
  }

  /** What `re.sub(r"\s+", " ", s)` leaves: single spaces are the only whitespace. */
  predicate SingleSpaced(s: string) {
    && NoSpacePair(s)
    && forall i :: 0 <= i < |s| && IsSpace(s[i]) ==> s[i] == ' '
  }

  /** A slice of a single-spaced string is single-spaced. */
  lemma SingleSpacedSlice(s: string, a: nat, b: nat)
    requires SingleSpaced(s) && a <= b <= |s|
    ensures SingleSpaced(s[a..b])
  {
    var t := s[a..b];
    forall i | 0 <= i < |t| - 1 ensures !SpacePairAt(t, i) {
      assert t[i] == s[a + i] && t[i + 1] == s[a + i + 1];
      assert !SpacePairAt(s, a + i);
    }
    assert forall i :: 0 <= i < |t| ==> t[i] == s[a + i];
  }

  /** Stripping characters off the ends keeps a string single-spaced. */
  lemma StripBySingleSpaced(s: string, cs: CharSet)
    requires SingleSpaced(s)
    ensures SingleSpaced(StripBy(s, cs))
  {
    StripBySlice(s, cs);
    SingleSpacedPart(s, StripBy(s, cs), LeadingCount(s, cs));
  }

  /** A part `r` of a single-spaced string, found at `a`, is single-spaced. */
  lemma SingleSpacedPart(s: string, r: string, a: nat)
    requires SingleSpaced(s) && a + |r| <= |s| && r == s[a..a + |r|]
    ensures SingleSpaced(r)
  {
    SingleSpacedSlice(s, a, a + |r|);
  }

  /** Stripping whitespace drops only whitespace. */
  lemma StripKeepsNonSpace(s: string)
    ensures NonSpace(Strip(s)) == NonSpace(s)
  {
    var r := Strip(s);
    var a := LeadingCount(s, Whitespace);
    StripSlice(s);
    var pre, post := s[..a], s[a + |r|..];
    assert s == pre + r + post;
    NonSpaceOfSpaces(pre);
    NonSpaceOfSpaces(post);
    NonSpaceAppend(pre, r);
    NonSpaceAppend(pre + r, post);
  }

  // ---------------------------------------------------------------------------
  // ordering of strings

  /** Python's `a < b` on `str`: lexicographic by code point. */
  predicate Lt(a: string, b: string)
    decreases |a|
  {
    if a == [] then b != []
    else if b == [] then false
    else if a[0] != b[0] then a[0] < b[0]
    else Lt(a[1..], b[1..])
  }

  lemma {:induction false} LtIrreflexive(a: string)
    ensures !Lt(a, a)
    decreases |a|
  {
    if a != [] { LtIrreflexive(a[1..]); }
  }

  lemma {:induction false} LtTransitive(a: string, b: string, c: string)
    requires Lt(a, b) && Lt(b, c)
    ensures Lt(a, c)
    decreases |a|
  {
    if a != [] && b != [] && c != [] && a[0] == b[0] && b[0] == c[0] {
      LtTransitive(a[1..], b[1..], c[1..]);
    }
  }

  /** Any two different strings are ordered one way or the other. */
  lemma {:induction false} LtTotal(a: string, b: string)
    requires a != b
    ensures Lt(a, b) || Lt(b, a)
    decreases |a|
  {
    if a != [] && b != [] && a[0] == b[0] {
      assert a == [a[0]] + a[1..] && b == [b[0]] + b[1..];
      LtTotal(a[1..], b[1..]);
    }
  }

  lemma {:induction false} LtAsymmetric(a: string, b: string)
    requires Lt(a, b)
    ensures !Lt(b, a)
  {
    if Lt(b, a) { LtTransitive(a, b, a); LtIrreflexive(a); }
  }

  // ---------------------------------------------------------------------------
  // str(n)

  function DigitChar(d: nat): (c: char)
    requires d < 10
    ensures IsDigit(c)
  {
    ('0' as int + d) as char
  }

  /** `str(n)` for a natural number: decimal digits, no leading zero. */
  function NatToString(n: nat): (r: string)
    ensures r != [] && forall i :: 0 <= i < |r| ==> IsDigit(r[i])
    ensures |r| > 1 ==> r[0] != '0'
    decreases n
  {
    if n < 10 then [DigitChar(n)] else NatToString(n / 10) + [DigitChar(n % 10)]
  }

  /** `int(s)` for a string of decimal digits. */
  function DigitsValue(s: string): nat
    requires forall i :: 0 <= i < |s| ==> IsDigit(s[i])
    decreases |s|
  {
    if s == [] then 0
    else
      assert IsDigit(s[|s| - 1]);
      DigitsValue(s[..|s| - 1]) * 10 + (s[|s| - 1] as int - '0' as int)
  }

  /** `int(str(n)) == n`. */
  lemma {:induction false} NatToStringRoundTrip(n: nat)
    ensures DigitsValue(NatToString(n)) == n
    decreases n
  {
    if n >= 10 {
      NatToStringRoundTrip(n / 10);
      var r := NatToString(n);
      assert r[..|r| - 1] == NatToString(n / 10);
    }
  }
}
