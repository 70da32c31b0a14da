/**
 * The complaint-text heuristics of src/complaint_parse.py: the causes of action a
 * filing names, the sentence that best shows data being used to train AI, and the
 * parties named in the caption. The regular expressions of the two pattern tables and
 * the two caption searches are abstract matchers passed in as values; the sentence
 * split and the fallback keyword window are written out.
 */
module ComplaintParse {
  import opened Wrappers
  import opened Strings

  // ===========================================================================
  // Generic sequence facts

  /** `a` is `b` with some elements left out, order kept. */
  predicate SubseqOf<T(==)>(a: seq<T>, b: seq<T>)
    decreases |b|
  {
    a == [] || (b != [] && ((a[0] == b[0] && SubseqOf(a[1..], b[1..])) || SubseqOf(a, b[1..])))
  }

  /** Keeping or dropping the head `x` of `all` keeps a subsequence of the tail a subsequence. */
  lemma SubseqOfCons<T>(x: T, rest: seq<T>, all: seq<T>, keep: bool)
    requires all != [] && SubseqOf(rest, all[1..]) && (keep ==> x == all[0])
    ensures SubseqOf((if keep then [x] else []) + rest, all)
  {
    if keep {
      assert ([x] + rest)[1..] == rest;
    } else {
      assert [] + rest == rest;
    }
  }

  /** No element occurs twice. */
  predicate Distinct<T(==)>(s: seq<T>) {
    forall i, j :: 0 <= i < j < |s| ==> s[i] != s[j]
  }

  // ===========================================================================
  // CAUSE_PATTERNS and detect_causes

  /** An entry of `CAUSE_PATTERNS`: a name and its compiled pattern's `search`. */
  datatype CausePattern = CausePattern(name: string, search: string -> bool)

  /** The labels of `CAUSE_PATTERNS`, in declaration order. */
  const CauseLabels: seq<string> := [
    "저작권 침해", "DMCA(우회/기술적 보호조치)", "계약 위반/약관 위반", "부정경쟁/불공정행위",
    "컴퓨터침입(CFAA)", "전환/부당이득", "상표/랜햄법", "영업비밀"
  ]

  /** A table carrying the labels of `CAUSE_PATTERNS` in its order. */
  predicate IsCauseTable(table: seq<CausePattern>) {
    |table| == |CauseLabels| && forall i :: 0 <= i < |table| ==> table[i].name == CauseLabels[i]
  }

  function Names(table: seq<CausePattern>): (names: seq<string>)
    ensures |names| == |table|
  {
    seq(|table|, i requires 0 <= i < |table| => table[i].name)
  }

  /** The labels whose pattern matches `text`, in table order. */
  function Causes(text: string, table: seq<CausePattern>): seq<string>
    decreases |table|
  {
    if table == [] then []
    else (if table[0].search(text) then [table[0].name] else []) + Causes(text, table[1..])
  }

  /** Python's `detect_causes`: one pass over the table, appending each matching name. */
  method DetectCauses(text: string, table: seq<CausePattern>) returns (found: seq<string>)
    ensures found == Causes(text, table)
  {
    found := [];
    CausesFromIsCauses(text, table, 0);
    for i := 0 to |table|
      invariant found + CausesFrom(text, table, i) == Causes(text, table)
    {
      if table[i].search(text) {
        AppendAssoc(found, [table[i].name], CausesFrom(text, table, i + 1));
        found := found + [table[i].name];
      }
    }
  }

  lemma AppendAssoc<T>(a: seq<T>, b: seq<T>, c: seq<T>)
    ensures (a + b) + c == a + (b + c)
  {
  }

  /** The labels from entry `i` on, in table order. */
  function CausesFrom(text: string, table: seq<CausePattern>, i: nat): seq<string>
    requires i <= |table|
    decreases |table| - i
  {
    if i == |table| then []
    else (if table[i].search(text) then [table[i].name] else []) + CausesFrom(text, table, i + 1)
  }

  lemma {:induction false} CausesFromIsCauses(text: string, table: seq<CausePattern>, i: nat)
    requires i <= |table|
    ensures CausesFrom(text, table, i) == Causes(text, table[i..])
    decreases |table| - i
  {
    if i < |table| {
      CausesFromIsCauses(text, table, i + 1);
      assert table[i..][1..] == table[i + 1..];
    }
  }

  /** A name is reported exactly when some entry with that name matches. */
  lemma {:induction false} CausesMembers(text: string, table: seq<CausePattern>, name: string)
    ensures name in Causes(text, table) <==>
      exists i :: 0 <= i < |table| && table[i].search(text) && table[i].name == name
    decreases |table|
  {
    if table != [] {
      CausesMembers(text, table[1..], name);
      if exists i :: 0 <= i < |table| - 1 && table[1..][i].search(text) && table[1..][i].name == name {
        var i :| 0 <= i < |table| - 1 && table[1..][i].search(text) && table[1..][i].name == name;
        assert table[i + 1] == table[1..][i];
      }
      if exists i :: 0 <= i < |table| && table[i].search(text) && table[i].name == name {
        var i :| 0 <= i < |table| && table[i].search(text) && table[i].name == name;
        if i > 0 {
          assert table[1..][i - 1] == table[i];
        }
      }
    }
  }

  /** The reported labels come in the order of the table. */
  lemma {:induction false} CausesInTableOrder(text: string, table: seq<CausePattern>)
    ensures SubseqOf(Causes(text, table), Names(table))
    decreases |table|
  {
    if table != [] {
      var rest := Causes(text, table[1..]);
      CausesInTableOrder(text, table[1..]);
      assert Names(table)[1..] == Names(table[1..]);
      if table[0].search(text) {
        assert Causes(text, table) == [table[0].name] + rest;
        assert ([table[0].name] + rest)[1..] == rest;
      } else {
        assert Causes(text, table) == rest;
      }
    }
  }

  /** With distinct labels, every name is reported at most once. */
  lemma {:induction false} CausesDistinct(text: string, table: seq<CausePattern>)
    requires Distinct(Names(table))
    ensures Distinct(Causes(text, table))
    decreases |table|
  {
    if table != [] {
      var rest := Causes(text, table[1..]);
      assert Names(table[1..]) == Names(table)[1..];
      CausesDistinct(text, table[1..]);
      if table[0].search(text) {
        CausesMembers(text, table[1..], table[0].name);
        assert Names(table)[0] == table[0].name;
        forall i | 0 <= i < |table| - 1 ensures table[1..][i].name != table[0].name {
          assert Names(table)[i + 1] == table[1..][i].name;
        }
        assert table[0].name !in rest;
        var r := [table[0].name] + rest;
        forall i, j | 0 <= i < j < |r| ensures r[i] != r[j] {
          if i > 0 {
            assert r[i] == rest[i - 1] && r[j] == rest[j - 1];
          } else {
            assert r[j] in rest;
          }
        }
      }
    }
  }

  /** The eight labels of `CAUSE_PATTERNS` are distinct, so `detect_causes` never repeats one. */
  lemma DetectCausesOnce(text: string, table: seq<CausePattern>)
    requires IsCauseTable(table)
    ensures Distinct(Causes(text, table))
  {
    assert Names(table) == CauseLabels;
    CausesDistinct(text, table);
  }

  // ===========================================================================
  // _sentences

  predicate IsSentenceEnd(c: char) {
    c == '.' || c == '?' || c == '!'
  }

  /** `(?<=[\.\?!])\s+` can match at `i`: whitespace right after `.`, `?` or `!`. */
  predicate IsBreakAt(s: string, i: int) {
    0 < i < |s| && IsSentenceEnd(s[i - 1]) && IsSpace(s[i])
  }

  /** No break point inside `p`. */
  predicate NoBreak(p: string) {
    forall m :: 0 <= m < |p| ==> !IsBreakAt(p, m)
  }

  /** The length of the whitespace run `\s+` consumes from `i`. */
  function SpaceRun(s: string, i: nat): (n: nat)
    requires i <= |s|
    ensures i + n <= |s|
    ensures forall k :: i <= k < i + n ==> IsSpace(s[k])
    ensures i + n == |s| || !IsSpace(s[i + n])
    decreases |s| - i
  {
    if i < |s| && IsSpace(s[i]) then 1 + SpaceRun(s, i + 1) else 0
  }

  /** The scan of `re.split(r"(?<=[\.\?!])\s+", s)`; the piece in progress starts at `start`. */
  function SplitSentencesFrom(s: string, start: nat, i: nat): (parts: seq<string>)
    requires start <= i <= |s|
    ensures |parts| >= 1
    ensures |parts[0]| > 0 ==> start < |s| && parts[0][0] == s[start]
    decreases |s| - i
  {
    if i == |s| then
      [s[start..]]
    else if IsBreakAt(s, i) then
      var run := SpaceRun(s, i);
      [s[start..i]] + SplitSentencesFrom(s, i + run, i + run)
    else
      SplitSentencesFrom(s, start, i + 1)
  }

  /** The pieces of `re.split(r"(?<=[\.\?!])\s+", text)`. */
  function SentenceParts(text: string): seq<string> {
    SplitSentencesFrom(text, 0, 0)
  }

  /** No piece holds a break point. */
  lemma {:induction false} SplitSentencesNoBreak(s: string, start: nat, i: nat)
    requires start <= i <= |s|
    requires forall k :: start < k < i ==> !IsBreakAt(s, k)
    ensures forall k :: 0 <= k < |SplitSentencesFrom(s, start, i)| ==> NoBreak(SplitSentencesFrom(s, start, i)[k])
    decreases |s| - i
  {
    if i == |s| {
      PieceNoBreak(s, start, i);
      assert s[start..i] == s[start..];
    } else if IsBreakAt(s, i) {
      var run := SpaceRun(s, i);
      PieceNoBreak(s, start, i);
      SplitSentencesNoBreak(s, i + run, i + run);
    } else {
      SplitSentencesNoBreak(s, start, i + 1);
    }
  }

  lemma PieceNoBreak(s: string, start: nat, i: nat)
    requires start <= i <= |s|
    requires forall k :: start < k < i ==> !IsBreakAt(s, k)
    ensures NoBreak(s[start..i])
  {
    var p := s[start..i];
    forall m | 0 <= m < |p| ensures !IsBreakAt(p, m) {
      if 0 < m {
        assert p[m - 1] == s[start + m - 1] && p[m] == s[start + m];
        assert !IsBreakAt(s, start + m);
      }
    }
  }

  /** `p` ends in `.`, `?` or `!`. */
  predicate EndsInPunctuation(p: string) {
    p != [] && IsSentenceEnd(p[|p| - 1])
  }

  /** Every piece but the last ends in `.`, `?` or `!`. */
  predicate EndsAtPunctuation(parts: seq<string>) {
    forall k :: 0 <= k < |parts| - 1 ==> EndsInPunctuation(parts[k])
  }

  /** Every piece but the first starts with something other than whitespace. */
  predicate StartsPastSpace(parts: seq<string>) {
    forall k :: 0 < k < |parts| ==> parts[k] == [] || !IsSpace(parts[k][0])
  }

  lemma ConsEndsAtPunctuation(x: string, rest: seq<string>)
    requires EndsInPunctuation(x) && EndsAtPunctuation(rest)
    ensures EndsAtPunctuation([x] + rest)
  {
    assert forall k :: 0 < k < 1 + |rest| ==> ([x] + rest)[k] == rest[k - 1];
  }

  lemma ConsStartsPastSpace(x: string, rest: seq<string>)
    requires rest != [] && (rest[0] == [] || !IsSpace(rest[0][0])) && StartsPastSpace(rest)
    ensures StartsPastSpace([x] + rest)
  {
    assert forall k :: 0 < k < 1 + |rest| ==> ([x] + rest)[k] == rest[k - 1];
  }

  /** A split cuts only right after sentence punctuation. */
  lemma {:induction false} SplitSentencesEnds(s: string, start: nat, i: nat)
    requires start <= i <= |s|
    requires start == 0 || IsSpace(s[start - 1])
    ensures EndsAtPunctuation(SplitSentencesFrom(s, start, i))
    decreases |s| - i
  {
    if i == |s| {
    } else if IsBreakAt(s, i) {
      var run := SpaceRun(s, i);
      assert IsSpace(s[i + run - 1]);
      SplitSentencesEnds(s, i + run, i + run);
      PieceEndsAtPunctuation(s, start, i);
      ConsEndsAtPunctuation(s[start..i], SplitSentencesFrom(s, i + run, i + run));
    } else {
      SplitSentencesEnds(s, start, i + 1);
    }
  }

  /** The piece cut at a break point ends with the punctuation before it. */
  lemma PieceEndsAtPunctuation(s: string, start: nat, i: nat)
    requires start <= i <= |s| && IsBreakAt(s, i)
    requires start == 0 || IsSpace(s[start - 1])
    ensures EndsInPunctuation(s[start..i])
  {
    assert start < i && s[start..i][i - start - 1] == s[i - 1];
  }

  /** A split drops the whole whitespace run after the punctuation. */
  lemma {:induction false} SplitSentencesStarts(s: string, start: nat, i: nat)
    requires start <= i <= |s|
    ensures StartsPastSpace(SplitSentencesFrom(s, start, i))
    decreases |s| - i
  {
    if i == |s| {
    } else if IsBreakAt(s, i) {
      var run := SpaceRun(s, i);
      SplitSentencesStarts(s, i + run, i + run);
      ConsStartsPastSpace(s[start..i], SplitSentencesFrom(s, i + run, i + run));
    } else {
      SplitSentencesStarts(s, start, i + 1);
    }
  }

  /** Joining the pieces keeps every non-whitespace character of the text, in order. */
  lemma {:induction false} SplitSentencesKeepText(s: string, start: nat, i: nat)
    requires start <= i <= |s|
    ensures NonSpace(Join(SplitSentencesFrom(s, start, i), "")) == NonSpace(s[start..])
    decreases |s| - i
  {
    if i == |s| {
      assert SplitSentencesFrom(s, start, i) == [s[start..]];
    } else if IsBreakAt(s, i) {
      var j := i + SpaceRun(s, i);
      SplitSentencesKeepText(s, j, j);
      assert forall m :: 0 <= m < j - i ==> s[i..j][m] == s[i + m];
      BreakKeepsText(s, start, i, j, SplitSentencesFrom(s, j, j));
      assert SplitSentencesFrom(s, start, i) == [s[start..i]] + SplitSentencesFrom(s, j, j);
    } else {
      SplitSentencesKeepText(s, start, i + 1);
      assert SplitSentencesFrom(s, start, i) == SplitSentencesFrom(s, start, i + 1);
    }
  }

  /** Cutting out a whitespace run between two pieces loses no other character. */
  lemma BreakKeepsText(s: string, start: nat, i: nat, j: nat, rest: seq<string>)
    requires start <= i <= j <= |s| && rest != []
    requires forall m :: 0 <= m < j - i ==> IsSpace(s[i..j][m])
    requires NonSpace(Join(rest, "")) == NonSpace(s[j..])
    ensures NonSpace(Join([s[start..i]] + rest, "")) == NonSpace(s[start..])
  {
    JoinCons(s[start..i], rest);
    NonSpaceOfSpaces(s[i..j]);
    assert s[start..] == s[start..i] + (s[i..j] + s[j..]);
    NonSpaceAppend(s[i..j], s[j..]);
    NonSpaceAppend(s[start..i], s[i..j] + s[j..]);
    NonSpaceAppend(s[start..i], Join(rest, ""));
  }

  lemma JoinCons(x: string, rest: seq<string>)
    requires rest != []
    ensures Join([x] + rest, "") == x + Join(rest, "")
  {
    assert ([x] + rest)[1..] == rest;
    assert x + "" == x;
  }

  /** The list comprehension of `_sentences`: stripped pieces longer than ten characters. */
  function KeepSentences(parts: seq<string>): seq<string>
    decreases |parts|
  {
    if parts == [] then []
    else
      (if parts[0] != [] && |Strip(parts[0])| > 10 then [Strip(parts[0])] else [])
      + KeepSentences(parts[1..])
  }

  /** Python's `_sentences`. */
  function Sentences(text: string): seq<string> {
    KeepSentences(SentenceParts(text))
  }

  /** Every sentence kept is stripped and longer than ten characters. */
  lemma {:induction false} KeepSentencesShape(parts: seq<string>)
    ensures forall k :: 0 <= k < |KeepSentences(parts)| ==>
      Strip(KeepSentences(parts)[k]) == KeepSentences(parts)[k] && |KeepSentences(parts)[k]| > 10
    decreases |parts|
  {
    if parts != [] {
      KeepSentencesShape(parts[1..]);
      StripIdempotent(parts[0]);
    }
  }

  /** The sentences are the stripped pieces, some left out, in the order of the text. */
  lemma {:induction false} KeepSentencesInOrder(parts: seq<string>)
    ensures SubseqOf(KeepSentences(parts), seq(|parts|, k requires 0 <= k < |parts| => Strip(parts[k])))
    decreases |parts|
  {
    if parts != [] {
      KeepSentencesInOrder(parts[1..]);
      var all := seq(|parts|, k requires 0 <= k < |parts| => Strip(parts[k]));
      assert all[1..] == seq(|parts[1..]|, k requires 0 <= k < |parts[1..]| => Strip(parts[1..][k]));
      SubseqOfCons(Strip(parts[0]), KeepSentences(parts[1..]), all, parts[0] != [] && |Strip(parts[0])| > 10);
    }
  }

  /**
   * What `_sentences` promises: each sentence is stripped and longer than ten
   * characters, the sentences are stripped pieces in text order, no piece holds a
   * break point, and the pieces hold every non-whitespace character of the text.
   */
  lemma SentencesSpec(text: string)
    ensures forall k :: 0 <= k < |Sentences(text)| ==>
      Strip(Sentences(text)[k]) == Sentences(text)[k] && |Sentences(text)[k]| > 10
    ensures var parts := SentenceParts(text);
      SubseqOf(Sentences(text), seq(|parts|, k requires 0 <= k < |parts| => Strip(parts[k])))
    ensures forall k :: 0 <= k < |SentenceParts(text)| ==> NoBreak(SentenceParts(text)[k])
    ensures EndsAtPunctuation(SentenceParts(text)) && StartsPastSpace(SentenceParts(text))
    ensures NonSpace(Join(SentenceParts(text), "")) == NonSpace(text)
  {
    KeepSentencesShape(SentenceParts(text));
    KeepSentencesInOrder(SentenceParts(text));
    SplitSentencesNoBreak(text, 0, 0);
    SplitSentencesEnds(text, 0, 0);
    SplitSentencesStarts(text, 0, 0);
    SplitSentencesKeepText(text, 0, 0);
  }

  // ===========================================================================
  // AI_DATA_PATTERNS and the scoring of extract_ai_training_snippet

  /** How many of the AI-signal patterns (three in `AI_DATA_PATTERNS`) match `s`. */
  function Score(s: string, pats: seq<string -> bool>): (n: nat)
    ensures n <= |pats|
    decreases |pats|
  {
    if pats == [] then 0
    else Score(s, pats[..|pats| - 1]) + (if pats[|pats| - 1](s) then 1 else 0)
  }

  /** A sentence scores exactly when some pattern matches it. */
  lemma {:induction false} ScorePositive(s: string, pats: seq<string -> bool>)
    ensures Score(s, pats) > 0 <==> exists k :: 0 <= k < |pats| && pats[k](s)
    decreases |pats|
  {
    if pats != [] {
      var init := pats[..|pats| - 1];
      ScorePositive(s, init);
      if exists k :: 0 <= k < |init| && init[k](s) {
        var k :| 0 <= k < |init| && init[k](s);
        assert pats[k] == init[k];
      }
      if exists k :: 0 <= k < |pats| && pats[k](s) {
        var k :| 0 <= k < |pats| && pats[k](s);
        if k < |init| {
          assert init[k] == pats[k];
        }
      }
    }
  }

  /** The inner loop: `score += 1` for each matching pattern. */
  method CountSignals(s: string, pats: seq<string -> bool>) returns (score: nat)
    ensures score == Score(s, pats)
  {
    score := 0;
    for i := 0 to |pats|
      invariant score == Score(s, pats[..i])
    {
      assert pats[..i + 1][..i] == pats[..i];
      if pats[i](s) {
        score := score + 1;
      }
    }
    assert pats[..|pats|] == pats;
  }

  /** `scored`: the sentences with a positive score, each with its score, in order. */
  function Scored(sents: seq<string>, pats: seq<string -> bool>): (scored: seq<(nat, string)>)
    ensures |scored| <= |sents|
    decreases |sents|
  {
    if sents == [] then []
    else
      var s := sents[|sents| - 1];
      Scored(sents[..|sents| - 1], pats) + (if Score(s, pats) > 0 then [(Score(s, pats), s)] else [])
  }

  /** Each scored entry is a sentence with its own score, which is in `1..|pats|`. */
  lemma {:induction false} ScoredShape(sents: seq<string>, pats: seq<string -> bool>)
    ensures forall k :: 0 <= k < |Scored(sents, pats)| ==>
      var (n, s) := Scored(sents, pats)[k];
      1 <= n <= |pats| && n == Score(s, pats) && s in sents
    decreases |sents|
  {
    if sents != [] {
      var init := sents[..|sents| - 1];
      ScoredShape(init, pats);
      assert forall s :: s in init ==> s in sents;
    }
  }

  /** A pattern table the size of `AI_DATA_PATTERNS`. */
  predicate IsAiTable(pats: seq<string -> bool>) {
    |pats| == 3
  }

  /** With the three `AI_DATA_PATTERNS`, every scored sentence scores 1, 2 or 3. */
  lemma ScoredWithAiTable(sents: seq<string>, pats: seq<string -> bool>)
    requires IsAiTable(pats)
    ensures forall k :: 0 <= k < |Scored(sents, pats)| ==> 1 <= Scored(sents, pats)[k].0 <= 3
  {
    ScoredShape(sents, pats);
  }

  /** Nothing is scored exactly when no sentence scores. */
  lemma {:induction false} ScoredEmpty(sents: seq<string>, pats: seq<string -> bool>)
    ensures Scored(sents, pats) == [] <==> forall k :: 0 <= k < |sents| ==> Score(sents[k], pats) == 0
    decreases |sents|
  {
    if sents != [] {
      var init := sents[..|sents| - 1];
      ScoredEmpty(init, pats);
      assert forall k :: 0 <= k < |init| ==> init[k] == sents[k];
    }
  }

  /** The score loop of `extract_ai_training_snippet`. */
  method ScoreSentences(sents: seq<string>, pats: seq<string -> bool>) returns (scored: seq<(nat, string)>)
    ensures scored == Scored(sents, pats)
  {
    scored := [];
    for i := 0 to |sents|
      invariant scored == Scored(sents[..i], pats)
    {
      var score := CountSignals(sents[i], pats);
      assert sents[..i + 1][..i] == sents[..i];
      if score > 0 {
        scored := scored + [(score, sents[i])];
      }
    }
    assert sents[..|sents|] == sents;
  }

  /**
   * The index of the first entry with the highest score: what a stable sort by
   * descending score puts first.
   */
  function FirstMax(xs: seq<(nat, string)>): (r: nat)
    requires xs != []
    ensures r < |xs|
    ensures forall k :: 0 <= k < |xs| ==> xs[k].0 <= xs[r].0
    ensures forall k :: 0 <= k < r ==> xs[k].0 < xs[r].0
    decreases |xs|
  {
    if |xs| == 1 then 0
    else
      var m := FirstMax(xs[..|xs| - 1]);
      if xs[|xs| - 1].0 > xs[m].0 then |xs| - 1 else m
  }

  /** `scored.sort(key=lambda x: x[0], reverse=True)` followed by `scored[0]`. */
  method SortedHead(scored: seq<(nat, string)>) returns (best: nat)
    requires scored != []
    ensures best == FirstMax(scored)
  {
    best := 0;
    for k := 1 to |scored|
      invariant best == FirstMax(scored[..k])
    {
      assert scored[..k + 1][..k] == scored[..k];
      if scored[k].0 > scored[best].0 {
        best := k;
      }
    }
    assert scored[..|scored|] == scored;
  }

  // ===========================================================================
  // The fallback keyword window

  /** `w` occurs at `q`, ignoring ASCII case. */
  predicate WordAt(t: string, q: nat, w: string) {
    q + |w| <= |t| && Lower(t[q..q + |w|]) == w
  }

  /** The length of a match of `training\s+data` at `q`, ignoring case; 0 when none. */
  function TrainingDataLen(t: string, q: nat): (n: nat)
    requires q <= |t|
    ensures q + n <= |t|
  {
    if WordAt(t, q, "training") && q + 8 < |t| && IsSpace(t[q + 8]) then
      var run := LeadingCount(t[q + 8..], Whitespace);
      if WordAt(t, q + 8 + run, "data") then 8 + run + 4 else 0
    else 0
  }

  /**
   * The length of the match at `q` of the keyword group
   * `training\s+data|dataset|scrap(?:e|ing)|pirat(?:ed|ing)|unauthorized`, ignoring
   * case; 0 when none matches there.
   */
  function KeywordLen(t: string, q: nat): (n: nat)
    requires q <= |t|
    ensures q + n <= |t|
  {
    if TrainingDataLen(t, q) > 0 then TrainingDataLen(t, q)
    else if WordAt(t, q, "dataset") then 7
    else if WordAt(t, q, "scrape") then 6
    else if WordAt(t, q, "scraping") then 8
    else if WordAt(t, q, "pirated") then 7
    else if WordAt(t, q, "pirating") then 8
    else if WordAt(t, q, "unauthorized") then 12
    else 0
  }

  /** The first `\n` at or after `p`, or the end of the text. */
  function NextNewline(t: string, p: nat): (r: nat)
    requires p <= |t|
    ensures p <= r <= |t|
    ensures forall k :: p <= k < r ==> t[k] != '\n'
    ensures r < |t| ==> t[r] == '\n'
    decreases |t| - p
  {
    if p == |t| || t[p] == '\n' then p else NextNewline(t, p + 1)
  }

  /** The furthest `.{0,80}` reaches from `p`: 80 characters, never past a line break. */
  function Reach(t: string, p: nat): (r: nat)
    requires p <= |t|
    ensures p <= r <= |t| && r <= p + 80
  {
    var nl := NextNewline(t, p);
    if p + 80 < nl then p + 80 else nl
  }

  /** The keyword match length at every position of `t`, the end included. */
  function KeywordLens(t: string): (kw: seq<nat>)
    ensures |kw| == |t| + 1
  {
    seq(|t| + 1, q requires 0 <= q <= |t| => KeywordLen(t, q))
  }

  /** The last keyword position in `[p, q]`: backtracking the greedy `.{0,80}`. */
  function LastKeyword(kw: seq<nat>, p: nat, q: nat): (r: Option<nat>)
    requires p <= q < |kw|
    ensures r.None? ==> forall k :: p <= k <= q ==> kw[k] == 0
    ensures r.Some? ==> p <= r.value <= q && kw[r.value] > 0
    ensures r.Some? ==> forall k :: r.value < k <= q ==> kw[k] == 0
    decreases q
  {
    if kw[q] > 0 then Some(q)
    else if q == p then None
    else LastKeyword(kw, p, q - 1)
  }

  /** `re.search` tries each start `p` from the left; the first that reaches a keyword wins. */
  function WindowStart(t: string, kw: seq<nat>, p: nat): (r: Option<(nat, nat)>)
    requires p <= |t| && |kw| == |t| + 1
    ensures r.Some? ==> p <= r.value.0 <= r.value.1 <= |t|
    decreases |t| - p
  {
    match LastKeyword(kw, p, Reach(t, p))
    case Some(q) => Some((p, q))
    case None => if p == |t| then None else WindowStart(t, kw, p + 1)
  }

  /** Without a window, no start from `p0` on reaches a keyword. */
  lemma {:induction false} WindowStartNone(t: string, kw: seq<nat>, p0: nat)
    requires p0 <= |t| && |kw| == |t| + 1 && WindowStart(t, kw, p0).None?
    ensures forall p :: p0 <= p <= |t| ==> LastKeyword(kw, p, Reach(t, p)).None?
    decreases |t| - p0
  {
    if p0 < |t| {
      WindowStartNone(t, kw, p0 + 1);
    }
  }

  /** The window's start is the first from `p0` to reach a keyword, and it reaches `q` last. */
  lemma {:induction false} WindowStartSome(t: string, kw: seq<nat>, p0: nat, p: nat, q: nat)
    requires p0 <= |t| && |kw| == |t| + 1 && WindowStart(t, kw, p0) == Some((p, q))
    ensures p <= |t| && LastKeyword(kw, p, Reach(t, p)) == Some(q)
    ensures forall p' :: p0 <= p' < p ==> LastKeyword(kw, p', Reach(t, p')).None?
    decreases |t| - p0
  {
    if LastKeyword(kw, p0, Reach(t, p0)).None? {
      WindowStartSome(t, kw, p0 + 1, p, q);
    }
  }

  /**
   * The match of `.{0,80}(keyword).{0,180}` without DOTALL: from the window's start
   * up to 180 characters past the keyword, never past a line break.
   */
  function FallbackWindow(t: string): Option<string> {
    var kw := KeywordLens(t);
    match WindowStart(t, kw, 0)
    case None => None
    case Some((p, q)) => Some(t[p..WindowEnd(t, q)])
  }

  /**
   * Where the trailing `.{0,180}` stops after the keyword match at `q`: 180 characters
   * past the match, or earlier at the first line break or the end of the text.
   */
  function WindowEnd(t: string, q: nat): (f: nat)
    requires q <= |t|
    ensures q + KeywordLen(t, q) <= f <= |t| && f <= q + KeywordLen(t, q) + 180
    ensures forall k :: q + KeywordLen(t, q) <= k < f ==> t[k] != '\n'
    ensures f < q + KeywordLen(t, q) + 180 ==> f == |t| || t[f] == '\n'
  {
    var e := q + KeywordLen(t, q);
    var nl := NextNewline(t, e);
    if e + 180 < nl then e + 180 else nl
  }

  /** The fallback finds nothing exactly when no keyword occurs anywhere in the text. */
  lemma FallbackWindowNone(t: string)
    ensures FallbackWindow(t).None? <==> forall q :: 0 <= q <= |t| ==> KeywordLen(t, q) == 0
  {
    var kw := KeywordLens(t);
    if WindowStart(t, kw, 0).None? {
      WindowStartNone(t, kw, 0);
      forall q | 0 <= q <= |t| ensures KeywordLen(t, q) == 0 {
        assert LastKeyword(kw, q, Reach(t, q)).None?;
        assert kw[q] == KeywordLen(t, q);
      }
    } else {
      var (p, q) := WindowStart(t, kw, 0).value;
      WindowStartSome(t, kw, 0, p, q);
      assert kw[q] == KeywordLen(t, q);
    }
  }

  /**
   * When the search finds a window, given `kw == KeywordLens(t)`: it starts at most 80
   * characters before the keyword with no line break in between; no earlier start
   * reaches a keyword, and the window takes the furthest keyword its start reaches.
   */
  lemma WindowShape(t: string, kw: seq<nat>, p: nat, q: nat)
    requires |kw| == |t| + 1 && WindowStart(t, kw, 0) == Some((p, q))
    ensures p <= q <= p + 80 && q <= |t|
    ensures kw[q] > 0
    ensures forall k :: p <= k < q ==> t[k] != '\n'
    ensures forall k :: q < k <= Reach(t, p) ==> kw[k] == 0
    ensures forall p' :: 0 <= p' < p ==> LastKeyword(kw, p', Reach(t, p')).None?
  {
    WindowStartSome(t, kw, 0, p, q);
  }

  /**
   * `t[p..f]` is a slice `.{0,80}(keyword).{0,180}` could match without DOTALL: it
   * starts at most 80 characters before a keyword match at `q` with no line break in
   * between, and ends 180 characters past the match or earlier at the first line
   * break or the end of the text.
   */
  predicate KeywordWindow(t: string, p: nat, q: nat, f: nat) {
    p <= q <= |t| && q <= p + 80 && KeywordLen(t, q) > 0 &&
    q + KeywordLen(t, q) <= f <= |t| && f <= q + KeywordLen(t, q) + 180 &&
    (forall k :: p <= k < q ==> t[k] != '\n') &&
    (forall k :: q + KeywordLen(t, q) <= k < f ==> t[k] != '\n') &&
    (f < q + KeywordLen(t, q) + 180 ==> f == |t| || t[f] == '\n')
  }

  /** A found window is such a slice (`WindowShape` adds that its start is the first to reach a keyword). */
  lemma FallbackWindowSpec(t: string)
    ensures FallbackWindow(t).Some? ==>
      exists p: nat, q: nat, f: nat :: KeywordWindow(t, p, q, f) && FallbackWindow(t).value == t[p..f]
  {
    var kw := KeywordLens(t);
    match WindowStart(t, kw, 0)
    case None =>
    case Some((p, q)) =>
      var f := WindowAt(t, p, q);
  }

  /** The end `f` of the window the search finds from `p` and `q`, with its shape. */
  lemma WindowAt(t: string, p: nat, q: nat) returns (f: nat)
    requires WindowStart(t, KeywordLens(t), 0) == Some((p, q))
    ensures KeywordWindow(t, p, q, f) && FallbackWindow(t) == Some(t[p..f])
  {
    var kw := KeywordLens(t);
    WindowShape(t, kw, p, q);
    assert kw[q] == KeywordLen(t, q);
    f := WindowEnd(t, q);
  }

  // ===========================================================================
  // extract_ai_training_snippet

  /** `re.sub(r"\s+", " ", s).strip()`. */
  function Tidy(s: string): (r: string)
    ensures SingleSpaced(r)
    ensures r == [] || (!IsSpace(r[0]) && !IsSpace(r[|r| - 1]))
    ensures NonSpace(r) == NonSpace(s)
  {
    StripBySingleSpaced(CollapseSpaces(s), Whitespace);
    StripKeepsNonSpace(CollapseSpaces(s));
    Strip(CollapseSpaces(s))
  }

  /** `(sn[:max_len] + "…") if len(sn) > max_len else sn`. */
  function Truncate(sn: string, maxLen: nat): string {
    if |sn| > maxLen then sn[..maxLen] + "…" else sn
  }

  /**
   * The cut keeps the first `max_len` characters and marks the cut with `…`; a short
   * enough snippet is returned as it is. A single-spaced snippet stays single-spaced.
   */
  lemma TruncateSpec(sn: string, maxLen: nat)
    ensures |Truncate(sn, maxLen)| <= maxLen + 1
    ensures |sn| > maxLen ==>
      |Truncate(sn, maxLen)| == maxLen + 1 && Truncate(sn, maxLen)[maxLen] == '…'
      && Truncate(sn, maxLen)[..maxLen] == sn[..maxLen]
    ensures |sn| <= maxLen ==> Truncate(sn, maxLen) == sn
    ensures SingleSpaced(sn) ==> SingleSpaced(Truncate(sn, maxLen))
  {
    if |sn| > maxLen && SingleSpaced(sn) {
      SingleSpacedSlice(sn, 0, maxLen);
      var r := Truncate(sn, maxLen);
      assert r[..maxLen] == sn[..maxLen];
      forall i | 0 <= i < |r| - 1 ensures !SpacePairAt(r, i) {
        assert r[i] == sn[i];
        if i + 1 < maxLen {
          assert r[i + 1] == sn[i + 1];
          assert !SpacePairAt(sn[..maxLen], i);
        }
      }
    }
  }

  /** What `extract_ai_training_snippet(text, max_len)` returns. */
  function Snippet(text: string, maxLen: nat, pats: seq<string -> bool>): string {
    var scored := Scored(Sentences(text), pats);
    if scored == [] then
      match FallbackWindow(text)
      case None => ""
      case Some(w) => Truncate(Tidy(w), maxLen)
    else
      Truncate(Tidy(scored[FirstMax(scored)].1), maxLen)
  }

  /** Python's `extract_ai_training_snippet`, with its loops and early returns. */
  method ExtractAiTrainingSnippet(text: string, maxLen: nat, pats: seq<string -> bool>) returns (r: string)
    ensures r == Snippet(text, maxLen, pats)
  {
    var sents := Sentences(text);
    var scored := ScoreSentences(sents, pats);
    if scored == [] {
      var m := FallbackWindow(text);
      if m.Some? {
        var sn := Tidy(m.value);
        return Truncate(sn, maxLen);
      }
      return "";
    }
    var best := SortedHead(scored);
    var sn := Tidy(scored[best].1);
    r := Truncate(sn, maxLen);
  }

  /**
   * The snippet is at most `max_len + 1` characters, single-spaced, and starts with no
   * whitespace; when something scored it comes from a sentence of the highest score,
   * and no earlier sentence has that score.
   */
  lemma SnippetSpec(text: string, maxLen: nat, pats: seq<string -> bool>)
    ensures |Snippet(text, maxLen, pats)| <= maxLen + 1
    ensures SingleSpaced(Snippet(text, maxLen, pats))
    ensures Snippet(text, maxLen, pats) == [] || !IsSpace(Snippet(text, maxLen, pats)[0])
    ensures var scored := Scored(Sentences(text), pats);
      scored != [] ==> exists b :: (0 <= b < |scored|
        && Snippet(text, maxLen, pats) == Truncate(Tidy(scored[b].1), maxLen)
        && (forall k :: 0 <= k < |scored| ==> scored[k].0 <= scored[b].0)
        && (forall k :: 0 <= k < b ==> scored[k].0 < scored[b].0))
  {
    var scored := Scored(Sentences(text), pats);
    var sn := if scored != [] then Tidy(scored[FirstMax(scored)].1)
      else match FallbackWindow(text) case None => "" case Some(w) => Tidy(w);
    TruncateSpec(sn, maxLen);
    if scored != [] {
      var b := FirstMax(scored);
      assert Snippet(text, maxLen, pats) == Truncate(Tidy(scored[b].1), maxLen);
    }
  }

  /** With no sentence scoring and no keyword in the text, the snippet is empty. */
  lemma SnippetWithoutSignals(text: string, maxLen: nat, pats: seq<string -> bool>)
    requires forall k :: 0 <= k < |Sentences(text)| ==> Score(Sentences(text)[k], pats) == 0
    requires forall q :: 0 <= q <= |text| ==> KeywordLen(text, q) == 0
    ensures Snippet(text, maxLen, pats) == ""
  {
    ScoredEmpty(Sentences(text), pats);
    FallbackWindowNone(text);
  }

  // ===========================================================================
  // extract_parties_from_caption

  /** How much of the text the caption search sees. */
  const CaptionWindow: nat := 2500

  /** The sentinel for a party that could not be found. */
  const Unresolved: string := "미확인"

  /** A regular-expression search returning its two groups when it matches. */
  type GroupSearch = string -> Option<(string, string)>

  /** `text[:2500]`. */
  function CaptionOf(text: string): (cap: string)
    ensures |cap| <= CaptionWindow && cap <= text
  {
    if |text| <= CaptionWindow then text else text[..CaptionWindow]
  }

  /** `re.sub(r"\s+", " ", g).strip(" ,")`. */
  function CleanName(g: string): (r: string)
    ensures SingleSpaced(r)
    ensures r == [] || (r[0] != ' ' && r[0] != ',' && r[|r| - 1] != ' ' && r[|r| - 1] != ',')
    ensures var c, a := CollapseSpaces(g), LeadingCount(CollapseSpaces(g), SpacesAndCommas);
      && a + |r| <= |c| && r == c[a..a + |r|]
      && (forall i :: 0 <= i < a ==> c[i] == ' ' || c[i] == ',')
      && (forall i :: a + |r| <= i < |c| ==> c[i] == ' ' || c[i] == ',')
  {
    StripBySingleSpaced(CollapseSpaces(g), SpacesAndCommas);
    StripBySlice(CollapseSpaces(g), SpacesAndCommas);
    StripBy(CollapseSpaces(g), SpacesAndCommas)
  }

  /**
   * Python's `extract_parties_from_caption`: the full caption pattern first, then the
   * looser `X v. Y` pattern, then the sentinel pair; `caption` and `loose` stand for the
   * two `re.search` calls.
   */
  function ExtractPartiesFromCaption(text: string, caption: GroupSearch, loose: GroupSearch): (r: (string, string))
    ensures caption(CaptionOf(text)).None? && loose(CaptionOf(text)).None? ==> r == (Unresolved, Unresolved)
    ensures caption(CaptionOf(text)).Some? ==>
      r == (CleanName(caption(CaptionOf(text)).value.0), CleanName(caption(CaptionOf(text)).value.1))
    ensures caption(CaptionOf(text)).None? && loose(CaptionOf(text)).Some? ==>
      r == (Strip(loose(CaptionOf(text)).value.0), Strip(loose(CaptionOf(text)).value.1))
    ensures caption(CaptionOf(text)).Some? ==>
      && SingleSpaced(r.0) && SingleSpaced(r.1)
      && (r.0 == [] || (r.0[0] != ' ' && r.0[0] != ',' && r.0[|r.0| - 1] != ' ' && r.0[|r.0| - 1] != ','))
      && (r.1 == [] || (r.1[0] != ' ' && r.1[0] != ',' && r.1[|r.1| - 1] != ' ' && r.1[|r.1| - 1] != ','))
    ensures caption(CaptionOf(text)).None? && loose(CaptionOf(text)).Some? ==>
      && (r.0 == [] || (!IsSpace(r.0[0]) && !IsSpace(r.0[|r.0| - 1])))
      && (r.1 == [] || (!IsSpace(r.1[0]) && !IsSpace(r.1[|r.1| - 1])))
  {
    var cap := CaptionOf(text);
    match caption(cap)
    case Some((g1, g2)) => (CleanName(g1), CleanName(g2))
    case None =>
      match loose(cap)
      case Some((g1, g2)) => (Strip(g1), Strip(g2))
      case None => (Unresolved, Unresolved)
  }

  /** Two texts that agree on their first 2500 characters get the same parties. */
  lemma CaptionPrefixOnly(text: string, other: string, caption: GroupSearch, loose: GroupSearch)
    requires |text| >= CaptionWindow && |other| >= CaptionWindow
    requires text[..CaptionWindow] == other[..CaptionWindow]
    ensures ExtractPartiesFromCaption(text, caption, loose) == ExtractPartiesFromCaption(other, caption, loose)
  {
    assert CaptionOf(text) == text[..CaptionWindow];
    assert CaptionOf(other) == other[..CaptionWindow];
  }
}
