/**
 * The test-selection translator of runner.py: `_to_marker_expr` turns a friendly
 * selection ("all", "1,3,7", "scenario10", any other marker words) into a pytest
 * `-m` expression, and `main` assembles the pytest argument list from it.
 */
module Runner {
  import opened Wrappers
  import opened Text

  // ---------------------------------------------------------------------------
  // Tokenising: re.split(r"[,\s]+", s), then strip and drop the empty pieces
  // ---------------------------------------------------------------------------

  /** A character of the separator class `[,\s]`. */
  predicate IsSeparator(c: char) {
    c == ',' || IsSpace(c)
  }

  predicate NoSeparator(s: string) {
    forall i :: 0 <= i < |s| ==> !IsSeparator(s[i])
  }

  predicate AllSeparators(s: string) {
    forall i :: 0 <= i < |s| ==> IsSeparator(s[i])
  }

  /** The length of the run of non-separator characters at the front of `s`. */
  function WordLen(s: string): (n: nat)
    ensures n <= |s|
    ensures forall k :: 0 <= k < n ==> !IsSeparator(s[k])
    ensures n == |s| || IsSeparator(s[n])
  {
    if s == [] || IsSeparator(s[0]) then 0 else 1 + WordLen(s[1..])
  }

  /** The length of the run of separator characters at the front of `s`. */
  function SeparatorRunLen(s: string): (n: nat)
    ensures n <= |s|
    ensures forall k :: 0 <= k < n ==> IsSeparator(s[k])
    ensures n == |s| || !IsSeparator(s[n])
  {
    if s == [] || !IsSeparator(s[0]) then 0 else 1 + SeparatorRunLen(s[1..])
  }

  /**
   * `re.split(r"[,\s]+", s)`: the pieces between maximal runs of separators,
   * with an empty first (last) piece when `s` starts (ends) with a separator.
   */
  function SplitOnSeparators(s: string): (pieces: seq<string>)
    ensures |pieces| >= 1
    ensures forall i :: 0 <= i < |pieces| ==> NoSeparator(pieces[i])
    decreases |s|
  {
    var n := WordLen(s);
    if n == |s| then [s]
    else
      var rest := s[n..];
      [s[..n]] + SplitOnSeparators(rest[SeparatorRunLen(rest)..])
  }

  /** `[t.strip() for t in pieces if t.strip()]` */
  function StrippedNonEmpty(pieces: seq<string>): seq<string>
  {
    if pieces == [] then []
    else
      var t := Strip(pieces[0]);
      (if t != [] then [t] else []) + StrippedNonEmpty(pieces[1..])
  }

  /** The tokens of a selection, as runner.py computes them. */
  function Tokens(s: string): seq<string>
  {
    StrippedNonEmpty(SplitOnSeparators(s))
  }

  /** Reference tokenisation: the maximal runs of non-separator characters, left to right. */
  function Words(s: string): (ws: seq<string>)
    ensures forall i :: 0 <= i < |ws| ==> ws[i] != [] && NoSeparator(ws[i])
    decreases |s|
  {
    if s == [] then []
    else if IsSeparator(s[0]) then Words(s[1..])
    else
      var n := WordLen(s);
      [s[..n]] + Words(s[n..])
  }

  /** Leading separators do not change the words. */
  lemma {:induction false} WordsSkipSeparators(s: string, m: nat)
    requires m <= |s|
    requires forall k :: 0 <= k < m ==> IsSeparator(s[k])
    ensures Words(s[m..]) == Words(s)
    decreases m
  {
    if m > 0 {
      assert s[1..][m - 1..] == s[m..];
      WordsSkipSeparators(s[1..], m - 1);
    }
  }

  /** Splitting on separator runs and dropping empty pieces yields exactly the words. */
  lemma {:induction false} TokensAreWords(s: string)
    ensures Tokens(s) == Words(s)
    decreases |s|
  {
    var n := WordLen(s);
    var pieces := SplitOnSeparators(s);
    if n == |s| {
      assert pieces == [s] + [];
      StrippedNonEmptyCons(s, []);
      if s != [] {
        WordsOfWord(s);
      }
    } else {
      var rest := s[n..];
      var m := SeparatorRunLen(rest);
      var tail := rest[m..];
      assert pieces == [s[..n]] + SplitOnSeparators(tail);
      StrippedNonEmptyCons(s[..n], SplitOnSeparators(tail));
      TokensAreWords(tail);
      WordsSkipSeparators(rest, m);
      WordsAfterWord(s, n);
    }
  }

  /** A separator-free piece survives stripping unchanged, and only when it is non-empty. */
  lemma StrippedNonEmptyCons(p: string, ps: seq<string>)
    requires NoSeparator(p)
    ensures StrippedNonEmpty([p] + ps) == (if p != [] then [p] else []) + StrippedNonEmpty(ps)
  {
    assert ([p] + ps)[1..] == ps;
    StripNoSpace(p);
  }

  /** The words of `s` are its leading word, if any, and the words after it. */
  lemma WordsAfterWord(s: string, n: nat)
    requires n == WordLen(s) < |s|
    ensures Words(s) == (if n > 0 then [s[..n]] else []) + Words(s[n..])
  {
    if n == 0 {
      assert s[n..] == s;
    }
  }

  /** The word at the front stops at the first separator. */
  lemma WordLenStopsAtSeparator(a: string, c: char, b: string)
    requires IsSeparator(c)
    ensures WordLen(a + [c] + b) == WordLen(a)
    decreases |a|
  {
    if a != [] && !IsSeparator(a[0]) {
      assert (a + [c] + b)[1..] == a[1..] + [c] + b;
      WordLenStopsAtSeparator(a[1..], c, b);
    }
  }

  /** A separator splits a selection into independent halves. */
  lemma {:induction false} WordsAtSeparator(a: string, c: char, b: string)
    requires IsSeparator(c)
    ensures Words(a + [c] + b) == Words(a) + Words(b)
    decreases |a|
  {
    var s := a + [c] + b;
    if a == [] {
      assert s[1..] == b;
    } else if IsSeparator(a[0]) {
      assert s[1..] == a[1..] + [c] + b;
      WordsAtSeparator(a[1..], c, b);
    } else {
      var n := WordLen(a);
      WordLenStopsAtSeparator(a, c, b);
      WordsAtSeparator(a[n..], c, b);
      WordsAfterLeadingWord(a, c, b, n);
    }
  }

  /** After a leading word of `a`, the words of `a + [c] + b` go on with those of the rest. */
  lemma WordsAfterLeadingWord(a: string, c: char, b: string, n: nat)
    requires a != [] && !IsSeparator(a[0]) && n == WordLen(a) && n == WordLen(a + [c] + b)
    requires Words(a[n..] + [c] + b) == Words(a[n..]) + Words(b)
    ensures Words(a + [c] + b) == Words(a) + Words(b)
  {
    var s := a + [c] + b;
    LeadingWord(s, n);
    LeadingWord(a, n);
    SlicesAtWordEnd(a, c, b, n);
    ConsAppend(a[..n], Words(a[n..]), Words(b));
  }

  lemma ConsAppend(w: string, x: seq<string>, y: seq<string>)
    ensures [w] + (x + y) == ([w] + x) + y
  {
  }

  /** A selection that starts with a word: that word, then the words of the rest. */
  lemma LeadingWord(s: string, n: nat)
    requires s != [] && !IsSeparator(s[0]) && n == WordLen(s)
    ensures Words(s) == [s[..n]] + Words(s[n..])
  {
  }

  lemma SlicesAtWordEnd(a: string, c: char, b: string, n: nat)
    requires n <= |a|
    ensures (a + [c] + b)[..n] == a[..n] && (a + [c] + b)[n..] == a[n..] + [c] + b
  {
  }

  /** A separator-free non-empty selection is a single word. */
  lemma WordsOfWord(w: string)
    requires w != [] && NoSeparator(w)
    ensures Words(w) == [w]
  {
    assert WordLen(w) == |w|;
    assert w[..|w|] == w;
  }

  /** A selection made only of separators has no words. */
  lemma {:induction false} WordsOfSeparators(s: string)
    requires AllSeparators(s)
    ensures Words(s) == []
    decreases |s|
  {
    if s != [] {
      WordsOfSeparators(s[1..]);
    }
  }

  // ---------------------------------------------------------------------------
  // Classifying tokens
  // ---------------------------------------------------------------------------

  /** What `re.fullmatch(r"scenario(\d+)", s)` accepts. */
  predicate IsScenarioName(s: string) {
    |s| > 8 && s[..8] == "scenario" && IsDigits(s[8..])
  }

  datatype TokenClass = ScenarioToken(name: string) | OtherToken

  /** The body of the token loop: digits become `scenarioN`, any `scenarioN` is kept lower-case. */
  function Classify(t: string): TokenClass
  {
    var tl := Lower(t);
    if IsDigits(tl) then ScenarioToken("scenario" + tl)
    else if IsScenarioName(tl) then ScenarioToken(tl)
    else OtherToken
  }

  /** The scenario names the loop appends to `scenarios`, in token order. */
  function ScenarioNames(ts: seq<string>): seq<string>
  {
    if ts == [] then []
    else
      var last := ts[|ts| - 1];
      ScenarioNames(ts[..|ts| - 1]) + (if Classify(last).ScenarioToken? then [Classify(last).name] else [])
  }

  /** The tokens the loop appends to `others`, in token order and original case. */
  function OtherTokens(ts: seq<string>): seq<string>
  {
    if ts == [] then []
    else
      var last := ts[|ts| - 1];
      OtherTokens(ts[..|ts| - 1]) + (if Classify(last).OtherToken? then [last] else [])
  }

  /** How one token is classified. */
  lemma ClassifyMeaning(t: string)
    ensures Classify(t).ScenarioToken? <==> IsDigits(t) || IsScenarioName(Lower(t))
    ensures IsDigits(t) ==> Classify(t) == ScenarioToken("scenario" + t)
    ensures !IsDigits(t) && IsScenarioName(Lower(t)) ==> Classify(t) == ScenarioToken(Lower(t))
    ensures Classify(t).ScenarioToken? ==> IsScenarioName(Classify(t).name)
  {
    LowerKeepsClasses(t);
    var tl := Lower(t);
    if IsDigits(tl) {
      var name := "scenario" + tl;
      assert name[..8] == "scenario" && name[8..] == tl;
    }
  }

  /**
   * The loop splits the tokens in two: every scenario name is a lower-case
   * `scenarioN`, every other token is one of the input tokens kept verbatim and
   * not a scenario token, and no token is lost.
   */
  lemma {:induction false} PartitionTokens(ts: seq<string>)
    ensures forall i :: 0 <= i < |ScenarioNames(ts)| ==> IsScenarioName(ScenarioNames(ts)[i])
    ensures forall i :: 0 <= i < |OtherTokens(ts)| ==>
              OtherTokens(ts)[i] in ts && Classify(OtherTokens(ts)[i]) == OtherToken
    ensures |ScenarioNames(ts)| + |OtherTokens(ts)| == |ts|
    ensures forall y :: y in ScenarioNames(ts) <==> exists i :: 0 <= i < |ts| && Classify(ts[i]) == ScenarioToken(y)
    ensures forall i :: 0 <= i < |ts| && Classify(ts[i]) == OtherToken ==> ts[i] in OtherTokens(ts)
  {
    if ts != [] {
      var init := ts[..|ts| - 1];
      PartitionTokens(init);
      ClassifyMeaning(ts[|ts| - 1]);
      assert forall x :: x in init ==> x in ts;
    }
    ScenarioNamesMembers(ts);
    OtherTokensMembers(ts);
  }

  /** The scenario names are exactly the names of the scenario tokens. */
  lemma ScenarioNamesMembers(ts: seq<string>)
    ensures forall y :: y in ScenarioNames(ts) <==> exists i :: 0 <= i < |ts| && Classify(ts[i]) == ScenarioToken(y)
  {
    forall y ensures y in ScenarioNames(ts) <==> exists i :: 0 <= i < |ts| && Classify(ts[i]) == ScenarioToken(y) {
      if y in ScenarioNames(ts) {
        ScenarioNameFromToken(ts, y);
      }
      if exists i :: 0 <= i < |ts| && Classify(ts[i]) == ScenarioToken(y) {
        var i :| 0 <= i < |ts| && Classify(ts[i]) == ScenarioToken(y);
        ScenarioTokenGivesName(ts, i);
      }
    }
  }

  lemma {:induction false} ScenarioNameFromToken(ts: seq<string>, y: string)
    requires y in ScenarioNames(ts)
    ensures exists i :: 0 <= i < |ts| && Classify(ts[i]) == ScenarioToken(y)
  {
    var init := ts[..|ts| - 1];
    var c := Classify(ts[|ts| - 1]);
    assert ScenarioNames(ts) == ScenarioNames(init) + (if c.ScenarioToken? then [c.name] else []);
    if y in ScenarioNames(init) {
      ScenarioNameFromToken(init, y);
      var i :| 0 <= i < |init| && Classify(init[i]) == ScenarioToken(y);
      assert ts[i] == init[i];
    } else {
      assert Classify(ts[|ts| - 1]) == ScenarioToken(y);
    }
  }

  lemma {:induction false} ScenarioTokenGivesName(ts: seq<string>, i: int)
    requires 0 <= i < |ts| && Classify(ts[i]).ScenarioToken?
    ensures Classify(ts[i]).name in ScenarioNames(ts)
  {
    var init := ts[..|ts| - 1];
    var c := Classify(ts[|ts| - 1]);
    assert ScenarioNames(ts) == ScenarioNames(init) + (if c.ScenarioToken? then [c.name] else []);
    if i < |init| {
      assert init[i] == ts[i];
      ScenarioTokenGivesName(init, i);
    }
  }

  /** Every token that is not a scenario reaches the other tokens. */
  lemma {:induction false} OtherTokensMembers(ts: seq<string>)
    ensures forall i :: 0 <= i < |ts| && Classify(ts[i]) == OtherToken ==> ts[i] in OtherTokens(ts)
  {
    if ts != [] {
      var init := ts[..|ts| - 1];
      var last := ts[|ts| - 1];
      OtherTokensMembers(init);
      assert OtherTokens(ts) == OtherTokens(init) + (if Classify(last).OtherToken? then [last] else []);
      forall i | 0 <= i < |ts| && Classify(ts[i]) == OtherToken ensures ts[i] in OtherTokens(ts) {
        if i < |init| {
          assert init[i] == ts[i];
        }
      }
    }
  }

  /** The loop handles one token at a time: a single token gives its name, or nothing. */
  lemma OneTokenParts(t: string)
    ensures ScenarioNames([t]) == (if Classify(t).ScenarioToken? then [Classify(t).name] else [])
    ensures OtherTokens([t]) == (if Classify(t).OtherToken? then [t] else [])
  {
    assert [t][..0] == [];
  }

  /**
   * The scenario names distribute over concatenation of the tokens; with
   * `OneTokenParts` this fixes their order and multiplicities completely.
   */
  lemma {:induction false} ScenarioNamesAppend(a: seq<string>, b: seq<string>)
    ensures ScenarioNames(a + b) == ScenarioNames(a) + ScenarioNames(b)
    decreases |b|
  {
    if b == [] {
      assert a + b == a;
    } else {
      var init := b[..|b| - 1];
      assert (a + b)[..|a + b| - 1] == a + init;
      assert (a + b)[|a + b| - 1] == b[|b| - 1];
      ScenarioNamesAppend(a, init);
    }
  }

  /** The other tokens distribute over concatenation of the tokens in the same way. */
  lemma {:induction false} OtherTokensAppend(a: seq<string>, b: seq<string>)
    ensures OtherTokens(a + b) == OtherTokens(a) + OtherTokens(b)
    decreases |b|
  {
    if b == [] {
      assert a + b == a;
    } else {
      var init := b[..|b| - 1];
      assert (a + b)[..|a + b| - 1] == a + init;
      assert (a + b)[|a + b| - 1] == b[|b| - 1];
      OtherTokensAppend(a, init);
    }
  }

  // ---------------------------------------------------------------------------
  // sorted(set(scenarios), key=lambda x: (len(x), x))
  // ---------------------------------------------------------------------------

  /** Python's `<` on strings: code-point lexicographic order. */
  predicate LexLess(a: string, b: string)
    decreases |a|
  {
    if a == [] then b != []
    else b != [] && (a[0] < b[0] || (a[0] == b[0] && LexLess(a[1..], b[1..])))
  }

  /** The order of the sort key `(len(x), x)`. */
  predicate KeyLess(a: string, b: string) {
    |a| < |b| || (|a| == |b| && LexLess(a, b))
  }

  lemma {:induction false} LexLessIrreflexive(a: string)
    ensures !LexLess(a, a)
    decreases |a|
  {
    if a != [] {
      LexLessIrreflexive(a[1..]);
    }
  }

  lemma {:induction false} LexLessTransitive(a: string, b: string, c: string)
    requires LexLess(a, b) && LexLess(b, c)
    ensures LexLess(a, c)
    decreases |a|
  {
    if a != [] && a[0] == b[0] && b[0] == c[0] {
      LexLessTransitive(a[1..], b[1..], c[1..]);
    }
  }

  lemma {:induction false} LexLessTotal(a: string, b: string)
    requires a != b
    ensures LexLess(a, b) || LexLess(b, a)
    decreases |a|
  {
    if a != [] && b != [] && a[0] == b[0] {
      assert a == [a[0]] + a[1..] && b == [b[0]] + b[1..];
      LexLessTotal(a[1..], b[1..]);
    }
  }

  /** The sort key orders strings strictly and totally. */
  lemma KeyLessStrictTotal(a: string, b: string, c: string)
    ensures !KeyLess(a, a)
    ensures KeyLess(a, b) && KeyLess(b, c) ==> KeyLess(a, c)
    ensures a != b ==> (KeyLess(a, b) <==> !KeyLess(b, a))
  {
    LexLessIrreflexive(a);
    if KeyLess(a, b) && KeyLess(b, c) && |a| == |b| == |c| {
      LexLessTransitive(a, b, c);
    }
    if a != b {
      if |a| == |b| {
        LexLessTotal(a, b);
        if LexLess(a, b) && LexLess(b, a) {
          LexLessTransitive(a, b, a);
          assert false;
        }
      }
    }
  }

  predicate StrictlySorted(s: seq<string>) {
    forall i, j :: 0 <= i < j < |s| ==> KeyLess(s[i], s[j])
  }

  /** Inserts `x` into a strictly sorted list unless it is already there. */
  function Insert(x: string, s: seq<string>): (r: seq<string>)
    requires StrictlySorted(s)
    ensures StrictlySorted(r)
    ensures forall y :: y in r <==> y == x || y in s
  {
    if s == [] then [x]
    else if x == s[0] then s
    else if KeyLess(x, s[0]) then
      assert forall j :: 0 < j < |s| ==> KeyLess(x, s[j]) by {
        forall j | 0 < j < |s| ensures KeyLess(x, s[j]) {
          KeyLessStrictTotal(x, s[0], s[j]);
        }
      }
      [x] + s
    else
      var tail := Insert(x, s[1..]);
      KeyLessStrictTotal(s[0], x, x);
      assert forall y :: y in tail ==> KeyLess(s[0], y);
      [s[0]] + tail
  }

  /** `sorted(set(xs), key=lambda x: (len(x), x))` */
  function SortedUnique(xs: seq<string>): (r: seq<string>)
    ensures StrictlySorted(r)
    ensures forall y :: y in r <==> y in xs
  {
    if xs == [] then [] else Insert(xs[0], SortedUnique(xs[1..]))
  }

  lemma HeadIsMember(s: seq<string>)
    ensures s != [] ==> s[0] in s
  {
  }

  /** There is only one strictly sorted list of a given set of names. */
  lemma {:induction false} StrictlySortedUnique(a: seq<string>, b: seq<string>)
    requires StrictlySorted(a) && StrictlySorted(b)
    requires forall y :: y in a <==> y in b
    ensures a == b
    decreases |a|
  {
    HeadIsMember(b);
    if a != [] {
      assert b != [] by {
        assert a[0] in b;
      }
      if a[0] != b[0] {
        assert a[0] in b && b[0] in a;
        var j :| 0 <= j < |b| && b[j] == a[0];
        var i :| 0 <= i < |a| && a[i] == b[0];
        KeyLessStrictTotal(a[0], b[0], a[0]);
        assert false;
      }
      forall y ensures y in a[1..] <==> y in b[1..] {
        if y in a[1..] {
          var i :| 0 <= i < |a| - 1 && a[1..][i] == y;
          assert a[i + 1] == y;
          KeyLessStrictTotal(a[0], y, y);
          assert y in b;
          var j :| 0 <= j < |b| && b[j] == y;
          assert j != 0;
          assert b[1..][j - 1] == y;
        }
        if y in b[1..] {
          var j :| 0 <= j < |b| - 1 && b[1..][j] == y;
          assert b[j + 1] == y;
          KeyLessStrictTotal(b[0], y, y);
          assert y in a;
          var i :| 0 <= i < |a| && a[i] == y;
          assert i != 0;
          assert a[1..][i - 1] == y;
        }
      }
      StrictlySortedUnique(a[1..], b[1..]);
    }
  }

  /** Deduplication ignores the order and the repetitions of the input. */
  lemma SortedUniqueDependsOnSetOnly(xs: seq<string>, ys: seq<string>)
    requires forall y :: y in xs <==> y in ys
    ensures SortedUnique(xs) == SortedUnique(ys)
  {
    StrictlySortedUnique(SortedUnique(xs), SortedUnique(ys));
  }

  /** `scenario2` sorts before `scenario10`, although it is greater as text. */
  lemma ShorterNameFirst()
    ensures KeyLess("scenario2", "scenario10") && LexLess("scenario10", "scenario2")
  {
  }

  // ---------------------------------------------------------------------------
  // The marker expression
  // ---------------------------------------------------------------------------

  /** `any(o.lower() == "e2e" or o.lower().startswith("e2e ") for o in others)` */
  predicate MentionsE2E(others: seq<string>) {
    exists i :: 0 <= i < |others| && (Lower(others[i]) == "e2e" || StartsWith(Lower(others[i]), "e2e "))
  }

  /** Tokens hold no whitespace, so only the equality test of `MentionsE2E` can fire. */
  lemma MentionsE2EOnlyByEquality(others: seq<string>)
    requires forall i :: 0 <= i < |others| ==> NoSeparator(others[i])
    ensures MentionsE2E(others) <==> exists i :: 0 <= i < |others| && Lower(others[i]) == "e2e"
  {
    forall i | 0 <= i < |others|
      ensures !StartsWith(Lower(others[i]), "e2e ")
    {
      LowerKeepsClasses(others[i]);
      if |others[i]| >= 4 {
        assert !IsSpace(Lower(others[i])[3]);
      }
    }
  }

  /** The selection counts as "no selection": `None`, blank, or `all` in any case. */
  predicate SelectsEverything(sel: Option<string>) {
    sel.None? || AllSpace(sel.value) || Lower(Strip(sel.value)) == "all"
  }

  /**
   * What `_to_marker_expr` returns. With no selection: `None`. Otherwise, for the
   * tokens of the stripped selection: the stripped selection itself when there are
   * none; `o1 and ... and ok` when none is a scenario; and when some are,
   * `[e2e and ][o1 and ... and ok and ](sA or ... or sZ)` with the scenario names
   * deduplicated and sorted by (length, text), the prefix present unless some
   * other token mentions `e2e`.
   */
  function MarkerExpr(sel: Option<string>): Option<string>
  {
    if SelectsEverything(sel) then None
    else
      var s := Strip(sel.value);
      var ts := Tokens(s);
      Some(Expression(s, ScenarioNames(ts), OtherTokens(ts)))
  }

  /** The expression built from the stripped selection `s` and its classified tokens. */
  function Expression(s: string, scenarios: seq<string>, others: seq<string>): string
  {
    if scenarios == [] && others == [] then s
    else if scenarios == [] then Join(others, " and ")
    else
      var group := "(" + Join(SortedUnique(scenarios), " or ") + ")";
      var body := if others == [] then group else Join(others, " and ") + " and " + group;
      if MentionsE2E(others) then body else "e2e and " + body
  }

  lemma JoinNonEmpty(parts: seq<string>, sep: string)
    requires parts != [] && parts[0] != []
    ensures Join(parts, sep) != []
  {
  }

  /** Every token of a selection is a non-empty run free of separators. */
  lemma TokensShape(s: string)
    ensures forall i :: 0 <= i < |Tokens(s)| ==> Tokens(s)[i] != [] && NoSeparator(Tokens(s)[i])
  {
    TokensAreWords(s);
  }

  lemma OtherTokensNonEmpty(ts: seq<string>)
    requires forall i :: 0 <= i < |ts| ==> ts[i] != []
    ensures forall i :: 0 <= i < |OtherTokens(ts)| ==> OtherTokens(ts)[i] != []
  {
    PartitionTokens(ts);
  }

  /**
   * `_to_marker_expr`: tokenise, sort the tokens into scenario names and others,
   * then build the expression step by step.
   */
  method ToMarkerExpr(sel: Option<string>) returns (r: Option<string>)
    ensures r == MarkerExpr(sel)
  {
    if sel.None? || sel.value == "" {
      assert SelectsEverything(sel);
      return None;
    }
    var s := Strip(sel.value);
    if s == "" || Lower(s) == "all" {
      assert SelectsEverything(sel);
      return None;
    }
    assert !SelectsEverything(sel);
    var tokens := Tokens(s);
    TokensShape(s);
    OtherTokensNonEmpty(tokens);
    var scenarios, others := ClassifyTokens(tokens);
    // The empty string stands for Python's `None`: both are falsy wherever `expr` is tested.
    var expr := CombineParts(s, scenarios, others);
    r := Some(if expr != "" then expr else s);
  }

  /** The token loop of `_to_marker_expr`: scenario names and other tokens, in token order. */
  method ClassifyTokens(tokens: seq<string>) returns (scenarios: seq<string>, others: seq<string>)
    ensures scenarios == ScenarioNames(tokens) && others == OtherTokens(tokens)
  {
    scenarios := [];
    others := [];
    for i := 0 to |tokens|
      invariant scenarios == ScenarioNames(tokens[..i])
      invariant others == OtherTokens(tokens[..i])
    {
      assert tokens[..i + 1][..i] == tokens[..i];
      var t := tokens[i];
      var tl := Lower(t);
      if IsDigits(tl) {
        scenarios := scenarios + ["scenario" + tl];
        continue;
      }
      if IsScenarioName(tl) {
        scenarios := scenarios + [tl];
        continue;
      }
      others := others + [t];
    }
    assert tokens[..|tokens|] == tokens;
  }

  /**
   * The part of `_to_marker_expr` after the loop: the sorted group, the joined
   * other tokens and the `e2e` prefix, falling back to the stripped selection
   * `s` when nothing was built.
   */
  method CombineParts(ghost s: string, scenarios: seq<string>, others: seq<string>) returns (expr: string)
    requires forall i :: 0 <= i < |others| ==> others[i] != []
    ensures (if expr != "" then expr else s) == Expression(s, scenarios, others)
  {
    expr := "";
    if scenarios != [] {
      var uniq := SortedUnique(scenarios);
      var group := Join(uniq, " or ");
      expr := "(" + group + ")";
    }
    if others != [] {
      var adv := Join(others, " and ");
      assert adv != "" by {
        JoinNonEmpty(others, " and ");
      }
      expr := if expr != "" then adv + " and " + expr else adv;
    }
    if scenarios != [] && (others == [] || !MentionsE2E(others)) {
      expr := if expr != "" then "e2e and " + expr else "e2e";
    }
  }

  // ---------------------------------------------------------------------------
  // Properties of the marker expression
  // ---------------------------------------------------------------------------

  /** No expression exactly for `None`, a blank selection or `all` in any letter case. */
  lemma NoExpressionIffEverything(sel: Option<string>)
    ensures MarkerExpr(sel).None? <==> SelectsEverything(sel)
  {
  }

  lemma ExampleAllInCapitals()
    ensures MarkerExpr(Some(" ALL ")) == None
  {
    var sel := " ALL ";
    assert LeadingSpaces(sel) == 1;
    assert TrailingSpaces(sel[1..]) == 1;
    assert Strip(sel) == sel[1..4];
    assert Lower(sel[1..4]) == "all";
  }

  /** A selection made only of separators (such as ",,,") comes back stripped. */
  lemma SeparatorsOnlyGiveInput(v: string)
    requires !SelectsEverything(Some(v))
    requires AllSeparators(v)
    ensures MarkerExpr(Some(v)) == Some(Strip(v))
  {
    var s := Strip(v);
    assert AllSeparators(s) by {
      forall k | 0 <= k < |s| ensures IsSeparator(s[k]) {
        assert s[k] == v[LeadingSpaces(v) + k];
      }
    }
    TokensAreWords(s);
    WordsOfSeparators(s);
  }

  lemma ExampleCommasOnly()
    ensures MarkerExpr(Some(",,,")) == Some(",,,")
  {
    var sel := ",,,";
    CommasOnlyShape();
    CommasAreNotAll();
    StripNoSpace(sel);
    SeparatorsOnlyGiveInput(sel);
  }

  lemma CommasOnlyShape()
    ensures NoSpace(",,,") && !AllSpace(",,,") && AllSeparators(",,,")
  {
    var sel := ",,,";
    assert !IsSpace(sel[0]);
  }

  lemma CommasAreNotAll()
    ensures Lower(",,,") != "all"
  {
    var sel := ",,,";
    assert Lower(sel)[0] == ',';
  }

  /** With no scenario token the expression is the other tokens joined by `and`, without prefix. */
  lemma NoScenarioGivesConjunction(v: string)
    requires !SelectsEverything(Some(v))
    requires Tokens(Strip(v)) != [] && ScenarioNames(Tokens(Strip(v))) == []
    ensures MarkerExpr(Some(v)) == Some(Join(Tokens(Strip(v)), " and "))
  {
    var ts := Tokens(Strip(v));
    PartitionTokens(ts);
    OtherTokensAllOthers(ts);
  }

  lemma {:induction false} OtherTokensAllOthers(ts: seq<string>)
    requires ScenarioNames(ts) == []
    ensures OtherTokens(ts) == ts
  {
    if ts != [] {
      var init := ts[..|ts| - 1];
      assert ScenarioNames(init) == [];
      OtherTokensAllOthers(init);
      assert ts == init + [ts[|ts| - 1]];
    }
  }

  /**
   * The prefix `e2e and ` is added exactly when scenarios exist and no other token
   * equals `e2e` in any letter case; the `startswith("e2e ")` test never decides.
   */
  lemma PrefixRule(v: string)
    requires !SelectsEverything(Some(v))
    requires ScenarioNames(Tokens(Strip(v))) != []
    ensures var others := OtherTokens(Tokens(Strip(v)));
            MarkerExpr(Some(v)) ==
              var group := "(" + Join(SortedUnique(ScenarioNames(Tokens(Strip(v)))), " or ") + ")";
              var body := if others == [] then group else Join(others, " and ") + " and " + group;
              Some(if exists i :: 0 <= i < |others| && Lower(others[i]) == "e2e" then body else "e2e and " + body)
  {
    var ts := Tokens(Strip(v));
    var others := OtherTokens(ts);
    TokensShape(Strip(v));
    PartitionTokens(ts);
    assert forall i :: 0 <= i < |others| ==> NoSeparator(others[i]) by {
      forall i | 0 <= i < |others| ensures NoSeparator(others[i]) {
        var k :| 0 <= k < |ts| && ts[k] == others[i];
      }
    }
    MentionsE2EOnlyByEquality(others);
  }

  /** Digit tokens `N` become `scenarioN`, in token order, and none is left over. */
  lemma {:induction false} DigitTokensBecomeScenarios(ts: seq<string>)
    requires forall i :: 0 <= i < |ts| ==> IsDigits(ts[i])
    ensures |ScenarioNames(ts)| == |ts|
    ensures forall i :: 0 <= i < |ts| ==> ScenarioNames(ts)[i] == "scenario" + ts[i]
    ensures OtherTokens(ts) == []
  {
    if ts != [] {
      var init := ts[..|ts| - 1];
      DigitTokensBecomeScenarios(init);
      ClassifyMeaning(ts[|ts| - 1]);
      assert ScenarioNames(ts) == ScenarioNames(init) + ["scenario" + ts[|ts| - 1]];
      forall i | 0 <= i < |init| ensures ScenarioNames(ts)[i] == "scenario" + ts[i] {
        assert init[i] == ts[i];
      }
    }
  }

  /** A selection used as it is: its expression is built from its own tokens. */
  lemma PlainMarker(sel: string, ts: seq<string>)
    requires !SelectsEverything(Some(sel)) && Strip(sel) == sel && Tokens(sel) == ts
    ensures MarkerExpr(Some(sel)) == Some(Expression(sel, ScenarioNames(ts), OtherTokens(ts)))
  {
  }

  /** Scenario names alone give the prefixed, sorted group. */
  lemma ScenariosOnlyExpression(s: string, names: seq<string>)
    requires names != []
    ensures Expression(s, names, []) == "e2e and " + ("(" + Join(SortedUnique(names), " or ") + ")")
  {
    assert !MentionsE2E([]);
  }

  /** Three tokens separated by single separator characters. */
  lemma ThreeWords(sel: string, a: string, b: string, c: string, x: char, y: char)
    requires a != [] && b != [] && c != [] && NoSeparator(a) && NoSeparator(b) && NoSeparator(c)
    requires IsSeparator(x) && IsSeparator(y)
    requires sel == a + [x] + b + [y] + c
    ensures Tokens(sel) == [a, b, c]
  {
    var bc := b + [y] + c;
    assert Words(bc) == [b] + [c] by {
      WordsAtSeparator(b, y, c);
      WordsOfWord(b);
      WordsOfWord(c);
    }
    assert Words(sel) == [a] + [b, c] by {
      assert sel == a + [x] + bc;
      WordsAtSeparator(a, x, bc);
      WordsOfWord(a);
    }
    TokensAreWords(sel);
  }

  /** A selection that needs no stripping and is not `all`. */
  lemma PlainSelection(sel: string)
    requires |sel| > 3 && NoSpace(sel)
    ensures Strip(sel) == sel && !SelectsEverything(Some(sel))
  {
    StripNoSpace(sel);
  }

  lemma ClassifyOneThreeSeven()
    ensures ScenarioNames(["1", "3", "7"]) == ["scenario1", "scenario3", "scenario7"] && OtherTokens(["1", "3", "7"]) == []
  {
    var ts := ["1", "3", "7"];
    var names := ["scenario1", "scenario3", "scenario7"];
    ClassifyDigitsToken(ts[0], names[0]);
    ClassifyDigitsToken(ts[1], names[1]);
    ClassifyDigitsToken(ts[2], names[2]);
    ThreeScenarioTokens(ts[0], ts[1], ts[2], names[0], names[1], names[2]);
  }

  lemma SortOneThreeSeven()
    ensures SortedUnique(["scenario1", "scenario3", "scenario7"]) == ["scenario1", "scenario3", "scenario7"]
  {
    var names := ["scenario1", "scenario3", "scenario7"];
    OneThreeSevenSorted();
    StrictlySortedUnique(SortedUnique(names), names);
  }

  lemma OneThreeSevenSorted()
    ensures StrictlySorted(["scenario1", "scenario3", "scenario7"])
  {
    var names := ["scenario1", "scenario3", "scenario7"];
    LexLessAt(names[0], names[1], 8);
    LexLessAt(names[1], names[2], 8);
    LexLessAt(names[0], names[2], 8);
  }

  /** Strings that agree up to position `k` and differ there are ordered by that character. */
  lemma {:induction false} LexLessAt(a: string, b: string, k: nat)
    requires k < |a| && k < |b| && a[..k] == b[..k] && a[k] < b[k]
    ensures LexLess(a, b)
    decreases k
  {
    if k > 0 {
      assert a[0] == a[..k][0] == b[..k][0] == b[0];
      assert a[1..][..k - 1] == a[1..k] == b[1..k] == b[1..][..k - 1];
      LexLessAt(a[1..], b[1..], k - 1);
    }
  }

  /**
   * The example of the selection comment: `1,3,7` gives
   * `e2e and (scenario1 or scenario3 or scenario7)`, written below as the
   * concatenation the joins produce.
   */
  lemma ExampleOneThreeSeven()
    ensures MarkerExpr(Some("1,3,7")) ==
              Some("e2e and " + ("(" + ("scenario1" + " or " + ("scenario3" + " or " + "scenario7")) + ")"))
  {
    var sel := "1,3,7";
    PlainSelection(sel);
    var ts := ["1", "3", "7"];
    ThreeWords(sel, ts[0], ts[1], ts[2], ',', ',');
    var names := ["scenario1", "scenario3", "scenario7"];
    ClassifyOneThreeSeven();
    SortOneThreeSeven();
    PlainMarker(sel, ts);
    ScenariosOnlyExpression(sel, names);
    assert Join(names, " or ") == names[0] + " or " + (names[1] + " or " + names[2]);
  }

  lemma ClassifyAdvancedText()
    ensures ScenarioNames(["e2e", "and", "smoke"]) == [] && OtherTokens(["e2e", "and", "smoke"]) == ["e2e", "and", "smoke"]
  {
    var ts := ["e2e", "and", "smoke"];
    ClassifyMeaning(ts[0]);
    ClassifyMeaning(ts[1]);
    ClassifyMeaning(ts[2]);
    assert ts[0][0] == 'e' && ts[1][0] == 'a' && ts[2][0] == 's';
    assert !IsDigits(ts[0]) && !IsDigits(ts[1]) && !IsDigits(ts[2]);
    assert |Lower(ts[0])| == 3 && |Lower(ts[1])| == 3 && |Lower(ts[2])| == 5;
    var p1, p2 := ts[..1], ts[..2];
    assert p2[..1] == p1 && p1[..0] == [] && p2[1] == ts[1];
    assert ScenarioNames(p1) == [] && ScenarioNames(p2) == [];
    OtherTokensAllOthers(ts);
  }

  lemma AdvancedTextTokens()
    ensures Strip("e2e and smoke") == "e2e and smoke" && !SelectsEverything(Some("e2e and smoke")) && Tokens("e2e and smoke") == ["e2e", "and", "smoke"]
  {
    AdvancedTextPlain();
    AdvancedTextWords();
  }

  lemma AdvancedTextPlain()
    ensures Strip("e2e and smoke") == "e2e and smoke" && !SelectsEverything(Some("e2e and smoke"))
  {
    var sel := "e2e and smoke";
    assert LeadingSpaces(sel) == 0 && TrailingSpaces(sel) == 0;
    assert |Lower(sel)| == 13;
  }

  lemma AdvancedTextWords()
    ensures Tokens("e2e and smoke") == ["e2e", "and", "smoke"]
  {
    var sel := "e2e and smoke";
    var ts := ["e2e", "and", "smoke"];
    ThreeWords(sel, ts[0], ts[1], ts[2], ' ', ' ');
  }

  /**
   * The selection comment promises that other text such as `e2e and smoke` is used
   * verbatim; the code splits it into tokens and joins them with `and` instead,
   * giving `e2e and and and smoke`.
   */
  lemma ExampleAdvancedTextIsNotVerbatim()
    ensures MarkerExpr(Some("e2e and smoke")) == Some("e2e" + " and " + ("and" + " and " + "smoke"))
  {
    var sel := "e2e and smoke";
    var ts := ["e2e", "and", "smoke"];
    AdvancedTextTokens();
    ClassifyAdvancedText();
    PlainMarker(sel, ts);
    assert Join(ts, " and ") == ts[0] + " and " + (ts[1] + " and " + ts[2]);
  }

  /** Three scenario tokens give their three names, in order, and no other token. */
  lemma ThreeScenarioTokens(a: string, b: string, c: string, na: string, nb: string, nc: string)
    requires Classify(a) == ScenarioToken(na) && Classify(b) == ScenarioToken(nb) && Classify(c) == ScenarioToken(nc)
    ensures ScenarioNames([a, b, c]) == [na, nb, nc] && OtherTokens([a, b, c]) == []
  {
    var ts := [a, b, c];
    assert [a][..0] == [];
    assert ScenarioNames([a]) == [na] && OtherTokens([a]) == [];
    assert [a, b][..1] == [a];
    assert ScenarioNames([a, b]) == [na, nb] && OtherTokens([a, b]) == [];
    assert ts[..2] == [a, b];
  }

  lemma ClassifyDigitsToken(t: string, name: string)
    requires IsDigits(t) && name == "scenario" + t
    ensures Classify(t) == ScenarioToken(name)
  {
    ClassifyMeaning(t);
  }

  lemma ClassifyUpperScenario()
    ensures Classify("SCENARIO2") == ScenarioToken("scenario2")
  {
    var t := "SCENARIO2";
    var name := "scenario2";
    ClassifyMeaning(t);
    assert t[0] == 'S' && !IsDigits(t);
    assert Lower(t) == name;
    assert name[..8] == "scenario" && name[8..] == "2";
  }

  lemma ClassifyDedupAndOrder()
    ensures ScenarioNames(["10", "SCENARIO2", "2"]) == ["scenario10", "scenario2", "scenario2"] && OtherTokens(["10", "SCENARIO2", "2"]) == []
  {
    var ts := ["10", "SCENARIO2", "2"];
    var names := ["scenario10", "scenario2", "scenario2"];
    ClassifyDigitsToken(ts[0], names[0]);
    ClassifyUpperScenario();
    ClassifyDigitsToken(ts[2], names[2]);
    ThreeScenarioTokens(ts[0], ts[1], ts[2], names[0], names[1], names[2]);
  }

  lemma SortDedupAndOrder()
    ensures SortedUnique(["scenario10", "scenario2", "scenario2"]) == ["scenario2", "scenario10"]
  {
    var names := ["scenario10", "scenario2", "scenario2"];
    var sorted := ["scenario2", "scenario10"];
    assert StrictlySorted(sorted);
    StrictlySortedUnique(SortedUnique(names), sorted);
  }

  lemma DedupTokens()
    ensures Strip("10,SCENARIO2,2") == "10,SCENARIO2,2" && !SelectsEverything(Some("10,SCENARIO2,2")) && Tokens("10,SCENARIO2,2") == ["10", "SCENARIO2", "2"]
  {
    PlainSelection("10,SCENARIO2,2");
    DedupWords();
  }

  lemma DedupWords()
    ensures Tokens("10,SCENARIO2,2") == ["10", "SCENARIO2", "2"]
  {
    var sel := "10,SCENARIO2,2";
    var ts := ["10", "SCENARIO2", "2"];
    ThreeWords(sel, ts[0], ts[1], ts[2], ',', ',');
  }

  /**
   * Mixed case, repetitions and both spellings of a scenario: `10,SCENARIO2,2`
   * gives the one sorted group `e2e and (scenario2 or scenario10)`.
   */
  lemma ExampleDedupAndOrder()
    ensures MarkerExpr(Some("10,SCENARIO2,2")) == Some("e2e and " + ("(" + ("scenario2" + " or " + "scenario10") + ")"))
  {
    var sel := "10,SCENARIO2,2";
    var ts := ["10", "SCENARIO2", "2"];
    DedupTokens();
    var names, sorted := ["scenario10", "scenario2", "scenario2"], ["scenario2", "scenario10"];
    ClassifyDedupAndOrder();
    SortDedupAndOrder();
    PlainMarker(sel, ts);
    ScenariosOnlyExpression(sel, names);
    assert Join(sorted, " or ") == sorted[0] + " or " + sorted[1];
  }

  // ---------------------------------------------------------------------------
  // The pytest argument list assembled by main
  // ---------------------------------------------------------------------------

  /** The module-level settings of runner.py. */
  const Select: string := "all"
  const Headless: bool := true
  const AlwaysScreenshot: bool := false

  /** An expression, when there is one, is never the empty string. */
  lemma MarkerExprNonEmpty(sel: Option<string>)
    ensures MarkerExpr(sel).Some? ==> MarkerExpr(sel).value != ""
  {
    if !SelectsEverything(sel) {
      var s := Strip(sel.value);
      var ts := Tokens(s);
      var others := OtherTokens(ts);
      assert s != [];
      if ScenarioNames(ts) == [] && others != [] {
        TokensShape(s);
        OtherTokensNonEmpty(ts);
        JoinNonEmpty(others, " and ");
      }
    }
  }

  /** `main` passes `-m` exactly when the selection does not select everything. */
  lemma MarkerArgs(select: Option<string>, expr: Option<string>)
    requires expr == MarkerExpr(select)
    ensures (expr.Some? && expr.value != "") <==> !SelectsEverything(select)
  {
    MarkerExprNonEmpty(select);
  }

  /**
   * `main`'s argument list: `-m` and the expression when the selection yields a
   * non-empty one, then `--headless`, then `--always-screenshot`, each only when
   * its setting is on.
   */
  method BuildPytestArgs(select: Option<string>, headless: bool, alwaysScreenshot: bool)
    returns (args: seq<string>)
    ensures var marker := if SelectsEverything(select) then [] else ["-m", MarkerExpr(select).value];
            args == marker + (if headless then ["--headless"] else [])
                           + (if alwaysScreenshot then ["--always-screenshot"] else [])
  {
    args := [];
    var expr := ToMarkerExpr(select);
    MarkerArgs(select, expr);
    if expr.Some? && expr.value != "" {
      args := args + ["-m", expr.value];
    }
    ghost var marker := args;
    assert marker == if SelectsEverything(select) then [] else ["-m", MarkerExpr(select).value];
    if headless {
      args := args + ["--headless"];
    }
    ghost var flags := args;
    assert flags == marker + (if headless then ["--headless"] else []);
    if alwaysScreenshot {
      args := args + ["--always-screenshot"];
    }
    assert args == flags + (if alwaysScreenshot then ["--always-screenshot"] else []);
  }

  /** With the settings as shipped, every test runs, headless, with no forced screenshot. */
  lemma ShippedSettings()
    ensures MarkerExpr(Some(Select)) == None
    ensures SelectsEverything(Some(Select)) && Headless && !AlwaysScreenshot
  {
    StripNoSpace(Select);
    assert Lower(Select) == Select;
  }
}
