/**
 * The two pieces of pages/base_page.py that are plain decisions rather than
 * browser calls: the rule of `_ensure_mark_active` (click the "mark" button
 * unless its class attribute already reads "mark active") and `has_query_flag`
 * (does the query of a URL hold an exact `&`-separated token).
 */
module BasePage {
  import opened Wrappers
  import opened Text

  // ---------------------------------------------------------------------------
  // _ensure_mark_active
  // ---------------------------------------------------------------------------

  /** The class attribute of an already active mark button. */
  const ActiveMarkClass: string := "mark active"

  /**
   * Whether `_ensure_mark_active` clicks: exactly when the class attribute
   * (`None` when the element has none) is not the string "mark active".
   */
  predicate NeedsMarkClick(classes: Option<string>) {
    classes != Some(ActiveMarkClass)
  }

  // ---------------------------------------------------------------------------
  // has_query_flag
  // ---------------------------------------------------------------------------

  /**
   * The `query` component of `urlsplit(url)`: the fragment (from the first `#`)
   * is cut off first, and the query is what follows the first `?` of the rest,
   * or the empty string when there is no `?`.
   */
  function Query(url: string): (q: string)
    ensures '#' !in q
    ensures var front := BeforeFirst(url, '#');
            if '?' in front then front == BeforeFirst(front, '?') + "?" + q else q == ""
  {
    var front := BeforeFirst(url, '#');
    if '?' in front then AfterFirst(front, '?') else ""
  }

  /**
   * `has_query_flag(url, flag)`: false for an empty query, otherwise whether
   * one of the `&`-separated pieces of the query equals `flag`.
   */
  function HasQueryFlag(url: string, flag: string): (b: bool)
    ensures Query(url) == "" ==> !b
  {
    var q := Query(url);
    q != "" && flag in Split(q, '&')
  }

  /** `x` between two `&`. */
  function Pad(x: string): string {
    "&" + x + "&"
  }

  /** `flag`, between two `&`, starts at position `i` of `q` between two `&`. */
  predicate MatchAt(q: string, flag: string, i: int) {
    0 <= i <= |q| - |flag| && Pad(q)[i..i + |flag| + 2] == Pad(flag)
  }

  /**
   * The reference meaning of "`flag` is a token of `q`": `flag` holds no `&`,
   * and it occurs in `q` with an `&` or the end of `q` on either side of it.
   */
  ghost predicate Delimited(q: string, flag: string) {
    '&' !in flag && exists i :: MatchAt(q, flag, i)
  }

  /** The result is true exactly when the query is non-empty and holds `flag` as a delimited token. */
  lemma HasQueryFlagMeaning(url: string, flag: string)
    ensures HasQueryFlag(url, flag) <==> Query(url) != "" && Delimited(Query(url), flag)
  {
    var q := Query(url);
    var parts := Split(q, '&');
    TokenOfJoin(parts, flag);
  }

  /** A token of an `&`-join of `&`-free pieces is exactly one of the pieces. */
  lemma {:induction false} TokenOfJoin(parts: seq<string>, flag: string)
    requires parts != []
    requires forall k :: 0 <= k < |parts| ==> '&' !in parts[k]
    ensures flag in parts <==> Delimited(Join(parts, "&"), flag)
  {
    var p := parts[0];
    if |parts| == 1 {
      DelimitedSingle(p, flag);
    } else {
      var ps := parts[1..];
      TokenOfJoin(ps, flag);
      assert Join(parts, "&") == p + "&" + Join(ps, "&");
      DelimitedCons(p, Join(ps, "&"), flag);
      assert flag in parts <==> flag == p || flag in ps by {
        assert parts == [p] + ps;
      }
    }
  }

  /** An `&`-free string has itself as its only token. */
  lemma DelimitedSingle(p: string, flag: string)
    requires '&' !in p
    ensures Delimited(p, flag) <==> flag == p
  {
    if Delimited(p, flag) {
      var i :| MatchAt(p, flag, i);
      MatchAtFront(Pad(p), p, flag, i);
    }
    if flag == p {
      assert MatchAt(p, flag, 0);
    }
  }

  /** The tokens of `p&r`, for an `&`-free `p`, are `p` and the tokens of `r`. */
  lemma DelimitedCons(p: string, r: string, flag: string)
    requires '&' !in p
    ensures Delimited(p + "&" + r, flag) <==> flag == p || Delimited(r, flag)
  {
    var j := p + "&" + r;
    var w := Pad(j);
    assert w == Pad(p) + r + "&";
    assert w == ("&" + p) + Pad(r);
    if Delimited(j, flag) {
      var i :| MatchAt(j, flag, i);
      if i <= |p| {
        MatchAtFront(w, p, flag, i);
      } else {
        MatchInRest(p, r, flag, i);
      }
    }
    if flag == p {
      assert w[0..|flag| + 2] == Pad(p);
      assert MatchAt(j, flag, 0);
    }
    if flag != p && Delimited(r, flag) {
      var k :| MatchAt(r, flag, k);
      MatchShifted(p, r, flag, k);
    }
  }

  lemma MatchInRest(p: string, r: string, flag: string, i: int)
    requires MatchAt(p + "&" + r, flag, i) && i > |p|
    ensures MatchAt(r, flag, i - |p| - 1)
  {
    var front := "&" + p;
    assert Pad(p + "&" + r) == front + Pad(r);
    SliceOfAppend(front, Pad(r), i - |p| - 1, |flag| + 2);
  }

  lemma MatchShifted(p: string, r: string, flag: string, k: int)
    requires MatchAt(r, flag, k)
    ensures MatchAt(p + "&" + r, flag, k + |p| + 1)
  {
    var front := "&" + p;
    assert Pad(p + "&" + r) == front + Pad(r);
    SliceOfAppend(front, Pad(r), k, |flag| + 2);
  }

  /** A slice of the second half of `a + b`. */
  lemma SliceOfAppend(a: string, b: string, k: nat, n: nat)
    requires k + n <= |b|
    ensures (a + b)[|a| + k..|a| + k + n] == b[k..k + n]
  {
  }

  /** In `&x&` for an `&`-free `x`, the `&` are the first and the last character. */
  lemma PadPositions(x: string)
    requires '&' !in x
    ensures forall k :: 0 <= k < |x| + 2 ==> (Pad(x)[k] == '&' <==> k == 0 || k == |x| + 1)
  {
    forall k | 0 <= k < |x| + 2 ensures Pad(x)[k] == '&' <==> k == 0 || k == |x| + 1 {
      if 0 < k < |x| + 1 {
        assert Pad(x)[k] == x[k - 1];
      }
    }
  }

  /**
   * A delimited match that starts inside the leading `&p&` of `w`, where `p`
   * holds no `&`, can only be `p` itself.
   */
  lemma MatchAtFront(w: string, p: string, flag: string, i: int)
    requires '&' !in p && '&' !in flag
    requires |p| + 2 <= |w| && w[..|p| + 2] == Pad(p)
    requires 0 <= i <= |p| && i + |flag| + 2 <= |w| && w[i..i + |flag| + 2] == Pad(flag)
    ensures i == 0 && flag == p
  {
    PadPositions(p);
    PadPositions(flag);
    assert Pad(p)[i] == w[i] == Pad(flag)[0];
    assert flag == Pad(flag)[1..|flag| + 1] == w[1..|flag| + 1] == Pad(p)[1..|p| + 1] == p;
  }

  // ---------------------------------------------------------------------------
  // Examples of the doc comment
  // ---------------------------------------------------------------------------

  /** A keyless query: the piano URL `.../piano?1g` carries the flag `1g`. */
  lemma ExampleKeylessQuery()
    ensures HasQueryFlag("https://www.musicca.com/es/piano?1g", "1g")
  {
    var url := "https://www.musicca.com/es/piano?1g";
    var flag := "1g";
    QueryAfterMark(url, 32, flag);
    SingleTokenSplit();
  }

  lemma SingleTokenSplit()
    ensures "1g" in Split("1g", '&')
  {
    var flag := "1g";
    SplitSingle(flag, '&');
  }

  /** A later token matches too: `?a&1g` carries `1g`. */
  lemma ExampleSecondToken()
    ensures HasQueryFlag("/piano?a&1g", "1g")
  {
    var url := "/piano?a&1g";
    var flag := "1g";
    var q := "a&1g";
    QueryAfterMark(url, 6, q);
    SecondTokenSplit();
  }

  lemma SecondTokenSplit()
    ensures "1g" in Split("a&1g", '&')
  {
    var q := "a&1g";
    var flag := "1g";
    assert q == "a" + "&" + flag;
    SplitAtSeparator("a", flag, '&');
  }

  /** A token that only starts with the flag does not match: `?1gx` does not carry `1g`. */
  lemma ExamplePrefixIsNoMatch()
    ensures !HasQueryFlag("/piano?1gx", "1g")
  {
    var url := "/piano?1gx";
    var flag := "1g";
    var q := "1gx";
    QueryAfterMark(url, 6, q);
    LongerTokenSplit();
  }

  lemma LongerTokenSplit()
    ensures "1g" !in Split("1gx", '&')
  {
    var q := "1gx";
    var flag := "1g";
    SplitSingle(q, '&');
  }

  /** The query of a URL with one `?` at position `n` and no `#`. */
  lemma QueryAfterMark(url: string, n: nat, q: string)
    requires n < |url| && url[n] == '?' && q == url[n + 1..]
    requires forall k :: 0 <= k < |url| ==> url[k] != '#'
    requires forall k :: 0 <= k < n ==> url[k] != '?'
    ensures Query(url) == q
  {
    assert BeforeFirst(url, '#') == url;
    assert '?' in url;
    assert |BeforeFirst(url, '?')| == n;
  }

  /** A piece with no separator splits into itself. */
  lemma SplitSingle(s: string, sep: char)
    requires sep !in s
    ensures Split(s, sep) == [s]
  {
    var parts := Split(s, sep);
    if |parts| > 1 {
      JoinMany(parts, [sep]);
      assert false;
    }
  }

  /** Splitting `a + [sep] + b` for separator-free `a` and `b`. */
  lemma SplitAtSeparator(a: string, b: string, sep: char)
    requires sep !in a && sep !in b
    ensures Split(a + [sep] + b, sep) == [a, b]
  {
    var s := a + [sep] + b;
    var parts := Split(s, sep);
    assert s[|a|] == sep;
    if |parts| == 1 {
      assert false;
    }
    JoinMany(parts, [sep]);
    var rest := Join(parts[1..], [sep]);
    assert s == parts[0] + [sep] + rest;
    PieceBeforeSeparator(a, b, parts[0], rest, sep);
    var ps := parts[1..];
    if |ps| > 1 {
      JoinMany(ps, [sep]);
      assert false;
    }
    assert parts == [parts[0]] + ps;
  }

  /** Joining two or more pieces puts the separator after the first. */
  lemma JoinMany(parts: seq<string>, sep: string)
    requires |parts| > 1
    ensures Join(parts, sep) == parts[0] + sep + Join(parts[1..], sep)
    ensures sep <= Join(parts, sep)[|parts[0]|..]
  {
  }

  /** The first separator of `a + [sep] + b` is the one after `a`. */
  lemma PieceBeforeSeparator(a: string, b: string, x: string, y: string, sep: char)
    requires sep !in a && sep !in b && sep !in x
    requires a + [sep] + b == x + [sep] + y
    ensures x == a && y == b
  {
    var s := a + [sep] + b;
    assert s[|a|] == sep && s[|x|] == sep;
    assert forall k :: 0 <= k < |a| ==> s[k] == a[k];
    assert forall k :: 0 <= k < |x| ==> s[k] == x[k];
    assert |x| == |a|;
    assert x == s[..|a|] == a;
    assert y == s[|a| + 1..] == b;
  }
}
