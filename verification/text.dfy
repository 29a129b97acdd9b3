/** String helpers the server relies on: SQLite's BINARY text order (used by
    every ORDER BY on a text column), the character prefix `substr(date, 1, 7)`,
    and the request-target handling done with Python's `urlparse`,
    `str.split('/')` and `int`. */
module Text {
  import opened Base

  // ---------------------------------------------------------------------------
  // Text order
  // ---------------------------------------------------------------------------

  /** Lexicographic order on code points, a proper prefix first. UTF-8 keeps
      code-point order, so this is SQLite's BINARY collation (memcmp of the
      UTF-8 bytes). */
  predicate Le(a: string, b: string)
    decreases |a|
  {
    if |a| == 0 then true
    else if |b| == 0 then false
    else if a[0] != b[0] then a[0] < b[0]
    else Le(a[1..], b[1..])
  }

  predicate Lt(a: string, b: string)
  {
    Le(a, b) && a != b
  }

  lemma {:induction false} LeReflexive(a: string)
    ensures Le(a, a)
    decreases |a|
  {
    if |a| > 0 {
      LeReflexive(a[1..]);
    }
  }

  lemma {:induction false} LeTotal(a: string, b: string)
    ensures Le(a, b) || Le(b, a)
    decreases |a|
  {
    if |a| > 0 && |b| > 0 && a[0] == b[0] {
      LeTotal(a[1..], b[1..]);
    }
  }

  lemma {:induction false} LeTransitive(a: string, b: string, c: string)
    requires Le(a, b) && Le(b, c)
    ensures Le(a, c)
    decreases |a|
  {
    if |a| > 0 && |b| > 0 && |c| > 0 && a[0] == b[0] && b[0] == c[0] {
      LeTransitive(a[1..], b[1..], c[1..]);
    }
  }

  lemma {:induction false} LeAntisymmetric(a: string, b: string)
    requires Le(a, b) && Le(b, a)
    ensures a == b
    decreases |a|
  {
    if |a| > 0 && |b| > 0 {
      LeAntisymmetric(a[1..], b[1..]);
      assert a == [a[0]] + a[1..];
      assert b == [b[0]] + b[1..];
    }
  }

  // ---------------------------------------------------------------------------
  // substr
  // ---------------------------------------------------------------------------

  /** SQLite `substr(s, 1, n)` on a text value: its first `n` characters, or
      all of it when it is shorter. */
  function Prefix(s: string, n: nat): (p: string)
    ensures p <= s
    ensures |p| == Min(n, |s|)
  {
    if |s| <= n then s else s[..n]
  }

  // ---------------------------------------------------------------------------
  // Cutting a request target
  // ---------------------------------------------------------------------------

  /** The longest prefix of `s` containing no character of `stops`. */
  function Before(s: string, stops: set<char>): (r: string)
    ensures r <= s
    ensures forall i :: 0 <= i < |r| ==> r[i] !in stops
    ensures |r| < |s| ==> s[|r|] in stops
    decreases |s|
  {
    if |s| == 0 || s[0] in stops then "" else [s[0]] + Before(s[1..], stops)
  }

  /** `s.split('/')[-1]`: what follows the last slash, or all of `s` when it
      has none. */
  function LastSegment(s: string): (r: string)
    ensures |r| <= |s| && r == s[|s| - |r|..]
    ensures forall i :: 0 <= i < |r| ==> r[i] != '/'
    ensures |r| < |s| ==> s[|s| - |r| - 1] == '/'
    decreases |s|
  {
    if |s| == 0 || s[|s| - 1] == '/' then ""
    else LastSegment(s[..|s| - 1]) + [s[|s| - 1]]
  }

  /** The path component Python's `urlparse` returns for a request target
      that starts with a single slash: the query (`?`) and fragment (`#`)
      are cut off, and so are the `;params` of the last path segment. */
  function UrlPath(target: string): (p: string)
    ensures p <= target
    ensures forall i :: 0 <= i < |p| ==> p[i] != '?' && p[i] != '#'
  {
    var s := Before(target, {'?', '#'});
    var p := CutParams(s);
    assert forall i :: 0 <= i < |p| ==> p[i] == s[i];
    p
  }

  /** Drops the `;params` of the last path segment of `s`. */
  function CutParams(s: string): (p: string)
    ensures p <= s
  {
    var last := LastSegment(s);
    var dir := s[..|s| - |last|];
    var kept := Before(last, {';'});
    assert s == dir + last;
    dir + kept
  }

  /** A stop-free string is kept whole. */
  lemma BeforeWhole(s: string, stops: set<char>)
    requires forall i :: 0 <= i < |s| ==> s[i] !in stops
    ensures Before(s, stops) == s
  {
  }

  lemma SplitAt(s: string, k: nat)
    requires k <= |s|
    ensures s[..k] + s[k..] == s
  {
  }

  /** A path without `;` keeps its last segment whole. */
  lemma CutParamsPlain(s: string)
    requires forall i :: 0 <= i < |s| ==> s[i] != ';'
    ensures CutParams(s) == s
  {
    var last := LastSegment(s);
    var k := |s| - |last|;
    LastSegmentNoSemicolon(s);
    BeforeWhole(last, {';'});
    assert last == s[k..];
    SplitAt(s, k);
  }

  /** A target without query, fragment or params is its own path. */
  lemma UrlPathPlain(target: string)
    requires forall i :: 0 <= i < |target| ==> target[i] != '?' && target[i] != '#' && target[i] != ';'
    ensures UrlPath(target) == target
  {
    BeforeWhole(target, {'?', '#'});
    CutParamsPlain(target);
  }

  lemma LastSegmentNoSemicolon(s: string)
    requires forall i :: 0 <= i < |s| ==> s[i] != ';'
    ensures forall i :: 0 <= i < |LastSegment(s)| ==> LastSegment(s)[i] != ';'
  {
    var last := LastSegment(s);
    var k := |s| - |last|;
    assert last == s[k..];
    forall i | 0 <= i < |last|
      ensures last[i] != ';'
    {
      assert s[k..][i] == s[k + i];
    }
  }

  // ---------------------------------------------------------------------------
  // Decimal integers
  // ---------------------------------------------------------------------------

  predicate IsDigit(c: char)
  {
    '0' <= c <= '9'
  }

  predicate IsDigits(s: string)
  {
    |s| > 0 && forall i :: 0 <= i < |s| ==> IsDigit(s[i])
  }

  /** What `int()` accepts here: an optional sign followed by ASCII digits. */
  predicate IsIntLiteral(s: string)
  {
    IsDigits(s) || (|s| > 1 && (s[0] == '-' || s[0] == '+') && IsDigits(s[1..]))
  }

  function DigitValue(c: char): nat
    requires IsDigit(c)
  {
    c as int - '0' as int
  }

  function DigitChar(d: nat): (c: char)
    requires d < 10
    ensures IsDigit(c) && DigitValue(c) == d
  {
    ('0' as int + d) as char
  }

  /** The value of a digit string, most significant digit first. */
  function DigitsValue(s: string): nat
    requires forall i :: 0 <= i < |s| ==> IsDigit(s[i])
    decreases |s|
  {
    if |s| == 0 then 0 else 10 * DigitsValue(s[..|s| - 1]) + DigitValue(s[|s| - 1])
  }

  /** Python's `int(s)` for decimal literals; `None` is the ValueError. */
  function ParseInt(s: string): (r: Option<int>)
    ensures r.Some? <==> IsIntLiteral(s)
  {
    if IsDigits(s) then Some(DigitsValue(s))
    else if |s| > 1 && (s[0] == '-' || s[0] == '+') && IsDigits(s[1..]) then
      var v: int := DigitsValue(s[1..]);
      Some(if s[0] == '-' then -v else v)
    else None
  }

  /** Leading zeros do not change the value: `int("007") == 7`. */
  lemma ParseLeadingZeros()
    ensures ParseInt("007") == Some(7)
  {
    assert IsDigits("007");
    assert "007"[..2] == "00" && "00"[..1] == "0";
    assert DigitsValue("0") == 0;
    assert DigitsValue("00") == 0;
  }

  /** The shortest decimal numeral of `n`. */
  function Digits(n: nat): (s: string)
    ensures IsDigits(s)
    decreases n
  {
    if n < 10 then [DigitChar(n)] else Digits(n / 10) + [DigitChar(n % 10)]
  }

  /** `str(k)` for an integer: a minus sign for negatives, then `Digits`. */
  function DecimalString(k: int): (s: string)
    ensures IsIntLiteral(s)
    ensures forall i :: 0 <= i < |s| ==> s[i] != '/' && s[i] != '?' && s[i] != '#' && s[i] != ';'
  {
    var d := if k < 0 then "-" + Digits(-k) else Digits(k);
    assert k < 0 ==> d[1..] == Digits(-k);
    d
  }

  lemma {:induction false} DigitsRoundTrip(n: nat)
    ensures DigitsValue(Digits(n)) == n
    decreases n
  {
    if n >= 10 {
      var s := Digits(n);
      assert s[..|s| - 1] == Digits(n / 10);
      DigitsRoundTrip(n / 10);
    }
  }

  /** Reading back what `DecimalString` wrote gives the same integer. */
  lemma ParseDecimalString(k: int)
    ensures ParseInt(DecimalString(k)) == Some(k)
  {
    var s := DecimalString(k);
    if k < 0 {
      assert s[1..] == Digits(-k);
      assert !IsDigit(s[0]);
      DigitsRoundTrip(-k);
    } else {
      DigitsRoundTrip(k);
    }
  }

  /** The segment after a final slash is exactly the text appended there. */
  lemma {:induction false} LastSegmentAfterSlash(dir: string, t: string)
    requires forall i :: 0 <= i < |t| ==> t[i] != '/'
    ensures LastSegment(dir + "/" + t) == t
    decreases |t|
  {
    var s := dir + "/" + t;
    if |t| > 0 {
      var t' := t[..|t| - 1];
      assert s[..|s| - 1] == dir + "/" + t';
      LastSegmentAfterSlash(dir, t');
      assert t == t' + [t[|t| - 1]];
    }
  }

  /** `Before` stops at the first stop character. */
  lemma {:induction false} BeforeAt(s: string, stops: set<char>, k: nat)
    requires k < |s| && s[k] in stops
    requires forall i :: 0 <= i < k ==> s[i] !in stops
    ensures Before(s, stops) == s[..k]
    decreases k
  {
    if k > 0 {
      BeforeAt(s[1..], stops, k - 1);
      assert [s[0]] + s[1..][..k - 1] == s[..k];
    }
  }

  /** The query string does not reach the path. */
  lemma UrlPathDropsQuery(path: string, query: string)
    requires forall i :: 0 <= i < |path| ==> path[i] != '?' && path[i] != '#' && path[i] != ';'
    ensures UrlPath(path + "?" + query) == path
  {
    var t := path + "?" + query;
    assert t[..|path|] == path;
    BeforeAt(t, {'?', '#'}, |path|);
    CutParamsPlain(path);
  }

  /** The fragment does not reach the path either. */
  lemma UrlPathDropsFragment(path: string, fragment: string)
    requires forall i :: 0 <= i < |path| ==> path[i] != '?' && path[i] != '#' && path[i] != ';'
    ensures UrlPath(path + "#" + fragment) == path
  {
    var t := path + "#" + fragment;
    assert t[..|path|] == path;
    BeforeAt(t, {'?', '#'}, |path|);
    CutParamsPlain(path);
  }

  /** The `;params` of the last segment are cut off; a `;` in an earlier
      segment stays in the path. */
  lemma UrlPathDropsParams(dir: string, segment: string, params: string)
    requires forall i :: 0 <= i < |dir| ==> dir[i] != '?' && dir[i] != '#'
    requires forall i :: 0 <= i < |segment| ==> segment[i] != '/' && segment[i] != ';' && segment[i] != '?' && segment[i] != '#'
    requires forall i :: 0 <= i < |params| ==> params[i] != '/' && params[i] != '?' && params[i] != '#'
    ensures UrlPath(dir + "/" + segment + ";" + params) == dir + "/" + segment
  {
    var last := segment + ";" + params;
    var t := dir + "/" + last;
    assert dir + "/" + segment + ";" + params == t;
    forall i | 0 <= i < |t|
      ensures t[i] !in {'?', '#'}
    {
      if i < |dir| {
        assert t[i] == dir[i];
      } else if i > |dir| {
        assert t[i] == last[i - |dir| - 1];
      }
    }
    BeforeWhole(t, {'?', '#'});
    CutLastParams(dir, segment, params);
  }

  /** `CutParams` keeps everything up to the last slash and cuts the last
      segment at its first `;`. */
  lemma CutLastParams(dir: string, segment: string, params: string)
    requires forall i :: 0 <= i < |segment| ==> segment[i] != '/' && segment[i] != ';'
    requires forall i :: 0 <= i < |params| ==> params[i] != '/'
    ensures CutParams(dir + "/" + (segment + ";" + params)) == dir + "/" + segment
  {
    var last := segment + ";" + params;
    var t := dir + "/" + last;
    LastSegmentAfterSlash(dir, last);
    BeforeAt(last, {';'}, |segment|);
    assert last[..|segment|] == segment;
    assert t[..|t| - |last|] == dir + "/";
  }

}
