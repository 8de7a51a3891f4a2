/**
 * The location pattern `\bat\s+([^$\d]+?)(?:\s|$)`, searched case-insensitively
 * in the original text; group 1, stripped, is the location.
 *
 * The matcher below follows the regular-expression engine step by step:
 * `\s+` is greedy and gives back one whitespace character at a time, and
 * the lazy group grows one character at a time until `(?:\s|$)` holds at
 * its end. The `$` alternative also matches before a final newline, but a
 * newline is whitespace, so `\s` already covers that position.
 */
module Location {
  import opened Wrappers
  import opened Text

  /** `\bat` at `i`, either letter in either case. The boundary holds when
      nothing or a non-word character comes before the `a`. */
  predicate AtWordAt(s: string, i: nat) {
    && i + 2 <= |s|
    && (s[i] == 'a' || s[i] == 'A')
    && (s[i + 1] == 't' || s[i + 1] == 'T')
    && (i == 0 || !IsWordChar(s[i - 1]))
  }

  /** End of the maximal whitespace run starting at `i`. */
  function SpaceRunEnd(s: string, i: nat): (j: nat)
    requires i <= |s|
    ensures i <= j <= |s|
    ensures forall k :: i <= k < j ==> IsSpace(s[k])
    ensures j == |s| || !IsSpace(s[j])
    decreases |s| - i
  {
    if i < |s| && IsSpace(s[i]) then SpaceRunEnd(s, i + 1) else i
  }

  /** The characters `[^$\d]` refuses. */
  predicate Excluded(c: char) {
    c == '$' || IsDigit(c)
  }

  /** The lazy group has taken everything up to `k`: it ends at `k` when
      `(?:\s|$)` holds there, fails on a refused character, and otherwise
      takes one more character. */
  function LazyEnd(s: string, k: nat): (e: Option<nat>)
    requires k <= |s|
    ensures e.Some? ==> k <= e.value <= |s|
    decreases |s| - k
  {
    if k == |s| || IsSpace(s[k]) then Some(k)
    else if Excluded(s[k]) then None
    else LazyEnd(s, k + 1)
  }

  /** End of group 1 when it starts at `c` (it takes at least one character). */
  function CaptureFrom(s: string, c: nat): (e: Option<nat>)
    requires c <= |s|
    ensures e.Some? ==> c < e.value <= |s|
  {
    if c < |s| && !Excluded(s[c]) then LazyEnd(s, c + 1) else None
  }

  /** `\s+` has taken `j` of the whitespace characters from `b`; on failure it
      gives one back, down to a single one. The result is the group's bounds. */
  function Backtrack(s: string, b: nat, j: nat): (r: Option<(nat, nat)>)
    requires 1 <= j && b + j <= |s|
    ensures r.Some? ==> b < r.value.0 < r.value.1 <= |s| && CaptureFrom(s, r.value.0) == Some(r.value.1)
    decreases j
  {
    match CaptureFrom(s, b + j)
    case Some(e) => Some((b + j, e))
    case None => if j == 1 then None else Backtrack(s, b, j - 1)
  }

  /** Group 1's bounds for a match starting at `i`, if one does. */
  function MatchAt(s: string, i: nat): (r: Option<(nat, nat)>)
    requires i <= |s|
    ensures r.Some? ==> r.value.0 < r.value.1 <= |s| && CaptureFrom(s, r.value.0) == Some(r.value.1)
  {
    if !AtWordAt(s, i) then None
    else
      var q := SpaceRunEnd(s, i + 2);
      if q == i + 2 then None else Backtrack(s, i + 2, q - (i + 2))
  }

  /** `re.search`: the leftmost match at or after `i`. */
  function FindFrom(s: string, i: nat): (r: Option<(nat, nat)>)
    ensures r.Some? ==> r.value.0 < r.value.1 <= |s| && CaptureFrom(s, r.value.0) == Some(r.value.1)
    decreases |s| - i
  {
    if i >= |s| then None
    else match MatchAt(s, i)
      case Some(m) => Some(m)
      case None => FindFrom(s, i + 1)
  }

  /** The interpreter's location: group 1 of the first match, stripped. */
  function ExtractLocation(s: string): Option<string> {
    match FindFrom(s, 0)
    case Some((c, e)) => Some(Strip(s[c..e]))
    case None => None
  }

  // ---------------------------------------------------------------------
  // A closed form of the match, stated without backtracking.

  /** End of the run of non-whitespace characters starting at `k`. */
  function TokenEnd(s: string, k: nat): (e: nat)
    requires k <= |s|
    ensures k <= e <= |s|
    ensures forall m :: k <= m < e ==> !IsSpace(s[m])
    ensures e == |s| || IsSpace(s[e])
    decreases |s| - k
  {
    if k < |s| && !IsSpace(s[k]) then TokenEnd(s, k + 1) else k
  }

  /** No refused character in `s[a..b]`. */
  predicate Clean(s: string, a: nat, b: nat)
    requires a <= b <= |s|
  {
    forall m :: a <= m < b ==> !Excluded(s[m])
  }

  /** What a match at `i` captures. After `at` and its whitespace run (which
      ends at `q`), the group is the next token when that token holds no `$`
      and no digit. Otherwise the engine settles for a single whitespace
      character: the last one of the run when the run reaches the end of the
      text and is at least two long, the one before it when the run is at
      least three long. */
  function ReferenceAt(s: string, i: nat): Option<(nat, nat)>
    requires i <= |s|
  {
    if !AtWordAt(s, i) then None
    else
      var q := SpaceRunEnd(s, i + 2);
      var w := q - (i + 2);
      if w == 0 then None
      else if q < |s| && Clean(s, q, TokenEnd(s, q)) then Some((q, TokenEnd(s, q)))
      else if q == |s| && w >= 2 then Some((q - 1, q))
      else if w >= 3 then Some((q - 2, q - 1))
      else None
  }

  lemma {:induction false} LazyEndIsToken(s: string, k: nat)
    requires k <= |s|
    ensures LazyEnd(s, k) == if Clean(s, k, TokenEnd(s, k)) then Some(TokenEnd(s, k)) else None
    decreases |s| - k
  {
    if k < |s| && !IsSpace(s[k]) {
      LazyEndIsToken(s, k + 1);
      assert TokenEnd(s, k) == TokenEnd(s, k + 1);
      if Excluded(s[k]) {
        assert !Clean(s, k, TokenEnd(s, k));
      }
    }
  }

  /** The first try: the group starts right after the whitespace run. */
  lemma CaptureAfterRun(s: string, q: nat)
    requires q <= |s| && (q == |s| || !IsSpace(s[q]))
    ensures CaptureFrom(s, q) == if q < |s| && Clean(s, q, TokenEnd(s, q)) then Some(TokenEnd(s, q)) else None
  {
    if q < |s| {
      LazyEndIsToken(s, q + 1);
      assert TokenEnd(s, q) == TokenEnd(s, q + 1);
      if Excluded(s[q]) {
        assert !Clean(s, q, TokenEnd(s, q));
      }
    }
  }

  /** Starting the group on the run's last whitespace character succeeds at
      the end of the text, and otherwise exactly when the first try does. */
  lemma CaptureOnLastSpace(s: string, q: nat)
    requires 0 < q <= |s| && IsSpace(s[q - 1]) && (q == |s| || !IsSpace(s[q]))
    ensures CaptureFrom(s, q - 1) == if q == |s| then Some(q) else CaptureFrom(s, q)
  {
  }

  /** The backtracking matcher captures exactly what the closed form says. */
  lemma MatchAtIsReference(s: string, i: nat)
    requires i <= |s|
    ensures MatchAt(s, i) == ReferenceAt(s, i)
  {
    if AtWordAt(s, i) {
      var b := i + 2;
      var q := SpaceRunEnd(s, b);
      var w := q - b;
      if w > 0 {
        assert MatchAt(s, i) == Backtrack(s, b, w);
        var clean := q < |s| && Clean(s, q, TokenEnd(s, q));
        CaptureAfterRun(s, q);
        if clean {
          assert ReferenceAt(s, i) == Some((q, TokenEnd(s, q)));
        } else {
          assert CaptureFrom(s, q).None?;
          if w == 1 {
            assert ReferenceAt(s, i).None?;
          } else {
            CaptureOnLastSpace(s, q);
            assert Backtrack(s, b, w) == Backtrack(s, b, w - 1);
            if q == |s| {
              assert ReferenceAt(s, i) == Some((q - 1, q));
            } else if w == 2 {
              assert ReferenceAt(s, i).None?;
            } else {
              assert IsSpace(s[q - 2]);
              assert CaptureFrom(s, q - 2) == Some(q - 1);
              assert Backtrack(s, b, w - 1) == Backtrack(s, b, w - 2);
              assert ReferenceAt(s, i) == Some((q - 2, q - 1));
            }
          }
        }
      }
    }
  }

  /** The search returns the leftmost match: the first `k` whose match succeeds. */
  lemma {:induction false} FindFromIsLeftmost(s: string, i: nat, k: nat)
    requires i <= k < |s| && MatchAt(s, k).Some?
    requires forall j :: i <= j < k ==> MatchAt(s, j).None?
    ensures FindFrom(s, i) == MatchAt(s, k)
    decreases k - i
  {
    if i < k {
      FindFromIsLeftmost(s, i + 1, k);
    }
  }

  lemma {:induction false} FindFromNone(s: string, i: nat)
    requires forall j :: i <= j < |s| ==> MatchAt(s, j).None?
    ensures FindFrom(s, i).None?
    decreases |s| - i
  {
    if i < |s| {
      FindFromNone(s, i + 1);
    }
  }

  lemma {:induction false} FindFromNoneAll(s: string, i: nat)
    requires FindFrom(s, i).None?
    ensures forall j :: i <= j < |s| ==> MatchAt(s, j).None?
    decreases |s| - i
  {
    if i < |s| {
      FindFromNoneAll(s, i + 1);
    }
  }

  /** There is no location exactly when no position starts a match in the
      closed form. */
  lemma LocationAbsentIff(s: string)
    ensures ExtractLocation(s).None? <==> forall i :: 0 <= i < |s| ==> ReferenceAt(s, i).None?
  {
    forall i | 0 <= i < |s| ensures MatchAt(s, i) == ReferenceAt(s, i) {
      MatchAtIsReference(s, i);
    }
    if forall i :: 0 <= i < |s| ==> ReferenceAt(s, i).None? {
      FindFromNone(s, 0);
    }
    if FindFrom(s, 0).None? {
      FindFromNoneAll(s, 0);
    }
  }

  /** Otherwise the location is the stripped group of the leftmost position
      whose closed-form match succeeds. */
  lemma LocationIsLeftmost(s: string, k: nat)
    requires k < |s| && ReferenceAt(s, k).Some?
    requires forall j :: 0 <= j < k ==> ReferenceAt(s, j).None?
    ensures ExtractLocation(s) == Some(Strip(s[ReferenceAt(s, k).value.0..ReferenceAt(s, k).value.1]))
  {
    forall j | 0 <= j <= k ensures MatchAt(s, j) == ReferenceAt(s, j) {
      MatchAtIsReference(s, j);
    }
    FindFromIsLeftmost(s, 0, k);
  }

  /** What a successful group holds: no refused character at all, and no
      whitespace after its first character. */
  lemma CaptureShape(s: string, c: nat, e: nat)
    requires c <= |s| && CaptureFrom(s, c) == Some(e)
    ensures Clean(s, c, e)
    ensures forall m :: c < m < e ==> !IsSpace(s[m])
  {
    LazyEndIsToken(s, c + 1);
  }

  /** A location never holds a `$`, a digit or any whitespace: it is at most
      one whitespace-free token. */
  lemma LocationShape(s: string)
    ensures ExtractLocation(s).Some? ==>
      forall m :: 0 <= m < |ExtractLocation(s).value| ==>
        !Excluded(ExtractLocation(s).value[m]) && !IsSpace(ExtractLocation(s).value[m])
  {
    if FindFrom(s, 0).Some? {
      var (c, e) := FindFrom(s, 0).value;
      CaptureShape(s, c, e);
      var g := s[c..e];
      assert forall m :: 0 <= m < |g| ==> g[m] == s[c + m];
      StrippedGroupShape(g);
    }
  }

  /** Stripping a group without refused characters and without whitespace
      after its first character leaves neither. */
  lemma StrippedGroupShape(g: string)
    requires forall m :: 0 <= m < |g| ==> !Excluded(g[m])
    requires forall m :: 0 < m < |g| ==> !IsSpace(g[m])
    ensures forall m :: 0 <= m < |Strip(g)| ==> !Excluded(Strip(g)[m]) && !IsSpace(Strip(g)[m])
  {
    var loc := Strip(g);
    var o := StripOffset(g);
    forall m | 0 <= m < |loc|
      ensures !Excluded(loc[m]) && !IsSpace(loc[m])
    {
      assert loc[m] == g[o + m];
      if o + m == 0 {
        assert loc[0] == loc[m];
      }
    }
  }

  /** The documented example: the location of "spent $15 on lunch at
      McDonald's" is the token after "at". */
  lemma McDonaldsLocation(s: string)
    requires s == "spent $15 on lunch at McDonald's"
    ensures ExtractLocation(s) == Some("McDonald's")
  {
    McDonaldsNoEarlierAt(s);
    McDonaldsReference(s);
    assert s[22..32] == "McDonald's";
    assert Strip("McDonald's") == "McDonald's";
    LocationIsLeftmost(s, 19);
  }

  lemma McDonaldsNoEarlierAt(s: string)
    requires s == "spent $15 on lunch at McDonald's"
    ensures forall j :: 0 <= j < 19 ==> ReferenceAt(s, j).None?
  {
    assert forall j :: 0 <= j < 19 ==> !AtWordAt(s, j);
  }

  lemma McDonaldsReference(s: string)
    requires s == "spent $15 on lunch at McDonald's"
    ensures ReferenceAt(s, 19) == Some((22, 32))
  {
    assert AtWordAt(s, 19);
    assert SpaceRunEnd(s, 21) == 22 by {
      assert IsSpace(s[21]) && !IsSpace(s[22]);
    }
    assert TokenEnd(s, 22) == 32 by {
      assert forall m :: 22 <= m < 32 ==> !IsSpace(s[m]);
    }
    assert Clean(s, 22, 32) by {
      assert forall m :: 22 <= m < 32 ==> !Excluded(s[m]);
    }
  }

  /** When the token after "at" holds a `$` or a digit, a run of three or more
      whitespace characters still lets the pattern match on one of them, so
      the location is present but empty. */
  lemma EmptyLocation(s: string)
    requires s == "coffee at   $5"
    ensures ExtractLocation(s) == Some("")
  {
    assert forall j :: 0 <= j < 7 ==> ReferenceAt(s, j).None? by {
      assert forall j :: 0 <= j < 7 ==> !AtWordAt(s, j);
    }
    assert ReferenceAt(s, 7) == Some((10, 11)) by {
      assert SpaceRunEnd(s, 12) == 12;
      assert SpaceRunEnd(s, 10) == SpaceRunEnd(s, 11) == 12;
      assert !Clean(s, 12, TokenEnd(s, 12));
    }
    assert Strip(s[10..11]) == "";
    LocationIsLeftmost(s, 7);
  }
}
