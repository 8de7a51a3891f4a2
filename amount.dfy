/**
 * The amount pattern `\$?(\d+(?:\.\d{2})?)`, used by the interpreter on the
 * lower-cased text and by the search engine on the raw query. Values are in
 * integer cents: the pattern only admits digits with an optional fraction of
 * exactly two digits, so cents represent every match exactly.
 */
module Amount {
  import opened Wrappers
  import opened Text

  /** End of the maximal digit run that starts at `i` (greedy `\d+`). */
  function DigitRunEnd(s: string, i: nat): (j: nat)
    requires i <= |s|
    ensures i <= j <= |s|
    ensures forall k :: i <= k < j ==> IsDigit(s[k])
    ensures j == |s| || !IsDigit(s[j])
    decreases |s| - i
  {
    if i < |s| && IsDigit(s[i]) then DigitRunEnd(s, i + 1) else i
  }

  /** `.dd` right after position `r`: the optional `(?:\.\d{2})`. */
  predicate HasCents(s: string, r: nat) {
    r + 3 <= |s| && s[r] == '.' && IsDigit(s[r + 1]) && IsDigit(s[r + 2])
  }

  /** Group 1 matched from the digit at `d`, in cents. */
  function GroupCents(s: string, d: nat): nat
    requires d < |s| && IsDigit(s[d])
  {
    var r := DigitRunEnd(s, d);
    var whole := DigitsValue(s[d..r]);
    if HasCents(s, r) then whole * 100 + DigitsValue(s[r + 1..r + 3]) else whole * 100
  }

  /** The match that starts exactly at `i`, if any: `\$?` is tried greedily
      and dropped again when no digit follows the sign. */
  function MatchAt(s: string, i: nat): Option<nat>
    requires i < |s|
  {
    if s[i] == '$' && i + 1 < |s| && IsDigit(s[i + 1]) then Some(GroupCents(s, i + 1))
    else if IsDigit(s[i]) then Some(GroupCents(s, i))
    else None
  }

  /** `re.search`: the match that starts leftmost at or after `i`. */
  function FindFrom(s: string, i: nat): Option<nat>
    decreases |s| - i
  {
    if i >= |s| then None
    else match MatchAt(s, i)
      case Some(v) => Some(v)
      case None => FindFrom(s, i + 1)
  }

  /** The amount in cents of the first match in `s`, or `None`. */
  function FindAmount(s: string): Option<nat> {
    FindFrom(s, 0)
  }

  /** The interpreter's amount: the first match, or 0 when there is none. */
  function ParseAmount(s: string): nat {
    match FindAmount(s)
    case Some(v) => v
    case None => 0
  }

  predicate HasDigit(s: string) {
    exists i :: 0 <= i < |s| && IsDigit(s[i])
  }

  /** Index of the first digit of `s`. */
  function FirstDigit(s: string): (k: nat)
    requires HasDigit(s)
    ensures k < |s| && IsDigit(s[k])
    ensures forall j :: 0 <= j < k ==> !IsDigit(s[j])
  {
    if IsDigit(s[0]) then 0
    else
      assert HasDigit(s[1..]) by {
        var i :| 0 <= i < |s| && IsDigit(s[i]);
        assert s[1..][i - 1] == s[i];
      }
      var k := FirstDigit(s[1..]);
      assert forall j :: 1 <= j < k + 1 ==> s[j] == s[1..][j - 1];
      k + 1
  }

  lemma {:induction false} FindFromBeforeDigit(s: string, i: nat)
    requires HasDigit(s) && i <= FirstDigit(s)
    ensures FindFrom(s, i) == Some(GroupCents(s, FirstDigit(s)))
    decreases FirstDigit(s) - i
  {
    var f := FirstDigit(s);
    if i < f {
      if i + 1 < f {
        assert MatchAt(s, i).None?;
      }
      if MatchAt(s, i).None? {
        FindFromBeforeDigit(s, i + 1);
      }
    }
  }

  lemma {:induction false} FindFromNoDigit(s: string, i: nat)
    requires !HasDigit(s)
    ensures FindFrom(s, i).None?
    decreases |s| - i
  {
    if i < |s| {
      assert !IsDigit(s[i]);
      if i + 1 < |s| {
        assert !IsDigit(s[i + 1]);
      }
      FindFromNoDigit(s, i + 1);
    }
  }

  /** The leftmost match always belongs to the first digit of the text:
      there is a match exactly when some digit occurs, and its value is the
      first maximal digit run, extended by `.dd` when that follows it. */
  lemma FindAmountIsFirstDigitRun(s: string)
    ensures FindAmount(s).Some? <==> HasDigit(s)
    ensures HasDigit(s) ==> FindAmount(s) == Some(GroupCents(s, FirstDigit(s)))
    ensures !HasDigit(s) ==> ParseAmount(s) == 0
  {
    if HasDigit(s) {
      FindFromBeforeDigit(s, 0);
    } else {
      FindFromNoDigit(s, 0);
    }
  }

  /** Lower-casing only touches letters, so the amount pattern reads the
      same digits, signs and points in both texts. */
  lemma {:induction false} FindFromLower(s: string, i: nat)
    ensures FindFrom(Lower(s), i) == FindFrom(s, i)
    decreases |s| - i
  {
    if i < |s| {
      var t := Lower(s);
      LowerKeepsDigits(s);
      MatchAtLower(s, i);
      FindFromLower(s, i + 1);
    }
  }

  lemma MatchAtLower(s: string, i: nat)
    requires i < |s|
    ensures MatchAt(Lower(s), i) == MatchAt(s, i)
  {
    var t := Lower(s);
    LowerKeepsDigits(s);
    if IsDigit(s[i]) {
      GroupCentsLower(s, i);
    }
    if i + 1 < |s| && IsDigit(s[i + 1]) {
      GroupCentsLower(s, i + 1);
    }
  }

  lemma GroupCentsLower(s: string, d: nat)
    requires d < |s| && IsDigit(s[d])
    ensures IsDigit(Lower(s)[d]) && GroupCents(Lower(s), d) == GroupCents(s, d)
  {
    var t := Lower(s);
    LowerKeepsDigits(s);
    DigitRunLower(s, d);
    var r := DigitRunEnd(s, d);
    assert t[d..r] == s[d..r];
    if r < |s| {
      assert t[r] == '.' <==> s[r] == '.';
    }
    if HasCents(s, r) {
      assert t[r + 1..r + 3] == s[r + 1..r + 3];
    }
  }

  lemma {:induction false} DigitRunLower(s: string, i: nat)
    requires i <= |s|
    ensures DigitRunEnd(Lower(s), i) == DigitRunEnd(s, i)
    ensures forall k :: i <= k < DigitRunEnd(s, i) ==> Lower(s)[k] == s[k]
    decreases |s| - i
  {
    LowerKeepsDigits(s);
    if i < |s| && IsDigit(s[i]) {
      DigitRunLower(s, i + 1);
    }
  }

  /** The amount does not depend on letter case: the interpreter's amount of
      a text is the amount the search engine reads in the same text. */
  lemma AmountIgnoresCase(s: string)
    ensures FindAmount(Lower(s)) == FindAmount(s)
  {
    FindFromLower(s, 0);
  }

  /** `{amount:.2f}`: whole units, a point and exactly two digits of cents. */
  function FormatCents(n: nat): (r: string)
    ensures |r| >= 4
  {
    NatToDigits(n / 100) + "." + [DigitChar(n % 100 / 10), DigitChar(n % 10)]
  }

  lemma TwoDigits(n: nat)
    ensures AllDigits([DigitChar(n % 100 / 10), DigitChar(n % 10)])
    ensures DigitsValue([DigitChar(n % 100 / 10), DigitChar(n % 10)]) == n % 100
  {
    var t := [DigitChar(n % 100 / 10), DigitChar(n % 10)];
    assert t[..1] == [DigitChar(n % 100 / 10)];
    assert t[..1][..0] == [];
    assert DigitsValue(t[..1]) == n % 100 / 10;
    assert DigitsValue(t) == (n % 100 / 10) * 10 + n % 10;
  }

  /** A digit string placed at `p` is the whole run from `p` when what follows
      it is not a digit. */
  lemma RunOfDigits(s: string, p: nat, ds: string)
    requires AllDigits(ds) && p + |ds| <= |s| && s[p..p + |ds|] == ds
    requires p + |ds| == |s| || !IsDigit(s[p + |ds|])
    ensures DigitRunEnd(s, p) == p + |ds|
    decreases |ds|
  {
    if ds != [] {
      assert s[p] == ds[0];
      RunOfDigits(s, p + 1, ds[1..]);
    }
  }

  /** Behind a prefix without digits, the first digit is the first
      character after it. */
  lemma FirstDigitAfter(prefix: string, rest: string)
    requires !HasDigit(prefix) && rest != [] && IsDigit(rest[0])
    ensures HasDigit(prefix + rest) && FirstDigit(prefix + rest) == |prefix|
  {
    var s := prefix + rest;
    assert IsDigit(s[|prefix|]);
    forall j | 0 <= j < |prefix| ensures !IsDigit(s[j]) {
      assert s[j] == prefix[j];
    }
  }

  /** Where the parts of `whole.cents` sit behind a prefix. */
  lemma PointLayout(prefix: string, whole: string, cents: string, suffix: string)
    requires |cents| == 2
    ensures var s := prefix + (whole + "." + cents) + suffix;
      var p := |prefix|;
      var r := p + |whole|;
      && r + 3 <= |s|
      && s[p..r] == whole
      && s[r] == '.'
      && s[r + 1..r + 3] == cents
  {
    var s := prefix + (whole + "." + cents) + suffix;
    assert s == prefix + whole + "." + cents + suffix;
  }

  /** Formatting an amount with two decimals and reading it back gives the
      same cents, whatever comes after it, provided nothing before it is a
      digit: e.g. the "$15.00" of a confirmation message reads as 1500. */
  lemma {:induction false} FormatCentsRoundTrip(prefix: string, n: nat, suffix: string)
    requires !HasDigit(prefix)
    ensures FindAmount(prefix + FormatCents(n) + suffix) == Some(n)
  {
    var whole := NatToDigits(n / 100);
    var cents := [DigitChar(n % 100 / 10), DigitChar(n % 10)];
    var s := prefix + FormatCents(n) + suffix;
    var p := |prefix|;
    var r := p + |whole|;
    assert FormatCents(n) == whole + "." + cents;
    PointLayout(prefix, whole, cents, suffix);
    FirstDigitAfter(prefix, FormatCents(n) + suffix);
    assert s == prefix + (FormatCents(n) + suffix);
    RunOfDigits(s, p, whole);
    TwoDigits(n);
    assert HasCents(s, r) by {
      assert s[r + 1] == cents[0] && s[r + 2] == cents[1];
    }
    assert GroupCents(s, p) == n by {
      assert DigitsValue(s[p..r]) == n / 100;
      assert DigitsValue(s[r + 1..r + 3]) == n % 100;
    }
    FindAmountIsFirstDigitRun(s);
  }

  /** A whole number `m` not followed by a digit or by `.dd` reads as `m`
      units: "$15 on lunch" gives 1500 cents. */
  lemma {:induction false} WholeAmountRoundTrip(prefix: string, m: nat, suffix: string)
    requires !HasDigit(prefix)
    requires suffix == [] || (!IsDigit(suffix[0]) && !HasCents(suffix, 0))
    ensures FindAmount(prefix + NatToDigits(m) + suffix) == Some(m * 100)
  {
    var whole := NatToDigits(m);
    var s := prefix + whole + suffix;
    var p := |prefix|;
    var r := p + |whole|;
    assert s[p..r] == whole;
    assert r < |s| ==> s[r] == suffix[0];
    assert IsDigit(s[p]);
    assert FirstDigit(s) == p by {
      forall j | 0 <= j < p ensures !IsDigit(s[j]) {
        assert s[j] == prefix[j];
      }
    }
    RunOfDigits(s, p, whole);
    FindAmountIsFirstDigitRun(s);
  }

  lemma TwelveThirtyFour()
    ensures FormatCents(1234) == "12.34"
  {
    assert NatToDigits(1) == "1";
    assert NatToDigits(12) == NatToDigits(1) + [DigitChar(2)];
  }

  /** "1.5" has no two-digit fraction, so only its whole part is taken. */
  lemma OneDigitFraction()
    ensures FindAmount("1.5") == Some(100)
  {
    assert NatToDigits(1) == "1";
    assert "1.5" == "" + NatToDigits(1) + ".5";
    WholeAmountRoundTrip("", 1, ".5");
  }

  /** A third fractional digit is left out of the match. */
  lemma ThreeDigitFraction()
    ensures FindAmount("12.345") == Some(1234)
  {
    TwelveThirtyFour();
    assert "12.345" == "" + FormatCents(1234) + "5";
    FormatCentsRoundTrip("", 1234, "5");
  }

  /** The sign in `\$?` is optional: a text and the same text behind a `$`
      give the same amount. */
  lemma DollarSignIsOptional(rest: string)
    ensures FindAmount("$" + rest) == FindAmount(rest)
  {
    var s := "$" + rest;
    FindFromShift('$', rest, 0);
    if |rest| > 0 {
      assert s[1..] == rest;
      if IsDigit(rest[0]) {
        GroupCentsShift('$', rest, 0);
        assert MatchAt(rest, 0) == Some(GroupCents(rest, 0));
      }
    }
  }

  /** Matching is local: the amount found from index `i + 1` behind one extra
      character is the amount found from `i` without it. */
  lemma {:induction false} FindFromShift(c: char, s: string, i: nat)
    ensures FindFrom([c] + s, i + 1) == FindFrom(s, i)
    decreases |s| - i
  {
    if i < |s| {
      MatchAtShift(c, s, i);
      FindFromShift(c, s, i + 1);
    }
  }

  lemma MatchAtShift(c: char, s: string, i: nat)
    requires i < |s|
    ensures MatchAt([c] + s, i + 1) == MatchAt(s, i)
  {
    var t := [c] + s;
    assert t[i + 1] == s[i];
    if IsDigit(s[i]) {
      GroupCentsShift(c, s, i);
    }
    if i + 1 < |s| {
      assert t[i + 2] == s[i + 1];
      if IsDigit(s[i + 1]) {
        GroupCentsShift(c, s, i + 1);
      }
    }
  }

  lemma GroupCentsShift(c: char, s: string, d: nat)
    requires d < |s| && IsDigit(s[d])
    ensures ([c] + s)[d + 1] == s[d] && GroupCents([c] + s, d + 1) == GroupCents(s, d)
  {
    var t := [c] + s;
    DigitRunShift(c, s, d);
    var r := DigitRunEnd(s, d);
    assert t[d + 1..r + 1] == s[d..r];
    assert HasCents(t, r + 1) <==> HasCents(s, r);
    if HasCents(s, r) {
      assert t[r + 2..r + 4] == s[r + 1..r + 3];
    }
  }

  lemma {:induction false} DigitRunShift(c: char, s: string, i: nat)
    requires i <= |s|
    ensures DigitRunEnd([c] + s, i + 1) == DigitRunEnd(s, i) + 1
    decreases |s| - i
  {
    if i < |s| {
      assert ([c] + s)[i + 1] == s[i];
      if IsDigit(s[i]) {
        DigitRunShift(c, s, i + 1);
      }
    }
  }
}
