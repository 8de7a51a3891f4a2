/**
 * Expense search. A query in which the amount pattern matches searches by
 * exact amount; any other query is a case-insensitive substring search over
 * description, category and location. Results come newest first, at most
 * `limit` of them; a negative limit means no limit.
 */
module Search {
  import opened Wrappers
  import opened Text
  import opened Amount
  import opened Categories
  import opened Ledger
  import opened Sequences

  /** The two exclusive search modes. */
  datatype Mode = ByAmount(cents: nat) | ByText(query: string)

  /** The amount pattern decides the mode: a query with a digit searches for
      the amount the pattern reads in it, the first digit run with its
      optional two-digit fraction; any other query is searched for as text. */
  function SelectMode(query: string): (m: Mode)
    ensures m.ByAmount? <==> HasDigit(query)
    ensures m.ByAmount? ==> FindAmount(query) == Some(m.cents)
    ensures m.ByAmount? ==> m.cents == GroupCents(query, FirstDigit(query))
    ensures m.ByText? ==> m.query == query
  {
    FindAmountIsFirstDigitRun(query);
    match FindAmount(query)
    case Some(v) => ByAmount(v)
    case None => ByText(query)
  }

  /** `LIKE '%query%'` on description, category name or location; a missing
      location never matches. */
  predicate TextMatches(e: Expense, query: string) {
    || ContainsIgnoringCase(e.description, query)
    || ContainsIgnoringCase(Name(e.category), query)
    || (e.location.Some? && ContainsIgnoringCase(e.location.value, query))
  }

  /** The `WHERE` clause of each mode. */
  predicate Selects(m: Mode, e: Expense) {
    match m
    case ByAmount(v) => e.amount == v
    case ByText(q) => TextMatches(e, q)
  }

  function DateOf(e: Expense): int {
    e.date
  }

  /** The selected expenses, in store order. */
  function Matching(exps: seq<Expense>, m: Mode): (r: seq<Expense>)
    ensures forall e :: e in r <==> e in exps && Selects(m, e)
    ensures forall e :: multiset(r)[e] == if Selects(m, e) then multiset(exps)[e] else 0
  {
    var r := Filter(exps, (e: Expense) => Selects(m, e));
    assert forall e :: e in exps && Selects(m, e) ==> e in r by {
      forall e | e in exps && Selects(m, e) ensures e in r {
        var i :| 0 <= i < |exps| && exps[i] == e;
      }
    }
    assert forall e :: e in r ==> e in exps && Selects(m, e) by {
      forall e | e in r ensures e in exps && Selects(m, e) {
        var i :| 0 <= i < |r| && r[i] == e;
      }
    }
    r
  }

  /** `LIMIT ?`: a negative limit takes everything. */
  function Capped<T>(xs: seq<T>, limit: int): (r: seq<T>)
    ensures limit >= 0 ==> |r| == if limit < |xs| then limit else |xs|
    ensures limit < 0 ==> r == xs
    ensures r == xs[..|r|]
  {
    if limit < 0 || limit >= |xs| then xs else xs[..limit]
  }

  /** The rows the query returns: selected, newest first, capped. */
  function Results(exps: seq<Expense>, query: string, limit: int): seq<Expense> {
    Capped(SortDesc(Matching(exps, SelectMode(query)), DateOf), limit)
  }

  datatype Outcome = NoMatches(query: string) | Found(results: seq<Expense>)

  function SearchExpenses(exps: seq<Expense>, query: string, limit: int): (o: Outcome)
    ensures o.NoMatches? <==> Results(exps, query, limit) == []
    ensures o.NoMatches? ==> o.query == query
    ensures o.Found? ==> o.results == Results(exps, query, limit) && o.results != []
  {
    var r := Results(exps, query, limit);
    if r == [] then NoMatches(query) else Found(r)
  }

  /** Every result is a stored expense the mode selects, no stored row comes
      back more often than it is stored, results are newest first and there
      are at most `limit` of them. */
  lemma ResultsSound(exps: seq<Expense>, query: string, limit: int)
    ensures var r := Results(exps, query, limit);
      && (forall i :: 0 <= i < |r| ==> r[i] in exps && Selects(SelectMode(query), r[i]))
      && multiset(r) <= multiset(exps)
      && (forall i, j :: 0 <= i < j < |r| ==> r[i].date >= r[j].date)
      && (limit >= 0 ==> |r| <= limit)
  {
    var matching := Matching(exps, SelectMode(query));
    var sorted := SortDesc(matching, DateOf);
    var r := Results(exps, query, limit);
    assert sorted[..|r|] == r;
    MultisetPrefix(sorted, |r|);
    forall i | 0 <= i < |r| ensures r[i] in exps && Selects(SelectMode(query), r[i]) {
      assert r[i] == sorted[i];
      assert sorted[i] in multiset(matching);
    }
    forall i, j | 0 <= i < j < |r| ensures r[i].date >= r[j].date {
      assert r[i] == sorted[i] && r[j] == sorted[j];
      assert DateOf(sorted[i]) >= DateOf(sorted[j]);
    }
  }

  lemma MultisetPrefix<T>(xs: seq<T>, n: nat)
    requires n <= |xs|
    ensures multiset(xs[..n]) <= multiset(xs)
  {
    assert xs == xs[..n] + xs[n..];
  }

  /** Nothing selected is missed unless the limit cut it off: a selected
      expense that is not among the results is no newer than every result,
      and then exactly `limit` results came back. */
  lemma ResultsComplete(exps: seq<Expense>, query: string, limit: int, e: Expense)
    requires e in exps && Selects(SelectMode(query), e)
    ensures var r := Results(exps, query, limit);
      e !in r ==> 0 <= limit == |r| && forall i :: 0 <= i < |r| ==> r[i].date >= e.date
  {
    var matching := Matching(exps, SelectMode(query));
    var sorted := SortDesc(matching, DateOf);
    var r := Results(exps, query, limit);
    assert e in multiset(sorted);
    var k :| 0 <= k < |sorted| && sorted[k] == e;
    if e !in r {
      assert r == sorted[..|r|];
      assert forall i :: 0 <= i < |r| ==> r[i] == sorted[i];
      forall i | 0 <= i < |r| ensures r[i].date >= e.date {
        assert r[i] == sorted[i];
        assert DateOf(sorted[i]) >= DateOf(sorted[k]);
      }
    }
  }

  /** "No expenses found" comes out exactly when the limit is zero or no
      stored expense is selected. */
  lemma NoMatchesIff(exps: seq<Expense>, query: string, limit: int)
    ensures SearchExpenses(exps, query, limit).NoMatches?
        <==> limit == 0 || forall e :: e in exps ==> !Selects(SelectMode(query), e)
  {
    var matching := Matching(exps, SelectMode(query));
    var sorted := SortDesc(matching, DateOf);
    if matching != [] {
      assert matching[0] in exps && Selects(SelectMode(query), matching[0]);
      assert |sorted| == |matching| by {
        assert |multiset(sorted)| == |multiset(matching)|;
      }
    } else {
      assert |multiset(sorted)| == 0;
    }
  }

  /** Text search ignores case: a query and its lower-cased form select the
      same expenses. */
  lemma TextSearchIgnoresCase(query: string, e: Expense)
    ensures Selects(ByText(query), e) <==> Selects(ByText(Lower(query)), e)
  {
    LowerIdempotent(query);
  }

  /** "20" is an amount query for 20.00, so it finds exactly the expenses of
      2000 cents and never one that merely mentions "20" in its text. */
  lemma TwentyIsAnAmount(query: string, e: Expense)
    requires query == "20"
    ensures SelectMode(query) == ByAmount(2000)
    ensures Selects(SelectMode(query), e) <==> e.amount == 2000
  {
    assert NatToDigits(20) == "20" by {
      assert NatToDigits(2) == "2";
      assert NatToDigits(20) == NatToDigits(2) + [DigitChar(0)];
    }
    assert query == "" + NatToDigits(20) + "";
    WholeAmountRoundTrip("", 20, "");
  }

  /** "coffee" has no digit, so it searches text: an expense whose
      description says "Coffee" is found whatever its amount. */
  lemma CoffeeIsText(query: string, e: Expense)
    requires query == "coffee"
    requires e.description == "Coffee"
    ensures SelectMode(query) == ByText(query)
    ensures Selects(SelectMode(query), e)
  {
    assert !HasDigit(query) by {
      assert forall j :: 0 <= j < |query| ==> !IsDigit(query[j]);
    }
    assert Lower(e.description) == Lower(query);
    ContainsAt(Lower(e.description), Lower(query), 0);
  }
}
