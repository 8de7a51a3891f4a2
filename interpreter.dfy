/** A stored expense row. */
module Ledger {
  import opened Wrappers
  import opened Categories

  /** A row of the `expenses` table. Amounts are in cents; `date` is the
      logging time as a timestamp in seconds. The storage-assigned
      `created_at` column is never read and is not modelled. */
  datatype Expense = Expense(
    id: nat,
    amount: nat,
    category: Category,
    description: string,
    location: Option<string>,
    date: int)

  /** Every stored amount is positive: the logging guard rejects the rest. */
  predicate AllPositive(exps: seq<Expense>) {
    forall i :: 0 <= i < |exps| ==> exps[i].amount > 0
  }
}

/**
 * The natural-language interpreter: amount, category, description and
 * location of a free-text expense, stamped with the current time.
 */
module Interpreter {
  import opened Wrappers
  import opened Text
  import opened Amount
  import opened Categories
  import opened Location

  /** What the interpreter extracts from a text; an amount of 0 means none
      was found. */
  datatype Candidate = Candidate(
    amount: nat,
    category: Category,
    description: string,
    location: Option<string>,
    date: int)

  /** The interpretation of `text` at time `now`: the amount pattern and the
      keyword rules see the lower-cased text, the location pattern the
      original one. */
  function Interpret(text: string, now: int): Candidate {
    var lower := Lower(text);
    Candidate(ParseAmount(lower), FirstMatch(Rules, lower), Strip(text), ExtractLocation(text), now)
  }

  /** The interpreter as the source runs it, with the category loop. */
  method ParseExpenseText(text: string, now: int) returns (c: Candidate)
    ensures c == Interpret(text, now)
  {
    var amount := ParseAmount(Lower(text));
    var category := Categorize(text);
    var location := ExtractLocation(text);
    c := Candidate(amount, category, Strip(text), location, now);
  }

  /** The interpreter's amount: 0 when the text has no digit, otherwise the
      first maximal digit run, with the two digits after a point when they
      follow it. A text without a digit is thus always rejected by the
      logging guard. */
  lemma InterpretedAmount(text: string, now: int)
    ensures !HasDigit(text) ==> Interpret(text, now).amount == 0
    ensures HasDigit(text) ==> Interpret(text, now).amount == GroupCents(text, FirstDigit(text))
  {
    AmountIgnoresCase(text);
    FindAmountIsFirstDigitRun(text);
  }

  /** The interpreter's category and location, for every text: the category
      is `other` exactly when no keyword occurs, and the location never holds
      a `$`, a digit or whitespace. */
  lemma InterpretedCategoryAndLocation(text: string, now: int)
    ensures Interpret(text, now).category == Other
        <==> forall j :: 0 <= j < |Rules| ==> !Fires(Rules, Lower(text), j)
    ensures Interpret(text, now).location.Some? ==>
      forall m :: 0 <= m < |Interpret(text, now).location.value| ==>
        !Excluded(Interpret(text, now).location.value[m]) && !IsSpace(Interpret(text, now).location.value[m])
  {
    assert WellFormed(Rules);
    FirstMatchOther(Rules, Lower(text));
    LocationShape(text);
  }

  /** The documented example: "spent $15 on lunch at McDonald's" is $15.00 of
      food at McDonald's. */
  lemma LunchAtMcDonalds(s: string, now: int)
    requires s == "spent $15 on lunch at McDonald's"
    ensures Interpret(s, now) == Candidate(1500, Food, s, Some("McDonald's"), now)
  {
    LunchAmount(s);
    AmountIgnoresCase(s);
    LunchCategory(s);
    assert Strip(s) == s;
    McDonaldsLocation(s);
  }

  lemma LunchAmount(s: string)
    requires s == "spent $15 on lunch at McDonald's"
    ensures FindAmount(s) == Some(1500)
  {
    var prefix, suffix := "spent $", " on lunch at McDonald's";
    assert s == prefix + NatToDigits(15) + suffix by {
      FifteenDigits();
    }
    assert !HasDigit(prefix) by {
      assert forall j :: 0 <= j < |prefix| ==> !IsDigit(prefix[j]);
    }
    assert !IsDigit(suffix[0]) && !HasCents(suffix, 0) by {
      assert suffix[0] == ' ';
    }
    WholeAmountRoundTrip(prefix, 15, suffix);
  }

  lemma FifteenDigits()
    ensures NatToDigits(15) == "15"
  {
    assert NatToDigits(1) == "1";
    assert NatToDigits(15) == NatToDigits(1) + [DigitChar(5)];
  }

  lemma LunchCategory(s: string)
    requires s == "spent $15 on lunch at McDonald's"
    ensures FirstMatch(Rules, Lower(s)) == Food
  {
    var lower := Lower(s);
    assert lower[13..18] == s[13..18] == "lunch";
    ContainsAt(lower, "lunch", 13);
    assert "lunch" in FoodWords;
    Classification(lower);
  }
}
