/**
 * The three tools over one expense table: logging appends a row, the summary
 * and the search only read the table.
 */
module Tools {
  import opened Wrappers
  import opened Text
  import opened Amount
  import opened Categories
  import opened Ledger
  import opened Interpreter
  import opened Summary
  import opened Search

  /** What logging reports: the rejection, or the row it stored. */
  datatype LogOutcome = NoAmountFound | Logged(expense: Expense)

  /** The row a candidate becomes under the next identifier. */
  function Row(id: nat, c: Candidate): Expense {
    Expense(id, c.amount, c.category, c.description, c.location, c.date)
  }

  /** The `expenses` table. Rows are only ever appended, so the
      auto-incremented identifier of a row is its position plus one. */
  class ExpenseStore {
    var expenses: seq<Expense>

    ghost predicate Valid()
      reads this
    {
      && AllPositive(expenses)
      && forall i :: 0 <= i < |expenses| ==> expenses[i].id == i + 1
    }

    constructor ()
      ensures Valid() && expenses == []
    {
      expenses := [];
    }

    /** `log_expense`: interprets the description at time `now`; without a
        positive amount nothing is stored, otherwise exactly one row is
        appended and every earlier row stays as it was. */
    method LogExpense(description: string, now: int) returns (outcome: LogOutcome)
      requires Valid()
      modifies this
      ensures Valid()
      ensures var c := Interpret(description, now);
        if c.amount == 0 then
          outcome == NoAmountFound && expenses == old(expenses)
        else
          outcome == Logged(Row(|old(expenses)| + 1, c)) && expenses == old(expenses) + [outcome.expense]
    {
      var c := ParseExpenseText(description, now);
      if c.amount <= 0 {
        return NoAmountFound;
      }
      var row := Row(|expenses| + 1, c);
      expenses := expenses + [row];
      outcome := Logged(row);
    }

    /** `get_spending_summary`: reads the table, changes nothing. */
    method GetSpendingSummary(period: string, now: int) returns (r: Report)
      requires Valid()
      ensures r == SpendingSummary(expenses, period, now)
    {
      r := SpendingSummary(expenses, period, now);
    }

    /** `search_expenses`: reads the table, changes nothing. */
    method SearchExpenses(query: string, limit: int) returns (o: Outcome)
      ensures o == Search.SearchExpenses(expenses, query, limit)
    {
      o := Search.SearchExpenses(expenses, query, limit);
    }
  }

  /** The confirmation of a logged row, without its leading emoji: the amount
      with two decimals, the category, and " at <location>" when the location
      is present and not empty. */
  function Confirmation(e: Expense): string {
    var at := if e.location.Some? && e.location.value != "" then " at " + e.location.value else "";
    "Logged $" + FormatCents(e.amount) + " " + Name(e.category) + " expense" + at
  }

  /** The confirmation reads back: the amount pattern finds the stored cents
      in it, whatever the category and location. */
  lemma ConfirmationRoundTrip(e: Expense)
    ensures FindAmount(Confirmation(e)) == Some(e.amount)
  {
    var prefix := "Logged $";
    assert !HasDigit(prefix) by {
      assert forall j :: 0 <= j < |prefix| ==> !IsDigit(prefix[j]);
    }
    var at := if e.location.Some? && e.location.value != "" then " at " + e.location.value else "";
    var suffix := " " + Name(e.category) + " expense" + at;
    assert Confirmation(e) == prefix + FormatCents(e.amount) + suffix;
    FormatCentsRoundTrip(prefix, e.amount, suffix);
  }

  /** Logging a text whose amount parses, then searching for that amount
      finds the new row, unless the limit is zero or the rows already matching
      that amount are at least as new and fill the limit. */
  lemma LoggedRowIsFound(exps: seq<Expense>, description: string, now: int, limit: int)
    requires Interpret(description, now).amount > 0
    ensures var row := Row(|exps| + 1, Interpret(description, now));
      var query := FormatCents(row.amount);
      var r := Search.Results(exps + [row], query, limit);
      row !in r ==> 0 <= limit == |r| && forall i :: 0 <= i < |r| ==> r[i].date >= now
  {
    var row := Row(|exps| + 1, Interpret(description, now));
    var query := FormatCents(row.amount);
    assert query == "" + FormatCents(row.amount) + "";
    assert !HasDigit("");
    FormatCentsRoundTrip("", row.amount, "");
    assert SelectMode(query) == ByAmount(row.amount);
    assert row in exps + [row];
    ResultsComplete(exps + [row], query, limit, row);
  }
}
