/**
 * The spending summary: the expenses of a lookback window grouped by
 * category, with the sum and number of each group, the groups ordered by
 * total, largest first, the grand total and each group's share of it.
 */
module Summary {
  import opened Text
  import opened Categories
  import opened Ledger
  import opened Sequences

  const SecondsPerDay: nat := 86400

  /** A lookback in days and the name it is reported under. */
  datatype Period = Period(days: nat, name: string)

  /** The period argument, compared case-insensitively; anything that is not
      "week", "month" or "year" falls back to the week. */
  function ResolvePeriod(period: string): (p: Period)
    ensures p.days == 30 <==> Lower(period) == "month"
    ensures p.days == 365 <==> Lower(period) == "year"
    ensures p.days == 7 <==> Lower(period) != "month" && Lower(period) != "year"
    ensures p.name == if p.days == 7 then "this week" else if p.days == 30 then "this month" else "this year"
  {
    var key := Lower(period);
    if key == "week" then Period(7, "this week")
    else if key == "month" then Period(30, "this month")
    else if key == "year" then Period(365, "this year")
    else Period(7, "this week")
  }

  /** An unknown period behaves exactly like the week: "quarter" reports the
      last seven days under the name "this week". */
  lemma PeriodFallback(period: string)
    requires Lower(period) != "month" && Lower(period) != "year"
    ensures ResolvePeriod(period) == ResolvePeriod("week")
  {
    assert Lower("week") == "week";
  }

  /** The period does not depend on letter case. */
  lemma PeriodIgnoresCase(period: string)
    ensures ResolvePeriod(Lower(period)) == ResolvePeriod(period)
  {
    LowerIdempotent(period);
  }

  /** The first instant of the window: `now` minus the lookback. */
  function Start(p: Period, now: int): int {
    now - p.days * SecondsPerDay
  }

  /** The expenses dated at or after `start` (`WHERE date >= ?`), each as
      often as it is stored. */
  function Window(exps: seq<Expense>, start: int): (w: seq<Expense>)
    ensures forall e :: e in w <==> e in exps && e.date >= start
    ensures forall e :: multiset(w)[e] == if e.date >= start then multiset(exps)[e] else 0
    ensures (forall i :: 0 <= i < |exps| ==> exps[i].date >= start) ==> w == exps
  {
    var w := Filter(exps, (e: Expense) => e.date >= start);
    assert forall e :: e in exps && e.date >= start ==> e in w by {
      forall e | e in exps && e.date >= start ensures e in w {
        var i :| 0 <= i < |exps| && exps[i] == e;
      }
    }
    assert forall e :: e in w ==> e in exps && e.date >= start by {
      forall e | e in w ensures e in exps && e.date >= start {
        var i :| 0 <= i < |w| && w[i] == e;
      }
    }
    w
  }

  /** A window of a store with positive amounts has positive amounts. */
  lemma WindowPositive(exps: seq<Expense>, start: int)
    requires AllPositive(exps)
    ensures AllPositive(Window(exps, start))
  {
    var w := Window(exps, start);
    forall i | 0 <= i < |w| ensures w[i].amount > 0 {
      assert w[i] in exps;
      var j :| 0 <= j < |exps| && exps[j] == w[i];
    }
  }

  /** `COUNT(*)` of the rows of category `c`. */
  function CountOf(w: seq<Expense>, c: Category): nat {
    if w == [] then 0 else (if w[0].category == c then 1 else 0) + CountOf(w[1..], c)
  }

  /** `SUM(amount)` of the rows of category `c`. */
  function TotalOf(w: seq<Expense>, c: Category): nat {
    if w == [] then 0 else (if w[0].category == c then w[0].amount else 0) + TotalOf(w[1..], c)
  }

  /** The sum of the amounts of the rows whose category is one of `cats`. */
  function SpentIn(w: seq<Expense>, cats: seq<Category>): nat {
    if w == [] then 0 else (if w[0].category in cats then w[0].amount else 0) + SpentIn(w[1..], cats)
  }

  function AmountOf(e: Expense): int {
    e.amount
  }

  /** The sum of all amounts of `w`. */
  function Spent(w: seq<Expense>): int {
    SumBy(w, AmountOf)
  }

  /** One row of the grouped query. */
  datatype Group = Group(category: Category, total: nat, count: nat)

  function GroupOf(w: seq<Expense>, c: Category): Group {
    Group(c, TotalOf(w, c), CountOf(w, c))
  }

  function GroupTotal(g: Group): int {
    g.total
  }

  const AllCategories: seq<Category> := [Food, Transportation, Shopping, Entertainment, Health, Bills, Other]

  /** The groups of the categories `cats` that occur in `w` (`GROUP BY`:
      a category without rows has no group). */
  function GroupsOver(cats: seq<Category>, w: seq<Expense>): seq<Group> {
    if cats == [] then []
    else (if CountOf(w, cats[0]) > 0 then [GroupOf(w, cats[0])] else []) + GroupsOver(cats[1..], w)
  }

  /** The grouped rows ordered by total, largest first (`ORDER BY total DESC`). */
  function Groups(w: seq<Expense>): seq<Group> {
    SortDesc(GroupsOver(AllCategories, w), GroupTotal)
  }

  /** A row of the report: a group and its share of the grand total. */
  datatype Line = Line(category: Category, total: nat, count: nat, percent: real)

  datatype Report =
    | NoExpenses(periodName: string)
    | Breakdown(periodName: string, total: nat, lines: seq<Line>)

  /** `(amount / total_spent) * 100`, over the reals. */
  function Percent(total: nat, grand: nat): real
    requires grand > 0
  {
    (total as real) / (grand as real) * 100.0
  }

  function Lines(groups: seq<Group>, grand: nat): (r: seq<Line>)
    requires grand > 0
    ensures |r| == |groups|
    ensures forall i :: 0 <= i < |r| ==>
      r[i] == Line(groups[i].category, groups[i].total, groups[i].count, Percent(groups[i].total, grand))
  {
    if groups == [] then []
    else
      var g := groups[0];
      [Line(g.category, g.total, g.count, Percent(g.total, grand))] + Lines(groups[1..], grand)
  }

  function SumPercents(lines: seq<Line>): real {
    if lines == [] then 0.0 else lines[0].percent + SumPercents(lines[1..])
  }

  /** The summary of `exps` for `period` at time `now`. The store keeps only
      positive amounts, so a non-empty window has a positive grand total. */
  function SpendingSummary(exps: seq<Expense>, period: string, now: int): (r: Report)
    requires AllPositive(exps)
    ensures r.periodName == ResolvePeriod(period).name
    ensures r.NoExpenses? <==> Window(exps, Start(ResolvePeriod(period), now)) == []
  {
    var p := ResolvePeriod(period);
    var w := Window(exps, Start(p, now));
    var groups := Groups(w);
    GroupsExist(w);
    if groups == [] then NoExpenses(p.name)
    else
      var grand := SumBy(groups, GroupTotal);
      GrandTotalPositive(w);
      Breakdown(p.name, grand, Lines(groups, grand))
  }

  lemma {:induction false} CountZeroTotalZero(w: seq<Expense>, c: Category)
    requires CountOf(w, c) == 0
    ensures TotalOf(w, c) == 0
  {
    if w != [] {
      CountZeroTotalZero(w[1..], c);
    }
  }

  lemma {:induction false} CountPositiveTotalPositive(w: seq<Expense>, c: Category)
    requires AllPositive(w) && CountOf(w, c) > 0
    ensures TotalOf(w, c) > 0
  {
    if w[0].category != c {
      assert AllPositive(w[1..]) by {
        forall i | 0 <= i < |w[1..]| ensures w[1..][i].amount > 0 {
          assert w[1..][i] == w[i + 1];
        }
      }
      CountPositiveTotalPositive(w[1..], c);
    }
  }

  /** What `GroupsOver` holds: exactly the groups of the listed categories
      that occur, each once. */
  lemma {:induction false} GroupsOverShape(cats: seq<Category>, w: seq<Expense>)
    requires Distinct(cats)
    ensures forall i :: 0 <= i < |GroupsOver(cats, w)| ==>
      var g := GroupsOver(cats, w)[i];
      g == GroupOf(w, g.category) && g.count > 0 && g.category in cats
    ensures forall c :: c in cats && CountOf(w, c) > 0 ==> GroupOf(w, c) in GroupsOver(cats, w)
    ensures Distinct(GroupsOver(cats, w))
  {
    if cats != [] {
      var tail := cats[1..];
      assert Distinct(tail) by {
        forall i, j | 0 <= i < j < |tail| ensures tail[i] != tail[j] {
          assert tail[i] == cats[i + 1] && tail[j] == cats[j + 1];
        }
      }
      GroupsOverShape(tail, w);
      var rest := GroupsOver(tail, w);
      assert cats[0] !in tail by {
        forall k | 0 <= k < |tail| ensures tail[k] != cats[0] {
          assert tail[k] == cats[k + 1];
        }
      }
      if CountOf(w, cats[0]) > 0 {
        var r := [GroupOf(w, cats[0])] + rest;
        assert GroupOf(w, cats[0]) !in rest;
        forall i, j | 0 <= i < j < |r| ensures r[i] != r[j] {
          if i == 0 {
            assert r[j] in rest;
          } else {
            assert r[i] == rest[i - 1] && r[j] == rest[j - 1];
          }
        }
      }
    }
  }

  lemma AllCategoriesDistinct()
    ensures Distinct(AllCategories)
    ensures forall c: Category :: c in AllCategories
  {
    forall c: Category ensures c in AllCategories {
      match c
      case Food => assert AllCategories[0] == c;
      case Transportation => assert AllCategories[1] == c;
      case Shopping => assert AllCategories[2] == c;
      case Entertainment => assert AllCategories[3] == c;
      case Health => assert AllCategories[4] == c;
      case Bills => assert AllCategories[5] == c;
      case Other => assert AllCategories[6] == c;
    }
  }

  /** The ordered groups are exactly the groups of the categories that occur
      in the window, each once, with the window's sum and count, largest total
      first. */
  lemma GroupsShape(w: seq<Expense>)
    ensures forall i :: 0 <= i < |Groups(w)| ==>
      Groups(w)[i] == GroupOf(w, Groups(w)[i].category) && Groups(w)[i].count > 0
    ensures forall c :: CountOf(w, c) > 0 ==> GroupOf(w, c) in Groups(w)
    ensures forall i, j :: 0 <= i < j < |Groups(w)| ==> Groups(w)[i].category != Groups(w)[j].category
    ensures forall i, j :: 0 <= i < j < |Groups(w)| ==> Groups(w)[i].total >= Groups(w)[j].total
  {
    AllCategoriesDistinct();
    var over := GroupsOver(AllCategories, w);
    GroupsOverShape(AllCategories, w);
    var gs := Groups(w);
    SortDescDistinct(over, GroupTotal);
    forall i | 0 <= i < |gs| ensures gs[i] == GroupOf(w, gs[i].category) && gs[i].count > 0 {
      assert gs[i] in multiset(over);
    }
    forall c | CountOf(w, c) > 0 ensures GroupOf(w, c) in gs {
      assert GroupOf(w, c) in multiset(gs);
    }
    forall i, j | 0 <= i < j < |gs| ensures gs[i].category != gs[j].category {
      assert gs[i] in multiset(over) && gs[j] in multiset(over);
    }
    assert SortedDesc(gs, GroupTotal);
  }

  /** There are groups exactly when the window is not empty. */
  lemma GroupsExist(w: seq<Expense>)
    ensures Groups(w) == [] <==> w == []
  {
    if w != [] {
      GroupsShape(w);
      assert CountOf(w, w[0].category) > 0;
      assert GroupOf(w, w[0].category) in Groups(w);
    } else {
      GroupsOverEmptyWindow(AllCategories);
    }
  }

  lemma {:induction false} GroupsOverAbsent(cats: seq<Category>, w: seq<Expense>)
    requires forall k :: 0 <= k < |cats| ==> CountOf(w, cats[k]) == 0
    ensures GroupsOver(cats, w) == []
  {
    if cats != [] {
      GroupsOverAbsent(cats[1..], w);
    }
  }

  lemma {:induction false} GroupsOverEmptyWindow(cats: seq<Category>)
    ensures GroupsOver(cats, []) == []
  {
    if cats != [] {
      GroupsOverEmptyWindow(cats[1..]);
    }
  }

  lemma GrandTotalPositive(w: seq<Expense>)
    requires AllPositive(w) && Groups(w) != []
    ensures SumBy(Groups(w), GroupTotal) > 0
  {
    GroupsShape(w);
    var gs := Groups(w);
    CountPositiveTotalPositive(w, gs[0].category);
    SumByNonNegative(gs[1..]);
  }

  lemma {:induction false} SumByNonNegative(gs: seq<Group>)
    ensures SumBy(gs, GroupTotal) >= 0
  {
    if gs != [] {
      SumByNonNegative(gs[1..]);
    }
  }

  lemma {:induction false} SpentInCons(w: seq<Expense>, c: Category, cats: seq<Category>)
    requires c !in cats
    ensures SpentIn(w, [c] + cats) == TotalOf(w, c) + SpentIn(w, cats)
  {
    if w != [] {
      SpentInCons(w[1..], c, cats);
    }
  }

  lemma {:induction false} GroupsOverSum(cats: seq<Category>, w: seq<Expense>)
    requires Distinct(cats)
    ensures SumBy(GroupsOver(cats, w), GroupTotal) == SpentIn(w, cats)
  {
    if cats == [] {
      SpentInNone(w);
    } else {
      var tail := cats[1..];
      assert Distinct(tail) by {
        forall i, j | 0 <= i < j < |tail| ensures tail[i] != tail[j] {
          assert tail[i] == cats[i + 1] && tail[j] == cats[j + 1];
        }
      }
      assert cats[0] !in tail by {
        forall k | 0 <= k < |tail| ensures tail[k] != cats[0] {
          assert tail[k] == cats[k + 1];
        }
      }
      GroupsOverSum(tail, w);
      assert cats == [cats[0]] + tail;
      SpentInCons(w, cats[0], tail);
      var rest := GroupsOver(tail, w);
      if CountOf(w, cats[0]) == 0 {
        CountZeroTotalZero(w, cats[0]);
        assert GroupsOver(cats, w) == rest;
      } else {
        var g := GroupOf(w, cats[0]);
        assert GroupsOver(cats, w) == [g] + rest;
        assert ([g] + rest)[1..] == rest;
      }
    }
  }

  lemma {:induction false} SpentInNone(w: seq<Expense>)
    ensures SpentIn(w, []) == 0
  {
    if w != [] {
      SpentInNone(w[1..]);
    }
  }

  lemma {:induction false} SpentInAll(w: seq<Expense>)
    ensures SpentIn(w, AllCategories) == Spent(w)
  {
    if w != [] {
      AllCategoriesDistinct();
      SpentInAll(w[1..]);
    }
  }

  /** The grand total of the groups is the sum of every amount in the window. */
  lemma GrandTotalIsSpent(w: seq<Expense>)
    ensures SumBy(Groups(w), GroupTotal) == Spent(w)
  {
    AllCategoriesDistinct();
    SumBySortDesc(GroupsOver(AllCategories, w), GroupTotal, GroupTotal);
    GroupsOverSum(AllCategories, w);
    SpentInAll(w);
  }

  lemma {:induction false} PercentsAdd(groups: seq<Group>, grand: nat)
    requires grand > 0
    ensures SumPercents(Lines(groups, grand)) == (SumBy(groups, GroupTotal) as real) / (grand as real) * 100.0
  {
    if groups != [] {
      var lines := Lines(groups, grand);
      assert lines[1..] == Lines(groups[1..], grand);
      PercentsAdd(groups[1..], grand);
      var a := groups[0].total as real;
      var b := SumBy(groups[1..], GroupTotal) as real;
      var g := grand as real;
      assert a / g * 100.0 + b / g * 100.0 == (a + b) / g * 100.0;
    }
  }

  /** The lines of a report, as the grouped query promises them: one line
      per category that occurs in the window, carrying that category's sum and
      count over the window. */
  lemma LinesCover(w: seq<Expense>, grand: nat)
    requires grand > 0
    ensures var lines := Lines(Groups(w), grand);
      && (forall i :: 0 <= i < |lines| ==>
            lines[i].total == TotalOf(w, lines[i].category)
            && lines[i].count == CountOf(w, lines[i].category)
            && lines[i].count > 0)
      && (forall c :: CountOf(w, c) > 0 ==> exists i :: 0 <= i < |lines| && lines[i].category == c)
  {
    var gs := Groups(w);
    var lines := Lines(gs, grand);
    GroupsShape(w);
    forall i | 0 <= i < |lines|
      ensures lines[i].total == TotalOf(w, lines[i].category)
      ensures lines[i].count == CountOf(w, lines[i].category) && lines[i].count > 0
    {
      assert gs[i] == GroupOf(w, gs[i].category);
    }
    forall c | CountOf(w, c) > 0 ensures exists i :: 0 <= i < |lines| && lines[i].category == c {
      var i :| 0 <= i < |gs| && gs[i] == GroupOf(w, c);
      assert lines[i].category == c;
    }
  }

  /** No category has two lines, and lines are ordered by total, largest
      first. */
  lemma LinesOrdered(w: seq<Expense>, grand: nat)
    requires grand > 0
    ensures var lines := Lines(Groups(w), grand);
      && (forall i, j :: 0 <= i < j < |lines| ==> lines[i].category != lines[j].category)
      && (forall i, j :: 0 <= i < j < |lines| ==> lines[i].total >= lines[j].total)
  {
    var gs := Groups(w);
    var lines := Lines(gs, grand);
    GroupsShape(w);
    forall i, j | 0 <= i < j < |lines|
      ensures lines[i].category != lines[j].category && lines[i].total >= lines[j].total
    {
      assert lines[i].category == gs[i].category && lines[j].category == gs[j].category;
      assert lines[i].total == gs[i].total && lines[j].total == gs[j].total;
    }
  }

  /** The grand total of a report is the sum of every amount in the window and
      the sum of its line totals, and the percentages add up to 100. */
  lemma SummaryTotals(exps: seq<Expense>, period: string, now: int)
    requires AllPositive(exps)
    ensures var w := Window(exps, Start(ResolvePeriod(period), now));
      var r := SpendingSummary(exps, period, now);
      r.Breakdown? ==>
        && r.total > 0
        && r.lines == Lines(Groups(w), r.total)
        && r.total == Spent(w)
        && r.total == SumBy(Groups(w), GroupTotal)
        && SumPercents(r.lines) == 100.0
  {
    var p := ResolvePeriod(period);
    var w := Window(exps, Start(p, now));
    var r := SpendingSummary(exps, period, now);
    if r.Breakdown? {
      WindowPositive(exps, Start(p, now));
      GroupsExist(w);
      var grand := SumBy(Groups(w), GroupTotal);
      GrandTotalPositive(w);
      assert r == Breakdown(p.name, grand, Lines(Groups(w), grand));
      BreakdownTotals(w);
    }
  }

  lemma BreakdownTotals(w: seq<Expense>)
    requires AllPositive(w) && w != []
    ensures SumBy(Groups(w), GroupTotal) > 0
    ensures SumBy(Groups(w), GroupTotal) == Spent(w)
    ensures SumPercents(Lines(Groups(w), SumBy(Groups(w), GroupTotal))) == 100.0
  {
    GroupsExist(w);
    GrandTotalPositive(w);
    GrandTotalIsSpent(w);
    PercentsSumToHundred(Groups(w), SumBy(Groups(w), GroupTotal));
  }

  lemma PercentsSumToHundred(groups: seq<Group>, grand: nat)
    requires grand > 0 && SumBy(groups, GroupTotal) == grand
    ensures SumPercents(Lines(groups, grand)) == 100.0
  {
    PercentsAdd(groups, grand);
    var t := grand as real;
    assert t / t == 1.0;
  }

  /** Two expenses of $60 (food) and $40 (transport) in the window give a
      $100 total, food first with 60 percent, then transport with 40. */
  lemma SixtyForty(a: Expense, b: Expense, period: string, now: int)
    requires Lower(period) == "week"
    requires a.category == Food && a.amount == 6000 && a.date == now
    requires b.category == Transportation && b.amount == 4000 && b.date == now
    ensures SpendingSummary([a, b], period, now)
      == Breakdown("this week", 10000, [Line(Food, 6000, 1, 60.0), Line(Transportation, 4000, 1, 40.0)])
  {
    var p := ResolvePeriod(period);
    assert p == Period(7, "this week");
    SixtyFortyWindow(a, b, Start(p, now));
    SixtyFortyGroups(a, b);
    SixtyFortyLines();
  }

  lemma SixtyFortyWindow(a: Expense, b: Expense, start: int)
    requires a.date >= start && b.date >= start
    ensures Window([a, b], start) == [a, b]
  {
    var w := [a, b];
    assert forall i :: 0 <= i < |w| ==> w[i].date >= start;
  }

  lemma SixtyFortyLines()
    ensures var gs := [Group(Food, 6000, 1), Group(Transportation, 4000, 1)];
      && SumBy(gs, GroupTotal) == 10000
      && Lines(gs, 10000) == [Line(Food, 6000, 1, 60.0), Line(Transportation, 4000, 1, 40.0)]
  {
    var gs := [Group(Food, 6000, 1), Group(Transportation, 4000, 1)];
    assert SumBy(gs, GroupTotal) == 10000 by {
      assert gs[1..][1..] == [];
    }
    assert Lines(gs, 10000) == [Line(Food, 6000, 1, 60.0), Line(Transportation, 4000, 1, 40.0)] by {
      assert Percent(6000, 10000) == 60.0;
      assert Percent(4000, 10000) == 40.0;
    }
  }

  lemma SixtyFortyGroups(a: Expense, b: Expense)
    requires a.category == Food && a.amount == 6000
    requires b.category == Transportation && b.amount == 4000
    ensures Groups([a, b]) == [Group(Food, 6000, 1), Group(Transportation, 4000, 1)]
  {
    var gs := [Group(Food, 6000, 1), Group(Transportation, 4000, 1)];
    SixtyFortyOver(a, b);
    assert SortDesc(gs, GroupTotal) == gs by {
      assert gs[1..][1..] == [];
    }
  }

  lemma SixtyFortyOver(a: Expense, b: Expense)
    requires a.category == Food && a.amount == 6000
    requires b.category == Transportation && b.amount == 4000
    ensures GroupsOver(AllCategories, [a, b]) == [Group(Food, 6000, 1), Group(Transportation, 4000, 1)]
  {
    var w := [a, b];
    forall c ensures CountOf(w, c) == (if c == Food || c == Transportation then 1 else 0)
      && TotalOf(w, c) == (if c == Food then 6000 else if c == Transportation then 4000 else 0)
    {
      PairGroup(a, b, c);
    }
    var gs := [Group(Food, 6000, 1), Group(Transportation, 4000, 1)];
    var rest := AllCategories[2..];
    assert GroupsOver(rest, w) == [] by {
      forall k | 0 <= k < |rest| ensures CountOf(w, rest[k]) == 0 {
        assert rest[k] == AllCategories[k + 2];
      }
      GroupsOverAbsent(rest, w);
    }
    assert AllCategories[1..][1..] == rest;
    assert GroupsOver(AllCategories[1..], w) == [gs[1]] + GroupsOver(rest, w);
  }

  lemma PairGroup(a: Expense, b: Expense, c: Category)
    ensures CountOf([a, b], c) == (if a.category == c then 1 else 0) + (if b.category == c then 1 else 0)
    ensures TotalOf([a, b], c) == (if a.category == c then a.amount else 0) + (if b.category == c then b.amount else 0)
  {
    var w := [a, b];
    assert w[1..] == [b] && w[1..][1..] == [];
    assert CountOf(w[1..][1..], c) == 0 && TotalOf(w[1..][1..], c) == 0;
  }
}
