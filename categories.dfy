/**
 * Keyword classification of an expense text: a fixed priority list of
 * categories, each with its keywords, tested by substring containment on the
 * lower-cased text. The first category with a matching keyword wins.
 */
module Categories {
  import opened Text

  /** The closed set of categories; `Other` is the fallback. */
  datatype Category = Food | Transportation | Shopping | Entertainment | Health | Bills | Other

  /** The name stored in the `category` column. */
  function Name(c: Category): string {
    match c
    case Food => "food"
    case Transportation => "transportation"
    case Shopping => "shopping"
    case Entertainment => "entertainment"
    case Health => "health"
    case Bills => "bills"
    case Other => "other"
  }

  const FoodWords: seq<string> := ["lunch", "dinner", "breakfast", "coffee", "restaurant", "food", "meal", "snack", "groceries", "grocery", "mcdonalds", "starbucks", "pizza"]
  const TransportationWords: seq<string> := ["uber", "lyft", "taxi", "bus", "train", "metro", "parking", "gas", "fuel"]
  const ShoppingWords: seq<string> := ["store", "mall", "amazon", "target", "walmart", "clothes", "shirt", "shoes"]
  const EntertainmentWords: seq<string> := ["movie", "concert", "show", "game", "bar", "club", "netflix", "spotify"]
  const HealthWords: seq<string> := ["doctor", "pharmacy", "medicine", "hospital", "clinic", "gym", "fitness"]
  const BillsWords: seq<string> := ["rent", "electric", "water", "internet", "phone", "insurance", "subscription"]

  /** The categories with their keywords, in priority order. */
  const Rules: seq<(Category, seq<string>)> := [
    (Food, FoodWords),
    (Transportation, TransportationWords),
    (Shopping, ShoppingWords),
    (Entertainment, EntertainmentWords),
    (Health, HealthWords),
    (Bills, BillsWords)
  ]

  /** `any(keyword in text for keyword in keywords)`. */
  predicate AnyKeyword(text: string, keywords: seq<string>) {
    exists k :: k in keywords && Contains(text, k)
  }

  /** The label of the first rule with a matching keyword, `Other` if none. */
  function FirstMatch(rules: seq<(Category, seq<string>)>, text: string): Category {
    if rules == [] then Other
    else if AnyKeyword(text, rules[0].1) then rules[0].0
    else FirstMatch(rules[1..], text)
  }

  /** Labels are distinct and none is the fallback. */
  predicate WellFormed(rules: seq<(Category, seq<string>)>) {
    && (forall i :: 0 <= i < |rules| ==> rules[i].0 != Other)
    && (forall i, j :: 0 <= i < j < |rules| ==> rules[i].0 != rules[j].0)
  }

  /** Rule `j` of `rules` has a keyword in `text`. */
  predicate Fires(rules: seq<(Category, seq<string>)>, text: string, j: nat)
    requires j < |rules|
  {
    AnyKeyword(text, rules[j].1)
  }

  /** The category is the fallback or the label of some rule. */
  lemma {:induction false} FirstMatchIsLabel(rules: seq<(Category, seq<string>)>, text: string)
    returns (j: int)
    ensures -1 <= j < |rules|
    ensures j == -1 ==> FirstMatch(rules, text) == Other
    ensures j >= 0 ==> FirstMatch(rules, text) == rules[j].0
    decreases |rules|
  {
    if rules == [] {
      j := -1;
    } else if AnyKeyword(text, rules[0].1) {
      j := 0;
    } else {
      var i := FirstMatchIsLabel(rules[1..], text);
      j := if i == -1 then -1 else i + 1;
    }
  }

  /** The category of a text is rule `k`'s exactly when rule `k` fires and no
      earlier rule does, whatever the positions of the keywords in the text. */
  lemma {:induction false} FirstMatchIsEarliest(rules: seq<(Category, seq<string>)>, text: string, k: nat)
    requires WellFormed(rules) && k < |rules|
    ensures FirstMatch(rules, text) == rules[k].0
        <==> Fires(rules, text, k) && forall j :: 0 <= j < k ==> !Fires(rules, text, j)
    decreases k
  {
    if k == 0 && !Fires(rules, text, 0) {
      var j := FirstMatchIsLabel(rules[1..], text);
      if j >= 0 {
        assert rules[1..][j] == rules[j + 1];
      }
    }
    if k > 0 {
      var tail := rules[1..];
      assert WellFormed(tail);
      FirstMatchIsEarliest(tail, text, k - 1);
      if Fires(rules, text, 0) {
        assert rules[0].0 != rules[k].0;
        assert FirstMatch(rules, text) == rules[0].0;
      } else {
        assert FirstMatch(rules, text) == FirstMatch(tail, text);
        assert tail[k - 1] == rules[k];
        assert Fires(rules, text, k) == Fires(tail, text, k - 1);
        assert (forall j :: 0 <= j < k ==> !Fires(rules, text, j))
           <==> (forall j :: 0 <= j < k - 1 ==> !Fires(tail, text, j)) by {
          if forall j :: 0 <= j < k - 1 ==> !Fires(tail, text, j) {
            forall j | 0 < j < k ensures !Fires(rules, text, j) {
              assert tail[j - 1] == rules[j];
              assert !Fires(tail, text, j - 1);
            }
          }
          if forall j :: 0 <= j < k ==> !Fires(rules, text, j) {
            forall j | 0 <= j < k - 1 ensures !Fires(tail, text, j) {
              assert tail[j] == rules[j + 1];
              assert !Fires(rules, text, j + 1);
            }
          }
        }
      }
    }
  }

  /** `Other` comes out exactly when no rule fires. */
  lemma {:induction false} FirstMatchOther(rules: seq<(Category, seq<string>)>, text: string)
    requires WellFormed(rules)
    ensures FirstMatch(rules, text) == Other <==> forall j :: 0 <= j < |rules| ==> !Fires(rules, text, j)
    decreases |rules|
  {
    if rules != [] {
      var tail := rules[1..];
      assert WellFormed(tail);
      FirstMatchOther(tail, text);
      assert forall j :: 0 <= j < |tail| ==> (Fires(tail, text, j) <==> Fires(rules, text, j + 1));
      if !Fires(rules, text, 0) {
        assert forall j :: 0 < j < |rules| ==> (Fires(rules, text, j) <==> Fires(tail, text, j - 1));
      }
    }
  }

  /** The category loop: it starts from `other`, walks the rules in order and
      stops at the first whose keywords occur in the lower-cased text. */
  method Categorize(text: string) returns (category: Category)
    ensures category == FirstMatch(Rules, Lower(text))
  {
    category := Other;
    var textLower := Lower(text);
    var i := 0;
    while i < |Rules|
      invariant 0 <= i <= |Rules|
      invariant category == Other
      invariant FirstMatch(Rules[i..], textLower) == FirstMatch(Rules, textLower)
    {
      if AnyKeyword(textLower, Rules[i].1) {
        category := Rules[i].0;
        break;
      }
      assert Rules[i..][1..] == Rules[i + 1..];
      i := i + 1;
    }
  }

  /** The classification of a (lower-cased) text, category by category: each
      one wins exactly when one of its keywords occurs and no keyword of a
      category before it in the priority order does. */
  lemma Classification(t: string)
    ensures FirstMatch(Rules, t) == Food <==> AnyKeyword(t, FoodWords)
    ensures FirstMatch(Rules, t) == Transportation
        <==> !AnyKeyword(t, FoodWords) && AnyKeyword(t, TransportationWords)
    ensures FirstMatch(Rules, t) == Shopping
        <==> !AnyKeyword(t, FoodWords) && !AnyKeyword(t, TransportationWords) && AnyKeyword(t, ShoppingWords)
    ensures FirstMatch(Rules, t) == Entertainment
        <==> !AnyKeyword(t, FoodWords) && !AnyKeyword(t, TransportationWords) && !AnyKeyword(t, ShoppingWords)
             && AnyKeyword(t, EntertainmentWords)
    ensures FirstMatch(Rules, t) == Health
        <==> !AnyKeyword(t, FoodWords) && !AnyKeyword(t, TransportationWords) && !AnyKeyword(t, ShoppingWords)
             && !AnyKeyword(t, EntertainmentWords) && AnyKeyword(t, HealthWords)
    ensures FirstMatch(Rules, t) == Bills
        <==> !AnyKeyword(t, FoodWords) && !AnyKeyword(t, TransportationWords) && !AnyKeyword(t, ShoppingWords)
             && !AnyKeyword(t, EntertainmentWords) && !AnyKeyword(t, HealthWords) && AnyKeyword(t, BillsWords)
    ensures FirstMatch(Rules, t) == Other
        <==> !AnyKeyword(t, FoodWords) && !AnyKeyword(t, TransportationWords) && !AnyKeyword(t, ShoppingWords)
             && !AnyKeyword(t, EntertainmentWords) && !AnyKeyword(t, HealthWords) && !AnyKeyword(t, BillsWords)
  {
    assert WellFormed(Rules);
    FirstMatchIsEarliest(Rules, t, 0);
    FirstMatchIsEarliest(Rules, t, 1);
    FirstMatchIsEarliest(Rules, t, 2);
    FirstMatchIsEarliest(Rules, t, 3);
    FirstMatchIsEarliest(Rules, t, 4);
    FirstMatchIsEarliest(Rules, t, 5);
    FirstMatchOther(Rules, t);
  }

  /** A text naming both a ride and a meal is food, since food has priority:
      "uber home after lunch" and "lunch, then uber" are both food. */
  lemma RideAndMealIsFood(t: string)
    requires Contains(t, "uber") && Contains(t, "lunch")
    ensures FirstMatch(Rules, t) == Food
  {
    assert "lunch" in FoodWords;
    Classification(t);
  }
}
