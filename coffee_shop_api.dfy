/**
  The coffee-shop drink endpoints (src/api.py): the public drink list and
  drink creation. The table is a sequence of rows; an insert is the table
  with the new row appended under the id the database assigns (`newId`).
  `Drink.short()` is a parameter.
*/
module CoffeeShopApi {
  import opened Common
  import opened DrinkRules

  /** The message of the recipe-size check, spelled as in src/api.py. */
  const CountMessage: string := "Required fields are mission"

  /** `create_drink`: the checks of ValidateNewDrink; an accepted body is
      appended as one new row and the response lists exactly that row;
      otherwise the table is unchanged. */
  function CreateDrink(table: seq<DrinkRow>, body: Json, newId: int): (r: (Reply<seq<DrinkRow>>, seq<DrinkRow>))
    ensures var v := ValidateNewDrink(body, CountMessage);
            && (v.Respond? ==> r.1 == table + [NewRow(newId, v.value)] && r.0 == Respond(200, [NewRow(newId, v.value)]))
            && (v.Abort? ==> r.0 == Abort(400, v.description) && r.1 == table)
            && (v.Crash? ==> r.0.Crash? && r.1 == table)
    ensures r.0.Respond? ==> |r.0.value| == 1 && r.0.value[0] == r.1[|r.1| - 1] && |r.1| == |table| + 1
  {
    match ValidateNewDrink(body, CountMessage)
    case Respond(_, d) => (Respond(200, [NewRow(newId, d)]), table + [NewRow(newId, d)])
    case Abort(status, description) => (Abort(status, description), table)
    case Crash => (Crash, table)
  }

  /** `get_drinks`: one short representation per stored drink, in the same
      order. */
  function GetDrinks<T>(table: seq<DrinkRow>, short: DrinkRow -> T): (r: Reply<seq<T>>)
    ensures r.Respond? && r.status == 200
    ensures |r.value| == |table|
    ensures forall k :: 0 <= k < |table| ==> r.value[k] == short(table[k])
  {
    Respond(200, seq(|table|, k requires 0 <= k < |table| => short(table[k])))
  }

  /** A created drink is listed last by the next `get_drinks`, after all the
      drinks listed before; a rejected body leaves the list as it was. */
  lemma CreatedDrinkListed<T>(table: seq<DrinkRow>, body: Json, newId: int, short: DrinkRow -> T)
    ensures var v := ValidateNewDrink(body, CountMessage);
            var after := CreateDrink(table, body, newId).1;
            && (v.Respond? ==> GetDrinks(after, short).value == GetDrinks(table, short).value + [short(NewRow(newId, v.value))])
            && (!v.Respond? ==> GetDrinks(after, short) == GetDrinks(table, short))
  {
    var v := ValidateNewDrink(body, CountMessage);
    if v.Respond? {
      var after := table + [NewRow(newId, v.value)];
      var listed := GetDrinks(after, short).value;
      assert forall k :: 0 <= k < |table| ==> after[k] == table[k];
      assert listed == GetDrinks(table, short).value + [short(NewRow(newId, v.value))];
    }
  }

  /** A recipe of two entries with a title is refused with the size message. */
  lemma TwoEntryRecipeRefused(title: string, a: Json, b: Json)
    requires title != ""
    ensures var body := JObj(map["title" := JStr(title), "recipe" := JObj(map["color" := a, "parts" := b])]);
            CreateDrink([], body, 1).0 == Abort(400, Some(CountMessage))
  {
    var recipe := map["color" := a, "parts" := b];
    assert recipe.Keys == {"color", "parts"};
    assert |recipe.Keys| == 2;
  }
}
