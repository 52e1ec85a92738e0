/**
  The drink rows and the request-body rules that both drink APIs apply
  when a drink is created: the coffee-shop API (src/api.py) and the
  casting-agency API (api.py) share the same `create_drink` code, apart
  from one error message.
*/
module DrinkRules {
  import opened Common

  /** A value stored as the text `json.dumps(value)`. */
  datatype Dumped = Dumps(value: Json)

  /** A drink row: the title as the request gave it, the recipe serialised. */
  datatype DrinkRow = DrinkRow(id: int, title: Json, recipe: Dumped)

  /** What a valid creation body provides. */
  datatype NewDrink = NewDrink(title: Json, recipe: map<string, Json>)

  const MissingFields: string := "Required fields are missing"

  /** The body checks of `create_drink`. `body.get` raises unless the body
      is an object, and `recipe.items()` raises unless the recipe is one,
      both before any check; then a falsy title or recipe is 400 with
      MissingFields, and a recipe without exactly three entries is 400
      with `countMessage`. */
  function ValidateNewDrink(body: Json, countMessage: string): (r: Reply<NewDrink>)
    ensures !body.JObj? ==> r.Crash?
    ensures body.JObj? ==> (r.Crash? <==> !Get(body.fields, "recipe").JObj?)
    ensures body.JObj? && Get(body.fields, "recipe").JObj? ==>
              var title := Get(body.fields, "title");
              var recipe := Get(body.fields, "recipe").fields;
              && (!Truthy(title) || recipe == map[] ==> r == Abort(400, Some(MissingFields)))
              && (Truthy(title) && recipe != map[] && |recipe| != 3 ==> r == Abort(400, Some(countMessage)))
    ensures r.Respond? <==> body.JObj? && Get(body.fields, "recipe").JObj? && Truthy(Get(body.fields, "title"))
                            && |Get(body.fields, "recipe").fields| == 3
    ensures r.Respond? ==> r.value == NewDrink(Get(body.fields, "title"), Get(body.fields, "recipe").fields)
  {
    if !body.JObj? then Crash
    else
      var title := Get(body.fields, "title");
      var recipe := Get(body.fields, "recipe");
      if !recipe.JObj? then Crash
      else if !Truthy(title) || !Truthy(recipe) then Abort(400, Some(MissingFields))
      else if |recipe.fields| != 3 then Abort(400, Some(countMessage))
      else Respond(200, NewDrink(title, recipe.fields))
  }

  /** A body that passes the checks has a truthy title and a recipe of
      exactly three entries; neither a missing title nor a missing recipe
      can pass. */
  lemma AcceptedDrinkIsComplete(body: map<string, Json>, countMessage: string)
    ensures "recipe" !in body ==> ValidateNewDrink(JObj(body), countMessage).Crash?
    ensures "title" !in body && "recipe" in body && body["recipe"].JObj? ==>
              ValidateNewDrink(JObj(body), countMessage) == Abort(400, Some(MissingFields))
    ensures ValidateNewDrink(JObj(body), countMessage).Respond? ==>
              var d := ValidateNewDrink(JObj(body), countMessage).value;
              Truthy(d.title) && |d.recipe| == 3
  {
  }

  /** The row an accepted body is stored as. */
  function NewRow(id: int, d: NewDrink): (row: DrinkRow)
    ensures row.id == id && row.title == d.title && row.recipe == Dumps(JObj(d.recipe))
  {
    DrinkRow(id, d.title, Dumps(JObj(d.recipe)))
  }

  /** The row with the given id, if any: `filter_by(id=...).first()`. */
  function IndexOfId(rows: seq<DrinkRow>, id: int): (r: Option<nat>)
    ensures r.None? <==> forall k :: 0 <= k < |rows| ==> rows[k].id != id
    ensures r.Some? ==> r.value < |rows| && rows[r.value].id == id
                        && forall k :: 0 <= k < r.value ==> rows[k].id != id
  {
    if rows == [] then None
    else if rows[0].id == id then Some(0)
    else
      match IndexOfId(rows[1..], id)
      case None => None
      case Some(k) => Some(k + 1)
  }
}
