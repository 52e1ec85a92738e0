/**
  The casting-agency drink endpoints (api.py): create, update and delete
  on the drinks table, and the handler that renders an authentication
  error. The table is a DrinkStore whose methods change its rows in place;
  `nextId` stands for the id the database assigns to the next insert.
*/
module CastingAgencyApi {
  import opened Common
  import opened DrinkRules

  /** The outcome of the recipe-item check of `update_drink`. */
  datatype ItemsVerdict = AllItemsOk | SomeItemEmpty | ItemsRaise

  /** `all(any([item["color"], item["name"], item["parts"]]) for item in recipe)`.
      Iterating a list yields its items and stops at the first item with all
      three fields falsy; looking a field up raises unless the item is an
      object holding all three keys. Iterating an object or a string yields
      strings, and indexing a string by a string raises, so only an empty one
      passes; other values are not iterable. */
  function RecipeItemsCheck(recipe: Json): (c: ItemsVerdict)
    ensures recipe.JArr? ==> c == ItemsCheck(recipe.items)
    ensures recipe.JArr? && recipe.items == [] ==> c == AllItemsOk
    ensures recipe.JObj? ==> (c == AllItemsOk <==> recipe.fields == map[])
    ensures recipe.JStr? ==> (c == AllItemsOk <==> recipe.s == "")
    ensures recipe.JNull? || recipe.JBool? || recipe.JNum? ==> c == ItemsRaise
    ensures c == SomeItemEmpty ==> recipe.JArr?
  {
    match recipe
    case JArr(items) => ItemsCheck(items)
    case JObj(fields) => if fields == map[] then AllItemsOk else ItemsRaise
    case JStr(s) => if s == "" then AllItemsOk else ItemsRaise
    case _ => ItemsRaise
  }

  /** An item whose three fields can be looked up. */
  predicate HasItemKeys(item: Json) {
    item.JObj? && "color" in item.fields && "name" in item.fields && "parts" in item.fields
  }

  /** An item with at least one of its three fields truthy. */
  predicate ItemFilled(item: Json)
    requires HasItemKeys(item)
  {
    Truthy(item.fields["color"]) || Truthy(item.fields["name"]) || Truthy(item.fields["parts"])
  }

  /** The check over a list of items, in order. */
  function ItemsCheck(items: seq<Json>): (c: ItemsVerdict)
    ensures c == AllItemsOk <==> forall k :: 0 <= k < |items| ==> HasItemKeys(items[k]) && ItemFilled(items[k])
    ensures c == SomeItemEmpty <==>
              exists k :: 0 <= k < |items| && HasItemKeys(items[k]) && !ItemFilled(items[k])
                          && forall j :: 0 <= j < k ==> HasItemKeys(items[j]) && ItemFilled(items[j])
  {
    if items == [] then AllItemsOk
    else if !HasItemKeys(items[0]) then ItemsRaise
    else if !ItemFilled(items[0]) then SomeItemEmpty
    else
      var c := ItemsCheck(items[1..]);
      assert forall k :: 1 <= k < |items| ==> items[k] == items[1..][k - 1];
      if c == SomeItemEmpty then
        var k :| 0 <= k < |items[1..]| && HasItemKeys(items[1..][k]) && !ItemFilled(items[1..][k])
                 && forall j :: 0 <= j < k ==> HasItemKeys(items[1..][j]) && ItemFilled(items[1..][j]);
        assert forall j :: 0 <= j < k + 1 ==> HasItemKeys(items[j]) && ItemFilled(items[j]);
        c
      else
        assert c != SomeItemEmpty;
        c
  }

  /** The verdict of `update_drink`'s body checks, for a body that is an
      object: neither title nor recipe truthy is 400; a recipe key whose
      items fail the check is 400 or raises. */
  datatype PatchVerdict = Accept | Reject | Raise

  function CheckPatch(body: Json): (v: PatchVerdict)
    ensures !body.JObj? ==> v == Raise
    ensures body.JObj? && !Truthy(Get(body.fields, "title")) && !Truthy(Get(body.fields, "recipe")) ==> v == Reject
    ensures body.JObj? && "recipe" !in body.fields ==> (v == Accept <==> Truthy(Get(body.fields, "title")))
    ensures v == Accept ==> body.JObj? && ("recipe" in body.fields ==> RecipeItemsCheck(body.fields["recipe"]) == AllItemsOk)
    ensures body.JObj? && (Truthy(Get(body.fields, "title")) || Truthy(Get(body.fields, "recipe")))
            && "recipe" in body.fields ==>
              && (v == Reject <==> RecipeItemsCheck(body.fields["recipe"]) == SomeItemEmpty)
              && (v == Raise <==> RecipeItemsCheck(body.fields["recipe"]) == ItemsRaise)
  {
    if !body.JObj? then Raise
    else if !Truthy(Get(body.fields, "title")) && !Truthy(Get(body.fields, "recipe")) then Reject
    else if "recipe" in body.fields then
      match RecipeItemsCheck(body.fields["recipe"])
      case AllItemsOk => Accept
      case SomeItemEmpty => Reject
      case ItemsRaise => Raise
    else Accept
  }

  /** The row after the `for k, v in body.items()` loop has visited the
      entries `done`: a "title" entry replaces the title, a "recipe" entry
      replaces the recipe with its serialised form, any other is ignored. */
  function PatchRow(row: DrinkRow, done: map<string, Json>): (r: DrinkRow)
    ensures r.id == row.id
    ensures r.title == if "title" in done then done["title"] else row.title
    ensures r.recipe == if "recipe" in done then Dumps(done["recipe"]) else row.recipe
  {
    row.(title := if "title" in done then done["title"] else row.title,
         recipe := if "recipe" in done then Dumps(done["recipe"]) else row.recipe)
  }

  /** Keys other than "title" and "recipe" change nothing, and applying the
      same body twice is applying it once. */
  lemma PatchIgnoresOtherKeys(row: DrinkRow, body: map<string, Json>, k: string, v: Json)
    requires k != "title" && k != "recipe"
    ensures PatchRow(row, body[k := v]) == PatchRow(row, body)
    ensures PatchRow(PatchRow(row, body), body) == PatchRow(row, body)
  {
  }

  /** The drinks table. */
  class DrinkStore {
    var rows: seq<DrinkRow>
    var nextId: int

    /** Ids are unique and below the next one to be assigned. */
    predicate Valid()
      reads this
    {
      && (forall k :: 0 <= k < |rows| ==> rows[k].id < nextId)
      && (forall i, j :: 0 <= i < j < |rows| ==> rows[i].id != rows[j].id)
    }

    constructor ()
      ensures Valid() && rows == [] && nextId == 1
    {
      rows := [];
      nextId := 1;
    }

    /** `create_drink`: on an accepted body, one row is appended under a
        fresh id and the response lists exactly that row; otherwise the
        table is unchanged. */
    method CreateDrink(body: Json) returns (r: Reply<seq<DrinkRow>>)
      requires Valid()
      modifies this
      ensures Valid()
      ensures var v := ValidateNewDrink(body, MissingFields);
              && (v.Respond? ==> r == Respond(200, [NewRow(old(nextId), v.value)])
                                 && rows == old(rows) + [NewRow(old(nextId), v.value)]
                                 && nextId == old(nextId) + 1)
              && (v.Abort? ==> r == Abort(v.status, v.description) && rows == old(rows) && nextId == old(nextId))
              && (v.Crash? ==> r.Crash? && rows == old(rows) && nextId == old(nextId))
    {
      var v := ValidateNewDrink(body, MissingFields);
      match v
      case Respond(_, d) =>
        var row := NewRow(nextId, d);
        rows := rows + [row];
        nextId := nextId + 1;
        r := Respond(200, [row]);
      case Abort(status, description) =>
        r := Abort(status, description);
      case Crash =>
        r := Crash;
    }

    /** `update_drink`: an unknown id is 404 before the body is looked at;
        then CheckPatch decides; an accepted body patches the row in place
        and the response lists exactly that row. Only the patched row
        changes. */
    method UpdateDrink(drinkId: int, body: Json) returns (r: Reply<seq<DrinkRow>>)
      requires Valid()
      modifies this
      ensures Valid() && nextId == old(nextId)
      ensures IndexOfId(old(rows), drinkId).None? ==> r == Abort(404, None) && rows == old(rows)
      ensures IndexOfId(old(rows), drinkId).Some? ==>
                var idx := IndexOfId(old(rows), drinkId).value;
                && (CheckPatch(body) == Reject ==> r == Abort(400, Some(MissingFields)) && rows == old(rows))
                && (CheckPatch(body) == Raise ==> r.Crash? && rows == old(rows))
                && (CheckPatch(body) == Accept ==>
                      && rows == old(rows)[idx := PatchRow(old(rows)[idx], body.fields)]
                      && r == Respond(200, [rows[idx]]))
    {
      var found := IndexOfId(rows, drinkId);
      if found.None? {
        return Abort(404, None);
      }
      var idx := found.value;
      match CheckPatch(body)
      case Reject => return Abort(400, Some(MissingFields));
      case Raise => return Crash;
      case Accept =>
      var fields := body.fields;
      var row := rows[idx];
      var pending := fields.Keys;
      while pending != {}
        invariant pending <= fields.Keys
        invariant row == PatchRow(rows[idx], fields - pending)
        decreases |pending|
      {
        var k :| k in pending;
        if k == "title" {
          row := row.(title := fields[k]);
        } else if k == "recipe" {
          row := row.(recipe := Dumps(fields[k]));
        }
        pending := pending - {k};
      }
      assert fields - {} == fields;
      rows := rows[idx := row];
      r := Respond(200, [row]);
    }

    /** `delete_drink`: an unknown id is 404; otherwise the row is removed
        and the response carries the requested id. */
    method DeleteDrink(drinkId: int) returns (r: Reply<int>)
      requires Valid()
      modifies this
      ensures Valid() && nextId == old(nextId)
      ensures IndexOfId(old(rows), drinkId).None? ==> r == Abort(404, None) && rows == old(rows)
      ensures IndexOfId(old(rows), drinkId).Some? ==>
                var idx := IndexOfId(old(rows), drinkId).value;
                r == Respond(200, drinkId) && rows == old(rows)[..idx] + old(rows)[idx + 1..]
      ensures forall k :: 0 <= k < |rows| ==> rows[k].id != drinkId
    {
      var found := IndexOfId(rows, drinkId);
      if found.None? {
        return Abort(404, None);
      }
      var idx := found.value;
      ghost var before := rows;
      rows := rows[..idx] + rows[idx + 1..];
      forall k | 0 <= k < |rows| ensures rows[k] == if k < idx then before[k] else before[k + 1] {
      }
      DeletedIdGone(before, idx, rows);
      r := Respond(200, drinkId);
    }
  }

  /** With unique ids, after a delete no row has the deleted id. */
  lemma DeletedIdGone(rows: seq<DrinkRow>, idx: nat, after: seq<DrinkRow>)
    requires idx < |rows|
    requires forall i, j :: 0 <= i < j < |rows| ==> rows[i].id != rows[j].id
    requires after == rows[..idx] + rows[idx + 1..]
    ensures forall k :: 0 <= k < |after| ==> after[k].id != rows[idx].id
  {
    forall k | 0 <= k < |after| ensures after[k].id != rows[idx].id {
      if k < idx {
        assert after[k] == rows[k];
      } else {
        assert after[k] == rows[k + 1];
      }
    }
  }

  /** An authentication error as its handler receives it. */
  datatype AuthErrorValue = AuthErrorValue(error: Json, statusCode: int)

  datatype JsonResponse = JsonResponse(status: int, body: Json)

  /** `handle_auth_error`: the error's own body under its own status code. */
  function HandleAuthError(ex: AuthErrorValue): (res: JsonResponse)
    ensures res.status == ex.statusCode && res.body == ex.error
  {
    JsonResponse(ex.statusCode, ex.error)
  }
}
