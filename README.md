# Flask course projects: authorization, trivia, Fyyur and drink endpoints

This Dafny project models the request-handling logic of five Flask
applications from a full-stack web development course repository, and
proves properties of it.

- **Capstone authorization** (`CapstoneAuth`, capstone_auth.dfy). This covers:
  - extracting a bearer token from the `Authorization` header;
  - selecting the signing key from the issuer's key set;
  - mapping JWT decoding failures to `AuthError`s;
  - the `requires_auth` decorator, with the request context it writes;
  - the scope check and the `create_user` view that uses it;
  - the error handlers.

  Signature verification and reading of unverified token headers and claims are oracles, given as parameters.
- **Trivia API** (`TriviaApi`, trivia.dfy). This covers:
  - the category map;
  - the `page` argument and its pagination, 10 questions per page;
  - the question list, per-category list, search, delete and create views;
  - quiz question selection.
- **Fyyur** (`Fyyur`, fyyur.dfy). This covers:
  - the venue and artist pages, which split shows into past and upcoming ones relative to the current time and count them;
  - the venues page, grouped by city and state;
  - the two name searches;
  - the `"y"` coercion of the seeking flags in the creation forms;
  - the pattern choice of the `datetime` template filter.
- **Drink endpoints**. The shared creation rules are in `DrinkRules` (drink_rules.dfy). The casting-agency create, update and delete live in `CastingAgencyApi` (casting_agency_api.dfy), on a `DrinkStore` class whose rows change in place. The coffee-shop create and list live in `CoffeeShopApi` (coffee_shop_api.dfy).
- **Shared pieces**:
  - JSON bodies with Python truthiness, and the `Reply` a view produces (`Common`, common.dfy). A `Reply` is a response, an `abort`, or an uncaught exception answered with 500.
  - Python's `str.split()`, `str.strip()`, `int()`, `str()` on integers, and string ordering (`Text`, text.dfy).
  - SQL `ILIKE '%term%'` (`Text`).

Tables are sequences of rows in the database's own order. `ORDER BY id` is `TriviaApi.SortById`. The id the database assigns on insert and the current time are parameters. The Fyyur creation forms also take the outcome of their commit as a parameter; every other insert, update and delete always succeeds.

## Model

| member | source | states |
|---|---|---|
| `Text.Split` | projects/05_capstone/app/main/routes.py:105 | every piece of `str.split()` is non-empty and free of whitespace |
| `Text.SplitEmptyIffAllSpace` | projects/05_capstone/app/main/routes.py:105-107 | splitting yields no piece exactly when the string is all whitespace, where `parts[0]` raises |
| `Text.SplitJoin` | projects/05_capstone/app/main/routes.py:105 | round trip: splitting words joined by single spaces gives the words back |
| `Text.ParseIntOfDecimal` | projects/02_trivia_api/starter/backend/flaskr/__init__.py:75-76 | round trip: `int(str(n)) == n` for every integer |
| `CapstoneAuth.GetTokenAuthHeader` | projects/05_capstone/app/main/routes.py:92-129 | a missing or empty header gives `authorization_header_missing` 401. A whitespace-only header raises. Success happens exactly for two parts with a case-insensitive "bearer" scheme, and returns the second part. On the split header, a non-bearer first part gives "must start with Bearer", a lone bearer scheme "Token not found" and more than two parts "must be Bearer token". Every raised error is a 401 `AuthError`. |
| `CapstoneAuth.ExtractRoundTrip` | projects/05_capstone/app/main/routes.py:105-129 | the scheme in any letter case, one space and a token give the token back verbatim |
| `CapstoneAuth.SchemeCheckedBeforeLength` | projects/05_capstone/app/main/routes.py:107-118 | a lone non-bearer word such as "Basic" gets "must start with Bearer", not "Token not found" |
| `CapstoneAuth.SchemeAloneHasNoToken` | projects/05_capstone/app/main/routes.py:115-118 | the bearer scheme alone gives "Token not found" |
| `CapstoneAuth.ExtraPartsRejected` | projects/05_capstone/app/main/routes.py:119-126 | the bearer scheme followed by two or more words (three or more parts) gives "must be Bearer token" |
| `CapstoneAuth.ChooseKey` | projects/05_capstone/app/main/routes.py:142-151 | the lookup raises exactly when some key lacks a kid, the token header lacks one while there is any key, or a key with the header's kid lacks an RSA member. Otherwise no key is found exactly when no key has the kid, and a found key is the projection of the last one that has it. |
| `CapstoneAuth.SelectKey` | projects/05_capstone/app/main/routes.py:142-151 | the reassigning loop, which stops at the first lookup that raises, ends with ChooseKey's outcome |
| `CapstoneAuth.MapDecodeOutcome` | projects/05_capstone/app/main/routes.py:153-186 | the payload passes through on success. Expired, bad claims and any other failure become the three 401 errors, by code. |
| `CapstoneAuth.Authenticate` | projects/05_capstone/app/main/routes.py:137-196 | header errors propagate unchanged and every raised error is a 401 `AuthError`. With a valid header: an unreadable token header or a key set without "keys" raises, and so does a raising key lookup. No matching key is "Unable to find appropriate key", and a matching key gives exactly the decoder's mapped outcome. |
| `CapstoneAuth.UnknownKidRejected` | projects/05_capstone/app/main/routes.py:190-196 | a kid no key carries gives "Unable to find appropriate key", whatever the decoder says |
| `CapstoneAuth.EmptyKeySetRejected` | projects/05_capstone/app/main/routes.py:142-143 | an empty key set gives "Unable to find appropriate key", even for a token header without a kid |
| `CapstoneAuth.AuthenticatedPayload` | projects/05_capstone/app/main/routes.py:152-160 | success means the decoder accepted the token. It used the selected key, RS256, the audience and the issuer, and the payload is the decoder's. |
| `CapstoneAuth.Decorated` | projects/05_capstone/app/main/routes.py:136-198 | the view runs once, only on success, and its result is returned unchanged. The payload is stored as the current user. The key set is fetched once per call that passes the header check. |
| `CapstoneAuth.AnyEquals` | projects/05_capstone/app/main/routes.py:210-212 | the early-return search finds the scope exactly when it is one of the entries |
| `CapstoneAuth.ScopeGrantedIff` | projects/05_capstone/app/main/routes.py:208-213 | granted exactly when the scope claim exists and the required scope is one of its whitespace-split entries |
| `CapstoneAuth.ScopeEntriesGranted` | projects/05_capstone/app/main/routes.py:208-213 | the granted scopes of a space-joined claim are exactly its entries, with no prefix matches |
| `CapstoneAuth.ExampleScopeSplit` | projects/05_capstone/app/main/routes.py:209 | "read:movies create:actor" splits into its two scopes |
| `CapstoneAuth.ScopeExampleGrants` | projects/05_capstone/app/main/routes.py:208-212 | that claim grants both of its scopes |
| `CapstoneAuth.ScopeExampleDenies` | projects/05_capstone/app/main/routes.py:208-213 | that claim denies every other scope |
| `CapstoneAuth.RequiresScope` | projects/05_capstone/app/main/routes.py:201-213 | header errors propagate, and unreadable claims raise. A missing or falsy scope claim gives false, and a truthy scope that is not a string raises. The result is true exactly when the scope claim is a string whose split entries include the required scope. |
| `CapstoneAuth.CreateUser` | projects/05_capstone/app/main/routes.py:39-86 | 201 exactly when the scope is granted, the body is an object and all four fields are truthy; the new user holds the four values. A denied scope is 403 Unauthorized. With the scope, a missing or null body is the 422 GenericError, a body that is not an object raises, and an object missing a field is the 422 GenericError. |
| `CapstoneAuth.HandleError` | projects/05_capstone/app/main/routes.py:230-241 | the response carries the error's own status, code and description |
| `TriviaApi.CategoryMap` | projects/02_trivia_api/starter/backend/flaskr/__init__.py:58-60 | the map's keys are exactly the category ids |
| `TriviaApi.CategoryMapEntries` | projects/02_trivia_api/starter/backend/flaskr/__init__.py:49-60 | with unique ids, one entry `id -> type` per category |
| `TriviaApi.FirstByType` | projects/02_trivia_api/starter/backend/flaskr/__init__.py:95-97 | absent exactly when there is no category. Otherwise it is a category with the least type. |
| `TriviaApi.SortById` | projects/02_trivia_api/starter/backend/flaskr/__init__.py:84 | ascending by id and a permutation of the table |
| `TriviaApi.ParsePage` | projects/02_trivia_api/starter/backend/flaskr/__init__.py:69-78 | a missing or empty page argument is page 1 |
| `TriviaApi.Paginate` | projects/02_trivia_api/starter/backend/flaskr/__init__.py:84-86 | 404 exactly for a page below 1, or an empty page other than the first. A page holds at most 10 rows: the page-th slice. The total is the row count. |
| `TriviaApi.GetQuestions` | projects/02_trivia_api/starter/backend/flaskr/__init__.py:62-110 | the questions are exactly the requested page of the id-sorted table, the total is the full question count, and the current category is the one with the least type. It answers exactly when the page parses, the page exists and there is a category. Every failure is 404. |
| `TriviaApi.DefaultPageIsFirst` | projects/02_trivia_api/starter/backend/flaskr/__init__.py:69-78 | no page, an empty page and "1" answer alike |
| `TriviaApi.FirstPageHoldsFirstTen` | projects/02_trivia_api/starter/backend/flaskr/__init__.py:69-78 | the default page holds the first 10 questions in id order, or all when fewer |
| `TriviaApi.PageBeyondEndIs404` | projects/02_trivia_api/starter/backend/flaskr/__init__.py:84-110 | a page below 1, or past the last question, is 404 |
| `TriviaApi.InCategory` | projects/02_trivia_api/starter/backend/flaskr/__init__.py:161-163 | exactly the questions of the category |
| `TriviaApi.GetQuestionsByCategory` | projects/02_trivia_api/starter/backend/flaskr/__init__.py:136-178 | a page that is not an integer raises and an unknown category is 404. It answers exactly when the page parses, the category exists and the page exists, and the questions are then that page of the category's questions. The total is the page length. |
| `TriviaApi.ByCategoryTotalUndercounts` | projects/02_trivia_api/starter/backend/flaskr/__init__.py:171 | a category of more than 10 questions reports 10 on its first page |
| `TriviaApi.GetQuestionsByCategoryIntended` | projects/02_trivia_api/starter/backend/test_flaskr.py:105-117 | answers exactly when the as-written view does, with the same page of the category's questions; the total is the number of questions in the category |
| `TriviaApi.IntendedTotalCountsCategory` | projects/02_trivia_api/starter/backend/flaskr/__init__.py:161-175 | the corrected view succeeds and pages exactly as written, with the category's full count as total |
| `TriviaApi.SearchQuestions` | projects/02_trivia_api/starter/backend/flaskr/__init__.py:112-134 | no body is 422. Otherwise the result is exactly the questions whose text contains the term, ignoring case; a missing term searches for "None". |
| `TriviaApi.DeleteQuestion` | projects/02_trivia_api/starter/backend/flaskr/__init__.py:180-195 | 404 exactly when no question has the id, and then the table is unchanged. When the id exists the answer is 204, and only that question is removed. |
| `TriviaApi.CreateQuestion` | projects/02_trivia_api/starter/backend/flaskr/__init__.py:197-219 | no body is 422. Any body gives 201 with the new id and the four fields read from the body. |
| `TriviaApi.QuizCandidates` | projects/02_trivia_api/starter/backend/flaskr/__init__.py:249-258 | a null category means all questions, and an object without "id" raises. Otherwise the candidates are exactly the category's questions, in id order. |
| `TriviaApi.FirstUnseen` | projects/02_trivia_api/starter/backend/flaskr/__init__.py:264-266 | the first candidate not asked before, or none exactly when every candidate was asked |
| `TriviaApi.FirstWithId` | projects/02_trivia_api/starter/backend/flaskr/__init__.py:274-278 | a category with the id, or none exactly when there is none |
| `TriviaApi.PlayQuiz` | projects/02_trivia_api/starter/backend/flaskr/__init__.py:221-281 | question and category are both empty or both present, and the category is the question's own. A category object without an id raises. With an empty history the first candidate is chosen; otherwise the first candidate not asked before. With a history, the answer is empty exactly when every candidate was asked. It raises exactly when the history is empty and there is no candidate, or the chosen question's category is unknown; otherwise it answers 200 with the chosen question and its category. |
| `TriviaApi.QuizNeverRepeats` | projects/02_trivia_api/starter/backend/flaskr/__init__.py:263-266 | with a history, the chosen question is a stored question not asked before, and every candidate ahead of it was asked |
| `TriviaApi.QuizRespectsCategory` | projects/02_trivia_api/starter/backend/flaskr/__init__.py:253-271 | the question is of the requested category, and the quiz ends once all of it was asked |
| `TriviaApi.QuizStartsWithFirstCandidate` | projects/02_trivia_api/starter/backend/flaskr/__init__.py:261-262 | with an empty history the first candidate is chosen |
| `Fyyur.Upcoming` | projects/01_fyyur/app.py:121-133 | exactly the shows strictly after now |
| `Fyyur.Past` | projects/01_fyyur/app.py:134-143 | exactly the shows strictly before now |
| `Fyyur.PartitionCounts` | projects/01_fyyur/app.py:121-143 | past, upcoming and at-now shows add up to all shows, so shows at exactly now are dropped |
| `Fyyur.ShowsOfVenue` | projects/01_fyyur/app.py:121 | exactly the venue's shows |
| `Fyyur.ArtistSlots` | projects/01_fyyur/app.py:127-142 | one entry per show, in order, with the show's artist id, time and the artist's name |
| `Fyyur.VenueLoopCompletes` | projects/01_fyyur/app.py:121-143 | the venue-page loop runs to its end exactly when every artist of a show not at the current time is known |
| `Fyyur.VenueLoopLists` | projects/01_fyyur/app.py:121-143 | when it does, it holds the entries of the past shows and of the upcoming shows, in order |
| `Fyyur.PartitionVenueShows` | projects/01_fyyur/app.py:121-143 | the loop builds exactly the upcoming and past entries, with counters equal to their lengths. It stops where an artist lookup fails. |
| `Fyyur.ShowVenue` | projects/01_fyyur/app.py:106-162 | an unknown venue, or an unknown artist of a past or upcoming show, raises. Otherwise the page holds the partition and its counts. |
| `Fyyur.ShowsOfArtist` | projects/01_fyyur/app.py:313 | exactly the artist's shows |
| `Fyyur.VenueSlots` | projects/01_fyyur/app.py:318-325 | one entry per show, in order, with the show's venue id and time |
| `Fyyur.PastVenueSlotsAsWritten` | projects/01_fyyur/app.py:326-335 | one entry per show, whose `venue_id` is the show's artist id |
| `Fyyur.ArtistLoopCompletes` | projects/01_fyyur/app.py:313-335 | the artist-page loop runs to its end exactly when every venue of a show not at the current time is known |
| `Fyyur.ArtistLoopLists` | projects/01_fyyur/app.py:313-335 | when it does, it holds the as-written past entries and the upcoming entries, in order |
| `Fyyur.PartitionArtistShows` | projects/01_fyyur/app.py:313-335 | the artist-page loop builds exactly the upcoming entries and the as-written past entries, with counters equal to their lengths |
| `Fyyur.ShowArtist` | projects/01_fyyur/app.py:298-355 | an unknown artist, or an unknown venue of a past or upcoming show, raises. Otherwise the page holds the partition and its counts. |
| `Fyyur.PastEntryNamesWrongVenue` | projects/01_fyyur/app.py:330 | a past show of artist 2 at venue 1 is listed under venue id 2, which does not exist, with venue 1's name |
| `Fyyur.VenueSlotsNameTheirVenue` | projects/01_fyyur/app.py:320-323 | each intended entry's id, name and image belong to one and the same venue |
| `Fyyur.PastEntriesDifferOnlyInVenueId` | projects/01_fyyur/app.py:328-334 | as-written past entries differ from intended ones only in `venue_id` |
| `Fyyur.SortByKey` | projects/01_fyyur/app.py:67-68 | sorted by (city, state) and a permutation of the venues |
| `Fyyur.GroupByKey` | projects/01_fyyur/app.py:69-74 | no area is empty, and every venue in an area has the area's city and state |
| `Fyyur.FlattenGroup` | projects/01_fyyur/app.py:69-74 | the areas together hold the venues, in order |
| `Fyyur.GroupSortedAscending` | projects/01_fyyur/app.py:67-74 | grouping a sorted list gives strictly ascending keys |
| `Fyyur.VenueAreasWellFormed` | projects/01_fyyur/app.py:61-76 | the keys are strictly ascending and pairwise distinct, and no area is empty. Each venue sits under its own city and state, and every venue appears exactly once. |
| `Fyyur.SearchByName` | projects/01_fyyur/app.py:88-97 | count equals the number of results, which are exactly the rows whose name contains the term, ignoring case |
| `Fyyur.SearchVenues` | projects/01_fyyur/app.py:79-103 | count equals the number of entries. Every matching venue is listed, and every entry is a matching venue's id and name. |
| `Fyyur.SearchArtists` | projects/01_fyyur/app.py:271-295 | as for venues, over artists |
| `Fyyur.EmptyTermMatchesAll` | projects/01_fyyur/app.py:274-276 | without a search term every name matches |
| `Fyyur.SeekingFlag` | projects/01_fyyur/app.py:193-196 | true exactly for the form value "y" |
| `Fyyur.CreateVenueSubmission` | projects/01_fyyur/app.py:175-211 | 400 exactly when a form key is missing or the commit fails. Otherwise the venue is stored under the new id with each of the eleven form values in its own column, and `seeking_talent` is true iff "y". |
| `Fyyur.CreateArtistSubmission` | projects/01_fyyur/app.py:477-513 | 400 exactly when a form key is missing or the commit fails. Otherwise the artist is stored under the new id with each of the ten form values in its own column, and `seeking_venue` is true iff "y". |
| `Fyyur.FormatPattern` | projects/01_fyyur/app.py:36-42 | "full" and "medium" give their fixed patterns, and any other format passes through |
| `Fyyur.FormatPatternDefaultIsMedium` | projects/01_fyyur/app.py:36-41 | without a format the medium pattern is used |
| `DrinkRules.ValidateNewDrink` | projects/05_casting_agency_api/api.py:85-96 | a body that is not an object, or a recipe that is not one, raises. A falsy title or recipe is 400 "missing". Otherwise a recipe of other than three entries is 400 with the size message, and success is exactly the remaining case. |
| `DrinkRules.AcceptedDrinkIsComplete` | projects/05_casting_agency_api/api.py:88-96 | a missing recipe raises and a missing title is 400. An accepted drink has a truthy title and three recipe entries. |
| `DrinkRules.IndexOfId` | projects/05_casting_agency_api/api.py:123 | the first row with the id, or none exactly when no row has it |
| `CastingAgencyApi.RecipeItemsCheck` | projects/05_casting_agency_api/api.py:127-131 | a recipe list is checked item by item as `ItemsCheck` does. Iterating a recipe object or string passes only when it is empty, and other scalars raise. |
| `CastingAgencyApi.ItemsCheck` | projects/05_casting_agency_api/api.py:128-131 | passes exactly when every item is an object with color, name and parts, one of them truthy. It fails exactly at a first empty item reached before any item that raises. |
| `CastingAgencyApi.CheckPatch` | projects/05_casting_agency_api/api.py:125-133 | neither title nor recipe truthy is 400. Without a recipe key the body is accepted exactly when the title is truthy. Otherwise the body is rejected exactly when an item is empty, and raises exactly when the item check raises. A body that is not an object raises. |
| `CastingAgencyApi.PatchRow` | projects/05_casting_agency_api/api.py:138-142 | the id is kept. The title is replaced only by a "title" entry, and the recipe only by a serialised "recipe" entry. |
| `CastingAgencyApi.PatchIgnoresOtherKeys` | projects/05_casting_agency_api/api.py:138-142 | other body keys change nothing, and patching twice is patching once |
| `CastingAgencyApi.DrinkStore.CreateDrink` | projects/05_casting_agency_api/api.py:81-103 | keeps ids unique. An accepted body appends one row under a fresh id, and the response lists exactly that row. Otherwise the table is unchanged. |
| `CastingAgencyApi.DrinkStore.UpdateDrink` | projects/05_casting_agency_api/api.py:117-146 | an unknown id is 404 before the body is checked. A rejected body is 400 and leaves the table unchanged. An accepted body patches only that row, and the response lists it. |
| `CastingAgencyApi.DrinkStore.DeleteDrink` | projects/05_casting_agency_api/api.py:161-171 | an unknown id is 404. Otherwise that row alone is removed, the rest keep their order, no remaining row has the id, and the response carries the id. |
| `CastingAgencyApi.DeletedIdGone` | projects/05_casting_agency_api/api.py:165-167 | after a delete no row has the deleted id |
| `CastingAgencyApi.HandleAuthError` | projects/05_casting_agency_api/api.py:229-234 | the response carries the error's own status and body |
| `CoffeeShopApi.CreateDrink` | projects/03_coffee_shop_full_stack/starter_code/backend/src/api.py:90-112 | the checks as for the casting agency, with the size message "Required fields are mission". An accepted body appends one row, and the response lists exactly it. Otherwise the table is unchanged. |
| `CoffeeShopApi.GetDrinks` | projects/03_coffee_shop_full_stack/starter_code/backend/src/api.py:51-61 | one short representation per stored drink, in the same order |
| `CoffeeShopApi.CreatedDrinkListed` | projects/03_coffee_shop_full_stack/starter_code/backend/src/api.py:53-112 | a created drink is listed last by the next list. A rejected one leaves the list unchanged. |
| `CoffeeShopApi.TwoEntryRecipeRefused` | projects/03_coffee_shop_full_stack/starter_code/backend/src/api.py:104-105 | a titled drink with a two-entry recipe is refused with the size message |

## Left out

- Network, crypto and database I/O are not modelled:
  - The key-set fetch (`urlopen`) is a parameter.
  - `jwt.decode`, `get_unverified_header` and `get_unverified_claims` are oracles.
  - Queries are sequence operations.
  - Only the Fyyur creation forms model a failing commit, as a boolean parameter. The trivia `insert()`/`delete()`, the capstone `new_user.insert()` and the drink inserts, updates and deletes always succeed.
  - Inserts take the new id as a parameter.
- The Flask wiring is not modelled: `create_app`, CORS headers, blueprints, handler registration, `render_template`, `flash`, `redirect`, and the 404/422 JSON error handlers of the trivia API.
- The `requires_auth` decorators of the two drink APIs are not modelled, because their auth module is not part of this model. The capstone decorator is modelled.
- The names routes.py uses without defining them (`User`, `urlopen`, `json`, `_request_ctx_stack`, `app`) are treated abstractly: the NameErrors they would raise are not reproduced. `User.query` (`get_users`) is not modelled.
- The casting-agency api.py imports only `Movie` and `Actor` but uses `Drink` (lines 66, 99, 123, 165). `Drink` is treated abstractly as the drinks table: the NameError that would end `create_drink` after its checks, and `update_drink` and `delete_drink` before their 404 check, is not reproduced.
- Drinks are not fully modelled:
  - The `Drink` model (`short()`, `long()`) is not part of this model. `short` is a parameter and responses list rows.
  - `json.dumps` is a marker (`Dumps`) around the recipe value, not its text.
  - The coffee-shop `/drinks-detail`, update and delete endpoints are not part of this model; the casting-agency update and delete are.
- Dates and times are simplified:
  - Dates are integers and `datetime.now()` is a parameter.
  - A null `start_time` is not modelled.
  - `isoformat` text is the integer itself.
  - `dateutil` parsing and babel formatting are left out; `FormatPattern` keeps only the pattern choice.
- JSON values are simplified:
  - JSON numbers are integers; floats are not modelled.
  - A trivia search term, quiz category or history that is not a string, object/null or list of ints is not modelled. The same holds for a trivia body that is not an object. A capstone key that is not a string-to-string object is not modelled.
  - Question and category ids compare as integers. The code's `str(...)` conversions in `filter_by` are not modelled.
- `Text.LowerChar`: lower-cases ASCII letters only. The one branch that depends on lower-casing compares with "bearer", and no non-ASCII character lower-cases to any of its letters, so that branch is exact. In `ILikeContains` the database decides case-insensitivity, and non-ASCII case folding is not modelled there.
- `Text.ILikeContains`: `%` and `_` inside the search term are matched literally, not as LIKE wildcards.
- `Text.ParseInt`: accepts ASCII digits only, not the other Unicode decimal digits that `int()` accepts.
- `TriviaApi.FirstByType`: orders strings by code point, not by database collation. It does not fix which of two categories with equal types comes first.
- `Fyyur.SortByKey`: its stability (Python's `sorted` keeps equal keys in input order) is not proved.
- `TriviaApi.GetQuestionsByCategory`: `paginate` without `order_by` returns rows in the database's order, taken here as table order.
- Fyyur forms are simplified:
  - A form field is its first value.
  - Multi-valued `genres` and WTForms validation are not modelled.
  - `edit_*`, `delete_*`, the list pages and the shows pages are not part of this model: they are direct ORM calls and template rendering.
- Nullable Fyyur columns (`phone`, `image_link`, …) are plain strings.

## Findings

| source | as written | input that shows it | evidently intended | confidence | as-written member | corrected member |
|---|---|---|---|---|---|---|
| projects/01_fyyur/app.py:330 | past entries on an artist page take `venue_id` from `show.artist_id` | artist 2, one past show at venue 1: the entry says venue 2 under venue 1's name (`Fyyur.PastEntryNamesWrongVenue`) | `show.venue_id`, as the upcoming entries use (`Fyyur.VenueSlotsNameTheirVenue`) | high; not executed | `Fyyur.PastVenueSlotsAsWritten` | `Fyyur.VenueSlots` |
| projects/02_trivia_api/starter/backend/flaskr/__init__.py:171 | `total_questions` of the per-category list is the length of the page | a category with 11 questions, no page argument: total 10 (`TriviaApi.ByCategoryTotalUndercounts`) | the number of questions in the category, as test_flaskr.py:115 expects (`TriviaApi.IntendedTotalCountsCategory`) | high; not executed | `TriviaApi.GetQuestionsByCategory` | `TriviaApi.GetQuestionsByCategoryIntended` |
