/**
  The trivia API (flaskr/__init__.py): category map, page-argument parsing
  and pagination of questions, search, delete and create rules, and the
  choice of the next quiz question. Tables are sequences of rows in the
  database's own order; `order_by(Question.id)` is SortById.
*/
module TriviaApi {
  import opened Common
  import opened Text

  const QuestionsPerPage: nat := 10

  datatype Question = Question(id: int, question: string, answer: string, category: int, difficulty: int)

  /** A category row; `kind` is the `type` column. */
  datatype Category = Category(id: int, kind: string)

  // ---------------------------------------------------------------- categories

  /** `{cat.id: cat.type for cat in categories}`: a later row overrides an
      earlier one with the same id. */
  function CategoryMap(cats: seq<Category>): (m: map<int, string>)
    ensures m.Keys == set c | c in cats :: c.id
  {
    if cats == [] then map[]
    else
      var last := cats[|cats| - 1];
      var init := cats[..|cats| - 1];
      assert cats == init + [last];
      CategoryMap(init)[last.id := last.kind]
  }

  predicate UniqueCategoryIds(cats: seq<Category>) {
    forall i, j :: 0 <= i < j < |cats| ==> cats[i].id != cats[j].id
  }

  /** With unique ids (the primary key) the map has one entry `id -> type`
      per category. */
  lemma {:induction false} CategoryMapEntries(cats: seq<Category>)
    requires UniqueCategoryIds(cats)
    ensures |CategoryMap(cats)| == |cats|
    ensures forall c :: c in cats ==> CategoryMap(cats)[c.id] == c.kind
  {
    if cats != [] {
      var last := cats[|cats| - 1];
      var init := cats[..|cats| - 1];
      assert cats == init + [last];
      LastIdIsNew(cats);
      CategoryMapEntries(init);
      assert last.id !in CategoryMap(init);
      forall c | c in cats ensures CategoryMap(cats)[c.id] == c.kind {
        if c != last {
          assert c in init;
        }
      }
    }
  }

  /** Dropping the last category keeps the ids unique, and no earlier
      category shares the last one's id. */
  lemma LastIdIsNew(cats: seq<Category>)
    requires cats != [] && UniqueCategoryIds(cats)
    ensures UniqueCategoryIds(cats[..|cats| - 1])
    ensures forall c :: c in cats[..|cats| - 1] ==> c.id != cats[|cats| - 1].id
  {
    var init := cats[..|cats| - 1];
    forall c | c in init ensures c.id != cats[|cats| - 1].id {
      var i :| 0 <= i < |init| && init[i] == c;
      assert cats[i] == c;
    }
  }

  /** `Category.query.order_by(Category.type.asc()).first()`: a category
      whose type is least; among equal types the earliest row. */
  function FirstByType(cats: seq<Category>): (r: Option<Category>)
    ensures r.None? <==> cats == []
    ensures r.Some? ==> r.value in cats && forall c :: c in cats ==> !StrLess(c.kind, r.value.kind)
  {
    if cats == [] then None
    else
      var rest := FirstByType(cats[1..]);
      assert forall c :: c in cats ==> c == cats[0] || c in cats[1..];
      if rest.Some? && StrLess(rest.value.kind, cats[0].kind) then
        assert !StrLess(cats[0].kind, rest.value.kind) by {
          if StrLess(cats[0].kind, rest.value.kind) {
            StrLessTransitive(cats[0].kind, rest.value.kind, cats[0].kind);
            StrLessIrreflexive(cats[0].kind);
          }
        }
        rest
      else
        assert forall c :: c in cats[1..] ==> !StrLess(c.kind, cats[0].kind) by {
          forall c | c in cats[1..] ensures !StrLess(c.kind, cats[0].kind) {
            if StrLess(c.kind, cats[0].kind) {
              var k := rest.value.kind;
              if k != cats[0].kind {
                StrLessTotal(k, cats[0].kind);
                StrLessTransitive(c.kind, cats[0].kind, k);
              }
            }
          }
        }
        StrLessIrreflexive(cats[0].kind);
        Some(cats[0])
  }

  // ---------------------------------------------------------------- ordering by id

  predicate SortedById(s: seq<Question>) {
    forall i, j :: 0 <= i < j < |s| ==> s[i].id <= s[j].id
  }

  function InsertById(q: Question, s: seq<Question>): (r: seq<Question>)
    requires SortedById(s)
    ensures SortedById(r)
    ensures multiset(r) == multiset(s) + multiset{q}
  {
    if s == [] || q.id <= s[0].id then [q] + s
    else
      var rest := InsertById(q, s[1..]);
      assert s == [s[0]] + s[1..];
      SortedHeadLeast(s);
      forall x | x in rest ensures s[0].id <= x.id {
        assert x in multiset(rest);
        assert x == q || x in multiset(s[1..]);
      }
      PrependSorted(s[0], rest);
      [s[0]] + rest
  }

  lemma SortedHeadLeast(s: seq<Question>)
    requires s != [] && SortedById(s)
    ensures forall x :: x in s ==> s[0].id <= x.id
  {
    forall x | x in s ensures s[0].id <= x.id {
      var k :| 0 <= k < |s| && s[k] == x;
      if k > 0 {
        assert s[0].id <= s[k].id;
      }
    }
  }

  lemma PrependSorted(h: Question, rest: seq<Question>)
    requires SortedById(rest)
    requires forall x :: x in rest ==> h.id <= x.id
    ensures SortedById([h] + rest)
  {
    var r := [h] + rest;
    forall i, j | 0 <= i < j < |r| ensures r[i].id <= r[j].id {
      assert r[j] == rest[j - 1];
      if i > 0 {
        assert r[i] == rest[i - 1];
      } else {
        assert rest[j - 1] in rest;
      }
    }
  }

  /** `order_by(Question.id)`: the same rows, ascending by id. */
  function SortById(s: seq<Question>): (r: seq<Question>)
    ensures SortedById(r)
    ensures multiset(r) == multiset(s)
    ensures |r| == |s|
  {
    if s == [] then []
    else
      assert s == [s[0]] + s[1..];
      InsertById(s[0], SortById(s[1..]))
  }

  // ---------------------------------------------------------------- pages

  /** The `page` query argument: missing or empty means page 1, otherwise
      `int(page)`; None where `int` raises ValueError. */
  function ParsePage(page: Option<string>): (r: Option<int>)
    ensures (page.None? || page.value == "") ==> r == Some(1)
  {
    if page.None? || page.value == "" then Some(1) else ParseInt(page.value)
  }

  /** A page: its rows and the total number of rows of the query. */
  datatype PageOf<T> = PageOf(items: seq<T>, total: nat)

  /** `paginate(page, QUESTIONS_PER_PAGE, error_out=True)`: the page-th slice
      of 10 rows; None where the pagination aborts with 404, i.e. a page
      below 1, or an empty page other than the first. */
  function Paginate<T>(rows: seq<T>, page: int): (r: Option<PageOf<T>>)
    ensures r.None? <==> page < 1 || (page > 1 && (page - 1) * QuestionsPerPage >= |rows|)
    ensures r.Some? ==>
              var start := (page - 1) * QuestionsPerPage;
              && r.value.total == |rows|
              && |r.value.items| <= QuestionsPerPage
              && (start < |rows| ==> |r.value.items| == if start + QuestionsPerPage <= |rows| then QuestionsPerPage
                                                         else |rows| - start)
              && forall k :: 0 <= k < |r.value.items| ==> start + k < |rows| && r.value.items[k] == rows[start + k]
  {
    if page < 1 then None
    else
      var start := (page - 1) * QuestionsPerPage;
      var items := if start >= |rows| then []
                   else rows[start .. if start + QuestionsPerPage <= |rows| then start + QuestionsPerPage else |rows|];
      if items == [] && page != 1 then None else Some(PageOf(items, |rows|))
  }

  // ---------------------------------------------------------------- GET /api/questions

  datatype QuestionsResponse = QuestionsResponse(questions: seq<Question>, totalQuestions: nat,
                                                 categories: map<int, string>, currentCategory: int)

  /** `get_questions`: every failure inside its `try` (a page that is not an
      integer, a page out of range, no category at all) becomes 404. */
  function GetQuestions(page: Option<string>, table: seq<Question>, cats: seq<Category>): (r: Reply<QuestionsResponse>)
    ensures r.Respond? ==> r.value.totalQuestions == |table| && |r.value.questions| <= QuestionsPerPage
    ensures r.Respond? ==> r.value.categories == CategoryMap(cats)
    ensures r.Respond? ==> exists c :: c in cats && c.id == r.value.currentCategory
    ensures !r.Respond? ==> r == Abort(404, None)
    ensures cats == [] ==> r == Abort(404, None)
    ensures ParsePage(page).None? ==> r == Abort(404, None)
    ensures r.Respond? ==> && ParsePage(page).Some?
                           && Paginate(SortById(table), ParsePage(page).value).Some?
                           && r.value.questions == Paginate(SortById(table), ParsePage(page).value).value.items
                           && FirstByType(cats).Some? && r.value.currentCategory == FirstByType(cats).value.id
    ensures ParsePage(page).Some? && Paginate(SortById(table), ParsePage(page).value).Some? && cats != [] ==>
              r.Respond?
  {
    match ParsePage(page)
    case None => Abort(404, None)
    case Some(n) =>
      match Paginate(SortById(table), n)
      case None => Abort(404, None)
      case Some(pg) =>
        match FirstByType(cats)
        case None => Abort(404, None)
        case Some(cur) => Respond(200, QuestionsResponse(pg.items, pg.total, CategoryMap(cats), cur.id))
  }

  /** A missing page argument, an empty one and "1" give the same answer. */
  lemma DefaultPageIsFirst(table: seq<Question>, cats: seq<Category>)
    ensures GetQuestions(None, table, cats) == GetQuestions(Some(""), table, cats)
    ensures GetQuestions(None, table, cats) == GetQuestions(Some("1"), table, cats)
  {
    ParseIntOfDecimal(1);
    assert IntToDecimal(1) == "1";
    assert ParsePage(Some("1")) == Some(1) == ParsePage(None) == ParsePage(Some(""));
  }

  /** The first page holds the first ten questions in id order, or all of
      them when there are fewer. */
  lemma FirstPageHoldsFirstTen(table: seq<Question>, cats: seq<Category>)
    ensures var r := GetQuestions(None, table, cats);
            r.Respond? ==> r.value.questions == SortById(table)[..if |table| < 10 then |table| else 10]
  {
    var s := SortById(table);
    var n := if |s| < 10 then |s| else 10;
    var items := if 0 >= |s| then [] else s[0..n];
    assert Paginate(s, 1) == Some(PageOf(items, |s|));
    assert items == s[..n];
  }

  lemma PageBeyondEndIs404(p: int, table: seq<Question>, cats: seq<Category>)
    requires p < 1 || (p > 1 && (p - 1) * QuestionsPerPage >= |table|)
    ensures GetQuestions(Some(IntToDecimal(p)), table, cats) == Abort(404, None)
  {
    ParseIntOfDecimal(p);
    assert IntToDecimal(p) != "";
  }

  // ---------------------------------------------------------------- GET /api/categories/<id>/questions

  function InCategory(table: seq<Question>, category: int): (r: seq<Question>)
    ensures forall q :: q in r <==> q in table && q.category == category
  {
    Filter(table, (q: Question) => q.category == category)
  }

  /** `get_questions_by_category` as written. The page argument is parsed
      outside any `try` (ValueError is a 500); an unknown category is 404;
      `total_questions` is the length of the page, not of the category. */
  function GetQuestionsByCategory(page: Option<string>, categoryId: int, table: seq<Question>,
                                  cats: seq<Category>): (r: Reply<QuestionsResponse>)
    ensures ParsePage(page).None? ==> r.Crash?
    ensures ParsePage(page).Some? && (forall c :: c in cats ==> c.id != categoryId) ==> r == Abort(404, None)
    ensures r.Respond? ==> r.value.totalQuestions == |r.value.questions| <= QuestionsPerPage
    ensures r.Respond? ==> r.value.currentCategory == categoryId
                           && forall q :: q in r.value.questions ==> q in table && q.category == categoryId
    ensures r.Respond? <==> && ParsePage(page).Some?
                            && (exists c :: c in cats && c.id == categoryId)
                            && Paginate(InCategory(table, categoryId), ParsePage(page).value).Some?
    ensures r.Respond? ==>
              r.value.questions == Paginate(InCategory(table, categoryId), ParsePage(page).value).value.items
  {
    match ParsePage(page)
    case None => Crash
    case Some(n) =>
      if forall c :: c in cats ==> c.id != categoryId then Abort(404, None)
      else
        var rows := InCategory(table, categoryId);
        match Paginate(rows, n)
        case None => Abort(404, None)
        case Some(pg) =>
          assert forall q :: q in pg.items ==> q in rows;
          Respond(200, QuestionsResponse(pg.items, |pg.items|, CategoryMap(cats), categoryId))
  }

  /** A category with more than 10 questions reports 10 on its first page,
      fewer than it holds. */
  lemma ByCategoryTotalUndercounts(table: seq<Question>, categoryId: int, cats: seq<Category>)
    requires exists c :: c in cats && c.id == categoryId
    requires |InCategory(table, categoryId)| > QuestionsPerPage
    ensures var r := GetQuestionsByCategory(None, categoryId, table, cats);
            r.Respond? && r.value.totalQuestions == QuestionsPerPage < |InCategory(table, categoryId)|
  {
  }

  /** `get_questions_by_category` with the total the tests expect: the
      number of questions in the category. */
  function GetQuestionsByCategoryIntended(page: Option<string>, categoryId: int, table: seq<Question>,
                                          cats: seq<Category>): (r: Reply<QuestionsResponse>)
    ensures r.Respond? ==> r.value.totalQuestions == |InCategory(table, categoryId)|
    ensures r.Respond? ==> |r.value.questions| <= QuestionsPerPage
    ensures r.Respond? <==> && ParsePage(page).Some?
                            && (exists c :: c in cats && c.id == categoryId)
                            && Paginate(InCategory(table, categoryId), ParsePage(page).value).Some?
    ensures r.Respond? ==>
              r.value.questions == Paginate(InCategory(table, categoryId), ParsePage(page).value).value.items
  {
    match ParsePage(page)
    case None => Crash
    case Some(n) =>
      if forall c :: c in cats ==> c.id != categoryId then Abort(404, None)
      else
        match Paginate(InCategory(table, categoryId), n)
        case None => Abort(404, None)
        case Some(pg) => Respond(200, QuestionsResponse(pg.items, pg.total, CategoryMap(cats), categoryId))
  }

  /** The corrected total counts every question of the category whatever
      the page, and the pages are those of the code as written. */
  lemma IntendedTotalCountsCategory(page: Option<string>, categoryId: int, table: seq<Question>, cats: seq<Category>)
    ensures var r := GetQuestionsByCategoryIntended(page, categoryId, table, cats);
            var w := GetQuestionsByCategory(page, categoryId, table, cats);
            && r.Respond? == w.Respond?
            && (r.Respond? ==> r.value.questions == w.value.questions
                               && r.value.totalQuestions == |InCategory(table, categoryId)|)
  {
  }

  // ---------------------------------------------------------------- POST /api/questions (search)

  /** A request body; `searchTerm` is None when the key is missing or null. */
  datatype SearchRequest = SearchRequest(searchTerm: Option<string>)

  /** The text interpolated into `f"%{query_term}%"`: None prints as "None". */
  function SearchText(req: SearchRequest): string {
    match req.searchTerm
    case None => "None"
    case Some(t) => t
  }

  /** `get_questions_by_query`: no body is 422; otherwise exactly the
      questions whose text contains the term, ignoring case, in table order. */
  function SearchQuestions(body: Option<SearchRequest>, table: seq<Question>): (r: Reply<seq<Question>>)
    ensures body.None? <==> r == Abort(422, None)
    ensures body.Some? ==> r.Respond? && r.status == 200
    ensures r.Respond? ==> forall q :: q in r.value <==> q in table && ILikeContains(q.question, SearchText(body.value))
  {
    if body.None? then Abort(422, None)
    else Respond(200, Filter(table, (q: Question) => ILikeContains(q.question, SearchText(body.value))))
  }

  // ---------------------------------------------------------------- DELETE and create

  /** `delete_question`: 204 and the row removed when the id exists,
      otherwise 404 and the table unchanged. */
  function DeleteQuestion(table: seq<Question>, id: int): (r: (Reply<()>, seq<Question>))
    ensures r.0 == Abort(404, None) <==> forall q :: q in table ==> q.id != id
    ensures r.0.Respond? ==> r.0.status == 204
    ensures (exists q :: q in table && q.id == id) ==> r.0 == Respond(204, ())
    ensures !r.0.Respond? ==> r.1 == table
    ensures forall q :: q in r.1 <==> q in table && q.id != id
  {
    if forall q :: q in table ==> q.id != id then
      assert Filter(table, (q: Question) => q.id != id) == table by {
        FilterAllKept(table, (q: Question) => q.id != id);
      }
      (Abort(404, None), table)
    else (Respond(204, ()), Filter(table, (q: Question) => q.id != id))
  }

  lemma {:induction false} FilterAllKept<T(!new)>(xs: seq<T>, p: T -> bool)
    requires forall x :: x in xs ==> p(x)
    ensures Filter(xs, p) == xs
  {
    if xs != [] {
      assert xs == [xs[0]] + xs[1..];
      FilterAllKept(xs[1..], p);
    }
  }

  /** The row `create_question` inserts; fields read with `body.get`. */
  datatype SubmittedQuestion = SubmittedQuestion(id: int, question: Json, answer: Json, category: Json, difficulty: Json)

  /** `create_question`: no body is 422; otherwise 201 with the inserted row
      (`newId` is the id the database assigns). */
  function CreateQuestion(body: Option<map<string, Json>>, newId: int): (r: Reply<SubmittedQuestion>)
    ensures body.None? <==> r == Abort(422, None)
    ensures body.Some? ==> r.Respond?
    ensures r.Respond? ==> r.status == 201 && r.value.id == newId
                           && r.value.question == Get(body.value, "question")
                           && r.value.answer == Get(body.value, "answer")
                           && r.value.category == Get(body.value, "category")
                           && r.value.difficulty == Get(body.value, "difficulty")
  {
    if body.None? then Abort(422, None)
    else
      var b := body.value;
      Respond(201, SubmittedQuestion(newId, Get(b, "question"), Get(b, "answer"), Get(b, "category"), Get(b, "difficulty")))
  }

  // ---------------------------------------------------------------- POST /api/quizzes

  /** The `quiz_category` value: JSON null (all categories) or an object,
      whose "id" may be missing. */
  datatype CategoryArg = AllCategories | CategoryObject(id: Option<int>)

  /** The request body; a field is None when its key is missing. */
  datatype QuizRequest = QuizRequest(previousQuestions: Option<seq<int>>, quizCategory: Option<CategoryArg>)

  /** The answer; a None field is rendered as "". */
  datatype QuizResponse = QuizResponse(question: Option<Question>, quizCategory: Option<Category>)

  /** The questions a quiz draws from, None where `quiz_category["id"]`
      raises KeyError (the default `{}` included). */
  function QuizCandidates(arg: CategoryArg, table: seq<Question>): (r: Option<seq<Question>>)
    ensures arg.AllCategories? ==> r == Some(table)
    ensures arg.CategoryObject? && arg.id.None? ==> r.None?
    ensures arg.CategoryObject? && arg.id.Some? ==>
              r.Some? && SortedById(r.value) && forall q :: q in r.value <==> q in table && q.category == arg.id.value
  {
    match arg
    case AllCategories => Some(table)
    case CategoryObject(None) => None
    case CategoryObject(Some(c)) =>
      var s := SortById(InCategory(table, c));
      assert forall q :: q in s <==> q in InCategory(table, c) by {
        forall q ensures q in s <==> q in InCategory(table, c) {
          assert q in s <==> q in multiset(s);
        }
      }
      Some(s)
  }

  /** `next((q for q in questions if q.id not in previous_questions), None)`. */
  function FirstUnseen(cands: seq<Question>, previous: seq<int>): (r: Option<Question>)
    ensures r.None? <==> forall q :: q in cands ==> q.id in previous
    ensures r.Some? ==> exists i :: 0 <= i < |cands| && cands[i] == r.value && r.value.id !in previous
                                    && forall j :: 0 <= j < i ==> cands[j].id in previous
  {
    if cands == [] then None
    else if cands[0].id !in previous then Some(cands[0])
    else
      var r := FirstUnseen(cands[1..], previous);
      assert cands == [cands[0]] + cands[1..];
      if r.Some? then
        var i :| 0 <= i < |cands[1..]| && cands[1..][i] == r.value && r.value.id !in previous
                 && forall j :: 0 <= j < i ==> cands[1..][j].id in previous;
        assert cands[i + 1] == r.value;
        assert forall j :: 0 <= j < i + 1 ==> cands[j].id in previous by {
          forall j | 0 <= j < i + 1 ensures cands[j].id in previous {
            if j > 0 { assert cands[j] == cands[1..][j - 1]; }
          }
        }
        r
      else r
  }

  /** `Category.query.filter_by(id=...).first()`. */
  function FirstWithId(cats: seq<Category>, id: int): (r: Option<Category>)
    ensures r.None? <==> forall c :: c in cats ==> c.id != id
    ensures r.Some? ==> r.value in cats && r.value.id == id
  {
    var m := Filter(cats, (c: Category) => c.id == id);
    if m == [] then None else assert m[0] in m; Some(m[0])
  }

  /** `play_quiz`. With no body, or no `quiz_category` key, the category
      defaults to `{}` and `quiz_category["id"]` raises. With an empty
      `previous_questions` the first candidate is taken (IndexError when
      there is none); otherwise the first candidate not asked before. */
  function PlayQuiz(body: Option<QuizRequest>, table: seq<Question>, cats: seq<Category>): (r: Reply<QuizResponse>)
    ensures r.Respond? ==> r.status == 200 && (r.value.question.None? <==> r.value.quizCategory.None?)
    ensures r.Respond? && r.value.question.Some? ==>
              r.value.quizCategory.value.id == r.value.question.value.category && r.value.quizCategory.value in cats
    ensures QuizCandidates(ArgOf(body), table).None? ==> r.Crash?
    ensures r.Respond? && PreviousOf(body) == [] ==>
              && QuizCandidates(ArgOf(body), table).Some? && QuizCandidates(ArgOf(body), table).value != []
              && r.value.question == Some(QuizCandidates(ArgOf(body), table).value[0])
    ensures r.Respond? && PreviousOf(body) != [] ==>
              && QuizCandidates(ArgOf(body), table).Some?
              && r.value.question == FirstUnseen(QuizCandidates(ArgOf(body), table).value, PreviousOf(body))
    ensures QuizCandidates(ArgOf(body), table).Some? && PreviousOf(body) != [] ==>
              ((forall q :: q in QuizCandidates(ArgOf(body), table).value ==> q.id in PreviousOf(body)) <==>
               r == Respond(200, QuizResponse(None, None)))
    ensures QuizCandidates(ArgOf(body), table).Some? ==>
              var cands := QuizCandidates(ArgOf(body), table).value;
              var chosen := if PreviousOf(body) == [] then (if cands == [] then None else Some(cands[0]))
                            else FirstUnseen(cands, PreviousOf(body));
              && (r.Crash? <==> (PreviousOf(body) == [] && cands == [])
                                || (chosen.Some? && FirstWithId(cats, chosen.value.category).None?))
              && (chosen.Some? && FirstWithId(cats, chosen.value.category).Some? ==>
                    r == Respond(200, QuizResponse(chosen, FirstWithId(cats, chosen.value.category))))
  {
    var previous := PreviousOf(body);
    var arg := ArgOf(body);
    match QuizCandidates(arg, table)
    case None => Crash
    case Some(cands) =>
      if |previous| == 0 && cands == [] then Crash
      else
        var chosen := if |previous| == 0 then Some(cands[0]) else FirstUnseen(cands, previous);
        match chosen
        case None => Respond(200, QuizResponse(None, None))
        case Some(q) =>
          match FirstWithId(cats, q.category)
          case None => Crash
          case Some(c) => Respond(200, QuizResponse(Some(q), Some(c)))
  }

  /** The `previous_questions` list, `[]` when missing. */
  function PreviousOf(body: Option<QuizRequest>): seq<int> {
    if body.None? then [] else body.value.previousQuestions.GetOr([])
  }

  /** The `quiz_category` value, `{}` when missing. */
  function ArgOf(body: Option<QuizRequest>): CategoryArg {
    if body.None? then CategoryObject(None) else body.value.quizCategory.GetOr(CategoryObject(None))
  }

  /** A question already asked is never asked again, and the one chosen is
      the first candidate not asked before. */
  lemma QuizNeverRepeats(body: Option<QuizRequest>, table: seq<Question>, cats: seq<Category>)
    requires PreviousOf(body) != []
    requires PlayQuiz(body, table, cats).Respond?
    requires PlayQuiz(body, table, cats).value.question.Some?
    ensures var q := PlayQuiz(body, table, cats).value.question.value;
            && q.id !in PreviousOf(body) && q in table
            && exists i :: && 0 <= i < |QuizCandidates(ArgOf(body), table).value|
                           && QuizCandidates(ArgOf(body), table).value[i] == q
                           && forall j :: 0 <= j < i ==> QuizCandidates(ArgOf(body), table).value[j].id in PreviousOf(body)
  {
    var previous := PreviousOf(body);
    var arg := ArgOf(body);
    assert QuizCandidates(arg, table).Some?;
    var cands := QuizCandidates(arg, table).value;
    assert |previous| != 0;
    assert FirstUnseen(cands, previous).Some?;
    var q := FirstUnseen(cands, previous).value;
    assert PlayQuiz(body, table, cats).value.question == Some(q);
    FirstUnseenIsUnasked(cands, previous);
    CandidateInTable(arg, table, q);
  }

  lemma CandidateInTable(arg: CategoryArg, table: seq<Question>, q: Question)
    requires QuizCandidates(arg, table).Some? && q in QuizCandidates(arg, table).value
    ensures q in table
  {
  }

  lemma FirstUnseenIsUnasked(cands: seq<Question>, previous: seq<int>)
    requires FirstUnseen(cands, previous).Some?
    ensures FirstUnseen(cands, previous).value in cands
    ensures FirstUnseen(cands, previous).value.id !in previous
  {
    var r := FirstUnseen(cands, previous).value;
    var i :| 0 <= i < |cands| && cands[i] == r && r.id !in previous;
  }

  /** With a category id given, the question is of that category; the quiz
      is over (both fields empty) once every question of it was asked. */
  lemma QuizRespectsCategory(previous: seq<int>, category: int, table: seq<Question>, cats: seq<Category>)
    requires previous != []
    ensures var r := PlayQuiz(Some(QuizRequest(Some(previous), Some(CategoryObject(Some(category))))), table, cats);
            && (r.Respond? && r.value.question.Some? ==> r.value.question.value.category == category)
            && ((forall q :: q in table && q.category == category ==> q.id in previous) ==>
                  r == Respond(200, QuizResponse(None, None)))
  {
    var cands := QuizCandidates(CategoryObject(Some(category)), table).value;
    var chosen := FirstUnseen(cands, previous);
    if chosen.Some? {
      assert chosen.value in cands;
    }
  }

  /** With an empty history the first candidate is chosen. */
  lemma QuizStartsWithFirstCandidate(arg: CategoryArg, table: seq<Question>, cats: seq<Category>)
    requires QuizCandidates(arg, table).Some? && QuizCandidates(arg, table).value != []
    requires exists c :: c in cats && c.id == QuizCandidates(arg, table).value[0].category
    ensures PlayQuiz(Some(QuizRequest(Some([]), Some(arg))), table, cats).Respond?
    ensures PlayQuiz(Some(QuizRequest(Some([]), Some(arg))), table, cats).value.question
            == Some(QuizCandidates(arg, table).value[0])
  {
  }
}
