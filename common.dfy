/**
  Values shared by every component: an optional value, decoded JSON request
  bodies with Python's truthiness rule, the replies a Flask view produces,
  and an order-preserving filter over table rows.
*/
module Common {

  datatype Option<T> = None | Some(value: T) {
    function GetOr(default: T): T {
      match this
      case Some(v) => v
      case None => default
    }
  }

  /** A decoded JSON value as `request.get_json()` hands it to a view.
      Numbers are integers only; objects are dictionaries from key to value. */
  datatype Json =
    | JNull
    | JBool(b: bool)
    | JNum(n: int)
    | JStr(s: string)
    | JArr(items: seq<Json>)
    | JObj(fields: map<string, Json>)

  /** Python's `bool(v)` for a decoded JSON value: None, False, 0, "", [] and {}
      are falsy, everything else is truthy. */
  predicate Truthy(j: Json) {
    match j
    case JNull => false
    case JBool(b) => b
    case JNum(n) => n != 0
    case JStr(s) => s != ""
    case JArr(items) => items != []
    case JObj(fields) => fields != map[]
  }

  /** `body.get(key)`: a missing key reads as None, which is JSON null. */
  function Get(body: map<string, Json>, key: string): (r: Json)
    ensures key !in body ==> r == JNull
    ensures key in body ==> r == body[key]
  {
    if key in body then body[key] else JNull
  }

  /** What a view answers: a response with its status, an `abort(status)`
      (with the description passed to abort, if any), or an uncaught Python
      exception, which Flask turns into a 500 response. */
  datatype Reply<T> =
    | Respond(status: int, value: T)
    | Abort(status: int, description: Option<string>)
    | Crash

  /** The rows of `xs` that satisfy `p`, in their original order
      (a database filter or a list comprehension with a condition). */
  function Filter<T(!new)>(xs: seq<T>, p: T -> bool): (r: seq<T>)
    ensures |r| <= |xs|
    ensures forall x :: x in r <==> x in xs && p(x)
    ensures multiset(r) <= multiset(xs)
  {
    if xs == [] then []
    else
      var rest := Filter(xs[1..], p);
      assert xs == [xs[0]] + xs[1..];
      if p(xs[0]) then [xs[0]] + rest else rest
  }
}
