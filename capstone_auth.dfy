/**
  Bearer-token authorization of the capstone API (app/main/routes.py).

  A token is taken from the `Authorization: Bearer <token>` header
  (section 2.1 of RFC 6750, the scheme compared case-insensitively), the
  issuer's key set is fetched on every call, the key whose `kid` matches
  the token header's `kid` is selected (section 4.5 of RFC 7517), and the
  token is decoded against it. The signature and claim checks of the JWT
  library are an oracle: `decode` answers with the payload or with one of
  three failure kinds. Reading the token header and claims without
  verification is an oracle too, answering None where the library raises.
  The key set is the decoded `jwks` document's "keys" member, None when the
  document has no such member.
*/
module CapstoneAuth {
  import opened Common
  import opened Text

  const AuthDomain: string := "domain"
  const ApiAudience: string := "coffee-shop-endpoint"
  const Algorithms: seq<string> := ["RS256"]
  const Issuer: string := "https://" + AuthDomain + "/"
  const JwksUrl: string := "https://" + AuthDomain + "/.well-known/jwks.json"

  /** The two exception classes the module raises; each carries the JSON
      error body (code and description) and an HTTP status. */
  datatype Failure =
    | AuthError(code: string, description: string, status: int)
    | GenericError(code: string, description: string, status: int)

  /** The result of a step: a value, a raised AuthError or GenericError, or an
      exception the module does not catch (IndexError, KeyError, a library
      error), which the framework answers with status 500. */
  datatype Outcome<T> = Ok(value: T) | Raised(failure: Failure) | Crashed

  /** Token claims: the decoded payload, a JSON object. */
  type Claims = map<string, Json>

  /** A key of the fetched key set (`jwks["keys"]`): its string members by
      name. Any member may be absent; reading an absent one raises KeyError. */
  type Jwk = map<string, string>

  /** The unverified token header: its string members by name. */
  type TokenHeader = map<string, string>

  /** The minimal RSA public key the code builds from a key-set entry. */
  datatype RsaKey = RsaKey(kty: string, kid: string, use: string, n: string, e: string)

  /** Everything `jwt.decode` is given. */
  datatype DecodeRequest = DecodeRequest(token: string, key: RsaKey, algorithms: seq<string>,
                                         audience: string, issuer: string)

  /** What `jwt.decode` does: return the payload, or raise
      ExpiredSignatureError, JWTClaimsError or any other exception. */
  datatype DecodeOutcome = Decoded(payload: Claims) | ExpiredSignature | ClaimsInvalid | OtherDecodeError

  const HeaderMissing := AuthError("authorization_header_missing", "Authorization header is expected", 401)
  const NotBearer := AuthError("invalid_header", "Authorization header must start with Bearer", 401)
  const TokenNotFound := AuthError("invalid_header", "Token not found", 401)
  const NotBearerToken := AuthError("invalid_header", "Authorization header must be Bearer token", 401)
  const NoMatchingKey := AuthError("invalid_header", "Unable to find appropriate key", 401)
  const TokenExpired := AuthError("token_expired", "token is expired", 401)
  const InvalidClaims := AuthError("invalid_claims", "incorrect claims,please check the audience and issuer", 401)
  const UnparsableToken := AuthError("invalid_header", "Unable to parse authentication token.", 401)
  const Unauthorized := AuthError("Unauthorized", "You don't have the necessary privileges to perform this action", 403)
  const InvalidRequest := GenericError("Invalid Request", "The request is invalid, see documentation", 422)

  predicate IsBearerScheme(scheme: string) {
    Lower(scheme) == "bearer"
  }

  /** `get_token_auth_header`: the header value is split on whitespace runs;
      the scheme is checked before the number of parts. A header made only
      of whitespace passes the emptiness test but splits into nothing, and
      `parts[0]` raises IndexError. */
  function GetTokenAuthHeader(auth: Option<string>): (r: Outcome<string>)
    ensures r.Raised? ==> r.failure.AuthError? && r.failure.status == 401
    ensures r == Raised(HeaderMissing) <==> auth.None? || auth.value == ""
    ensures r.Crashed? <==> auth.Some? && auth.value != "" && AllSpace(auth.value)
    ensures auth.Some? && auth.value != "" ==>
              var p := Split(auth.value);
              && (p != [] && !IsBearerScheme(p[0]) ==> r == Raised(NotBearer))
              && (|p| == 1 && IsBearerScheme(p[0]) ==> r == Raised(TokenNotFound))
              && (|p| > 2 && IsBearerScheme(p[0]) ==> r == Raised(NotBearerToken))
    ensures r.Ok? <==> auth.Some? && |Split(auth.value)| == 2 && IsBearerScheme(Split(auth.value)[0])
    ensures r.Ok? ==> Word(r.value) && r.value == Split(auth.value)[1]
  {
    if auth.None? || auth.value == "" then Raised(HeaderMissing)
    else
      var parts := Split(auth.value);
      SplitEmptyIffAllSpace(auth.value);
      if |parts| == 0 then Crashed
      else if Lower(parts[0]) != "bearer" then Raised(NotBearer)
      else if |parts| == 1 then Raised(TokenNotFound)
      else if |parts| > 2 then Raised(NotBearerToken)
      else Ok(parts[1])
  }

  /** Round trip: a header built as the scheme (in any letter case), one
      space and a token without whitespace gives the token back verbatim. */
  lemma ExtractRoundTrip(scheme: string, token: string)
    requires IsBearerScheme(scheme) && Word(scheme) && Word(token)
    ensures GetTokenAuthHeader(Some(scheme + " " + token)) == Ok(token)
  {
    SplitJoin([scheme, token]);
    assert JoinWords([scheme, token]) == scheme + " " + JoinWords([token]);
  }

  /** The scheme is checked first: a single word other than "bearer",
      e.g. "Basic", gets the "must start with Bearer" message. */
  lemma SchemeCheckedBeforeLength(scheme: string)
    requires Word(scheme) && !IsBearerScheme(scheme)
    ensures GetTokenAuthHeader(Some(scheme)) == Raised(NotBearer)
  {
    SplitJoin([scheme]);
  }

  /** "Bearer" alone has no token. */
  lemma SchemeAloneHasNoToken(scheme: string)
    requires Word(scheme) && IsBearerScheme(scheme)
    ensures GetTokenAuthHeader(Some(scheme)) == Raised(TokenNotFound)
  {
    SplitJoin([scheme]);
  }

  /** More than one word after the scheme is rejected, however many. */
  lemma ExtraPartsRejected(scheme: string, words: seq<string>)
    requires IsBearerScheme(scheme) && Word(scheme)
    requires |words| >= 2 && forall w :: w in words ==> Word(w)
    ensures GetTokenAuthHeader(Some(JoinWords([scheme] + words))) == Raised(NotBearerToken)
  {
    var ws := [scheme] + words;
    assert forall w :: w in ws ==> Word(w);
    SplitJoin(ws);
    assert JoinWords(ws) == scheme + " " + JoinWords(ws[1..]);
  }

  /** A key carrying every member the matching branch copies. */
  predicate HasRsaMembers(k: Jwk) {
    "kty" in k && "kid" in k && "use" in k && "n" in k && "e" in k
  }

  function Project(k: Jwk): RsaKey
    requires HasRsaMembers(k)
  {
    RsaKey(k["kty"], k["kid"], k["use"], k["n"], k["e"])
  }

  /** Visiting key `k` raises KeyError: `key["kid"]` or `unverified_header["kid"]`
      is absent, or the kids match and a copied member is absent. */
  predicate KeyRaises(k: Jwk, header: TokenHeader) {
    "kid" !in k || "kid" !in header || (k["kid"] == header["kid"] && !HasRsaMembers(k))
  }

  /** What the selection loop ends with. */
  datatype KeyChoice = KeyFound(key: RsaKey) | NoKeyFound | KeyLookupRaised

  /** The selection loop over `keys`: it raises as soon as a visited key
      raises, and otherwise ends with the LAST entry whose kid matches,
      projected to kty/kid/use/n/e, or with the empty dict if none matches.
      With no keys at all nothing is read, not even the header's kid. */
  function ChooseKey(keys: seq<Jwk>, header: TokenHeader): (r: KeyChoice)
    ensures r.KeyLookupRaised? <==> exists i :: 0 <= i < |keys| && KeyRaises(keys[i], header)
    ensures r.NoKeyFound? <==> forall i :: 0 <= i < |keys| ==> !KeyRaises(keys[i], header) && keys[i]["kid"] != header["kid"]
    ensures r.KeyFound? ==> exists i :: 0 <= i < |keys| && !KeyRaises(keys[i], header) && keys[i]["kid"] == header["kid"]
                                        && r.key == Project(keys[i])
                                        && forall j :: i < j < |keys| ==> !KeyRaises(keys[j], header) && keys[j]["kid"] != header["kid"]
  {
    if keys == [] then NoKeyFound
    else
      var init, last := keys[..|keys| - 1], keys[|keys| - 1];
      assert forall i :: 0 <= i < |keys| - 1 ==> init[i] == keys[i];
      var r := ChooseKey(init, header);
      if r.KeyLookupRaised? then r
      else if KeyRaises(last, header) then KeyLookupRaised
      else if last["kid"] == header["kid"] then KeyFound(Project(last))
      else r
  }

  /** The loop of `requires_auth` over `jwks["keys"]`, reassigning the
      candidate key on every match. */
  method SelectKey(keys: seq<Jwk>, header: TokenHeader) returns (choice: KeyChoice)
    ensures choice == ChooseKey(keys, header)
  {
    choice := NoKeyFound;
    var i := 0;
    while i < |keys|
      invariant 0 <= i <= |keys|
      invariant choice == ChooseKey(keys[..i], header) && !choice.KeyLookupRaised?
    {
      assert keys[..i + 1][..i] == keys[..i];
      var key := keys[i];
      if "kid" !in key || "kid" !in header {
        assert KeyRaises(keys[i], header);
        return KeyLookupRaised;
      }
      if key["kid"] == header["kid"] {
        if !HasRsaMembers(key) {
          assert KeyRaises(keys[i], header);
          return KeyLookupRaised;
        }
        choice := KeyFound(Project(key));
      }
      i := i + 1;
    }
    assert keys[..i] == keys;
  }

  /** The `except` clauses around `jwt.decode`. */
  function MapDecodeOutcome(d: DecodeOutcome): (r: Outcome<Claims>)
    ensures r.Ok? <==> d.Decoded?
    ensures r.Ok? ==> r.value == d.payload
    ensures !r.Crashed?
    ensures r.Raised? ==> r.failure.AuthError? && r.failure.status == 401
    ensures d.ExpiredSignature? ==> r.failure.code == "token_expired"
    ensures d.ClaimsInvalid? ==> r.failure.code == "invalid_claims"
    ensures d.OtherDecodeError? ==> r.failure.code == "invalid_header"
  {
    match d
    case Decoded(p) => Ok(p)
    case ExpiredSignature => Raised(TokenExpired)
    case ClaimsInvalid => Raised(InvalidClaims)
    case OtherDecodeError => Raised(UnparsableToken)
  }

  /** Everything `decorated` checks before calling the wrapped view, given
      the key set the fetch returned (`jwks`, None when the document has no
      "keys" member). `unverifiedHeader(token)` is the unverified token
      header, None when reading it raises. */
  function Authenticate(auth: Option<string>, jwks: Option<seq<Jwk>>,
                        unverifiedHeader: string -> Option<TokenHeader>,
                        decode: DecodeRequest -> DecodeOutcome): (r: Outcome<Claims>)
    ensures GetTokenAuthHeader(auth).Raised? ==> r == Raised(GetTokenAuthHeader(auth).failure)
    ensures GetTokenAuthHeader(auth).Crashed? ==> r.Crashed?
    ensures r.Raised? ==> r.failure.AuthError? && r.failure.status == 401
    ensures r.Ok? ==> GetTokenAuthHeader(auth).Ok?
    ensures GetTokenAuthHeader(auth).Ok? ==>
              var token := GetTokenAuthHeader(auth).value;
              && (unverifiedHeader(token).None? || jwks.None? ==> r.Crashed?)
              && (unverifiedHeader(token).Some? && jwks.Some? ==>
                    var choice := ChooseKey(jwks.value, unverifiedHeader(token).value);
                    && (choice.KeyLookupRaised? ==> r.Crashed?)
                    && (choice.NoKeyFound? ==> r == Raised(NoMatchingKey))
                    && (choice.KeyFound? ==>
                          r == MapDecodeOutcome(decode(DecodeRequest(token, choice.key, Algorithms, ApiAudience, Issuer)))))
  {
    match GetTokenAuthHeader(auth)
    case Raised(e) => Raised(e)
    case Crashed => Crashed
    case Ok(token) =>
      match unverifiedHeader(token)
      case None => Crashed
      case Some(header) =>
        if jwks.None? then Crashed
        else
          match ChooseKey(jwks.value, header)
          case KeyLookupRaised => Crashed
          case NoKeyFound => Raised(NoMatchingKey)
          case KeyFound(key) => MapDecodeOutcome(decode(DecodeRequest(token, key, Algorithms, ApiAudience, Issuer)))
  }

  /** A well-formed header whose kid no key carries fails with
      "Unable to find appropriate key", whatever the decoder would say,
      provided every key has a kid. */
  lemma UnknownKidRejected(auth: Option<string>, keys: seq<Jwk>, unverifiedHeader: string -> Option<TokenHeader>,
                           decode: DecodeRequest -> DecodeOutcome)
    requires GetTokenAuthHeader(auth).Ok?
    requires unverifiedHeader(GetTokenAuthHeader(auth).value).Some?
    requires "kid" in unverifiedHeader(GetTokenAuthHeader(auth).value).value
    requires forall k :: k in keys ==> "kid" in k && k["kid"] != unverifiedHeader(GetTokenAuthHeader(auth).value).value["kid"]
    ensures Authenticate(auth, Some(keys), unverifiedHeader, decode) == Raised(NoMatchingKey)
  {
    var header := unverifiedHeader(GetTokenAuthHeader(auth).value).value;
    assert forall i :: 0 <= i < |keys| ==> keys[i] in keys;
    assert ChooseKey(keys, header).NoKeyFound?;
  }

  /** An empty key set rejects every readable token header with "Unable to
      find appropriate key", even one without a kid: the loop never reads it. */
  lemma EmptyKeySetRejected(auth: Option<string>, unverifiedHeader: string -> Option<TokenHeader>,
                            decode: DecodeRequest -> DecodeOutcome)
    requires GetTokenAuthHeader(auth).Ok?
    requires unverifiedHeader(GetTokenAuthHeader(auth).value).Some?
    ensures Authenticate(auth, Some([]), unverifiedHeader, decode) == Raised(NoMatchingKey)
  {
  }

  /** Success means the decoder accepted the token with the selected key,
      the configured algorithms, audience and issuer, and the payload is
      the decoder's. */
  lemma AuthenticatedPayload(auth: Option<string>, jwks: Option<seq<Jwk>>,
                             unverifiedHeader: string -> Option<TokenHeader>,
                             decode: DecodeRequest -> DecodeOutcome)
    requires Authenticate(auth, jwks, unverifiedHeader, decode).Ok?
    ensures var token := GetTokenAuthHeader(auth).value;
            unverifiedHeader(token).Some? && jwks.Some? &&
            var choice := ChooseKey(jwks.value, unverifiedHeader(token).value);
            choice.KeyFound? &&
            decode(DecodeRequest(token, choice.key, Algorithms, ApiAudience, Issuer))
              == Decoded(Authenticate(auth, jwks, unverifiedHeader, decode).value)
  {
  }

  /** The request context of one call: the payload the decorator stores,
      and how often the key set was fetched and the wrapped view invoked. */
  class RequestContext {
    var currentUser: Option<Claims>
    var keySetFetches: nat
    var invocations: nat

    constructor ()
      ensures currentUser == None && keySetFetches == 0 && invocations == 0
    {
      currentUser := None;
      keySetFetches := 0;
      invocations := 0;
    }
  }

  /** `requires_auth(f)` applied to `args`. The key set is fetched on every
      call once the header has been read (`fetchedKeys` is the "keys" member
      of what the fetch returns); nothing is cached. The view runs exactly
      once, on success, with the original arguments, and its result is
      returned unchanged. */
  method Decorated<A, R>(ctx: RequestContext, f: A -> R, args: A, auth: Option<string>,
                         fetchedKeys: Option<seq<Jwk>>, unverifiedHeader: string -> Option<TokenHeader>,
                         decode: DecodeRequest -> DecodeOutcome) returns (out: Outcome<R>)
    modifies ctx
    ensures var a := Authenticate(auth, fetchedKeys, unverifiedHeader, decode);
            out == match a
                   case Ok(_) => Ok(f(args))
                   case Raised(e) => Raised(e)
                   case Crashed => Crashed
    ensures ctx.invocations == old(ctx.invocations) + (if out.Ok? then 1 else 0)
    ensures ctx.keySetFetches == old(ctx.keySetFetches) + (if GetTokenAuthHeader(auth).Ok? then 1 else 0)
    ensures ctx.currentUser == (if out.Ok? then Some(Authenticate(auth, fetchedKeys, unverifiedHeader, decode).value)
                                else old(ctx.currentUser))
  {
    var header := GetTokenAuthHeader(auth);
    if !header.Ok? {
      out := if header.Crashed? then Crashed else Raised(header.failure);
      return;
    }
    var token := header.value;
    ctx.keySetFetches := ctx.keySetFetches + 1;
    var unverified := unverifiedHeader(token);
    if unverified.None? || fetchedKeys.None? {
      out := Crashed;
      return;
    }
    var choice := SelectKey(fetchedKeys.value, unverified.value);
    if choice.KeyLookupRaised? {
      out := Crashed;
      return;
    }
    if choice.NoKeyFound? {
      out := Raised(NoMatchingKey);
      return;
    }
    var decoded := MapDecodeOutcome(decode(DecodeRequest(token, choice.key, Algorithms, ApiAudience, Issuer)));
    if !decoded.Ok? {
      out := if decoded.Crashed? then Crashed else Raised(decoded.failure);
      return;
    }
    ctx.currentUser := Some(decoded.value);
    ctx.invocations := ctx.invocations + 1;
    out := Ok(f(args));
  }

  /** The `for token_scope in token_scopes` search with early return. */
  function AnyEquals(parts: seq<string>, required: string): (found: bool)
    ensures found <==> required in parts
  {
    if parts == [] then false
    else if parts[0] == required then true
    else
      assert parts == [parts[0]] + parts[1..];
      AnyEquals(parts[1..], required)
  }

  /** The decision of `requires_scope` once the claims are read, for a
      scope claim that is a string: it must be non-empty and one of its
      whitespace-split entries must equal the required scope exactly. */
  predicate ScopeGranted(claims: Claims, required: string) {
    "scope" in claims && claims["scope"].JStr? && claims["scope"].s != ""
    && AnyEquals(Split(claims["scope"].s), required)
  }

  /** Granted exactly when the required scope is one of the entries; the
      emptiness test is subsumed, since "" splits into no entries. */
  lemma ScopeGrantedIff(claims: Claims, required: string)
    ensures ScopeGranted(claims, required)
            <==> "scope" in claims && claims["scope"].JStr? && required in Split(claims["scope"].s)
  {
  }

  /** No partial matches: the granted scopes are exactly the entries. */
  lemma ScopeEntriesGranted(scopes: seq<string>, required: string)
    requires forall w :: w in scopes ==> Word(w)
    ensures ScopeGranted(map["scope" := JStr(JoinWords(scopes))], required) <==> required in scopes
  {
    SplitJoin(scopes);
  }

  lemma ExampleScopeSplit()
    ensures Split("read:movies create:actor") == ["read:movies", "create:actor"]
  {
    assert Word("read:movies") && Word("create:actor");
    assert JoinWords(["read:movies", "create:actor"]) == "read:movies create:actor";
    SplitJoin(["read:movies", "create:actor"]);
  }

  /** For example, the scope claim "read:movies create:actor" grants
      both of its entries ... */
  lemma ScopeExampleGrants(c: Claims, required: string)
    requires "scope" in c && c["scope"] == JStr("read:movies create:actor")
    requires required == "read:movies" || required == "create:actor"
    ensures ScopeGranted(c, required)
  {
    ExampleScopeSplit();
    ScopeGrantedIff(c, required);
  }

  /** ... and denies everything else, e.g. "delete:actor" or the prefix "read". */
  lemma ScopeExampleDenies(c: Claims, required: string)
    requires "scope" in c && c["scope"] == JStr("read:movies create:actor")
    requires required != "read:movies" && required != "create:actor"
    ensures !ScopeGranted(c, required)
  {
    ExampleScopeSplit();
    ScopeGrantedIff(c, required);
  }

  /** `requires_scope(required)`: reads the header again and the UNVERIFIED
      claims (`claimsOf(token)`, None when reading them raises). Header
      errors propagate; a missing, falsy or non-matching scope is just
      false; a truthy scope claim that is not a string has no `split` and
      raises. */
  function RequiresScope(auth: Option<string>, claimsOf: string -> Option<Claims>, required: string): (r: Outcome<bool>)
    ensures GetTokenAuthHeader(auth).Raised? ==> r == Raised(GetTokenAuthHeader(auth).failure)
    ensures GetTokenAuthHeader(auth).Crashed? ==> r.Crashed?
    ensures r.Raised? ==> r.failure.AuthError? && r.failure.status == 401
    ensures r == Ok(true) <==> GetTokenAuthHeader(auth).Ok? && claimsOf(GetTokenAuthHeader(auth).value).Some?
                               && var c := claimsOf(GetTokenAuthHeader(auth).value).value;
                                  "scope" in c && c["scope"].JStr? && required in Split(c["scope"].s)
    ensures GetTokenAuthHeader(auth).Ok? ==>
              var claims := claimsOf(GetTokenAuthHeader(auth).value);
              && (claims.None? ==> r.Crashed?)
              && (claims.Some? ==>
                    var scope := Get(claims.value, "scope");
                    (r.Ok? <==> !Truthy(scope) || scope.JStr?))
  {
    match GetTokenAuthHeader(auth)
    case Raised(e) => Raised(e)
    case Crashed => Crashed
    case Ok(token) =>
      match claimsOf(token)
      case None => Crashed
      case Some(c) =>
        var scope := Get(c, "scope");
        if !Truthy(scope) then Ok(false)
        else if !scope.JStr? then Crashed
        else
          ScopeGrantedIff(c, required);
          Ok(ScopeGranted(c, required))
  }

  /** A user as `create_user` builds it from the request body. */
  datatype NewUser = NewUser(username: Json, firstName: Json, lastName: Json, email: Json)

  /** `create_user`: gated on the "create:user" scope of the unverified
      claims (the view is not wrapped in `requires_auth`); then the body
      must be present (`get_json()` is None for no body and for `null`) and
      all four fields truthy. A body that is not an object has no `get` and
      raises. Success answers 201; the insert always succeeds. */
  function CreateUser(auth: Option<string>, claimsOf: string -> Option<Claims>, body: Option<Json>): (r: Outcome<(int, NewUser)>)
    ensures r.Ok? <==> RequiresScope(auth, claimsOf, "create:user") == Ok(true) && body.Some? && body.value.JObj?
                       && var b := body.value.fields;
                          Truthy(Get(b, "username")) && Truthy(Get(b, "first_name"))
                          && Truthy(Get(b, "last_name")) && Truthy(Get(b, "email"))
    ensures r.Ok? ==> r.value.0 == 201 && r.value.1.username == body.value.fields["username"]
                      && r.value.1.firstName == body.value.fields["first_name"]
                      && r.value.1.lastName == body.value.fields["last_name"]
                      && r.value.1.email == body.value.fields["email"]
    ensures r == Raised(Unauthorized) <==> RequiresScope(auth, claimsOf, "create:user") == Ok(false)
    ensures r == Raised(InvalidRequest) ==> RequiresScope(auth, claimsOf, "create:user") == Ok(true)
    ensures RequiresScope(auth, claimsOf, "create:user") == Ok(true) ==>
              && (body.None? || body.value.JNull? ==> r == Raised(InvalidRequest))
              && (body.Some? && !body.value.JNull? && !body.value.JObj? ==> r.Crashed?)
              && (body.Some? && body.value.JObj? && !r.Ok? ==> r == Raised(InvalidRequest))
  {
    match RequiresScope(auth, claimsOf, "create:user")
    case Raised(e) => Raised(e)
    case Crashed => Crashed
    case Ok(granted) =>
      if !granted then Raised(Unauthorized)
      else if body.None? || body.value.JNull? then Raised(InvalidRequest)
      else if !body.value.JObj? then Crashed
      else
        var b := body.value.fields;
        var user := NewUser(Get(b, "username"), Get(b, "first_name"), Get(b, "last_name"), Get(b, "email"));
        if !(Truthy(user.username) && Truthy(user.firstName) && Truthy(user.lastName) && Truthy(user.email))
        then Raised(InvalidRequest)
        else Ok((201, user))
  }

  /** A JSON response with its status. */
  datatype HttpResponse = HttpResponse(status: int, body: map<string, string>)

  /** `handle_auth_error` / `handle_generic_error`: the error's own body and
      status code are passed through. */
  function HandleError(f: Failure): (r: HttpResponse)
    ensures r.status == f.status
    ensures r.body.Keys == {"code", "description"}
    ensures r.body["code"] == f.code && r.body["description"] == f.description
  {
    HttpResponse(f.status, map["code" := f.code, "description" := f.description])
  }
}
