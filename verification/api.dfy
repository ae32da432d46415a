/** The request/response helpers of src/services/api.js: the Authorization
    header rule, how `apiCall` turns a fetch response into a value or an
    error, the query string of `GET /posts`, the feed and wall defaults, and
    the client-side user search.

    The network, `localStorage` and `JSON.parse` are inputs: the stored token
    is an `Option<string>`, a fetch is a `Fetched` value, and the parser is a
    function `parse` that yields `None` where `JSON.parse` throws. */
module Api {
  import opened Wrappers
  import opened Text
  import opened Js
  import opened Seqs
  import opened Records

  // ---------------------------------------------------------------- values

  /** What a successful `apiCall` resolves to: `null`, parsed JSON, or raw text. */
  datatype Value<J> = Null | Json(json: J) | Text(text: string)

  /** A call that either resolves to a value or rejects with an error message. */
  datatype Outcome<J> = Threw(message: string) | Returned(value: Value<J>)

  // --------------------------------------------------------------- headers

  const ContentTypeKey := "Content-Type"
  const AuthorizationKey := "Authorization"
  const JsonMediaType := "application/json"

  /** `getAuthHeaders()` for the token currently stored (`None` when absent). */
  function AuthHeaders(token: Option<string>): (h: map<string, string>)
    ensures ContentTypeKey in h && h[ContentTypeKey] == JsonMediaType
    ensures AuthorizationKey in h <==> StrTruthy(token)
    ensures AuthorizationKey in h ==> h[AuthorizationKey] == "Bearer " + token.value
    ensures h.Keys <= {ContentTypeKey, AuthorizationKey}
  {
    map[ContentTypeKey := JsonMediaType]
    + (if StrTruthy(token) then map[AuthorizationKey := "Bearer " + token.value] else map[])
  }

  /** The headers `apiCall` sends: the bearer token only for calls that require
      authentication and only when a token is stored. */
  function RequestHeaders(requiresAuth: bool, token: Option<string>): (h: map<string, string>)
    ensures ContentTypeKey in h && h[ContentTypeKey] == JsonMediaType
    ensures AuthorizationKey in h <==> requiresAuth && StrTruthy(token)
    ensures AuthorizationKey in h ==> h[AuthorizationKey] == "Bearer " + token.value
    ensures h.Keys <= {ContentTypeKey, AuthorizationKey}
  {
    var h := map[ContentTypeKey := JsonMediaType];
    if requiresAuth && StrTruthy(token) then h[AuthorizationKey := "Bearer " + token.value] else h
  }

  /** The two header rules agree: an authenticated call sends exactly the
      `getAuthHeaders()` headers, an anonymous one those of an empty store. */
  lemma RequestHeadersAgreeWithAuthHeaders(requiresAuth: bool, token: Option<string>)
    ensures RequestHeaders(requiresAuth, token)
         == AuthHeaders(if requiresAuth then token else None)
  {
  }

  /** The fetch options a caller passes to `apiCall`; `verb` is the HTTP method. */
  datatype RequestInit = RequestInit(verb: string, body: Option<string>, headers: map<string, string>)

  datatype Request = Request(url: string, init: RequestInit)

  /** `fetch(API_BASE_URL + endpoint, { ...options, headers })`. */
  function BuildRequest(baseUrl: string, endpoint: string, options: RequestInit,
                        requiresAuth: bool, token: Option<string>): (r: Request)
    ensures r.url == baseUrl + endpoint
    ensures r.init.verb == options.verb && r.init.body == options.body
    ensures r.init.headers == RequestHeaders(requiresAuth, token)
  {
    Request(baseUrl + endpoint, options.(headers := RequestHeaders(requiresAuth, token)))
  }

  /** Headers a caller supplies never reach the network. */
  lemma CallerHeadersAreReplaced(baseUrl: string, endpoint: string, options: RequestInit,
                                 callerHeaders: map<string, string>,
                                 requiresAuth: bool, token: Option<string>)
    ensures BuildRequest(baseUrl, endpoint, options.(headers := callerHeaders), requiresAuth, token)
         == BuildRequest(baseUrl, endpoint, options, requiresAuth, token)
  {
  }

  // -------------------------------------------------------------- responses

  datatype Response = Response(status: int, statusText: string, body: string)

  /** `response.ok`: the status is in the range 200-299. */
  predicate IsOk(r: Response) {
    200 <= r.status <= 299
  }

  /** A fetch either fails at the network level or yields a response whose body
      has been read as text. */
  datatype Fetched = NetworkError(message: string) | Received(response: Response)

  /** The message of the error thrown for a non-ok response. */
  function HttpErrorMessage(r: Response): string {
    "HTTP " + IntToString(r.status) + ": " + (if r.body != "" then r.body else r.statusText)
  }

  /** How `apiCall` settles: errors first, then `null` for 204 or an empty
      body, then the parsed JSON, else the raw text. */
  function Classify<J>(f: Fetched, parse: string -> Option<J>): (o: Outcome<J>)
    ensures f.NetworkError? ==> o == Threw(f.message)
    ensures f.Received? && !IsOk(f.response) ==> o == Threw(HttpErrorMessage(f.response))
    ensures o.Returned? <==> f.Received? && IsOk(f.response)
    ensures o == Returned(Null) <==> f.Received? && IsOk(f.response)
                                     && (f.response.status == 204 || f.response.body == "")
    ensures o.Returned? && o.value.Json? ==>
              f.response.body != "" && parse(f.response.body) == Some(o.value.json)
    ensures o.Returned? && o.value.Text? ==>
              o.value.text == f.response.body && parse(f.response.body).None?
  {
    match f
    case NetworkError(m) => Threw(m)
    case Received(r) =>
      if !IsOk(r) then Threw(HttpErrorMessage(r))
      else if r.status == 204 || r.body == "" then Returned(Null)
      else match parse(r.body)
        case Some(j) => Returned(Json(j))
        case None => Returned(Text(r.body))
  }

  /** An error status is reported even when the body is empty or would parse. */
  lemma ErrorStatusWinsOverBody<J>(r: Response, parse: string -> Option<J>)
    requires !IsOk(r)
    ensures Classify(Received(r), parse).Threw?
    ensures r.body == "" ==> Classify(Received(r), parse).message
                             == "HTTP " + IntToString(r.status) + ": " + r.statusText
  {
  }

  /** The status can be read back from the error message. */
  lemma HttpErrorMessageNamesStatus(r1: Response, r2: Response)
    requires HttpErrorMessage(r1) == HttpErrorMessage(r2)
    requires r1.status >= 0 && r2.status >= 0
    ensures r1.status == r2.status
  {
    var s1 := IntToString(r1.status);
    var s2 := IntToString(r2.status);
    var m := HttpErrorMessage(r1);
    assert m[..5] == "HTTP ";
    var tail1 := m[5..];
    assert tail1 == s1 + ": " + (if r1.body != "" then r1.body else r1.statusText);
    assert tail1 == s2 + ": " + (if r2.body != "" then r2.body else r2.statusText);
    DigitsBeforeColon(s1, s2, tail1);
    IntToStringInjective(r1.status, r2.status);
  }

  /** Two digit strings each followed by ": " at the start of the same text are equal. */
  lemma DigitsBeforeColon(a: string, b: string, t: string)
    requires forall i :: 0 <= i < |a| ==> IsDigit(a[i])
    requires forall i :: 0 <= i < |b| ==> IsDigit(b[i])
    requires a + ":" <= t && b + ":" <= t
    ensures a == b
  {
    assert forall i :: 0 <= i < |a| ==> t[i] == (a + ":")[i] == a[i];
    assert forall i :: 0 <= i < |b| ==> t[i] == (b + ":")[i] == b[i];
    assert t[|a|] == (a + ":")[|a|] == ':';
    assert t[|b|] == (b + ":")[|b|] == ':';
    if |a| < |b| {
      assert false;
    } else if |b| < |a| {
      assert false;
    }
  }

  // ----------------------------------------------------------- GET /posts

  /** The parameters of `postService.getPosts`; an absent key is `None`. */
  datatype PostsParams = PostsParams(userId: Option<JsId>, page: Option<int>, size: Option<int>, sort: Option<string>)

  /** The place of each query key in the fixed order `userId, page, size, sort`. */
  function KeyRank(k: string): int {
    if k == "userId" then 0 else if k == "page" then 1 else if k == "size" then 2 else if k == "sort" then 3 else 4
  }

  /** The query parameters appended, in order: `userId` and `sort` only when
      truthy, `page` and `size` whenever defined (0 included). */
  function QueryPairs(p: PostsParams): seq<(string, string)> {
    (if p.userId.Some? && IdTruthy(p.userId.value) then [("userId", IdToString(p.userId.value))] else [])
    + (if p.page.Some? then [("page", IntToString(p.page.value))] else [])
    + (if p.size.Some? then [("size", IntToString(p.size.value))] else [])
    + (if StrTruthy(p.sort) then [("sort", p.sort.value)] else [])
  }

  /** Which parameters the query carries, and with which values. */
  lemma QueryPairsContents(p: PostsParams, v: string)
    ensures ("userId", v) in QueryPairs(p) <==> p.userId.Some? && IdTruthy(p.userId.value) && v == IdToString(p.userId.value)
    ensures ("page", v) in QueryPairs(p) <==> p.page.Some? && v == IntToString(p.page.value)
    ensures ("size", v) in QueryPairs(p) <==> p.size.Some? && v == IntToString(p.size.value)
    ensures ("sort", v) in QueryPairs(p) <==> StrTruthy(p.sort) && v == p.sort.value
  {
  }

  /** The query lists its keys in the order `userId, page, size, sort`, each at most once. */
  lemma QueryPairsOrder(p: PostsParams)
    ensures |QueryPairs(p)| <= 4
    ensures forall i :: 0 <= i < |QueryPairs(p)| ==> KeyRank(QueryPairs(p)[i].0) < 4
    ensures forall i, j :: 0 <= i < j < |QueryPairs(p)| ==>
              KeyRank(QueryPairs(p)[i].0) < KeyRank(QueryPairs(p)[j].0)
  {
    var u := if p.userId.Some? && IdTruthy(p.userId.value) then [("userId", IdToString(p.userId.value))] else [];
    var a := if p.page.Some? then [("page", IntToString(p.page.value))] else [];
    var b := if p.size.Some? then [("size", IntToString(p.size.value))] else [];
    var c := if StrTruthy(p.sort) then [("sort", p.sort.value)] else [];
    var r := QueryPairs(p);
    assert r == u + a + b + c;
    // each part holds at most one key, of a fixed rank
    assert forall i :: 0 <= i < |r| ==>
      KeyRank(r[i].0) == (if i < |u| then 0 else if i < |u| + |a| then 1
                          else if i < |u| + |a| + |b| then 2 else 3);
  }

  /** `key=value`. */
  function Field(kv: (string, string)): string {
    kv.0 + "=" + kv.1
  }

  /** `URLSearchParams.toString()` with values taken as already encoded:
      the fields joined by `&`. */
  function QueryString(pairs: seq<(string, string)>): (s: string)
    ensures s == "" <==> |pairs| == 0
    decreases |pairs|
  {
    if |pairs| == 0 then ""
    else if |pairs| == 1 then Field(pairs[0])
    else Field(pairs[0]) + "&" + QueryString(pairs[1..])
  }

  /** The endpoint `getPosts` requests: bare `/posts` when no parameter was
      appended, otherwise `/posts?` followed by the query. */
  function PostsEndpoint(p: PostsParams): (e: string)
    ensures e == "/posts" <==> |QueryPairs(p)| == 0
    ensures |QueryPairs(p)| > 0 ==> e == "/posts?" + QueryString(QueryPairs(p))
  {
    var q := QueryString(QueryPairs(p));
    if q != "" then "/posts?" + q else "/posts"
  }

  const NewestFirstSort := "createdAt,desc"

  /** `fetchFeedPosts(page = 0, size = 10)`; an omitted argument is `None`. */
  function FeedPostsParams(page: Option<int>, size: Option<int>): (p: PostsParams)
    ensures p.userId.None?
    ensures p.page == Some(page.GetOr(0)) && p.size == Some(size.GetOr(10))
    ensures p.sort == Some(NewestFirstSort)
  {
    PostsParams(None, Some(page.GetOr(0)), Some(size.GetOr(10)), Some(NewestFirstSort))
  }

  /** `fetchUserPosts(userId, page = 0, size = 10)`. */
  function UserPostsParams(userId: Option<JsId>, page: Option<int>, size: Option<int>): PostsParams {
    FeedPostsParams(page, size).(userId := userId)
  }

  /** A wall query is the feed query with `userId` in front, when it is truthy. */
  lemma UserQueryExtendsFeedQuery(userId: Option<JsId>, page: Option<int>, size: Option<int>)
    ensures QueryPairs(UserPostsParams(userId, page, size))
         == (if userId.Some? && IdTruthy(userId.value) then [("userId", IdToString(userId.value))] else [])
            + QueryPairs(FeedPostsParams(page, size))
  {
  }

  lemma DefaultFeedEndpointText()
    ensures "/posts?" + "page=0&size=10&sort=createdAt,desc" == "/posts?page=0&size=10&sort=createdAt,desc"
  {
  }

  /** The query string behind `fetchFeedPosts()`. */
  lemma DefaultFeedQueryString()
    ensures QueryString([("page", "0"), ("size", "10"), ("sort", NewestFirstSort)])
         == "page=0&size=10&sort=createdAt,desc"
  {
    SizeSortQueryString();
    QueryStringCons(("page", "0"), [("size", "10"), ("sort", NewestFirstSort)]);
    assert [("page", "0")] + [("size", "10"), ("sort", NewestFirstSort)]
        == [("page", "0"), ("size", "10"), ("sort", NewestFirstSort)];
  }

  lemma SizeSortQueryString()
    ensures QueryString([("size", "10"), ("sort", NewestFirstSort)]) == "size=10&sort=createdAt,desc"
  {
    assert QueryString([("sort", NewestFirstSort)]) == "sort=createdAt,desc";
    QueryStringCons(("size", "10"), [("sort", NewestFirstSort)]);
    assert [("size", "10")] + [("sort", NewestFirstSort)] == [("size", "10"), ("sort", NewestFirstSort)];
  }

  /** One more field in front adds it and an `&`. */
  lemma QueryStringCons(kv: (string, string), rest: seq<(string, string)>)
    requires |rest| > 0
    ensures QueryString([kv] + rest) == Field(kv) + "&" + QueryString(rest)
  {
    assert ([kv] + rest)[1..] == rest;
  }

  lemma DefaultFeedPairs()
    ensures QueryPairs(FeedPostsParams(None, None))
         == [("page", "0"), ("size", "10"), ("sort", NewestFirstSort)]
  {
    assert IntToString(0) == "0";
    assert IntToString(10) == "10" by {
      assert NatToString(10) == NatToString(1) + [DigitChar(0)];
    }
  }

  // ------------------------------------------- reading a query back

  /** The first position of `c` in `s`, or `|s|` when there is none. */
  function IndexOf(s: string, c: char): (i: nat)
    ensures i <= |s|
    ensures i < |s| ==> s[i] == c
    ensures forall j :: 0 <= j < i ==> s[j] != c
    decreases |s|
  {
    if |s| == 0 then 0 else if s[0] == c then 0 else 1 + IndexOf(s[1..], c)
  }

  /** Splits `key=value` at its first `=`. */
  function ParseField(f: string): (string, string) {
    var i := IndexOf(f, '=');
    if i == |f| then (f, "") else (f[..i], f[i + 1..])
  }

  /** Splits a query string into its fields. */
  function ParseQuery(s: string): seq<(string, string)>
    decreases |s|
  {
    if s == "" then []
    else
      var i := IndexOf(s, '&');
      if i == |s| then [ParseField(s)] else [ParseField(s[..i])] + ParseQuery(s[i + 1..])
  }

  /** A field is unambiguous: no `&` anywhere and no `=` in its key. */
  predicate Unambiguous(kv: (string, string)) {
    '&' !in kv.0 && '=' !in kv.0 && '&' !in kv.1
  }

  lemma ParseFieldInverse(kv: (string, string))
    requires Unambiguous(kv)
    ensures ParseField(Field(kv)) == kv
  {
    var f := Field(kv);
    assert IndexOf(f, '=') == |kv.0| by {
      assert f[|kv.0|] == '=';
    }
    assert f[..|kv.0|] == kv.0;
    assert f[|kv.0| + 1..] == kv.1;
  }

  /** Reading a query string back yields the fields it was built from. */
  lemma {:induction false} QueryStringRoundTrip(pairs: seq<(string, string)>)
    requires forall i :: 0 <= i < |pairs| ==> Unambiguous(pairs[i])
    ensures ParseQuery(QueryString(pairs)) == pairs
    decreases |pairs|
  {
    if |pairs| > 0 {
      var f := Field(pairs[0]);
      assert '&' !in f;
      ParseFieldInverse(pairs[0]);
      if |pairs| == 1 {
        assert IndexOf(f, '&') == |f|;
      } else {
        var s := f + "&" + QueryString(pairs[1..]);
        assert IndexOf(s, '&') == |f| by {
          assert s[|f|] == '&';
          assert forall j :: 0 <= j < |f| ==> s[j] == f[j];
        }
        assert s[..|f|] == f;
        assert s[|f| + 1..] == QueryString(pairs[1..]);
        QueryStringRoundTrip(pairs[1..]);
      }
    }
  }

  /** A `/posts` query reads back as its parameters whenever the user id and
      the sort contain no `&` and no `=`. */
  lemma PostsQueryRoundTrip(p: PostsParams)
    requires p.userId.Some? ==> '&' !in IdToString(p.userId.value) && '=' !in IdToString(p.userId.value)
    requires p.sort.Some? ==> '&' !in p.sort.value
    ensures ParseQuery(QueryString(QueryPairs(p))) == QueryPairs(p)
  {
    var r := QueryPairs(p);
    forall i | 0 <= i < |r| ensures Unambiguous(r[i]) {
      NumbersAreUnambiguous(p);
      assert r[i] in r;
    }
    QueryStringRoundTrip(r);
  }

  lemma NumbersAreUnambiguous(p: PostsParams)
    ensures p.page.Some? ==> '&' !in IntToString(p.page.value)
    ensures p.size.Some? ==> '&' !in IntToString(p.size.value)
  {
    if p.page.Some? { NoAmpersandInNumber(p.page.value); }
    if p.size.Some? { NoAmpersandInNumber(p.size.value); }
  }

  lemma NoAmpersandInNumber(n: int)
    ensures '&' !in IntToString(n)
  {
    var s := IntToString(n);
    var d := NatToString(if n < 0 then -n else n);
    assert s == (if n < 0 then "-" else "") + d;
    assert forall i :: 0 <= i < |d| ==> IsDigit(d[i]);
  }

  // ----------------------------------------------------------- user search

  /** A user matches when the lower-cased query occurs in the lower-cased
      username or e-mail. */
  predicate MatchesQuery(u: UserRef, query: string) {
    Contains(Lower(u.username), Lower(query)) || Contains(Lower(u.email), Lower(query))
  }

  function Matching(query: string): UserRef -> bool {
    u => MatchesQuery(u, query)
  }

  /** `searchUsers(query)` over the list `getUsers()` returned. */
  function SearchUsers(users: seq<UserRef>, query: string): (r: seq<UserRef>)
    ensures IsSubsequence(r, users)
    ensures forall i :: 0 <= i < |r| ==> MatchesQuery(r[i], query)
    ensures forall i :: 0 <= i < |users| && MatchesQuery(users[i], query) ==> users[i] in r
    ensures forall v :: multiset(r)[v] == if MatchesQuery(v, query) then multiset(users)[v] else 0
  {
    FilterIsSubsequence(Matching(query), users);
    forall v ensures multiset(Filter(Matching(query), users))[v] == if MatchesQuery(v, query) then multiset(users)[v] else 0 {
      FilterCount(Matching(query), users, v);
    }
    Filter(Matching(query), users)
  }

  /** The empty query finds every user, in order. */
  lemma EmptySearchFindsEveryone(users: seq<UserRef>)
    ensures SearchUsers(users, "") == users
  {
    forall i | 0 <= i < |users| ensures Matching("")(users[i]) {
      assert Lower("") == "";
      ContainsEmpty(Lower(users[i].username));
    }
    FilterAllPass(Matching(""), users);
  }

  /** Search ignores the (ASCII) case of the query. */
  lemma SearchIgnoresQueryCase(users: seq<UserRef>, query: string)
    ensures SearchUsers(users, query) == SearchUsers(users, Lower(query))
  {
    LowerIdempotent(query);
    FilterCongruent(Matching(query), Matching(Lower(query)), users);
  }
}
