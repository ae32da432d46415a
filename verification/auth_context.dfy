/** The client's session (`AuthProvider` in src/context/AuthContext.jsx): the
    logged-in user next to the browser's key/value storage, with restore on
    mount, register, login and logout.  Server replies arrive as settled
    `Api.Outcome` values; `JSON.stringify` and `JSON.parse` of a stored user
    are function parameters. */
module AuthContext {
  import opened Wrappers
  import opened Js
  import opened Records
  import opened Api

  const TokenKey := "token"
  const RefreshTokenKey := "refreshToken"
  const UserKey := "user"

  /** `localStorage`: string keys to string values. */
  type Storage = map<string, string>

  datatype Session = Session(user: Option<UserRef>, storage: Storage, isLoading: bool)

  /** What `register` and `login` resolve to: `{ success: true }` or
      `{ success: false, error }`. */
  datatype AuthResult = Success | Failure(error: string)

  /** `localStorage.getItem(key)` is truthy: present and not the empty string. */
  predicate Stored(storage: Storage, key: string) {
    key in storage && storage[key] != ""
  }

  /** `error.message || fallback`. */
  function MessageOr(message: string, fallback: string): (r: string)
    ensures r != ""  || fallback == ""
    ensures message != "" ==> r == message
  {
    if message != "" then message else fallback
  }

  /** `clearAuthData()`: removes the three auth keys and forgets the user. */
  function ClearAuthData(s: Session): (r: Session)
    ensures r.user.None? && r.isLoading == s.isLoading
    ensures TokenKey !in r.storage && RefreshTokenKey !in r.storage && UserKey !in r.storage
    ensures forall k :: k in s.storage && k != TokenKey && k != RefreshTokenKey && k != UserKey ==>
              k in r.storage && r.storage[k] == s.storage[k]
    ensures r.storage.Keys <= s.storage.Keys
  {
    s.(user := None, storage := s.storage - {TokenKey, RefreshTokenKey, UserKey})
  }

  /** `logout()`. */
  function Logout(s: Session): (r: Session)
    ensures !IsAuthenticated(r)
    ensures !Stored(r.storage, TokenKey) && !Stored(r.storage, UserKey)
  {
    ClearAuthData(s)
  }

  /** `isAuthenticated: !!user`. */
  predicate IsAuthenticated(s: Session) {
    s.user.Some?
  }

  /** Logging out twice is logging out once. */
  lemma LogoutIdempotent(s: Session)
    ensures Logout(Logout(s)) == Logout(s)
  {
  }

  /** The mount effect on a newly mounted provider (`user` null, `isLoading` true):
      the stored user is restored only when both it and the token are stored;
      a stored user that does not parse clears all auth data.  `parse`
      returns `None` where `JSON.parse` throws. */
  function Mount(storage: Storage, parse: string -> Option<UserRef>): (r: Session)
    ensures !r.isLoading
    ensures r.user.Some? <==> Stored(storage, UserKey) && Stored(storage, TokenKey)
                               && parse(storage[UserKey]).Some?
    ensures r.user.Some? ==> r.user == parse(storage[UserKey]) && r.storage == storage
    ensures !(Stored(storage, UserKey) && Stored(storage, TokenKey)) ==> r.storage == storage
    ensures Stored(storage, UserKey) && Stored(storage, TokenKey) && parse(storage[UserKey]).None? ==>
              r.storage == storage - {TokenKey, RefreshTokenKey, UserKey}
  {
    var initial := Session(None, storage, true);
    if Stored(storage, UserKey) && Stored(storage, TokenKey) then
      match parse(storage[UserKey])
      case Some(u) => initial.(user := Some(u), isLoading := false)
      case None => ClearAuthData(initial).(isLoading := false)
    else initial.(isLoading := false)
  }

  /** After a logout nothing is restored on the next mount. */
  lemma LogoutThenMountIsAnonymous(s: Session, parse: string -> Option<UserRef>)
    ensures !IsAuthenticated(Mount(Logout(s).storage, parse))
  {
  }

  /** The JSON body of `POST /users`: `null`, an object with an optional `id`,
      or any other value (on which `id` reads as `undefined`). */
  datatype AccountJson = AccountNull | Account(id: Option<JsId>, username: string, email: string) | AccountOther

  /** `register(userData)` once `authService.register` settled with `reply`.
      `stringify` is `JSON.stringify` on the stored user. */
  function Register(s: Session, reply: Outcome<AccountJson>, stringify: UserRef -> string): (r: (Session, AuthResult))
    ensures r.1.Success? <==> reply.Returned? && reply.value.Json? && reply.value.json.Account?
                              && reply.value.json.id.Some? && IdTruthy(reply.value.json.id.value)
    ensures r.1.Success? ==>
              var a := reply.value.json;
              var u := UserRef(a.id.value, a.username, a.email);
              r.0 == s.(user := Some(u), storage := s.storage[UserKey := stringify(u)])
    ensures r.1.Failure? ==> r.0 == s
    ensures reply.Threw? ==> r.1 == Failure(MessageOr(reply.message, "Registration failed"))
    ensures reply.Returned? && (reply.value == Null || reply.value == Json(AccountNull)) ==>
              r.1 == Failure(NullAccessMessage("id"))
  {
    match reply
    case Threw(m) => (s, Failure(MessageOr(m, "Registration failed")))
    case Returned(v) =>
      match v
      case Null => (s, Failure(NullAccessMessage("id")))
      case Text(_) => (s, Failure("Registration failed"))
      case Json(AccountNull) => (s, Failure(NullAccessMessage("id")))
      case Json(AccountOther) => (s, Failure("Registration failed"))
      case Json(Account(id, username, email)) =>
        if id.Some? && IdTruthy(id.value) then
          var u := UserRef(id.value, username, email);
          (s.(user := Some(u), storage := s.storage[UserKey := stringify(u)]), Success)
        else (s, Failure("Registration failed"))
  }

  /** Registering stores the user but no token, so unless a token was already
      stored, the next mount does not restore the new account. */
  lemma RegisterAloneDoesNotRestore(s: Session, reply: Outcome<AccountJson>,
                                    stringify: UserRef -> string, parse: string -> Option<UserRef>)
    requires !Stored(s.storage, TokenKey)
    ensures !IsAuthenticated(Mount(Register(s, reply, stringify).0.storage, parse))
  {
  }

  /** The JSON body of `POST /users/login`. */
  datatype LoginJson = LoginNull | Tokens(token: Option<string>, refreshToken: Option<string>) | LoginOther

  /** The JSON body of `GET /users`. */
  datatype UsersJson = UsersNull | UserList(users: seq<UserRef>) | UsersOther

  /** `users.find(user => user.username === username)`. */
  function FindByUsername(users: seq<UserRef>, username: string): (r: Option<nat>)
    ensures r.Some? ==> r.value < |users| && users[r.value].username == username
    ensures r.Some? ==> forall j :: 0 <= j < r.value ==> users[j].username != username
    ensures r.None? ==> forall j :: 0 <= j < |users| ==> users[j].username != username
    decreases |users|
  {
    if |users| == 0 then None
    else if users[0].username == username then Some(0)
    else match FindByUsername(users[1..], username)
      case Some(i) => Some(i + 1)
      case None => None
  }

  /** `login(username, password)` once the login request settled with
      `loginReply` and, if a token came back, the user list with `usersReply`. */
  function Login(s: Session, username: string, loginReply: Outcome<LoginJson>,
                 usersReply: Outcome<UsersJson>, stringify: UserRef -> string): (r: (Session, AuthResult))
    ensures loginReply.Threw? ==> r == (s, Failure(MessageOr(loginReply.message, "Login failed")))
    ensures loginReply.Returned? && loginReply.value.Text? ==>
              r == (s, Failure("Invalid response from server"))
    ensures loginReply.Returned? && loginReply.value.Json? && loginReply.value.json.Tokens? &&
            !StrTruthy(loginReply.value.json.token) ==>
              r == (s, Failure("Invalid response from server"))
    ensures r.1.Success? ==>
              && loginReply.Returned? && loginReply.value.Json? && loginReply.value.json.Tokens?
              && usersReply.Returned? && usersReply.value.Json? && usersReply.value.json.UserList?
              && var t := loginReply.value.json;
                 var users := usersReply.value.json.users;
                 var i := FindByUsername(users, username);
                 && i.Some?
                 && r.0.user == Some(users[i.value])
                 && TokenKey in r.0.storage && r.0.storage[TokenKey] == t.token.value
                 && UserKey in r.0.storage && r.0.storage[UserKey] == stringify(users[i.value])
                 && (StrTruthy(t.refreshToken) ==> RefreshTokenKey in r.0.storage && r.0.storage[RefreshTokenKey] == t.refreshToken.value)
                 && (!StrTruthy(t.refreshToken) ==>
                       (RefreshTokenKey in r.0.storage <==> RefreshTokenKey in s.storage))
    ensures r.1.Failure? ==> r.0.user == s.user
  {
    match loginReply
    case Threw(m) => (s, Failure(MessageOr(m, "Login failed")))
    case Returned(v) =>
      match v
      case Null => (s, Failure(NullAccessMessage("token")))
      case Text(_) => (s, Failure("Invalid response from server"))
      case Json(LoginNull) => (s, Failure(NullAccessMessage("token")))
      case Json(LoginOther) => (s, Failure("Invalid response from server"))
      case Json(Tokens(token, refreshToken)) =>
        if !StrTruthy(token) then (s, Failure("Invalid response from server"))
        else
          var withToken := s.storage[TokenKey := token.value];
          var stored := if StrTruthy(refreshToken)
                        then withToken[RefreshTokenKey := refreshToken.value]
                        else withToken;
          var s1 := s.(storage := stored);
          LoginWithUsers(s1, username, usersReply, stringify)
  }

  /** The part of `login` after the tokens are stored: look the user up. */
  function LoginWithUsers(s: Session, username: string, usersReply: Outcome<UsersJson>,
                          stringify: UserRef -> string): (r: (Session, AuthResult))
    ensures r.1.Failure? ==> r.0 == s
    ensures usersReply.Threw? ==> r.1 == Failure(MessageOr(usersReply.message, "Login failed"))
    ensures usersReply.Returned? && usersReply.value.Json? && usersReply.value.json.UserList? ==>
              var users := usersReply.value.json.users;
              match FindByUsername(users, username)
              case None => r == (s, Failure("User profile not found"))
              case Some(i) =>
                r == (s.(user := Some(users[i]), storage := s.storage[UserKey := stringify(users[i])]), Success)
  {
    match usersReply
    case Threw(m) => (s, Failure(MessageOr(m, "Login failed")))
    case Returned(v) =>
      match v
      case Null => (s, Failure(NullAccessMessage("find")))
      case Json(UsersNull) => (s, Failure(NullAccessMessage("find")))
      case Text(_) => (s, Failure("users.find is not a function"))
      case Json(UsersOther) => (s, Failure("users.find is not a function"))
      case Json(UserList(users)) =>
        match FindByUsername(users, username)
        case None => (s, Failure("User profile not found"))
        case Some(i) =>
          (s.(user := Some(users[i]), storage := s.storage[UserKey := stringify(users[i])]), Success)
  }

  /** When the server knows the token but the user list lacks the name, login
      fails yet the token stays stored. */
  lemma UnknownProfileKeepsToken(s: Session, username: string, token: string,
                                 refreshToken: Option<string>, users: seq<UserRef>,
                                 stringify: UserRef -> string)
    requires token != ""
    requires forall j :: 0 <= j < |users| ==> users[j].username != username
    ensures var r := Login(s, username, Returned(Json(Tokens(Some(token), refreshToken))),
                           Returned(Json(UserList(users))), stringify);
            && r.1 == Failure("User profile not found")
            && r.0.user == s.user
            && Stored(r.0.storage, TokenKey) && r.0.storage[TokenKey] == token
  {
  }

  /** A successful login survives a reload: the next mount restores the same
      user, provided `JSON.parse` inverts `JSON.stringify` on users. */
  lemma LoginThenMountRestores(s: Session, username: string, loginReply: Outcome<LoginJson>,
                               usersReply: Outcome<UsersJson>, stringify: UserRef -> string,
                               parse: string -> Option<UserRef>)
    requires forall u :: parse(stringify(u)) == Some(u) && stringify(u) != ""
    requires Login(s, username, loginReply, usersReply, stringify).1.Success?
    ensures var r := Login(s, username, loginReply, usersReply, stringify).0;
            Mount(r.storage, parse).user == r.user && IsAuthenticated(r)
  {
    var r := Login(s, username, loginReply, usersReply, stringify).0;
    var u := r.user.value;
    assert r.storage[UserKey] == stringify(u);
    assert parse(stringify(u)) == Some(u);
  }
}
