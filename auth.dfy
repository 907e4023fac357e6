/** The `token_required` decorator (mistral/views.py:26-44) and the guard
    sequence of `Login.post` (mistral/views.py:57-90).

    PyJWT is not modelled: `jwt.decode` is a parameter mapping a token to
    its outcome, and `jwt.encode` a parameter mapping claims to a token. */
module Auth {
  import opened Http

  // ---------------------------------------------------------------------
  // `str.split(sep)` with a one-character separator

  /** The pieces of s between occurrences of sep, empty ones included. */
  function Split(s: string, sep: char): (parts: seq<string>)
    ensures |parts| >= 1
    decreases |s|
  {
    if s == [] then [""]
    else
      var rest := Split(s[1..], sep);
      if s[0] == sep then [""] + rest else [[s[0]] + rest[0]] + rest[1..]
  }

  /** The parts concatenated with one separator between neighbours. */
  function Join(parts: seq<string>, sep: char): string
    decreases |parts|
  {
    if parts == [] then ""
    else if |parts| == 1 then parts[0]
    else parts[0] + ([sep] + Join(parts[1..], sep))
  }

  lemma JoinCons(p: string, rest: seq<string>, sep: char)
    requires rest != []
    ensures Join([p] + rest, sep) == p + ([sep] + Join(rest, sep))
  {
  }

  /** Joining the pieces with the separator gives back the text. */
  lemma {:induction false} SplitJoin(s: string, sep: char)
    ensures Join(Split(s, sep), sep) == s
    decreases |s|
  {
    if s != [] {
      var rest := Split(s[1..], sep);
      SplitJoin(s[1..], sep);
      if s[0] == sep {
        JoinCons("", rest, sep);
        assert s == [sep] + s[1..];
      } else if |rest| == 1 {
        assert s == [s[0]] + s[1..];
      } else {
        var parts := [[s[0]] + rest[0]] + rest[1..];
        assert parts[1..] == rest[1..];
        assert rest == [rest[0]] + rest[1..];
        JoinCons(rest[0], rest[1..], sep);
        assert s == [s[0]] + s[1..];
      }
    }
  }

  /** No piece holds the separator, and there is one piece more than there
      are separators. */
  lemma {:induction false} SplitPieces(s: string, sep: char)
    ensures forall i :: 0 <= i < |Split(s, sep)| ==> sep !in Split(s, sep)[i]
    ensures |Split(s, sep)| == multiset(s)[sep] + 1
    decreases |s|
  {
    if s != [] {
      SplitPieces(s[1..], sep);
      assert s == [s[0]] + s[1..];
    }
  }

  /** The first piece is the longest prefix without a separator. */
  lemma {:induction false} SplitFirst(s: string, sep: char)
    ensures var f := Split(s, sep)[0];
      f <= s && sep !in f && (|f| == |s| || s[|f|] == sep)
    decreases |s|
  {
    if s != [] {
      SplitFirst(s[1..], sep);
    }
  }

  /** A field followed by the separator comes off as the first piece. */
  lemma {:induction false} SplitAfterField(w: string, sep: char, t: string)
    requires sep !in w
    ensures Split(w + ([sep] + t), sep) == [w] + Split(t, sep)
    decreases |w|
  {
    if w == [] {
      assert w + ([sep] + t) == [sep] + t;
      assert ([sep] + t)[1..] == t;
    } else {
      assert (w + ([sep] + t))[1..] == w[1..] + ([sep] + t);
      SplitAfterField(w[1..], sep, t);
      assert [w[0]] + w[1..] == w;
    }
  }

  // ---------------------------------------------------------------------
  // The token gate

  const TokenMissing := "Token is missing!"
  const TokenExpired := "Token has expired!"
  const TokenInvalid := "Invalid token!"
  const BearerPrefix := "Bearer "

  /** What `jwt.decode(token, 'secret', algorithms=['HS256'])` does: return
      the payload, raise `ExpiredSignatureError`, or raise another
      `InvalidTokenError` (bad signature, malformed token, wrong algorithm,
      a claim that fails validation); every error PyJWT's decode raises is
      an `InvalidTokenError`. */
  datatype Decoded =
    | Claims(claims: map<string, JsonValue>)
    | Expired
    | Invalid(reason: string)

  /** Whether the wrapped view runs: it runs with the payload's `id` as
      `user_id`, or the gate answers instead. */
  datatype GateOutcome = Reject(response: Response) | Admit(userId: JsonValue)

  /** A header that starts with `Bearer ` splits into at least two fields,
      the second being the first field of what follows the prefix. */
  lemma BearerSplit(header: string)
    requires BearerPrefix <= header
    ensures |Split(header, ' ')| >= 2
    ensures Split(header, ' ')[1] == Split(header[|BearerPrefix|..], ' ')[0]
  {
    var rest := header[|BearerPrefix|..];
    assert header == "Bearer" + ([' '] + rest);
    SplitAfterField("Bearer", ' ', rest);
  }

  /** Lines 34-35: a `Bearer ` prefix is replaced by the second
      space-separated field; any other header is the token as it stands. */
  function BearerToken(header: string): string {
    if BearerPrefix <= header then
      BearerSplit(header);
      Split(header, ' ')[1]
    else header
  }

  /** `decorated_function` up to the call of the wrapped view. */
  function Gate(header: Option<string>, decode: string -> Decoded): GateOutcome {
    if header.None? || header.value == "" then
      Reject(JsonResponse(403, ErrorBody(TokenMissing)))
    else
      match decode(BearerToken(header.value))
      case Expired => Reject(JsonResponse(403, ErrorBody(TokenExpired)))
      case Invalid(_) => Reject(JsonResponse(403, ErrorBody(TokenInvalid)))
      case Claims(claims) =>
        // `payload['id']` raises KeyError, which neither except clause catches
        if "id" in claims then Admit(claims["id"]) else Reject(Unhandled("KeyError: 'id'"))
  }

  /** `decorated_function` for one request: the gate's decision, and
      `request.user_id` set exactly when it admits the request. */
  method TokenRequired(req: Request, decode: string -> Decoded) returns (outcome: GateOutcome)
    modifies req`userId
    ensures outcome == Gate(req.authorization, decode)
    ensures outcome.Admit? ==> req.userId == Some(outcome.userId)
    ensures !outcome.Admit? ==> req.userId == old(req.userId)
  {
    var token := req.authorization;
    if token.None? || token.value == "" {
      return Reject(JsonResponse(403, ErrorBody(TokenMissing)));
    }
    var t := token.value;
    if BearerPrefix <= t {
      BearerSplit(t);
      t := Split(t, ' ')[1];
    }
    var payload := decode(t);
    match payload
    case Expired =>
      outcome := Reject(JsonResponse(403, ErrorBody(TokenExpired)));
    case Invalid(_) =>
      outcome := Reject(JsonResponse(403, ErrorBody(TokenInvalid)));
    case Claims(claims) =>
      if "id" !in claims {
        return Reject(Unhandled("KeyError: 'id'"));
      }
      req.userId := Some(claims["id"]);
      outcome := Admit(claims["id"]);
  }

  /** An absent or empty header is refused as missing whatever the decoder
      would say. */
  lemma GateMissing(header: Option<string>, decode: string -> Decoded)
    requires header.None? || header.value == ""
    ensures Gate(header, decode) == Reject(JsonResponse(403, ErrorBody(TokenMissing)))
  {
  }

  /** With `Bearer ` the token is the text after the prefix up to the next
      space; without it the whole header is the token. */
  lemma BearerField(header: string)
    ensures BearerPrefix <= header ==>
      var rest := header[|BearerPrefix|..];
      var t := BearerToken(header);
      t <= rest && ' ' !in t && (|t| == |rest| || rest[|t|] == ' ')
    ensures !(BearerPrefix <= header) ==> BearerToken(header) == header
  {
    if BearerPrefix <= header {
      BearerSplit(header);
      SplitFirst(header[|BearerPrefix|..], ' ');
    }
  }

  /** The gate looks at the decoder only on the token it extracts: two
      decoders that agree there give the same outcome. */
  lemma GateReadsOnlyToken(header: Option<string>, d1: string -> Decoded, d2: string -> Decoded)
    requires header.Some? ==> d1(BearerToken(header.value)) == d2(BearerToken(header.value))
    ensures Gate(header, d1) == Gate(header, d2)
  {
  }

  /** The wrapped view runs exactly when the header is present and not
      empty, the token decodes, and the payload carries an `id`; it then
      sees that `id`.  Expiry and other decode errors answer 403 with their
      own messages; a payload without `id` raises a `KeyError` that escapes
      the gate. */
  lemma GateAdmits(header: Option<string>, decode: string -> Decoded)
    ensures Gate(header, decode).Admit? <==>
      header.Some? && header.value != "" && decode(BearerToken(header.value)).Claims?
      && "id" in decode(BearerToken(header.value)).claims
    ensures Gate(header, decode).Admit? ==>
      Gate(header, decode).userId == decode(BearerToken(header.value)).claims["id"]
    ensures header.Some? && header.value != "" && decode(BearerToken(header.value)) == Expired ==>
      Gate(header, decode) == Reject(JsonResponse(403, ErrorBody(TokenExpired)))
    ensures header.Some? && header.value != "" && decode(BearerToken(header.value)).Invalid? ==>
      Gate(header, decode) == Reject(JsonResponse(403, ErrorBody(TokenInvalid)))
    ensures (header.Some? && header.value != "" && decode(BearerToken(header.value)).Claims?
             && "id" !in decode(BearerToken(header.value)).claims) ==>
      Gate(header, decode) == Reject(Unhandled("KeyError: 'id'"))
  {
  }

  // ---------------------------------------------------------------------
  // `Login.post`

  /** A row of the user table. */
  datatype User = User(id: int, email: string, passwordHash: string)

  /** The user the login looks up by email.  The query gives no ordering,
      so the first match is taken in primary-key order: the matching user
      with the least id. */
  function FirstWithEmail(users: seq<User>, email: string): (r: Option<User>)
    ensures r.None? <==> forall i :: 0 <= i < |users| ==> users[i].email != email
    ensures r.Some? ==> r.value in users && r.value.email == email
    ensures r.Some? ==> forall i :: 0 <= i < |users| && users[i].email == email ==> r.value.id <= users[i].id
    decreases |users|
  {
    if users == [] then None
    else
      var rest := FirstWithEmail(users[1..], email);
      assert forall i :: 1 <= i < |users| ==> users[i] == users[1..][i - 1];
      if users[0].email != email then rest
      else if rest.None? || users[0].id <= rest.value.id then Some(users[0])
      else rest
  }

  /** A token lives for `datetime.timedelta(minutes=60)`. */
  const TokenLifetime := 3600

  datatype Cookie = Cookie(key: string, value: string, httpOnly: bool)

  /** What `Login.post` ends with.  `AuthFailed` is a raised
      `AuthenticationFailed`, which the framework turns into an error
      response carrying `detail`; `Crashed` is an exception that escapes. */
  datatype LoginOutcome =
    | LoggedIn(token: string, claims: map<string, JsonValue>, cookie: Cookie)
    | AuthFailed(detail: string)
    | Crashed(exception: string)

  /** The payload of lines 71-75, as PyJWT puts it on the wire: datetimes
      become whole seconds since the epoch.  `expClock` and `iatClock` are
      the two `utcnow()` readings, in seconds. */
  function IssuedClaims(id: int, expClock: int, iatClock: int): map<string, JsonValue> {
    map["id" := JInt(id), "exp" := JInt(expClock + TokenLifetime), "iat" := JInt(iatClock)]
  }

  /** `Login.post(request)`.  `data` is `request.data`, `checkPassword` is
      `user.check_password` and `encode` is `jwt.encode(…, 'secret',
      algorithm='HS256')`. */
  function LoginPost(data: map<string, string>, users: seq<User>,
                     checkPassword: (User, string) -> bool,
                     encode: map<string, JsonValue> -> string,
                     expClock: int, iatClock: int): LoginOutcome
  {
    if "email" !in data then Crashed("KeyError: 'email'")
    else if "password" !in data then Crashed("KeyError: 'password'")
    else
      match FirstWithEmail(users, data["email"])
      case None => AuthFailed("User not found")
      case Some(user) =>
        if !checkPassword(user, data["password"]) then AuthFailed("Incorrect password")
        else
          var claims := IssuedClaims(user.id, expClock, iatClock);
          var token := encode(claims);
          LoggedIn(token, claims, Cookie("token", token, true))
  }

  /** A token is issued exactly when a user with the email exists and the
      password check passes on the first such user; it carries that user's
      id, expires an hour after the first clock reading, and is set as an
      HTTP-only cookie named `token`.  An unknown email is refused before
      any password is checked. */
  lemma LoginIssues(data: map<string, string>, users: seq<User>,
                    checkPassword: (User, string) -> bool,
                    encode: map<string, JsonValue> -> string, expClock: int, iatClock: int)
    requires "email" in data && "password" in data
    ensures var r := LoginPost(data, users, checkPassword, encode, expClock, iatClock);
      var first := FirstWithEmail(users, data["email"]);
      (r.LoggedIn? <==> first.Some? && checkPassword(first.value, data["password"]))
      && (r.LoggedIn? ==>
            r.claims.Keys == {"id", "exp", "iat"}
            && r.claims["id"] == JInt(first.value.id)
            && r.claims["exp"] == JInt(expClock + 3600)
            && r.claims["iat"] == JInt(iatClock)
            && r.token == encode(r.claims)
            && r.cookie == Cookie("token", r.token, true))
      && (first.None? ==> r == AuthFailed("User not found"))
      && (first.Some? && !checkPassword(first.value, data["password"]) ==> r == AuthFailed("Incorrect password"))
  {
  }

  /** A missing field is a KeyError, email first. */
  lemma LoginMissingField(data: map<string, string>, users: seq<User>,
                          checkPassword: (User, string) -> bool,
                          encode: map<string, JsonValue> -> string, expClock: int, iatClock: int)
    requires "email" !in data || "password" !in data
    ensures LoginPost(data, users, checkPassword, encode, expClock, iatClock).Crashed?
    ensures "email" !in data ==>
      LoginPost(data, users, checkPassword, encode, expClock, iatClock) == Crashed("KeyError: 'email'")
    ensures "email" in data && "password" !in data ==>
      LoginPost(data, users, checkPassword, encode, expClock, iatClock) == Crashed("KeyError: 'password'")
  {
  }

  /** A token issued by `Login.post`, sent back either bare or after
      `Bearer `, passes the gate with the user's id, provided the decoder
      recovers the claims it was given (the token is not yet expired) and
      the token has no space in it, as a JWT never does. */
  lemma IssuedTokenPassesGate(data: map<string, string>, users: seq<User>,
                              checkPassword: (User, string) -> bool,
                              encode: map<string, JsonValue> -> string,
                              decode: string -> Decoded, expClock: int, iatClock: int)
    requires LoginPost(data, users, checkPassword, encode, expClock, iatClock).LoggedIn?
    requires var r := LoginPost(data, users, checkPassword, encode, expClock, iatClock);
      ' ' !in r.token && r.token != "" && decode(r.token) == Claims(r.claims)
    ensures var r := LoginPost(data, users, checkPassword, encode, expClock, iatClock);
      var user := FirstWithEmail(users, data["email"]).value;
      Gate(Some(BearerPrefix + r.token), decode) == Admit(JInt(user.id))
      && Gate(Some(r.token), decode) == Admit(JInt(user.id))
  {
    var r := LoginPost(data, users, checkPassword, encode, expClock, iatClock);
    var header := BearerPrefix + r.token;
    assert header[|BearerPrefix|..] == r.token;
    BearerField(header);
    assert BearerToken(header) == r.token;
    assert BearerPrefix[6] == ' ';
  }
}
