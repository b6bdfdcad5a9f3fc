/**
 * The credential side of the service: the `Usuario` record
 * (backend/app.py:26-36), the token gate in front of every protected route
 * (`token_required`, backend/app.py:51-70) and the login decision
 * (`login`, backend/app.py:92-131).
 *
 * Password hashing and token signing are foreign code: the stored hash is an
 * opaque string, the hash check is a predicate `check(hash, password)`, and
 * token decoding is a function `decode(token)` that yields the subject's id,
 * or nothing when decoding fails for any reason (bad signature, expired,
 * malformed, no subject).
 */
module Auth {
  import opened Wrappers

  type Email = string

  /** A row of `Usuario`; `createdDay` is the UTC date of `created_at`. */
  datatype User = User(id: nat, email: Email, passwordHash: string, createdDay: int)

  /** No two users share an id (the primary key). */
  ghost predicate UniqueIds(users: map<Email, User>) {
    forall e1, e2 :: e1 in users && e2 in users && users[e1].id == users[e2].id ==> e1 == e2
  }

  /** `Usuario.query.get(id)`: the user with that primary key, if any. */
  ghost function LookupId(users: map<Email, User>, id: nat): (r: Option<User>)
    ensures r.Some? ==> r.value.id == id && r.value in users.Values
    ensures r.None? <==> forall e :: e in users ==> users[e].id != id
    ensures UniqueIds(users) ==> forall e :: e in users && users[e].id == id ==> r == Some(users[e])
  {
    if exists e :: e in users && users[e].id == id then
      var e :| e in users && users[e].id == id; Some(users[e])
    else None
  }

  // ---------------------------------------------------------------------
  // Python's str.split(" ")

  /** The position of the first `sep` in `s`. */
  function FirstIndex(s: string, sep: char): (i: nat)
    requires sep in s
    ensures i < |s| && s[i] == sep && sep !in s[..i]
  {
    if s[0] == sep then 0
    else
      assert sep in s[1..] by { assert s == [s[0]] + s[1..]; }
      var j := FirstIndex(s[1..], sep);
      assert s[..j + 1] == [s[0]] + s[1..][..j];
      j + 1
  }

  /**
   * `s.split(sep)` for a one-character separator: the text before the first
   * separator, then the split of the rest; empty fields are kept.
   */
  function Split(s: string, sep: char): (parts: seq<string>)
    ensures |parts| >= 1
    ensures forall i :: 0 <= i < |parts| ==> sep !in parts[i]
    ensures |parts| == 1 <==> sep !in s
    decreases |s|
  {
    if sep !in s then [s]
    else
      var i := FirstIndex(s, sep);
      [s[..i]] + Split(s[i + 1..], sep)
  }

  /** `sep.join(parts)`. */
  function Join(parts: seq<string>, sep: char): string {
    if parts == [] then ""
    else if |parts| == 1 then parts[0]
    else parts[0] + [sep] + Join(parts[1..], sep)
  }

  lemma Reassemble(s: string, i: nat)
    requires i < |s|
    ensures s == s[..i] + [s[i]] + s[i + 1..]
  {
  }

  /** Joining the fields of a split gives back the string. */
  lemma {:induction false} JoinSplit(s: string, sep: char)
    ensures Join(Split(s, sep), sep) == s
    decreases |s|
  {
    if sep in s {
      var i := FirstIndex(s, sep);
      var rest := s[i + 1..];
      var parts := Split(s, sep);
      assert parts == [s[..i]] + Split(rest, sep);
      assert parts[0] == s[..i] && parts[1..] == Split(rest, sep);
      JoinSplit(rest, sep);
      assert Join(parts, sep) == s[..i] + [sep] + rest;
      Reassemble(s, i);
    }
  }

  /** Splitting a separator-free field followed by a separator and more text. */
  lemma SplitField(a: string, b: string, sep: char)
    requires sep !in a
    ensures Split(a + [sep] + b, sep) == [a] + Split(b, sep)
  {
    var s := a + [sep] + b;
    assert s[|a|] == sep;
    assert s[..|a|] == a;
    assert s[|a| + 1..] == b;
  }

  /** Splitting a join of separator-free fields gives back the fields. */
  lemma {:induction false} SplitJoin(parts: seq<string>, sep: char)
    requires |parts| >= 1
    requires forall i :: 0 <= i < |parts| ==> sep !in parts[i]
    ensures Split(Join(parts, sep), sep) == parts
  {
    if |parts| > 1 {
      SplitField(parts[0], Join(parts[1..], sep), sep);
      SplitJoin(parts[1..], sep);
      assert [parts[0]] + parts[1..] == parts;
    }
  }

  // ---------------------------------------------------------------------
  // The token gate

  /** What the gate reads from the `Authorization` header. */
  datatype HeaderResult =
    | NoToken          // header absent, or an empty second field
    | HeaderCrash      // no space: `split(" ")[1]` raises outside the `try`
    | Bearer(token: string)

  /**
   * `request.headers['Authorization'].split(" ")[1]` when the header is
   * present, then the `if not token` test.
   */
  function ExtractToken(header: Option<string>): (r: HeaderResult)
    ensures r.HeaderCrash? <==> header.Some? && ' ' !in header.value
    ensures r.NoToken? <==> header.None? || (' ' in header.value && Split(header.value, ' ')[1] == "")
    ensures r.Bearer? ==> r.token != "" && ' ' !in r.token
    ensures r.Bearer? ==> header.Some? && r.token == Split(header.value, ' ')[1]
  {
    match header
    case None => NoToken
    case Some(h) =>
      var parts := Split(h, ' ');
      if |parts| < 2 then HeaderCrash
      else if parts[1] == "" then NoToken
      else Bearer(parts[1])
  }

  /** The header the client sends: `Bearer <token>`. */
  function BearerHeader(token: string): string {
    "Bearer " + token
  }

  /** A non-empty token without spaces comes back out of the header it was sent in. */
  lemma BearerRoundTrip(token: string)
    requires token != "" && ' ' !in token
    ensures ExtractToken(Some(BearerHeader(token))) == Bearer(token)
  {
    assert BearerHeader(token) == Join(["Bearer", token], ' ');
    SplitJoin(["Bearer", token], ' ');
  }

  /** The gate's verdict, before the route body runs. */
  datatype GateOutcome =
    | TokenMissing                 // 401 "Token está faltando!"
    | TokenInvalid                 // 401 "Token é inválido!"
    | GateCrash                    // 500: uncaught IndexError
    | Admitted(user: Option<User>) // the route runs with `current_user` (possibly None)

  function GateStatus(g: GateOutcome): (code: int)
    requires !g.Admitted?
    ensures code == 401 <==> g.TokenMissing? || g.TokenInvalid?
    ensures code == 500 <==> g.GateCrash?
  {
    match g
    case TokenMissing => 401
    case TokenInvalid => 401
    case GateCrash => 500
  }

  /**
   * `token_required`: the header is read, the token decoded and the subject
   * looked up by primary key. An id that names no user is not rejected here:
   * the route then runs with no user.
   */
  ghost function Authorize(header: Option<string>, decode: string -> Option<nat>, users: map<Email, User>): (r: GateOutcome)
    ensures r.GateCrash? <==> header.Some? && ' ' !in header.value
    ensures r.TokenMissing? <==> ExtractToken(header).NoToken?
    ensures r.TokenInvalid? <==> ExtractToken(header).Bearer? && decode(ExtractToken(header).token).None?
    ensures r.Admitted? ==> ExtractToken(header).Bearer?
    ensures r.Admitted? && r.user.Some? ==>
              var u := r.user.value;
              u in users.Values && decode(ExtractToken(header).token) == Some(u.id)
    ensures r.Admitted? && r.user.None? ==>
              forall e :: e in users ==> Some(users[e].id) != decode(ExtractToken(header).token)
  {
    match ExtractToken(header)
    case NoToken => TokenMissing
    case HeaderCrash => GateCrash
    case Bearer(token) =>
      match decode(token)
      case None => TokenInvalid
      case Some(sub) => Admitted(LookupId(users, sub))
  }

  // ---------------------------------------------------------------------
  // Login

  /** The JSON body of `POST /login`; a missing body is `None`. */
  datatype LoginBody = LoginBody(email: Option<string>, password: Option<string>)

  datatype LoginResult =
    | MissingFields         // 400 "Email e senha são obrigatórios"
    | InvalidCredentials    // 401 "Credenciais inválidas"
    | Issued(subject: nat)  // 200, a token whose subject is this user id

  function LoginStatus(r: LoginResult): (code: int)
    ensures code == 200 <==> r.Issued?
    ensures code == 400 <==> r.MissingFields?
    ensures code == 401 <==> r.InvalidCredentials?
  {
    match r
    case MissingFields => 400
    case InvalidCredentials => 401
    case Issued(_) => 200
  }

  /** Python truthiness of an optional string field: present and non-empty. */
  predicate Present(field: Option<string>) {
    field.Some? && field.value != ""
  }

  predicate FieldsPresent(body: Option<LoginBody>) {
    body.Some? && Present(body.value.email) && Present(body.value.password)
  }

  /** The outcome `login` selects: missing fields, bad credentials, or a token for the user. */
  function Login(users: map<Email, User>, body: Option<LoginBody>, check: (string, string) -> bool): (r: LoginResult)
    ensures r.MissingFields? <==> !FieldsPresent(body)
    ensures r.Issued? <==>
              && FieldsPresent(body)
              && body.value.email.value in users
              && check(users[body.value.email.value].passwordHash, body.value.password.value)
    ensures r.Issued? ==> r.subject == users[body.value.email.value].id
  {
    if !FieldsPresent(body) then MissingFields
    else
      var email, password := body.value.email.value, body.value.password.value;
      if email !in users then InvalidCredentials
      else if !check(users[email].passwordHash, password) then InvalidCredentials
      else Issued(users[email].id)
  }

  /** An unknown email and a wrong password are answered identically. */
  lemma UnknownEmailLooksLikeWrongPassword(
    users: map<Email, User>, check: (string, string) -> bool,
    unknown: string, known: string, password: string, wrong: string)
    requires unknown != "" && unknown !in users
    requires known != "" && known in users
    requires password != "" && wrong != ""
    requires !check(users[known].passwordHash, wrong)
    ensures Login(users, Some(LoginBody(Some(unknown), Some(password))), check)
         == Login(users, Some(LoginBody(Some(known), Some(wrong))), check)
         == InvalidCredentials
  {
  }

  /**
   * A token issued by a login, sent back as `Bearer <token>`, admits the
   * same user, provided decoding returns the subject the token was issued for.
   */
  lemma IssuedTokenAdmitsUser(
    users: map<Email, User>, body: Option<LoginBody>, check: (string, string) -> bool,
    token: string, decode: string -> Option<nat>)
    requires UniqueIds(users)
    requires Login(users, body, check).Issued?
    requires token != "" && ' ' !in token
    requires decode(token) == Some(Login(users, body, check).subject)
    ensures Authorize(Some(BearerHeader(token)), decode, users) == Admitted(Some(users[body.value.email.value]))
  {
    BearerRoundTrip(token);
  }
}
