/**
 * The two tables behind the service, `Usuario` and `WaterData`
 * (backend/app.py:26-47), with the routes that read and change them:
 * `register` (backend/app.py:75-89), `get_data` (backend/app.py:136-143),
 * `update_data` (backend/app.py:148-184) and `get_statistics`
 * (backend/app.py:188-205), each behind the token gate.
 *
 * A commit is atomic: a request that raises stores nothing.
 */
module Store {
  import opened Wrappers
  import opened Ledger
  import opened Auth
  import opened Statistics

  /** The outcome of `POST /register`. */
  datatype RegisterOutcome =
    | Created          // 201
    | EmailTaken       // 409 "Este email já está em uso"
    | RegisterCrash    // 500: the hasher refuses an empty password, or the NOT NULL email fails at commit

  function RegisterStatus(r: RegisterOutcome): (code: int)
    ensures code == 201 <==> r.Created?
    ensures code == 409 <==> r.EmailTaken?
    ensures code == 500 <==> r.RegisterCrash?
  {
    match r
    case Created => 201
    case EmailTaken => 409
    case RegisterCrash => 500
  }

  /**
   * Which way `register` goes: the email is looked up first (an absent email
   * matches no row), then the password is hashed (the hasher raises on an
   * absent or empty password), then the row is committed (an absent email
   * violates NOT NULL).
   */
  function RegisterDecision(users: map<Email, User>, email: Option<Email>, password: Option<string>): (r: RegisterOutcome)
    ensures r.EmailTaken? <==> email.Some? && email.value in users
    ensures r.Created? <==> email.Some? && email.value !in users && Present(password)
  {
    if email.Some? && email.value in users then EmailTaken
    else if !Present(password) then RegisterCrash
    else if email.None? then RegisterCrash
    else Created
  }

  /** The reply of a protected route. */
  datatype Reply<T> =
    | Rejected(gate: GateOutcome)   // the gate answered (401, or 500 for a header without a space)
    | RouteCrash                    // 500: the route body raised (no user for the token's subject, or a division by zero)
    | Served(value: T)              // 200

  function ReplyStatus<T>(r: Reply<T>): (code: int)
    requires r.Rejected? ==> !r.gate.Admitted?
    ensures r.Served? <==> code == 200
    ensures r.Rejected? ==> code == GateStatus(r.gate)
    ensures r.RouteCrash? ==> code == 500
  {
    match r
    case Rejected(g) => GateStatus(g)
    case RouteCrash => 500
    case Served(_) => 200
  }

  /** What `POST /api/data` reports after an update. */
  datatype StreakReport = StreakReport(streak: int, bestStreak: int)

  function UserIds(users: map<Email, User>): set<nat> {
    set e | e in users :: users[e].id
  }

  lemma UserIdsInsert(users: map<Email, User>, e: Email, u: User)
    requires e !in users
    ensures UserIds(users[e := u]) == UserIds(users) + {u.id}
  {
    var after := users[e := u];
    forall x | x in UserIds(users) ensures x in UserIds(after) {
      var e' :| e' in users && users[e'].id == x;
      assert after[e'].id == x;
    }
    assert after[e].id == u.id;
  }

  class Store {
    var users: map<Email, User>
    var ledgers: map<nat, WaterData>
    var nextId: nat

    /**
     * Emails are unique keys, ids are unique and below the next id to hand
     * out, every user has exactly one ledger and every ledger belongs to a
     * user, and every ledger keeps its own invariant.
     */
    ghost predicate Valid()
      reads this, ledgers.Values
    {
      && (forall e :: e in users ==> users[e].email == e && users[e].id < nextId)
      && UniqueIds(users)
      && ledgers.Keys == UserIds(users)
      && (forall id :: id in ledgers ==> ledgers[id].userId == id && Wellformed(ledgers[id].State()))
    }

    constructor ()
      ensures Valid()
      ensures users == map[] && ledgers == map[]
    {
      users, ledgers, nextId := map[], map[], 1;
    }

    /**
     * `register`: a taken email changes nothing; otherwise one user row and
     * one ledger row with every column at its default are added together.
     * `passwordHash` is what the hasher made of `password`; `createdDay` is
     * the UTC date of the request.
     */
    method Register(email: Option<Email>, password: Option<string>, passwordHash: string, createdDay: Day)
      returns (outcome: RegisterOutcome)
      requires Valid()
      modifies this
      ensures Valid()
      ensures outcome == RegisterDecision(old(users), email, password)
      ensures !outcome.Created? ==> users == old(users) && ledgers == old(ledgers) && nextId == old(nextId)
      ensures outcome.Created? ==>
                var id := old(nextId);
                && email.value !in old(users)
                && users == old(users)[email.value := User(id, email.value, passwordHash, createdDay)]
                && id !in old(ledgers)
                && ledgers.Keys == old(ledgers).Keys + {id}
                && (forall k :: k in old(ledgers) ==> ledgers[k] == old(ledgers)[k])
                && fresh(ledgers[id])
                && ledgers[id].State() == Fresh()
    {
      if email.Some? && email.value in users {
        return EmailTaken;
      }
      if !Present(password) || email.None? {
        return RegisterCrash;
      }
      var id := nextId;
      var user := User(id, email.value, passwordHash, createdDay);
      var waterData := new WaterData(id);
      assert id !in UserIds(users);
      UserIdsInsert(users, email.value, user);
      users := users[email.value := user];
      ledgers := ledgers[id := waterData];
      nextId := nextId + 1;
      return Created;
    }

    /** The ledger of the user a request is admitted for, if the gate admits one. */
    ghost function AdmittedUser(header: Option<string>, decode: string -> Option<nat>): (u: Option<User>)
      reads this, ledgers.Values
      requires Valid()
      ensures u.Some? ==> u.value in users.Values && u.value.id in ledgers
    {
      var g := Authorize(header, decode, users);
      if g.Admitted? && g.user.Some? then
        assert g.user.value.id in UserIds(users);
        g.user
      else None
    }

    /** `GET /api/data`: the caller's consumed, goal, streak and best streak. */
    ghost function GetData(header: Option<string>, decode: string -> Option<nat>): (r: Reply<DataView>)
      reads this, ledgers.Values
      requires Valid()
      ensures r.Served? <==> AdmittedUser(header, decode).Some?
      ensures r.Served? ==> r.value == View(ledgers[AdmittedUser(header, decode).value.id].State())
      ensures r.Served? ==> r.value.streak <= r.value.bestStreak
      ensures r.RouteCrash? <==> Authorize(header, decode, users) == Admitted(None)
      ensures r.Rejected? ==> r.gate == Authorize(header, decode, users) && !r.gate.Admitted?
    {
      var g := Authorize(header, decode, users);
      if !g.Admitted? then Rejected(g)
      else match g.user
        case None => RouteCrash
        case Some(u) =>
          assert u.id in UserIds(users);
          Served(View(ledgers[u.id].State()))
    }

    /**
     * `POST /api/data`: the caller's ledger, and no other, takes the update;
     * a request the gate rejects, or one without a user, changes nothing.
     */
    method PostData(header: Option<string>, decode: string -> Option<nat>,
                    today: Day, newConsumed: Option<int>, newGoal: Option<int>)
      returns (reply: Reply<StreakReport>)
      requires Valid()
      modifies ledgers.Values
      ensures Valid()
      ensures users == old(users) && ledgers == old(ledgers) && nextId == old(nextId)
      ensures reply.Served? <==> old(AdmittedUser(header, decode)).Some?
      ensures reply.RouteCrash? <==> Authorize(header, decode, users) == Admitted(None)
      ensures reply.Rejected? ==> reply.gate == Authorize(header, decode, users)
      ensures reply.Served? ==>
                var id := old(AdmittedUser(header, decode)).value.id;
                && ledgers[id].State() == ApplyUpdate(old(ledgers[id].State()), today, newConsumed, newGoal)
                && reply.value == StreakReport(ledgers[id].streak, ledgers[id].bestStreak)
      ensures forall id :: id in ledgers && !(reply.Served? && id == old(AdmittedUser(header, decode)).value.id) ==>
                ledgers[id].State() == old(ledgers[id].State())
    {
      // The gate, as `Auth.Authorize` states it; that function is ghost, so the
      // branch below computes the same outcome and the ensures tie it back.
      var h := ExtractToken(header);
      match h
      case NoToken =>
        reply := Rejected(TokenMissing);
      case HeaderCrash =>
        reply := Rejected(GateCrash);
      case Bearer(token) =>
        var sub := decode(token);
        if sub.None? {
          reply := Rejected(TokenInvalid);
        } else if e :| e in users && users[e].id == sub.value {
          assert sub.value in UserIds(users);
          var waterData := ledgers[sub.value];
          var streak, best := waterData.Update(today, newConsumed, newGoal);
          reply := Served(StreakReport(streak, best));
        } else {
          reply := RouteCrash;
        }
    }

    /** `GET /api/statistics` on the server's local date `today`. */
    ghost function GetStatistics(header: Option<string>, decode: string -> Option<nat>, today: Day): (r: Reply<Stats>)
      reads this, ledgers.Values
      requires Valid()
      ensures r.Served? ==> AdmittedUser(header, decode).Some?
      ensures r.Served? && AdmittedUser(header, decode).Some? ==>
                var u := AdmittedUser(header, decode).value;
                ComputeStatistics(u.createdDay, ledgers[u.id].State(), today) == Some(r.value)
      ensures r.Served? ==> r.value.bestStreak >= 0 && r.value.lifetimeConsumed >= 0
      ensures AdmittedUser(header, decode).Some? && AdmittedUser(header, decode).value.createdDay <= today ==>
                r.Served? && r.value.daysSinceRegistration >= 1
      ensures r.RouteCrash? <==>
                || Authorize(header, decode, users) == Admitted(None)
                || (AdmittedUser(header, decode).Some? && AdmittedUser(header, decode).value.createdDay == today + 1)
      ensures r.Rejected? ==> r.gate == Authorize(header, decode, users) && !r.gate.Admitted?
    {
      var g := Authorize(header, decode, users);
      if !g.Admitted? then Rejected(g)
      else match g.user
        case None => RouteCrash
        case Some(u) =>
          assert u.id in UserIds(users);
          match ComputeStatistics(u.createdDay, ledgers[u.id].State(), today)
          case None => RouteCrash
          case Some(stats) => Served(stats)
    }
  }
}
