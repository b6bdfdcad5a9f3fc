# Water-intake ledger: a Dafny model

This project models the backend of a personal water-intake tracker: a Flask
service whose users register, log in, and then read and update a per-user
ledger of how much water they drank today, their daily goal, their streak of
goal-reaching days, their best streak and their lifetime total.

The model covers:

- **The ledger and its update engine** (`ledger.dfy`, module `Ledger`). A
  ledger row is the value `LedgerState`. `ApplyUpdate` is one `POST /api/data`
  update. It takes an optional new `consumed` and an optional new `goal`.
  It adds only positive increases of `consumed` to the lifetime total. It
  credits the streak when the post-update goal is crossed on a date other
  than the recorded last goal date, and then raises the best streak to at
  least the streak.
  `WaterData` is the row itself, a class whose `Update` method changes its
  fields in place and is proved to do exactly `ApplyUpdate`. `ApplyAll`
  and the lemmas beside it state what holds over any sequence of updates.
- **Credentials and the token gate** (`auth.dfy`, module `Auth`). This holds
  the user record, the `Authorization` header parsing (Python's
  `split(" ")[1]`, with its crash on a header without a space), the gate
  outcome and the login decision. The password check and token decoding are
  parameters.
- **Statistics** (`statistics.dfy`, module `Statistics`). This is the day count
  since registration and the zero-divisor case of the average.
- **The store** (`store.dfy`, module `Store`). The class `Store` holds the user
  table, keyed by email, and the ledger objects, keyed by user id. Its
  invariant says every user has exactly one ledger and every ledger keeps
  its own invariant. `Register` adds a user and a default ledger together, or
  changes nothing. `GetData`, `PostData` and `GetStatistics` are the three
  protected routes behind the gate.

Dates are day ordinals (`Day = int`). The server's local date and the UTC date
of registration are inputs. The password hash that bcrypt would produce is an
input to `Register`. The hash check is a predicate `check(hash, password)`.
JWT decoding is a function `decode(token)` that yields the subject id, or
nothing on any decoding failure.

## Behaviour as written

The model follows the code where a plain reading of the service's intent would
say otherwise:

- The gate does not answer every failure the same way. A missing header or
  an empty token gives 401 "Token está faltando!". A token that fails to
  decode gives 401 "Token é inválido!". A header without a space raises
  `IndexError` outside the `try` (backend/app.py:56), which gives a 500.
- A token whose subject names no user is not rejected by the gate.
  `Usuario.query.get` returns `None` and the route then fails on
  `current_user.water_data`, which gives a 500 (`Reply.RouteCrash`).
- `register` with an absent or empty password fails in the hasher. With an
  absent email it fails on the NOT NULL column at commit. Both give a 500 and
  store nothing. The email check comes first, so a taken email gives 409
  whatever the password.
- `created_at` is taken from the UTC clock (backend/app.py:30), but `today` in
  `get_statistics` is the local date (backend/app.py:191). West of UTC, a user
  who registers late in the local evening has a registration date one day
  after `today`. The day count is then 0 and the average divides by zero
  (`Statistics.UtcRegistrationAheadOfLocalDate`). The day count is at least 1
  exactly when the registration date is not after `today`.
- A streak is never reset when a day is skipped. It counts credits, not
  consecutive days and not distinct dates. The second best-streak check (backend/app.py:176-177)
  restores `best_streak >= streak` whatever the stored values were.
- Only the last credited date is remembered (backend/app.py:169). If the
  server's local date ever goes back, a date credited earlier is credited
  again (`Ledger.EarlierDateCreditedAgain`). "At most one credit per calendar
  date" therefore holds only while dates never decrease. What holds always is
  the bound of `Ledger.StreakGainBoundedByNewDays`: at most one credit per
  change of date.

## Model

| member | source | states |
|---|---|---|
| `Ledger.Fresh` | backend/app.py:40-47 | a new ledger has consumed 0, goal 2000, streak 0, best streak 0, lifetime 0 and no goal date |
| `Ledger.ApplyUpdate` | backend/app.py:154-177 | an absent field keeps its value and a present one replaces it; lifetime grows by exactly max(0, new consumed − previous consumed) and never shrinks; the streak grows by one exactly when previous consumed < new goal ≤ new consumed and the last goal date is not today, otherwise stays; a credit records today as the goal date; best streak becomes max(best streak, streak); the ledger invariant is preserved |
| `Ledger.ApplyAll` | backend/app.py:154-177 | over any sequence of updates the lifetime total and best streak never decrease, the streak never decreases and grows by at most one per update, best ≥ streak after a non-empty sequence, and the ledger invariant is preserved |
| `Ledger.StreakGainBoundedByNewDays` | backend/app.py:166-171 | over any sequence of updates the streak grows by at most the number of date changes, counted from the recorded last goal date |
| `Ledger.StreakGainBoundedByDayRuns` | backend/app.py:166-171 | the streak grows by at most the number of runs of same-date updates: at most one credit per calendar date in a run |
| `Ledger.SameDayCreditsAtMostOnce` | backend/app.py:169-171 | any number of updates on one date raise the streak by at most one, and not at all (goal date unchanged) when that date is the recorded last goal date |
| `Ledger.LifetimeCoversNetIntake` | backend/app.py:160-162 | over any sequence of updates the lifetime total grows by at least the net change of consumed |
| `Ledger.EarlierDateCreditedAgain` | backend/app.py:169-171 | reaching the goal on day 5, day 6 and day 5 again gives streak 3 with last goal date 5: an earlier date is credited again when the date goes back |
| `Ledger.FirstDayScenario` | backend/app.py:154-177 | a new ledger reads 0/2000/0/0; reaching 2000 gives streak 1 and best 1; going on to 2500 the same date leaves both at 1 |
| `Ledger.WaterData.constructor` | backend/app.py:85 | the ledger row created for a user holds the column defaults |
| `Ledger.WaterData.Update` | backend/app.py:148-184 | the in-place update leaves the row equal to `ApplyUpdate` of its old value and reports the new streak and best streak; the user id does not change |
| `Auth.LookupId` | backend/app.py:63 | lookup by primary key yields a stored user with that id, or nothing exactly when no user has it |
| `Auth.Split` | backend/app.py:56 | `split(" ")` yields at least one field, no field holds the separator, and exactly one field when the string has no separator |
| `Auth.JoinSplit` | backend/app.py:56 | joining the fields of a split with the separator gives back the string |
| `Auth.SplitJoin` | backend/app.py:56 | splitting a join of separator-free fields gives back the fields |
| `Auth.ExtractToken` | backend/app.py:54-59 | the header crashes exactly when present without a space; no token exactly when absent or its second space-separated field is empty; otherwise the token is that second field (`split(" ")[1]`), non-empty and space-free |
| `Auth.BearerRoundTrip` | backend/app.py:55-59 | a non-empty space-free token sent as `Bearer <token>` is extracted unchanged |
| `Auth.Authorize` | backend/app.py:54-69 | the gate crashes exactly on a header without a space, reports a missing token exactly when none is extracted, an invalid one exactly when decoding fails, and otherwise admits the stored user whose id is the decoded subject, or no user exactly when no stored user has that id |
| `Auth.GateStatus` | backend/app.py:58-67 | a missing or invalid token answers 401; a header without a space answers 500 |
| `Auth.Login` | backend/app.py:97-131 | 400 exactly when the body, email or password is missing or empty; a token exactly when the email is registered and the password check passes, for that user's id; otherwise invalid credentials |
| `Auth.LoginStatus` | backend/app.py:97-131 | login answers 200 exactly with a token, 400 exactly for missing fields, 401 exactly for invalid credentials |
| `Auth.UnknownEmailLooksLikeWrongPassword` | backend/app.py:109-120 | an unknown email and a wrong password for a known email get the identical 401 outcome |
| `Auth.IssuedTokenAdmitsUser` | backend/app.py:55-63 | a token issued by login and sent back as `Bearer <token>` admits the user it was issued for |
| `Statistics.DaysSinceRegistration` | backend/app.py:190-194 | the day count is at least 1 whenever the registration date is not after today, exactly 1 on the registration day, and 0 exactly when registration is one day after today |
| `Statistics.DaysGrowByOnePerDay` | backend/app.py:194 | each further day adds exactly one to the day count; with the count being 1 on the registration day, it is (today − registration) + 1 for every date |
| `Statistics.ComputeStatistics` | backend/app.py:188-205 | the average's divisor is zero exactly when registration is one day after today; otherwise the report carries the lifetime total, best streak, current goal and the day count, which is at least 1 when registration is not after today |
| `Statistics.RegisteredTodayStatistics` | backend/app.py:194-204 | a user registered today with nothing drunk has one day since registration, lifetime 0, best streak 0 and goal 2000 |
| `Statistics.UtcRegistrationAheadOfLocalDate` | backend/app.py:190-197 | a UTC registration date one day ahead of the local date divides by zero |
| `Store.RegisterStatus` | backend/app.py:77-89 | registration answers 201 exactly when created, 409 exactly for a taken email, 500 exactly when it raises |
| `Store.RegisterDecision` | backend/app.py:77-88 | a taken email is a conflict whatever the password; creation happens exactly for a new email with a non-empty password |
| `Store.ReplyStatus` | backend/app.py:58-69 | a protected route answers 200 exactly when it serves its data, the gate's status (401 or 500) when the gate rejects, and 500 when the route body raises |
| `Store.UserIdsInsert` | backend/app.py:80-86 | adding a user under a new email adds exactly its id to the set of user ids |
| `Store.Store.constructor` | backend/app.py:21 | an empty database satisfies the store invariant |
| `Store.Store.Register` | backend/app.py:75-89 | a refused registration changes nothing; a successful one adds exactly one user with the next id and exactly one fresh ledger with default columns under that id, leaves every other ledger as it was, and keeps the store invariant |
| `Store.Store.AdmittedUser` | backend/app.py:62-69 | an admitted user is stored and has a ledger |
| `Store.Store.GetData` | backend/app.py:136-143 | data is served exactly for an admitted stored user, is that user's consumed, goal, streak and best streak, and shows streak ≤ best streak; a subject without a user crashes; otherwise the gate's answer |
| `Store.Store.PostData` | backend/app.py:148-184 | exactly the admitted user's ledger takes `ApplyUpdate` and the reply reports its new streak and best streak; every other ledger is unchanged, a rejected or user-less request changes nothing, and the store invariant is kept |
| `Store.Store.GetStatistics` | backend/app.py:188-205 | statistics are served for an admitted user as `ComputeStatistics` of their registration date and ledger, always with day count ≥ 1 when registration is not after today; the route crashes exactly for a subject without a user or a zero divisor |

## Left out

- Flask routing, JSON request and response wiring, and CORS configuration: framework plumbing. For `register` and `update_data`, a request body that is missing or not a JSON object raises in the route; the model does not represent such a body. For `login`, an empty or missing body is modelled (`None`, answered with 400). JSON values of the wrong type (`null` or a string for `consumed`, a number for `email`) are not modelled; the model takes each field as absent or well-typed.
- SQLAlchemy sessions and commits: the store is in memory and each request is atomic. Concurrent requests, which the store orders last-write-wins, are not modelled.
- bcrypt: the hash is an input and the check is a predicate parameter.
- JWT encoding, signing, decoding and the 24-hour expiry: tokens are strings and decoding is a function parameter that already accounts for the current time.
- The float division and Python `round` that produce `average_daily_consumption`: floating point. Only whether the divisor is zero is modelled.
- Integer width: Python integers are unbounded, but SQLite stores 64-bit integers; overflow of `consumed` or `lifetime_consumed` is not modelled.
- The 120-character limit on `email`: SQLite does not enforce it.
- `print` diagnostics.
- The frontend (`frontend/js/*.js`): DOM updates, `fetch`, `localStorage` and the progress ring are not part of this model.
