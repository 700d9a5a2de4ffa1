# Betting back-office: users store, guards and panel reports

This project models the logic of a small betting back-office in Dafny and
proves properties of it. The back-office has two parts.

The server (`server.js`) is an Express application over SQLite. It has:

- the `auth` middleware, which reads a bearer token, and the `onlyAdmin` gate;
- the admin login;
- the `/users` handlers: a filtered, ordered and paged listing, creating a
  user, a field-wise PATCH, and a deposit. A deposit updates the user's chips
  and deposit count, appends a transaction to the log and raises the house
  wallet.

The admin panel (`public/app.js`) has:

- the per-agent commission breakdown: GGR (stakes minus settled payouts) and a
  flat 20% commission;
- the players screen: case-insensitive search, pages of ten, previous/next
  buttons;
- the label helpers `findPlayerName`, `formatStatus` and `formatOutcome`.

Modules:

- `Common`: `Option`, the three-way body `Field` (absent / null / given),
  JavaScript truthiness of a string field, `HttpError` and `Result`.
- `Text`: two lower-casings. `JsLower` is JavaScript's `toLowerCase` over
  ASCII and Latin-1; `SqlLower` is SQLite's ASCII-only `LOWER`. Also substring
  containment, and the code-point order SQLite's BINARY collation sorts TEXT
  keys by. `ORDER BY id` over a set of keys is `SortedIds`, and its uniqueness
  is proved.
- `Money`: `toFixed(2)` followed by unary `+`, as `Round2` on exact reals.
- `Auth`: `BearerToken`, `Authenticate`, `OnlyAdmin`, `Admit` (the guards in
  sequence) and `Login`. Token verification, signing and bcrypt are function
  parameters.
- `Users`: the handlers' decisions as functions (`CreateResult`,
  `PatchResult`, `DepositResult`). The class `UserTable` holds the three
  tables as fields: `users` (a map by id), `txs` (the log) and `wallet` (the
  settings record). Its methods `List`, `Create`, `Patch` and `Deposit` change
  them in place. Its invariant says three things:
  - every row is stored under its own id;
  - log ids count up from 1;
  - the wallet equals its starting amount plus every logged amount.
- `Routes`: the `/users` routes with their guards. All four need `auth`; only
  `POST /users` also needs `onlyAdmin`. A request the guards refuse changes
  nothing.
- `Records`, `Commissions`, `PlayerList`, `Labels`: the panel's records, the
  commission breakdown (imperative, two passes over a mutable agent map), the
  players screen (the class `PlayerPager`, whose fields are the closure
  variables `filtered` and `currentPage`), and the labels.

Money is modelled as exact rationals (`real`), not IEEE doubles.

## Model

| member | source | states |
|---|---|---|
| Auth.BearerToken | server.js:84-86 | A token is found exactly when the header starts with "Bearer " and has something after it; the token is the header minus that prefix. |
| Auth.BearerRoundTrip | server.js:84-85 | A header made of "Bearer " and a non-empty token yields that token back. |
| Auth.Authenticate | server.js:83-89 | No token gives 401 "No autorizado". A token the verifier rejects gives 401 "Token inválido". Otherwise the request proceeds with exactly the verified claims. |
| Auth.OnlyAdmin | server.js:90-93 | Lets the request through if and only if the user's role is "admin"; otherwise 403 "Requiere rol admin". |
| Auth.Admit | server.js:83-93 | `auth` then `onlyAdmin`: passes if and only if authentication succeeds and, on an admin-only route, the role is "admin". Authentication failures keep their 401; a non-admin gets 403. |
| Auth.Login | server.js:96-107 | A falsy email or password gives 400. Success holds exactly when the email is a stored admin and the password matches its hash. The session's user is exactly (email, name, role) and the token is signed over it. Every other failure is 401 "Credenciales inválidas". |
| Auth.LoginNoEnumeration | server.js:99-102 | An unknown email and a known email with a wrong password get identical answers. |
| Auth.LoginOmitsHash | server.js:103-105 | A successful login's answer does not depend on the stored hash. |
| Users.Window | server.js:133 | SQLite `LIMIT`/`OFFSET`: the length of the result and each element as `s[offset + i]`. A negative offset counts as 0 and a negative limit as no limit. |
| Users.WhereMeansListed | server.js:127-130 | The WHERE clause built from `q` and `role` holds of a row exactly when each non-empty filter matches it. |
| Users.OrderById | server.js:133 | `ORDER BY id` returns exactly `SortedIds` of the keys: strictly sorted in BINARY collation and holding exactly those keys. |
| Users.SelectPage | server.js:133 | `ORDER BY id LIMIT OFFSET` over the stored keys: row `i` is the stored row under the `i`-th id of the window over `SortedIds(keys)`, and there are as many rows as the window has ids. |
| Users.UserTable.MatchingIsConjunction | server.js:127-130 | The two conditions are joined with AND: the rows kept with both filters are exactly those kept by the search alone and by the role filter alone. |
| Users.UserTable.NoFilterKeepsAll | server.js:130 | With an empty search and no role there is no WHERE clause, and every stored row matches. |
| Users.UserTable.WalletAmount | server.js:114-118 | The wallet amount is the stored record's amount, or 0 when there is no record, as `/stats/wallet` and the deposit handler read it. `Deposit` keeps it equal to the starting amount plus every logged amount. |
| Users.UserTable.Where | server.js:125-130 | The conditions pushed into `where` select exactly `Matching(q, role)`. |
| Users.UserTable.List | server.js:122-136 | `total` is the number of matching rows. `rows` are the stored rows at the ids of `SortedIds(Matching)` after skipping `(page-1)*pageSize` and taking `pageSize`. `page` defaults to 1 and `pageSize` to 10. |
| Users.CreateResult | server.js:139-146 | No truthy id gives 400 "ID requerido". An existing id, or an explicit null role (refused by the NOT NULL role column), gives 409 "ID duplicado". Otherwise the new row has chips 0, deposits 0 and the given role, "player" by default. |
| Users.UserTable.Create | server.js:139-146 | On success exactly the new row is added and the map grows by one; on an error the table is unchanged. The log and wallet are never touched. |
| Users.PatchResult | server.js:148-160 | An unknown id gives 404 "No existe". Otherwise the id is kept, the role is replaced only when one was sent, and chips and deposits are replaced only when a number was sent. |
| Users.PatchNothingKeepsRow | server.js:153-155 | A PATCH carrying nothing usable returns the row unchanged. |
| Users.PatchIdempotent | server.js:151-157 | Applying the same PATCH twice gives the same row as applying it once. |
| Users.UserTable.Patch | server.js:148-160 | On success only the patched id's row changes; on a 404 nothing changes. |
| Users.DepositResult | server.js:162-181 | An amount that is not above 0 (missing counts as 0; NaN is `None`) gives 400 "Monto inválido" before the lookup. An unknown user gives 404. Otherwise the user keeps id and role, chips become `Round2(chips + amount)`, deposits grow by 1, and the wallet (0 when absent) grows by the amount. |
| Users.DepositChipsRounding | server.js:168 | New chips are within half a cent of the exact sum, and equal it when the balance and the amount are whole cents. |
| Users.UserTable.Deposit | server.js:162-181 | On success: the row is replaced, exactly one "deposit" tx with the amount and the next id is appended, and the wallet record holds the new amount. The ledger invariant is kept. On an error nothing changes. |
| Users.UserTable.constructor | server.js:19-42 | A table of keyed rows starts with an empty log and the given wallet record, satisfying the invariant. |
| Money.Round2 | server.js:168 | `+(x).toFixed(2)` on exact values: the result is a whole number of cents within half a cent of `x`. |
| Money.Round2KeepsCents | server.js:168 | Rounding a whole number of cents changes nothing. |
| Routes.GetUsers | server.js:122 | A request that fails `auth` gets its 401. Otherwise the listing for `q` lower-cased by `toLowerCase` and the role filter. |
| Routes.PostUsers | server.js:139 | Not admitted as an admin: 401/403 and the table unchanged. Otherwise exactly `Create`'s effect. |
| Routes.PatchUser | server.js:148 | Only `auth` guards it. A refused request leaves the table unchanged; otherwise exactly `Patch`'s effect. |
| Routes.PostDeposit | server.js:162 | Only `auth` guards it. A refused request leaves the table unchanged. Otherwise the answer is `DepositResult`. On success the row is replaced, one "deposit" tx is appended and the wallet record holds the new amount; on a handler error the users, log and wallet are unchanged. |
| Commissions.FindByAgent | public/app.js:412 | `players.find`: a player carrying the agent id, and the first such player; none only when no player carries it. |
| Commissions.BetsOf | public/app.js:398 | A bet is kept exactly when it is in the list and carries the agent's id. |
| Commissions.AgentIds | public/app.js:388-394 | The agent ids of the players, each once: no repeats, and an id is present exactly when some player carries it. |
| Commissions.CollectAgents | public/app.js:390-394 | The first pass with an own-key check: the ids collected are `AgentIds`, and the map holds a blank entry for exactly those ids. |
| Commissions.SumBets | public/app.js:399-404 | The accumulated stake and payout sums equal `Stakes` and `Payouts` of the agent's bets; a null payout adds nothing. |
| Commissions.AgentEntry | public/app.js:398-413 | One agent's entry: name = the agent id, rate 0.2, GGR = stakes minus settled payouts of the bets carrying the id, commission GGR × 0.2. |
| Commissions.ComputeEntries | public/app.js:397-414 | The second pass keeps the map's keys and gives every collected agent id its computed entry. |
| Commissions.Breakdown | public/app.js:387-414 | One row per agent id in `AgentIds`, and no other. Each row has name = id, rate 0.2, the agent's GGR (stakes minus settled payouts of its bets) and commission GGR × 0.2. |
| Commissions.OpenBetAddsStake | public/app.js:401-402 | An open bet raises its agent's GGR by exactly its stake. |
| Commissions.NoBetsNoCommission | public/app.js:405-410 | An agent with no bets has GGR 0 and commission 0. |
| Commissions.NegativeGgr | public/app.js:405-410 | GGR is not clamped: it is negative exactly when the agent's payouts exceed its stakes, and then the commission is negative too. |
| Commissions.SumGgrStep | public/app.js:398-405 | One more bet changes the sum of GGRs over distinct agents by its margin exactly when its agent is among them. |
| Commissions.SumCommissionIsRate | public/app.js:406-410 | The agents' commissions add up to the flat rate times the sum of their GGRs. |
| Commissions.BreakdownPartitionsGgr | public/app.js:397-410 | Over distinct agents, the agents' GGRs add up to the GGR of the bets attributed to them, and the sum of their commissions is 20% of that GGR. |
| Commissions.AgentIdsAsWritten | public/app.js:390-394 | As written, an id that names an `Object.prototype` property is never collected; otherwise ids are collected as by `AgentIds`. |
| Commissions.InheritedAgentDropped | public/app.js:391 | A player whose agent id is "constructor" yields no row as written, but one row under the own-key check. |
| Commissions.AsWrittenAgreesOffPrototype | public/app.js:390-394 | When no agent id names an inherited property, the as-written and own-key passes collect the same ids in the same order. |
| PlayerList.Search | public/app.js:244-248 | Never longer than the input; keeps exactly the players whose lower-cased name or email contains the term. |
| PlayerList.SearchAppend | public/app.js:244-248 | The filter distributes over concatenation, so the kept players stay in their original order. |
| PlayerList.SearchEmptyKeepsAll | public/app.js:244-248 | An empty term keeps every player. |
| PlayerList.PageCount | public/app.js:236 | `Math.ceil(n / 10)`: the fewest pages of ten that hold `n` items. |
| PlayerList.PageItems | public/app.js:203-205 | Page `p` holds items `(p-1)*10 ..` cut short at the end of the list: never more than 10 items, each equal to the item at its position. |
| PlayerList.PageHoldsItem | public/app.js:203-205 | Item `i` appears as entry `i % 10` of page `i / 10 + 1`, and that page is within the page count. |
| PlayerList.PlayerPager.constructor | public/app.js:198-200 | The screen starts with every player on page 1, in its invariant. |
| PlayerList.PlayerPager.Shown | public/app.js:203-205 | At most ten players are shown, each one a player kept by the current search. |
| PlayerList.PlayerPager.OnSearch | public/app.js:243-251 | The filtered list becomes the search for the lower-cased input and the page resets to 1; the invariant is kept. |
| PlayerList.PlayerPager.PrevDisabled | public/app.js:254 | The "previous" button is disabled exactly when the page is not above 1, which under the invariant means page 1. |
| PlayerList.PlayerPager.NextDisabled | public/app.js:255 | The "next" button is disabled exactly when the page is not below the page count. |
| PlayerList.PlayerPager.OnPrev | public/app.js:256-261 | The page moves back only when it is above 1. The page stays put exactly when the button was disabled. The list is unchanged and the page never drops below 1. |
| PlayerList.PlayerPager.OnNext | public/app.js:262-267 | The page moves on only when it is below the page count. The page stays put exactly when the button was disabled. It never passes the count when there is at least one page. |
| Labels.FormatStatus | public/app.js:474-481 | The three known statuses map to their labels; the text is returned unchanged exactly when the status is unknown. |
| Labels.FormatOutcome | public/app.js:482-489 | The three known outcomes map to their labels; the text is returned unchanged exactly when the outcome is unknown. |
| Labels.FirstWithId | public/app.js:455 | `find` by id: the index of the first player with that id, or none when no player has it. |
| Labels.FindPlayerName | public/app.js:453-457 | No cache shows the id. A cache without the id shows the id. Otherwise it shows the name of the first cached player with that id. |
| Text.JsLowerIdempotent | public/app.js:244-247 | `toLowerCase` leaves nothing a second pass would fold: lower-casing twice equals lower-casing once. |
| Text.SqlLowerAfterJsLower | server.js:123-129 | SQLite `LOWER` changes nothing in a string JavaScript has already lower-cased, so the server-side search term is unchanged by a second fold. |
| Text.SqlLowerIdempotent | server.js:129 | `LOWER` applied to its own result changes nothing. |
| Text.ContainsAt | public/app.js:246-247 | Substring containment holds exactly when the term occurs at some offset. |
| Text.BelowTotal | server.js:133 | BINARY collation puts any two ids in some order. |
| Text.BelowAntisymmetric | server.js:133 | Two ids ordered both ways are equal. |
| Text.BelowTransitive | server.js:133 | The collation order is transitive. |
| Text.SortedUnique | server.js:133 | Two strictly sorted lists with the same elements are equal, so `ORDER BY id` has one answer. |
| Text.SortedIds | server.js:133 | The ids sorted: strictly increasing, and holding exactly the set's elements. |

## Left out

- Floating point: money is exact `real`, so IEEE rounding of sums, `toFixed` on binary doubles and `toLocaleString` are not modelled. `Round2` rounds the exact value half away from zero.
- Text.JsLower: covers ASCII and Latin-1 capitals only; the rest of Unicode case mapping (for example Greek, Cyrillic, and 'İ' becoming two characters) is not modelled.
- Users.UserTable.List: `%` and `_` in the search are matched literally; as LIKE wildcards they would match more.
- Users.UserTable.List: ASCII case-folding of `LIKE` itself is not modelled. The pattern is already lower-cased by `toLowerCase` and the id by `LOWER`, and a further ASCII fold changes neither: `Text.SqlLowerAfterJsLower` for the pattern, `Text.SqlLowerIdempotent` for the id.
- Users.UserTable.List: `page` and `pageSize` are integers. `Number(...)` of a non-numeric or fractional query value (NaN, 1.5) is not modelled.
- Users.CreateResult: a falsy id that is not a string (0, false) and a non-string role are not modelled; body fields are strings or absent/null.
- Users.PatchResult: a role of another JSON type is stored as sent by SQLite; the model takes roles as strings.
- Users.UserTable.Deposit: the three writes are not awaited in the source and could interleave with other requests; the model applies them as one atomic step.
- Users.UserTable.Deposit: the write callbacks' errors are ignored by the source and not modelled (writes are assumed to succeed).
- Users.UserTable.Deposit: the transaction's `created_at` comes from `Date.now()`, which becomes the parameter `now`.
- Users.UserTable.Valid: log ids `i + 1` assume a table that started with an empty log, as AUTOINCREMENT gives on a fresh database.
- Auth: JWT signing, verification and expiry, and bcrypt's hash comparison, are function parameters; the 7-day expiry and the secret are not modelled.
- `GET /auth/me` and `GET /stats/wallet` only echo the claims or the wallet record; the wallet read is `UserTable.WalletAmount`.
- Database setup, schema creation and seeding are not modelled; the constructor takes the initial rows and wallet record.
- Commissions.Breakdown: rows come out in first-seen order. `Object.entries` would list agent ids that are array indices ("0", "17") first, in numeric order; ids of that form are not modelled.
- Commissions.Breakdown: uses the own-key check (see Findings); `Commissions.AgentIdsAsWritten` models the code as written.
- The panel's rendering, event wiring, network calls and session storage, and the server's HTTP plumbing, are not modelled.
- PlayerList.PlayerPager: the handlers only call `render` after a change; rendering itself is `Shown` and the two disabled flags.

## Findings

| source | as written | input that shows it | evidently intended | confidence | as-written member | corrected member |
|---|---|---|---|---|---|---|
| public/app.js:390-394 | `if (!agentMap[p.agentId])` on a plain `{}` also finds inherited `Object.prototype` properties. For an agent id such as "constructor", "toString" or "__proto__" the test is false, so no entry is made and `Object.keys` never lists that agent. | players `[{agentId: "constructor", ...}]` give no commission row | every distinct agent id among the players gets exactly one row (an own-property check, or `Object.create(null)` / a `Map`) | not executed; follows from JavaScript property lookup | Commissions.AgentIdsAsWritten, Commissions.InheritedAgentDropped | Commissions.CollectAgents, Commissions.Breakdown |
