/** The server's users table and the handlers behind `/users`: the filtered,
    ordered and paged listing, creating a user, the field-wise PATCH and the
    deposit, which also writes the transaction log and the house wallet.
    The SQLite tables become the fields of `UserTable`. */
module Users {
  import opened Common
  import opened Text
  import opened Money

  /** A row of the users table. `deposits` is a number: the PATCH handler
      stores whatever number it is sent. */
  datatype User = User(id: string, role: string, chips: real, deposits: real)

  /** A row of the transaction log. */
  datatype Tx = Tx(id: nat, userId: string, kind: string, amount: real, createdAt: int)

  /** The body of a listing answer. */
  datatype Listing = Listing(rows: seq<User>, total: nat, page: int, pageSize: int)

  /** The body of a deposit answer: the updated user and the wallet amount. */
  datatype Receipt = Receipt(user: User, wallet: real)

  /** A condition of the listing's WHERE clause. */
  datatype Cond = IdLike(term: string) | RoleIs(role: string)

  predicate Holds(c: Cond, u: User)
  {
    match c
    case IdLike(term) => Contains(SqlLower(u.id), term)
    case RoleIs(role) => u.role == role
  }

  /** The conditions joined with AND; no condition keeps every row. */
  predicate HoldsAll(conds: seq<Cond>, u: User)
  {
    forall c :: c in conds ==> Holds(c, u)
  }

  /** A user is listed for the lower-cased search `q` and the role filter
      `role` when each filter is empty or holds. */
  predicate Listed(u: User, q: string, role: string)
  {
    (q == "" || Contains(SqlLower(u.id), q)) && (role == "" || u.role == role)
  }

  /** `LIMIT limit OFFSET offset` as SQLite reads them: a negative offset
      skips nothing and a negative limit takes every remaining row. */
  function Window<T>(s: seq<T>, limit: int, offset: int): (r: seq<T>)
    ensures var skip := if offset < 0 then 0 else offset;
      && (limit >= 0 ==> |r| <= limit)
      && |r| == (if skip >= |s| then 0
                 else if limit < 0 || |s| - skip <= limit then |s| - skip
                 else limit)
      && forall i :: 0 <= i < |r| ==> r[i] == s[skip + i]
  {
    var skip := if offset < 0 then 0 else offset;
    if skip >= |s| then []
    else if limit < 0 || |s| - skip <= limit then s[skip..]
    else s[skip..skip + limit]
  }

  /** The WHERE clause the listing builds holds of a row exactly when the
      row is listed. */
  lemma WhereMeansListed(conds: seq<Cond>, q: string, role: string, u: User)
    requires conds == (if q != "" then [IdLike(q)] else []) + (if role != "" then [RoleIs(role)] else [])
    ensures HoldsAll(conds, u) <==> Listed(u, q, role)
  {
    if q != "" && !Contains(SqlLower(u.id), q) {
      assert IdLike(q) in conds && !Holds(IdLike(q), u);
    }
    if role != "" && u.role != role {
      assert RoleIs(role) in conds && !Holds(RoleIs(role), u);
    }
  }

  /** `ORDER BY id`: the keys taken out smallest first. */
  method OrderById(keys: set<string>) returns (ordered: seq<string>)
    ensures ordered == SortedIds(keys)
  {
    ordered := [];
    var pending := keys;
    while pending != {}
      invariant pending <= keys
      invariant StrictlySorted(ordered)
      invariant forall x :: x in ordered <==> x in keys && x !in pending
      invariant forall x, y :: x in ordered && y in pending ==> Below(x, y) && x != y
      decreases pending
    {
      LeastExists(pending);
      var m :| IsLeast(m, pending);
      ordered := ordered + [m];
      pending := pending - {m};
    }
    SortedUnique(ordered, SortedIds(keys));
  }

  /** The rows stored under `ids`, in that order. */
  function RowsOf(users: map<string, User>, ids: seq<string>): (rows: seq<User>)
    requires forall i :: 0 <= i < |ids| ==> ids[i] in users
    ensures |rows| == |ids| && forall i :: 0 <= i < |ids| ==> rows[i] == users[ids[i]]
  {
    seq(|ids|, i requires 0 <= i < |ids| => users[ids[i]])
  }

  /** The rows a page skips: `(page - 1) * pageSize`. */
  function PageOffset(page: int, pageSize: int): int
  {
    (page - 1) * pageSize
  }

  /** `SELECT * ... ORDER BY id LIMIT limit OFFSET offset` over the rows
      stored under `keys`. */
  method SelectPage(users: map<string, User>, keys: set<string>, limit: int, offset: int)
    returns (rows: seq<User>)
    requires keys <= users.Keys
    ensures var window := Window(SortedIds(keys), limit, offset);
      && |rows| == |window|
      && forall i :: 0 <= i < |window| ==> window[i] in users && rows[i] == users[window[i]]
  {
    var ordered := OrderById(keys);
    var ids := Window(ordered, limit, offset);
    rows := RowsOf(users, ids);
  }

  /** The total of the amounts in the log. */
  function Logged(txs: seq<Tx>): real
  {
    if txs == [] then 0.0 else Logged(txs[..|txs| - 1]) + txs[|txs| - 1].amount
  }

  /** The create handler's answer: an id is required (400); an id already in
      the table is 409, and so is an explicit null role, which the role
      column's NOT NULL constraint refuses; otherwise the new row has no
      chips, no deposits and the role sent, "player" by default. */
  function CreateResult(users: map<string, User>, id: Option<string>, role: Field<string>): (r: Result<User>)
    ensures !Truthy(id) ==> r == Err(HttpError(400, "ID requerido"))
    ensures Truthy(id) && r.Err? ==> r == Err(HttpError(409, "ID duplicado"))
    ensures r.Ok? <==> Truthy(id) && id.value !in users && !role.Null?
    ensures r.Ok? ==>
      r.value == User(id.value, if role.Given? then role.value else "player", 0.0, 0.0)
  {
    if !Truthy(id) then Err(HttpError(400, "ID requerido"))
    else if id.value in users || role.Null? then Err(HttpError(409, "ID duplicado"))
    else Ok(User(id.value, match role case Given(v) => v case _ => "player", 0.0, 0.0))
  }

  /** The PATCH handler's answer: an unknown id is 404; otherwise the row
      keeps its id, takes the role when one was sent (`??`), and takes chips
      and deposits only when the value sent is a number. */
  function PatchResult(users: map<string, User>, id: string, role: Option<string>,
                       chips: Option<real>, deposits: Option<real>): (r: Result<User>)
    ensures r.Ok? <==> id in users
    ensures r.Err? ==> r.error == HttpError(404, "No existe")
    ensures r.Ok? ==> r.value.id == id
    ensures r.Ok? ==> r.value.role == (if role.Some? then role.value else users[id].role)
    ensures r.Ok? ==> r.value.chips == (if chips.Some? then chips.value else users[id].chips)
    ensures r.Ok? ==> r.value.deposits == (if deposits.Some? then deposits.value else users[id].deposits)
  {
    if id !in users then Err(HttpError(404, "No existe"))
    else
      var row := users[id];
      Ok(User(id, role.GetOr(row.role), chips.GetOr(row.chips), deposits.GetOr(row.deposits)))
  }

  /** A PATCH that sends nothing usable gives back the row as it is. */
  lemma PatchNothingKeepsRow(users: map<string, User>, id: string)
    requires id in users && users[id].id == id
    ensures PatchResult(users, id, None, None, None) == Ok(users[id])
  {
  }

  /** Sending the same PATCH twice leaves the row as sending it once. */
  lemma PatchIdempotent(users: map<string, User>, id: string, role: Option<string>,
                        chips: Option<real>, deposits: Option<real>)
    requires id in users
    ensures var once := PatchResult(users, id, role, chips, deposits);
      once.Ok? && PatchResult(users[id := once.value], id, role, chips, deposits) == once
  {
  }

  /** The deposit handler's answer. The amount, after `Number(...)` (`None`
      for NaN, 0 when none was sent), must be above zero or it is 400 before
      the user is looked up; an unknown user is 404; otherwise the user's
      chips grow by the amount, rounded to cents, its deposit count by one,
      and the wallet (0 when it has no record) by the amount. */
  function DepositResult(users: map<string, User>, wallet: real, id: string, amount: Option<real>): (r: Result<Receipt>)
    ensures !(amount.Some? && amount.value > 0.0) ==> r == Err(HttpError(400, "Monto inválido"))
    ensures amount.Some? && amount.value > 0.0 && id !in users ==> r == Err(HttpError(404, "No existe"))
    ensures r.Ok? <==> amount.Some? && amount.value > 0.0 && id in users
    ensures r.Ok? ==>
      var row := users[id];
      && r.value.user.id == id && r.value.user.role == row.role
      && r.value.user.chips == Round2(row.chips + amount.value)
      && r.value.user.deposits == row.deposits + 1.0
      && r.value.wallet == wallet + amount.value
  {
    if !(amount.Some? && amount.value > 0.0) then Err(HttpError(400, "Monto inválido"))
    else if id !in users then Err(HttpError(404, "No existe"))
    else
      var row := users[id];
      var chips := Round2(row.chips + amount.value);
      Ok(Receipt(User(id, row.role, chips, row.deposits + 1.0), wallet + amount.value))
  }

  /** The chips after a deposit are within half a cent of the exact sum, and
      exactly the sum when the balance and the amount are whole cents. */
  lemma DepositChipsRounding(users: map<string, User>, wallet: real, id: string, amount: real)
    requires id in users && amount > 0.0
    ensures var r := DepositResult(users, wallet, id, Some(amount));
      && r.Ok?
      && -0.005 <= r.value.user.chips - (users[id].chips + amount) <= 0.005
      && (IsCents(users[id].chips) && IsCents(amount) ==> r.value.user.chips == users[id].chips + amount)
  {
    var sum := users[id].chips + amount;
    if IsCents(users[id].chips) && IsCents(amount) {
      assert sum * 100.0 == users[id].chips * 100.0 + amount * 100.0;
      assert (sum * 100.0).Floor == (users[id].chips * 100.0).Floor + (amount * 100.0).Floor;
      Round2KeepsCents(sum);
    }
  }

  /** The server's tables: users by id, the transaction log and the wallet
      record (`None` when the settings table has none). */
  class UserTable {
    var users: map<string, User>
    var txs: seq<Tx>
    var wallet: Option<real>
    /** The wallet amount before any logged transaction. */
    ghost var walletBase: real

    /** Rows are stored under their own id, log ids count up from 1 as
        AUTOINCREMENT gives them on a fresh table, and every amount that
        reached the wallet is in the log. */
    ghost predicate Valid()
      reads this
    {
      && (forall id :: id in users ==> users[id].id == id)
      && (forall i :: 0 <= i < |txs| ==> txs[i].id == i + 1)
      && WalletAmount() == walletBase + Logged(txs)
    }

    /** `/stats/wallet`: the stored amount, 0 when there is no record. */
    function WalletAmount(): (amount: real)
      reads this
      ensures wallet.Some? ==> amount == wallet.value
      ensures wallet.None? ==> amount == 0.0
    {
      wallet.GetOr(0.0)
    }

    constructor (users: map<string, User>, wallet: Option<real>)
      requires forall id :: id in users ==> users[id].id == id
      ensures Valid()
      ensures this.users == users && txs == [] && this.wallet == wallet
    {
      this.users := users;
      txs := [];
      this.wallet := wallet;
      walletBase := wallet.GetOr(0.0);
    }

    /** The ids of the rows the listing's filters keep. */
    function Matching(q: string, role: string): (ids: set<string>)
      reads this
      ensures forall id :: id in ids <==> id in users && Listed(users[id], q, role)
    {
      set id | id in users && Listed(users[id], q, role)
    }

    /** The two filters are joined with AND: the rows kept by both are those
        kept by the search alone and by the role filter alone. */
    lemma MatchingIsConjunction(q: string, role: string)
      ensures Matching(q, role) == Matching(q, "") * Matching("", role)
    {
    }

    /** With neither filter there is no WHERE clause: every row is counted. */
    lemma NoFilterKeepsAll()
      ensures Matching("", "") == users.Keys
    {
    }

    /** The listing's WHERE clause: an `id LIKE` condition when there is a
        search and a `role =` condition when there is a role filter, joined
        with AND; the ids of the rows it keeps are the matching ones. */
    method Where(q: string, role: string) returns (matching: set<string>)
      ensures matching == Matching(q, role)
    {
      var conds: seq<Cond> := [];
      if q != "" {
        conds := conds + [IdLike(q)];
      }
      if role != "" {
        conds := conds + [RoleIs(role)];
      }
      matching := set id | id in users && HoldsAll(conds, users[id]);
      forall id | id in users
        ensures HoldsAll(conds, users[id]) <==> Listed(users[id], q, role)
      {
        WhereMeansListed(conds, q, role, users[id]);
      }
    }

    /** `GET /users`: `total` counts the rows passing the filters and `rows`
        are those rows in id order, skipping `(page - 1) * pageSize` and
        taking `pageSize`. `q` is the search after `toLowerCase`; a missing
        page is 1 and a missing page size 10. */
    method List(q: string, role: string, page: Option<int>, pageSize: Option<int>) returns (r: Listing)
      ensures r.total == |Matching(q, role)|
      ensures r.page == page.GetOr(1) && r.pageSize == pageSize.GetOr(10)
      ensures var window := Window(SortedIds(Matching(q, role)), r.pageSize, PageOffset(r.page, r.pageSize));
        && |r.rows| == |window|
        && forall i :: 0 <= i < |r.rows| ==> window[i] in users && r.rows[i] == users[window[i]]
    {
      var pg := page.GetOr(1);
      var size := pageSize.GetOr(10);
      var matching := Where(q, role);
      var rows := SelectPage(users, matching, size, PageOffset(pg, size));
      r := Listing(rows, |matching|, pg, size);
    }

    /** `POST /users`: on success exactly the new row is added; on an error
        nothing changes. */
    method Create(id: Option<string>, role: Field<string>) returns (r: Result<User>)
      requires Valid()
      modifies this
      ensures Valid()
      ensures r == CreateResult(old(users), id, role)
      ensures users == if r.Ok? then old(users)[r.value.id := r.value] else old(users)
      ensures r.Ok? ==> r.value.id !in old(users) && |users| == |old(users)| + 1
      ensures txs == old(txs) && wallet == old(wallet)
    {
      r := CreateResult(users, id, role);
      if r.Ok? {
        users := users[r.value.id := r.value];
      }
    }

    /** `PATCH /users/:id`: on success the row is replaced by the merged row
        and no other row changes; on an error nothing changes. */
    method Patch(id: string, role: Option<string>, chips: Option<real>, deposits: Option<real>)
      returns (r: Result<User>)
      requires Valid()
      modifies this
      ensures Valid()
      ensures r == PatchResult(old(users), id, role, chips, deposits)
      ensures users == if r.Ok? then old(users)[id := r.value] else old(users)
      ensures txs == old(txs) && wallet == old(wallet)
    {
      r := PatchResult(users, id, role, chips, deposits);
      if r.Ok? {
        users := users[id := r.value];
      }
    }

    /** `POST /users/:id/deposits`, as one step: on success the user row is
        updated, one "deposit" transaction of the amount is logged at `now`,
        and the wallet record holds the new amount; on an error nothing
        changes. `now` stands for `Date.now()`. */
    method Deposit(id: string, amount: Option<real>, now: int) returns (r: Result<Receipt>)
      requires Valid()
      modifies this
      ensures Valid()
      ensures r == DepositResult(old(users), old(WalletAmount()), id, amount)
      ensures r.Ok? ==>
        && users == old(users)[id := r.value.user]
        && txs == old(txs) + [Tx(|old(txs)| + 1, id, "deposit", amount.value, now)]
        && wallet == Some(r.value.wallet)
      ensures r.Err? ==> users == old(users) && txs == old(txs) && wallet == old(wallet)
    {
      r := DepositResult(users, WalletAmount(), id, amount);
      if r.Ok? {
        users := users[id := r.value.user];
        var tx := Tx(|txs| + 1, id, "deposit", amount.value, now);
        assert (txs + [tx])[..|txs|] == txs;
        txs := txs + [tx];
        wallet := Some(r.value.wallet);
      }
    }
  }
}
