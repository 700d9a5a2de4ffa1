/** The `/users` routes with the guards in front of them: every route needs a
    valid bearer token, and creating a user also needs the admin role. A
    request the guards turn away reaches no handler and changes nothing. */
module Routes {
  import opened Common
  import opened Text
  import opened Auth
  import opened Users

  /** `GET /users` behind `auth`; the search is lower-cased by JavaScript's
      `toLowerCase` before it reaches the query. */
  method GetUsers(table: UserTable, header: Option<string>, verify: string -> Option<Claims>,
                  q: Option<string>, role: Option<string>, page: Option<int>, pageSize: Option<int>)
    returns (r: Result<Listing>)
    requires table.Valid()
    ensures r.Err? <==> Authenticate(header, verify).Err?
    ensures r.Err? ==> r.error == Authenticate(header, verify).error
    ensures r.Ok? ==>
      && r.value.total == |table.Matching(JsLower(q.GetOr("")), role.GetOr(""))|
      && r.value.page == page.GetOr(1) && r.value.pageSize == pageSize.GetOr(10)
    ensures r.Ok? ==>
      var window := Window(SortedIds(table.Matching(JsLower(q.GetOr("")), role.GetOr(""))),
                           r.value.pageSize, PageOffset(r.value.page, r.value.pageSize));
      && |r.value.rows| == |window|
      && forall i :: 0 <= i < |window| ==> window[i] in table.users && r.value.rows[i] == table.users[window[i]]
  {
    var admitted := Admit(header, verify, false);
    if admitted.Err? {
      return Err(admitted.error);
    }
    var listing := table.List(JsLower(q.GetOr("")), role.GetOr(""), page, pageSize);
    r := Ok(listing);
  }

  /** `POST /users` behind `auth` and `onlyAdmin`. */
  method PostUsers(table: UserTable, header: Option<string>, verify: string -> Option<Claims>,
                   id: Option<string>, role: Field<string>)
    returns (r: Result<User>)
    requires table.Valid()
    modifies table
    ensures table.Valid()
    ensures Admit(header, verify, true).Err? ==>
      r == Err(Admit(header, verify, true).error) && unchanged(table)
    ensures Admit(header, verify, true).Ok? ==>
      && r == CreateResult(old(table.users), id, role)
      && table.users == (if r.Ok? then old(table.users)[r.value.id := r.value] else old(table.users))
      && table.txs == old(table.txs) && table.wallet == old(table.wallet)
  {
    var admitted := Admit(header, verify, true);
    if admitted.Err? {
      return Err(admitted.error);
    }
    r := table.Create(id, role);
  }

  /** `PATCH /users/:id` behind `auth` only: any signed-in role may patch. */
  method PatchUser(table: UserTable, header: Option<string>, verify: string -> Option<Claims>,
                   id: string, role: Option<string>, chips: Option<real>, deposits: Option<real>)
    returns (r: Result<User>)
    requires table.Valid()
    modifies table
    ensures table.Valid()
    ensures Authenticate(header, verify).Err? ==>
      r == Err(Authenticate(header, verify).error) && unchanged(table)
    ensures Authenticate(header, verify).Ok? ==>
      && r == PatchResult(old(table.users), id, role, chips, deposits)
      && table.users == (if r.Ok? then old(table.users)[id := r.value] else old(table.users))
      && table.txs == old(table.txs) && table.wallet == old(table.wallet)
  {
    var admitted := Admit(header, verify, false);
    if admitted.Err? {
      return Err(admitted.error);
    }
    r := table.Patch(id, role, chips, deposits);
  }

  /** `POST /users/:id/deposits` behind `auth` only. */
  method PostDeposit(table: UserTable, header: Option<string>, verify: string -> Option<Claims>,
                     id: string, amount: Option<real>, now: int)
    returns (r: Result<Receipt>)
    requires table.Valid()
    modifies table
    ensures table.Valid()
    ensures Authenticate(header, verify).Err? ==>
      r == Err(Authenticate(header, verify).error) && unchanged(table)
    ensures Authenticate(header, verify).Ok? ==>
      && r == DepositResult(old(table.users), old(table.WalletAmount()), id, amount)
      && (r.Ok? ==>
            && table.users == old(table.users)[id := r.value.user]
            && table.txs == old(table.txs) + [Tx(|old(table.txs)| + 1, id, "deposit", amount.value, now)]
            && table.wallet == Some(r.value.wallet))
      && (r.Err? ==> table.users == old(table.users) && table.txs == old(table.txs) && table.wallet == old(table.wallet))
  {
    var admitted := Admit(header, verify, false);
    if admitted.Err? {
      return Err(admitted.error);
    }
    r := table.Deposit(id, amount, now);
  }
}
