/** The user table: username validation, and a keyed table of rows that
    `add_user`, `update_user` and `delete_user` change inside transactions. */
module Users {
  import opened Wrappers
  import opened Strings

  // ---------------------------------------------------------------------
  // usernames and credentials

  /** `validate_username`: the verdict and, on rejection, the first failing rule's message. */
  function ValidateUsername(username: string): (r: (bool, string))
    ensures r.0 <==> r.1 == ""
    ensures r.0 ==> 3 <= |username| <= 20 && IsAlnum(username) && '-' !in username && ':' !in username
  {
    if !(3 <= |username| <= 20) then (false, "Username must be between 3 and 20 characters")
    else if !IsAlnum(username) then (false, "Username must be alphanumeric")
    else if '-' in username || ':' in username then (false, "Username cannot contain '-' or ':'")
    else (true, "")
  }

  /** `check_username`: raise InvalidUsernameError with the validation message. */
  function CheckUsername(username: string): (r: Result<()>)
    ensures r.Ok? <==> ValidateUsername(username).0
    ensures r.Err? ==> r.error.InvalidUsername? && r.error.msg != "" && r.error.msg == ValidateUsername(username).1
  {
    var res := ValidateUsername(username);
    if !res.0 then Err(InvalidUsername(res.1)) else Ok(())
  }

  /** `hash_password`: the digest of `username:password`; `sha` is the hex SHA-256 digest. */
  function HashPassword(sha: string -> string, username: string, password: string): string
  {
    sha(username + ":" + password)
  }

  /** The text `hash_password` digests names its credentials unambiguously:
      for colon-free usernames, two credential pairs give the same text only
      when they are the same pair. */
  lemma HashInputSeparates(u1: string, p1: string, u2: string, p2: string)
    requires ':' !in u1 && ':' !in u2
    ensures u1 + ":" + p1 == u2 + ":" + p2 <==> u1 == u2 && p1 == p2
  {
    if u1 + ":" + p1 == u2 + ":" + p2 {
      var s := u1 + ":" + p1;
      assert s == u2 + ":" + p2;
      assert s[|u1|] == ':' && (u2 + ":" + p2)[|u2|] == ':';
      assert forall i :: 0 <= i < |u2| ==> s[i] == u2[i];
      assert forall i :: 0 <= i < |u1| ==> s[i] == u1[i];
      if |u1| < |u2| {
        assert false;
      } else if |u2| < |u1| {
        assert false;
      }
      assert u1 == s[..|u1|] == u2;
      assert p1 == s[|u1| + 1..] == p2;
    }
  }

  /** A username is accepted exactly when it has 3 to 20 characters, all
      letters or digits; the dash/colon rule can never be the one that fails. */
  lemma ValidateUsernameIff(username: string)
    ensures ValidateUsername(username).0 <==> 3 <= |username| <= 20 && IsAlnum(username)
    ensures ValidateUsername(username).0 <==> ValidateUsername(username).1 == ""
    ensures ValidateUsername(username).1 != "Username cannot contain '-' or ':'"
  {}

  /** The rules apply in order and `check_username` raises the first failing
      rule's message. */
  lemma CheckUsernameMessages(username: string)
    ensures !(3 <= |username| <= 20) ==>
      CheckUsername(username) == Err(InvalidUsername("Username must be between 3 and 20 characters"))
    ensures 3 <= |username| <= 20 && !IsAlnum(username) ==>
      CheckUsername(username) == Err(InvalidUsername("Username must be alphanumeric"))
    ensures CheckUsername(username).Ok? <==> 3 <= |username| <= 20 && IsAlnum(username)
  {
    ValidateUsernameIff(username);
  }

  /** "ab" is too short, "ab1" is accepted, "_ab" is not alphanumeric. */
  lemma ValidateUsernameExamples(short: string, good: string, underscore: string)
    requires short == "ab" && good == "ab1" && underscore == "_ab"
    ensures ValidateUsername(short) == (false, "Username must be between 3 and 20 characters")
    ensures ValidateUsername(good) == (true, "")
    ensures ValidateUsername(underscore) == (false, "Username must be alphanumeric")
  {
    assert !IsAlphaChar(underscore[0]) && !IsDigitChar(underscore[0]);
    assert IsAlphaChar(good[0]) && IsAlphaChar(good[1]) && IsDigitChar(good[2]);
    ValidateUsernameIff(good);
  }

  // ---------------------------------------------------------------------
  // rows and statements

  /** A row of the `users` table, keyed by its unique `username`. */
  datatype Row = Row(id: int, credential: string, isAdmin: bool, maxPods: int)

  /** The `User` record `check_user` returns. */
  datatype User = User(userid: int, name: string, isAdmin: bool, maxPods: int)

  /** Some row holds this credential. */
  predicate Stored(rows: map<string, Row>, credential: string)
  {
    exists k :: k in rows && rows[k].credential == credential
  }

  /** The message of the TypeError `User(*res)` raises on a one-column row. */
  const MissingUserFields: string :=
    "User.__init__() missing 3 required positional arguments: 'name', 'is_admin', and 'max_pods'"

  /** The table's own invariant: row ids are distinct. */
  predicate DistinctIds(rows: map<string, Row>)
  {
    forall a, b :: a in rows && b in rows && a != b ==> rows[a].id != rows[b].id
  }

  function Ids(rows: map<string, Row>): set<int>
  {
    set k | k in rows :: rows[k].id
  }

  lemma NonEmptyHasElement(ids: set<int>)
    requires ids != {}
    ensures exists x :: x in ids
  {
    if forall x :: x !in ids {
      assert false;
    }
  }

  ghost function MaxId(ids: set<int>): (m: int)
    requires ids != {}
    ensures m in ids && forall x :: x in ids ==> x <= m
    decreases ids
  {
    NonEmptyHasElement(ids);
    var x :| x in ids;
    var rest := ids - {x};
    assert forall y :: y in ids ==> y in rest || y == x;
    if rest == {} then x
    else
      var r := MaxId(rest);
      if x > r then x else r
  }

  /** The id SQLite gives an inserted `INTEGER PRIMARY KEY` row: one more than
      the largest id in the table, or 1 in an empty table. */
  ghost function NextId(rows: map<string, Row>): (n: int)
    ensures forall k :: k in rows ==> rows[k].id < n
  {
    assert forall k :: k in rows ==> rows[k].id in Ids(rows);
    if Ids(rows) == {} then 1 else MaxId(Ids(rows)) + 1
  }

  const UniqueViolation := "UNIQUE constraint failed: users.username"

  /** The SQL statements the table's methods issue, plus an exception raised
      by the code inside a `with transaction()` block. */
  datatype Stmt =
    | Insert(username: string, credential: string, isAdmin: bool, maxPods: int)
    | SetCredential(username: string, credential: string)
    | SetMaxPods(username: string, maxPods: int)
    | SetAdmin(username: string, isAdmin: bool)
    | Delete(username: string)
    | Raise(error: Error)

  /** The effect of one statement. An UPDATE or DELETE of an absent username matches no row. */
  ghost function ExecStmt(rows: map<string, Row>, st: Stmt): Result<map<string, Row>>
  {
    match st
    case Insert(u, c, a, mp) =>
      if u in rows then Err(IntegrityError(UniqueViolation)) else Ok(rows[u := Row(NextId(rows), c, a, mp)])
    case SetCredential(u, c) => Ok(if u in rows then rows[u := rows[u].(credential := c)] else rows)
    case SetMaxPods(u, n) => Ok(if u in rows then rows[u := rows[u].(maxPods := n)] else rows)
    case SetAdmin(u, b) => Ok(if u in rows then rows[u := rows[u].(isAdmin := b)] else rows)
    case Delete(u) => Ok(rows - {u})
    case Raise(e) => Err(e)
  }

  /** The statements run one after another; the first failure stops the run. */
  ghost function ExecAll(rows: map<string, Row>, stmts: seq<Stmt>): Result<map<string, Row>>
    decreases |stmts|
  {
    if stmts == [] then Ok(rows)
    else match ExecAll(rows, stmts[..|stmts| - 1])
      case Err(e) => Err(e)
      case Ok(m) => ExecStmt(m, stmts[|stmts| - 1])
  }

  lemma {:induction false} ExecAllErrSticks(rows: map<string, Row>, stmts: seq<Stmt>, i: nat)
    requires i <= |stmts| && ExecAll(rows, stmts[..i]).Err?
    ensures ExecAll(rows, stmts) == Err(ExecAll(rows, stmts[..i]).error)
    decreases |stmts|
  {
    if i < |stmts| {
      var init := stmts[..|stmts| - 1];
      assert init[..i] == stmts[..i];
      ExecAllErrSticks(rows, init, i);
    } else {
      assert stmts[..i] == stmts;
    }
  }

  /** Every statement keeps row ids distinct: an insert takes an id above all others. */
  lemma ExecStmtKeepsDistinctIds(rows: map<string, Row>, st: Stmt)
    requires DistinctIds(rows) && ExecStmt(rows, st).Ok?
    ensures DistinctIds(ExecStmt(rows, st).value)
  {
    if st.Insert? {
      var n := NextId(rows);
      assert forall k :: k in rows ==> rows[k].id < n;
    }
  }

  /** Deleting is idempotent, and afterwards the username is absent. */
  lemma DeleteIdempotent(rows: map<string, Row>, u: string)
    ensures ExecStmt(rows, Delete(u)).Ok? && u !in ExecStmt(rows, Delete(u)).value
    ensures ExecStmt(ExecStmt(rows, Delete(u)).value, Delete(u)) == ExecStmt(rows, Delete(u))
  {
    assert (rows - {u}) - {u} == rows - {u};
  }

  /** `update_user`'s effect: only the named row changes, only in the fields
      given, and a new password is stored as its hash. */
  function UpdatedRows(rows: map<string, Row>, username: string, password: Option<string>,
                       maxPods: Option<int>, isAdmin: Option<bool>, sha: string -> string): (r: map<string, Row>)
    ensures r.Keys == rows.Keys
    ensures forall k :: k in rows && k != username ==> r[k] == rows[k]
    ensures username in rows ==>
      r[username].id == rows[username].id
      && r[username].credential == (if password.Some? then HashPassword(sha, username, password.value) else rows[username].credential)
      && r[username].maxPods == (if maxPods.Some? then maxPods.value else rows[username].maxPods)
      && r[username].isAdmin == (if isAdmin.Some? then isAdmin.value else rows[username].isAdmin)
  {
    if username !in rows then rows
    else
      var old_ := rows[username];
      rows[username := Row(
        old_.id,
        if password.Some? then HashPassword(sha, username, password.value) else old_.credential,
        if isAdmin.Some? then isAdmin.value else old_.isAdmin,
        if maxPods.Some? then maxPods.value else old_.maxPods)]
  }

  /** A transaction of one statement runs just that statement. */
  lemma ExecOne(rows: map<string, Row>, st: Stmt)
    ensures ExecAll(rows, [st]) == ExecStmt(rows, st)
  {
    assert [st][..0] == [];
  }

  /** Setting the given fields one statement at a time gives the updated row. */
  lemma UpdatedRowsSteps(r0: map<string, Row>, s1: map<string, Row>, s2: map<string, Row>, s3: map<string, Row>,
                         username: string, password: Option<string>, maxPods: Option<int>,
                         isAdmin: Option<bool>, sha: string -> string)
    requires s1 == if password.Some? then ExecStmt(r0, SetCredential(username, HashPassword(sha, username, password.value))).value else r0
    requires s2 == if maxPods.Some? then ExecStmt(s1, SetMaxPods(username, maxPods.value)).value else s1
    requires s3 == if isAdmin.Some? then ExecStmt(s2, SetAdmin(username, isAdmin.value)).value else s2
    ensures s3 == UpdatedRows(r0, username, password, maxPods, isAdmin, sha)
  {
    if username in r0 {
      var u := UpdatedRows(r0, username, password, maxPods, isAdmin, sha);
      assert s3.Keys == u.Keys;
      assert s3[username] == u[username];
    }
  }

  // ---------------------------------------------------------------------
  // the table

  class UserDatabase {
    var rows: map<string, Row>

    /** Opening the database creates the table if needed; rows already stored
        on disk are `stored`. */
    constructor (stored: map<string, Row>)
      ensures rows == stored
    {
      rows := stored;
    }

    /** `has_user`: the name has a row, so adding it again would violate
        the UNIQUE constraint, and otherwise the insert would go through. */
    predicate HasUser(username: string): (b: bool)
      reads this
      ensures b ==> forall c, a, mp :: ExecStmt(rows, Insert(username, c, a, mp)) == Err(IntegrityError(UniqueViolation))
      ensures !b ==> forall c, a, mp :: ExecStmt(rows, Insert(username, c, a, mp)).Ok?
    {
      username in rows
    }

    /** The id an insert would get now. */
    method NextRowId() returns (n: int)
      ensures n == NextId(rows)
    {
      var ids := Ids(rows);
      var left := ids;
      var best := 0;
      var seen := false;
      while left != {}
        invariant left <= ids
        invariant seen <==> ids - left != {}
        invariant seen ==> best in ids - left && forall x :: x in ids - left ==> x <= best
        decreases left
      {
        var x :| x in left;
        assert ids - (left - {x}) == (ids - left) + {x};
        if !seen || x > best {
          best := x;
        }
        seen := true;
        left := left - {x};
      }
      if !seen {
        n := 1;
      } else {
        assert ids - left == ids;
        var m := MaxId(ids);
        assert best <= m && m <= best;
        n := best + 1;
      }
    }

    /** Run one statement against the table. */
    method Exec(st: Stmt) returns (r: Result<()>)
      modifies this
      ensures ExecStmt(old(rows), st).Ok? ==> r == Ok(()) && rows == ExecStmt(old(rows), st).value
      ensures ExecStmt(old(rows), st).Err? ==> r == Err(ExecStmt(old(rows), st).error) && rows == old(rows)
    {
      match st
      case Insert(u, c, a, mp) =>
        if u in rows {
          return Err(IntegrityError(UniqueViolation));
        }
        var id := NextRowId();
        rows := rows[u := Row(id, c, a, mp)];
        return Ok(());
      case SetCredential(u, c) =>
        if u in rows {
          rows := rows[u := rows[u].(credential := c)];
        }
        return Ok(());
      case SetMaxPods(u, n) =>
        if u in rows {
          rows := rows[u := rows[u].(maxPods := n)];
        }
        return Ok(());
      case SetAdmin(u, b) =>
        if u in rows {
          rows := rows[u := rows[u].(isAdmin := b)];
        }
        return Ok(());
      case Delete(u) =>
        rows := rows - {u};
        return Ok(());
      case Raise(e) =>
        return Err(e);
    }

    /** `with transaction()`: BEGIN, run the statements, then COMMIT; on an
        exception ROLLBACK to the state at BEGIN and re-raise it. */
    method Transaction(stmts: seq<Stmt>) returns (r: Result<()>)
      modifies this
      ensures ExecAll(old(rows), stmts).Ok? ==> r == Ok(()) && rows == ExecAll(old(rows), stmts).value
      ensures ExecAll(old(rows), stmts).Err? ==> r == Err(ExecAll(old(rows), stmts).error) && rows == old(rows)
    {
      var snapshot := rows;
      var i := 0;
      while i < |stmts|
        invariant 0 <= i <= |stmts| && snapshot == old(rows)
        invariant ExecAll(snapshot, stmts[..i]) == Ok(rows)
      {
        assert stmts[..i + 1][..i] == stmts[..i];
        var step := Exec(stmts[i]);
        if step.Err? {
          ExecAllErrSticks(snapshot, stmts, i + 1);
          rows := snapshot;
          return step;
        }
        i := i + 1;
      }
      assert stmts[..i] == stmts;
      return Ok(());
    }

    /** `add_user`: validate the name, then insert the row in a transaction. */
    method AddUser(username: string, password: string, isAdmin: bool, maxPods: int, sha: string -> string)
      returns (r: Result<()>)
      modifies this
      ensures CheckUsername(username).Err? ==> r == CheckUsername(username) && rows == old(rows)
      ensures CheckUsername(username).Ok? && username in old(rows) ==>
        r == Err(IntegrityError(UniqueViolation)) && rows == old(rows)
      ensures CheckUsername(username).Ok? && username !in old(rows) ==>
        r == Ok(()) && rows == old(rows)[username := Row(NextId(old(rows)), HashPassword(sha, username, password), isAdmin, maxPods)]
      ensures DistinctIds(old(rows)) ==> DistinctIds(rows)
    {
      r := CheckUsername(username);
      if r.Err? {
        return;
      }
      var st := Insert(username, HashPassword(sha, username, password), isAdmin, maxPods);
      ExecOne(rows, st);
      if DistinctIds(rows) && ExecStmt(rows, st).Ok? {
        ExecStmtKeepsDistinctIds(rows, st);
      }
      r := Transaction([st]);
    }

    /** `update_user`: validate the name, then one transaction per given field. */
    method UpdateUser(username: string, password: Option<string>, maxPods: Option<int>,
                      isAdmin: Option<bool>, sha: string -> string) returns (r: Result<()>)
      modifies this
      ensures CheckUsername(username).Err? ==> r == CheckUsername(username) && rows == old(rows)
      ensures CheckUsername(username).Ok? ==>
        r == Ok(()) && rows == UpdatedRows(old(rows), username, password, maxPods, isAdmin, sha)
    {
      r := CheckUsername(username);
      if r.Err? {
        return;
      }
      ghost var r0 := rows;
      var r1: Result<()>;
      if password.Some? {
        var st := SetCredential(username, HashPassword(sha, username, password.value));
        ExecOne(rows, st);
        r1 := Transaction([st]);
      }
      ghost var s1 := rows;
      if maxPods.Some? {
        var st := SetMaxPods(username, maxPods.value);
        ExecOne(rows, st);
        r1 := Transaction([st]);
      }
      ghost var s2 := rows;
      if isAdmin.Some? {
        var st := SetAdmin(username, isAdmin.value);
        ExecOne(rows, st);
        r1 := Transaction([st]);
      }
      UpdatedRowsSteps(r0, s1, s2, rows, username, password, maxPods, isAdmin, sha);
    }

    /** `delete_user`: remove the row if there is one; absent names are a no-op. */
    method DeleteUser(username: string)
      modifies this
      ensures rows == old(rows) - {username}
      ensures !HasUser(username)
      ensures forall k :: k in old(rows) && k != username ==> k in rows && rows[k] == old(rows)[k]
    {
      var st := Delete(username);
      ExecOne(rows, st);
      var r := Transaction([st]);
    }

    /** `check_user` as written: it selects only the `id` column, so building
        `User(*res)` from a found row raises TypeError; no match gives the
        all-empty sentinel user. */
    function CheckUser(credential: string): (r: Result<User>)
      reads this
      ensures r.Err? <==> Stored(rows, credential)
      ensures r.Ok? ==> r.value == User(0, "", false, 0)
      ensures r.Err? ==> r.error.TypeError?
    {
      if Stored(rows, credential) then
        Err(TypeError(MissingUserFields))
      else Ok(User(0, "", false, 0))
    }

    /** `check_user` as intended: the user of the first row (in id order) whose
        credential matches, or the sentinel when none does. */
    method CheckUserIntended(credential: string) returns (u: User)
      ensures (forall k :: k in rows ==> rows[k].credential != credential) ==> u == User(0, "", false, 0)
      ensures (exists k :: k in rows && rows[k].credential == credential) ==>
        exists k :: k in rows && rows[k].credential == credential
          && u == User(rows[k].id, k, rows[k].isAdmin, rows[k].maxPods)
          && forall j :: j in rows && rows[j].credential == credential ==> rows[k].id <= rows[j].id
    {
      var left := rows.Keys;
      var found: Option<string> := None;
      while left != {}
        invariant left <= rows.Keys
        invariant found.None? ==> forall j :: j in rows.Keys - left ==> rows[j].credential != credential
        invariant found.Some? ==> (found.value in rows && rows[found.value].credential == credential
          && forall j :: j in rows.Keys - left && rows[j].credential == credential ==> rows[found.value].id <= rows[j].id)
        decreases left
      {
        var k :| k in left;
        if rows[k].credential == credential && (found.None? || rows[k].id < rows[found.value].id) {
          found := Some(k);
        }
        left := left - {k};
      }
      if found.None? {
        u := User(0, "", false, 0);
      } else {
        var k := found.value;
        u := User(rows[k].id, k, rows[k].isAdmin, rows[k].maxPods);
      }
    }
  }

  /** The as-written `check_user` fails on every credential that is stored. */
  lemma CheckUserFoundRaises(db: UserDatabase, username: string)
    requires username in db.rows
    ensures db.CheckUser(db.rows[username].credential).Err?
    ensures db.CheckUser(db.rows[username].credential).error.TypeError?
  {}
}
