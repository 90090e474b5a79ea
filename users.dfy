/** The `users` table and `UserRepository`: primary key `id`, unique `email`. */
module Users {
  import opened Wrappers
  import opened GoTime
  import opened Uuid
  import opened Store
  import opened Bcrypt

  datatype User = User(id: Uuid, name: string, email: string, passwordHash: PasswordHash, createdAt: Time, emailVerified: bool)

  predicate IdsUnique(rows: seq<User>) {
    forall i, j :: 0 <= i < j < |rows| ==> rows[i].id != rows[j].id
  }

  predicate EmailsUnique(rows: seq<User>) {
    forall i, j :: 0 <= i < j < |rows| ==> rows[i].email != rows[j].email
  }

  predicate HasId(rows: seq<User>, id: Uuid) {
    exists i :: 0 <= i < |rows| && rows[i].id == id
  }

  predicate HasEmail(rows: seq<User>, email: string) {
    exists i :: 0 <= i < |rows| && rows[i].email == email
  }

  /** `WHERE email = ?` ... `First` */
  function FindByEmailIn(rows: seq<User>, email: string): (r: Option<User>)
    ensures r.Some? ==> r.value in rows && r.value.email == email
    ensures r.None? <==> !HasEmail(rows, email)
  {
    if rows == [] then None
    else if rows[0].email == email then Some(rows[0])
    else
      var r := FindByEmailIn(rows[1..], email);
      assert forall i :: 1 <= i < |rows| ==> rows[i] == rows[1..][i - 1];
      r
  }

  /** `WHERE id = ?` ... `First` */
  function FindByIdIn(rows: seq<User>, id: Uuid): (r: Option<User>)
    ensures r.Some? ==> r.value in rows && r.value.id == id
    ensures r.None? <==> !HasId(rows, id)
  {
    if rows == [] then None
    else if rows[0].id == id then Some(rows[0])
    else
      var r := FindByIdIn(rows[1..], id);
      assert forall i :: 1 <= i < |rows| ==> rows[i] == rows[1..][i - 1];
      r
  }

  /** An `UPDATE ... WHERE id = ?` that rewrites the selected row with `f`. */
  function UpdateWhereId(rows: seq<User>, id: Uuid, f: User -> User): (r: seq<User>)
    ensures |r| == |rows|
    ensures forall i :: 0 <= i < |rows| ==> r[i] == if rows[i].id == id then f(rows[i]) else rows[i]
  {
    seq(|rows|, i requires 0 <= i < |rows| => if rows[i].id == id then f(rows[i]) else rows[i])
  }

  /** The rows after `MarkEmailVerified(id)`. */
  function SetVerified(rows: seq<User>, id: Uuid): seq<User> {
    UpdateWhereId(rows, id, (u: User) => u.(emailVerified := true))
  }

  /** The rows after `UpdatePassword` of a user with this `id` and `hash`. */
  function SetPassword(rows: seq<User>, id: Uuid, hash: PasswordHash): seq<User> {
    UpdateWhereId(rows, id, (u: User) => u.(passwordHash := hash))
  }

  /** The row a `Create` inserts: `BeforeCreate` sets a fresh `id`,
      `autoCreateTime` stamps `created_at`, `email_verified` defaults to false. */
  function NewUser(name: string, email: string, hash: PasswordHash, id: Uuid, now: Time): (u: User)
    ensures u.id == id && u.name == name && u.email == email && u.passwordHash == hash
    ensures u.createdAt == now && !u.emailVerified
  {
    User(id, name, email, hash, now, false)
  }

  class UserRepository {
    var rows: seq<User>

    ghost predicate Valid()
      reads this
    {
      IdsUnique(rows) && EmailsUnique(rows)
    }

    constructor ()
      ensures Valid() && rows == []
    {
      rows := [];
    }

    /** `FindByEmail` */
    function FindByEmail(email: string): (r: Option<User>)
      reads this
      ensures r.Some? ==> r.value in rows && r.value.email == email
      ensures r.None? <==> !HasEmail(rows, email)
    {
      FindByEmailIn(rows, email)
    }

    /** `FindByID` */
    function FindById(id: Uuid): (r: Option<User>)
      reads this
      ensures r.Some? ==> r.value in rows && r.value.id == id
      ensures r.None? <==> !HasId(rows, id)
    {
      FindByIdIn(rows, id)
    }

    /** `Create`: inserts `NewUser(...)`, unless its `id` or `email` is taken. */
    method Create(name: string, email: string, hash: PasswordHash, id: Uuid, now: Time, down: bool)
      returns (user: User, err: Option<DbError>)
      requires Valid()
      modifies this
      ensures Valid()
      ensures user == NewUser(name, email, hash, id, now)
      ensures err == (if down then Some(Unavailable)
                      else if HasId(old(rows), id) then Some(UniqueViolation("id"))
                      else if HasEmail(old(rows), email) then Some(UniqueViolation("email"))
                      else None)
      ensures rows == if err.None? then old(rows) + [user] else old(rows)
    {
      user := NewUser(name, email, hash, id, now);
      if down {
        return user, Some(Unavailable);
      }
      if exists i :: 0 <= i < |rows| && rows[i].id == id {
        return user, Some(UniqueViolation("id"));
      }
      if exists i :: 0 <= i < |rows| && rows[i].email == email {
        return user, Some(UniqueViolation("email"));
      }
      rows := rows + [user];
      return user, None;
    }

    /** `MarkEmailVerified`; no error when no row has this `id`. */
    method MarkEmailVerified(id: Uuid, down: bool) returns (err: Option<DbError>)
      requires Valid()
      modifies this
      ensures Valid()
      ensures err == (if down then Some(Unavailable) else None)
      ensures rows == if down then old(rows) else SetVerified(old(rows), id)
    {
      if down {
        return Some(Unavailable);
      }
      rows := SetVerified(rows, id);
      return None;
    }

    /** `UpdatePassword`: writes `user.passwordHash` into the row of `user.id`. */
    method UpdatePassword(user: User, down: bool) returns (err: Option<DbError>)
      requires Valid()
      modifies this
      ensures Valid()
      ensures err == (if down then Some(Unavailable) else None)
      ensures rows == if down then old(rows) else SetPassword(old(rows), user.id, user.passwordHash)
    {
      if down {
        return Some(Unavailable);
      }
      rows := SetPassword(rows, user.id, user.passwordHash);
      return None;
    }
  }

  // ---------------------------------------------------------------------
  // Properties of the table operations.

  /** With unique emails, `FindByEmail` returns the one user holding the address. */
  lemma FindByEmailUnique(rows: seq<User>, k: nat)
    requires EmailsUnique(rows) && k < |rows|
    ensures FindByEmailIn(rows, rows[k].email) == Some(rows[k])
  {
    var r := FindByEmailIn(rows, rows[k].email).value;
    var j :| 0 <= j < |rows| && rows[j] == r;
    assert j == k;
  }

  /** With unique ids, `FindByID` returns the one user with that id. */
  lemma FindByIdUnique(rows: seq<User>, k: nat)
    requires IdsUnique(rows) && k < |rows|
    ensures FindByIdIn(rows, rows[k].id) == Some(rows[k])
  {
    var r := FindByIdIn(rows, rows[k].id).value;
    var j :| 0 <= j < |rows| && rows[j] == r;
    assert j == k;
  }

  /** `MarkEmailVerified` changes `email_verified` of that user alone, keeps
      ids and emails, and is idempotent. */
  lemma SetVerifiedFacts(rows: seq<User>, id: Uuid)
    ensures var r := SetVerified(rows, id);
      && (forall i :: 0 <= i < |rows| && rows[i].id == id ==> r[i] == rows[i].(emailVerified := true))
      && (forall i :: 0 <= i < |rows| && rows[i].id != id ==> r[i] == rows[i])
      && (IdsUnique(rows) ==> IdsUnique(r)) && (EmailsUnique(rows) ==> EmailsUnique(r))
      && SetVerified(r, id) == r
  {
  }

  /** `UpdatePassword` changes `password_hash` of that user alone, after which
      the user is found with the new hash. */
  lemma SetPasswordFacts(rows: seq<User>, id: Uuid, hash: PasswordHash)
    ensures var r := SetPassword(rows, id, hash);
      && (forall i :: 0 <= i < |rows| && rows[i].id == id ==> r[i] == rows[i].(passwordHash := hash))
      && (forall i :: 0 <= i < |rows| && rows[i].id != id ==> r[i] == rows[i])
      && (IdsUnique(rows) ==> IdsUnique(r)) && (EmailsUnique(rows) ==> EmailsUnique(r))
  {
  }

  /** After a successful `Create`, the new user is found by its email. */
  lemma CreatedFound(rows: seq<User>, u: User)
    requires EmailsUnique(rows) && !HasEmail(rows, u.email)
    ensures EmailsUnique(rows + [u])
    ensures FindByEmailIn(rows + [u], u.email) == Some(u)
  {
    FindByEmailUnique(rows + [u], |rows|);
  }
}
