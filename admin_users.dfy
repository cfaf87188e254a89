/** `opencli admin new|rename|password|suspend|unsuspend|delete|list`: the
    administrator accounts kept in the `user` table of the admin panel's
    SQLite database (admin.py). Each command counts the matching rows first
    and changes the table only when the checks pass. */
module AdminUsers {
  import opened Base

  /** One row of `user (id, username, password_hash, role, is_active)`. */
  datatype User = User(id: nat, username: string, passwordHash: string, role: string, active: bool)

  datatype Outcome =
    | Done            // the change was made and committed
    | AlreadyExists   // `new`: "Username ... already exists."
    | NameTaken       // `rename`: "Username ... already taken."
    | NotFound        // "User ... not found." / "... does not exist."
    | AdminProtected  // `suspend`, `delete`: "Cannot ... with 'admin' role."
    | NoTable         // the first query raises: the `user` table does not exist

  // ---------------------------------------------------------------------
  // The table as a value

  /** Usernames are unique (the column is `UNIQUE`) and so are ids (the
      primary key). */
  ghost predicate Distinct(rows: seq<User>)
  {
    forall i, j :: 0 <= i < j < |rows| ==> rows[i].username != rows[j].username && rows[i].id != rows[j].id
  }

  function Names(rows: seq<User>): set<string>
  {
    set i | 0 <= i < |rows| :: rows[i].username
  }

  /** `SELECT COUNT(*) FROM user WHERE username = name [AND role = 'admin']`. */
  function CountNamed(rows: seq<User>, name: string, adminOnly: bool): (n: nat)
    ensures n <= |rows|
    ensures n > 0 <==> exists i :: 0 <= i < |rows| && rows[i].username == name && (adminOnly ==> rows[i].role == "admin")
  {
    if rows == [] then 0
    else
      var rest := CountNamed(rows[1..], name, adminOnly);
      assert forall i :: 1 <= i < |rows| ==> rows[i] == rows[1..][i - 1];
      if rows[0].username == name && (!adminOnly || rows[0].role == "admin") then rest + 1 else rest
  }

  /** With unique usernames a name is counted at most once. */
  lemma {:induction false} CountAtMostOne(rows: seq<User>, name: string, adminOnly: bool)
    requires Distinct(rows)
    ensures CountNamed(rows, name, adminOnly) <= 1
  {
    if rows != [] {
      assert Distinct(rows[1..]);
      CountAtMostOne(rows[1..], name, adminOnly);
      if rows[0].username == name {
        assert forall i :: 0 <= i < |rows[1..]| ==> rows[1..][i].username != name;
      }
    }
  }

  /** The largest id in use, 0 for an empty table. */
  function MaxId(rows: seq<User>): (m: nat)
    ensures forall i :: 0 <= i < |rows| ==> rows[i].id <= m
  {
    if rows == [] then 0
    else
      var rest := MaxId(rows[1..]);
      assert forall i :: 1 <= i < |rows| ==> rows[i] == rows[1..][i - 1];
      if rows[0].id > rest then rows[0].id else rest
  }

  /** The row `INSERT INTO user (username, password_hash)` adds: the rowid
      SQLite picks (one more than the largest) and the column defaults
      `role = 'user'` and `is_active = 1`. */
  function NewUser(rows: seq<User>, name: string, hash: string): User
  {
    User(MaxId(rows) + 1, name, hash, "user", true)
  }

  function Renamed(rows: seq<User>, from: string, to: string): (r: seq<User>)
    ensures |r| == |rows|
  {
    seq(|rows|, i requires 0 <= i < |rows| =>
      if rows[i].username == from then rows[i].(username := to) else rows[i])
  }

  function WithHash(rows: seq<User>, name: string, hash: string): (r: seq<User>)
    ensures |r| == |rows|
  {
    seq(|rows|, i requires 0 <= i < |rows| =>
      if rows[i].username == name then rows[i].(passwordHash := hash) else rows[i])
  }

  function WithActive(rows: seq<User>, name: string, active: bool): (r: seq<User>)
    ensures |r| == |rows|
  {
    seq(|rows|, i requires 0 <= i < |rows| =>
      if rows[i].username == name then rows[i].(active := active) else rows[i])
  }

  /** `DELETE FROM user WHERE username = name`. */
  function Removed(rows: seq<User>, name: string): (r: seq<User>)
    ensures |r| <= |rows|
  {
    if rows == [] then []
    else if rows[0].username == name then Removed(rows[1..], name)
    else [rows[0]] + Removed(rows[1..], name)
  }

  // ---------------------------------------------------------------------
  // What the updates do to the table

  /** A new row keeps names and ids unique and adds exactly its name. */
  lemma AddKeepsDistinct(rows: seq<User>, name: string, hash: string)
    requires Distinct(rows) && name !in Names(rows)
    ensures Distinct(rows + [NewUser(rows, name, hash)])
    ensures Names(rows + [NewUser(rows, name, hash)]) == Names(rows) + {name}
  {
    var r := rows + [NewUser(rows, name, hash)];
    assert r[|rows|].username == name;
    forall i | 0 <= i < |rows| ensures r[i].username != name && r[i].id != r[|rows|].id {
      assert rows[i].username in Names(rows);
    }
    forall x | x in Names(r) ensures x in Names(rows) + {name} {
      var i :| 0 <= i < |r| && r[i].username == x;
      if i < |rows| {
        assert rows[i].username == x;
      }
    }
    forall x | x in Names(rows) ensures x in Names(r) {
      var i :| 0 <= i < |rows| && rows[i].username == x;
      assert r[i].username == x;
    }
  }

  /** Renaming to a free name keeps the table consistent, keeps every id and
      swaps exactly one name. */
  lemma RenameKeepsDistinct(rows: seq<User>, from: string, to: string)
    requires Distinct(rows) && from in Names(rows) && to !in Names(rows)
    ensures Distinct(Renamed(rows, from, to))
    ensures Names(Renamed(rows, from, to)) == Names(rows) - {from} + {to}
    ensures forall i :: 0 <= i < |rows| ==> Renamed(rows, from, to)[i].id == rows[i].id
  {
    var r := Renamed(rows, from, to);
    forall i | 0 <= i < |rows| ensures rows[i].username != to {
      assert rows[i].username in Names(rows);
    }
    forall x | x in Names(rows) - {from} + {to} ensures x in Names(r) {
      if x == to {
        var i :| 0 <= i < |rows| && rows[i].username == from;
        assert r[i].username == to;
      } else {
        var i :| 0 <= i < |rows| && rows[i].username == x;
        assert r[i].username == x;
      }
    }
  }

  /** Setting a password or the active flag changes only that field of the
      named row. */
  lemma FieldUpdatesFrame(rows: seq<User>, name: string, hash: string, active: bool)
    ensures forall i :: 0 <= i < |rows| ==>
      && WithHash(rows, name, hash)[i] == (if rows[i].username == name then rows[i].(passwordHash := hash) else rows[i])
      && WithActive(rows, name, active)[i] == (if rows[i].username == name then rows[i].(active := active) else rows[i])
    ensures Names(WithHash(rows, name, hash)) == Names(rows)
    ensures Names(WithActive(rows, name, active)) == Names(rows)
  {
    var h := WithHash(rows, name, hash);
    var a := WithActive(rows, name, active);
    forall x | x in Names(rows) ensures x in Names(h) && x in Names(a) {
      var i :| 0 <= i < |rows| && rows[i].username == x;
      assert h[i].username == x && a[i].username == x;
    }
  }

  /** Suspending and then unsuspending a user gives the original table back
      when the user was active. */
  lemma SuspendUnsuspend(rows: seq<User>, name: string)
    requires forall i :: 0 <= i < |rows| && rows[i].username == name ==> rows[i].active
    ensures WithActive(WithActive(rows, name, false), name, true) == rows
  {
  }

  /** Deleting drops exactly the rows with the name and keeps every other row. */
  lemma {:induction false} RemovedFrame(rows: seq<User>, name: string)
    ensures forall u :: u in Removed(rows, name) <==> u in rows && u.username != name
    ensures name !in Names(Removed(rows, name))
  {
    if rows != [] {
      RemovedFrame(rows[1..], name);
      assert forall u :: u in rows <==> u == rows[0] || u in rows[1..];
    }
    forall x | x in Names(Removed(rows, name)) ensures x != name {
      var i :| 0 <= i < |Removed(rows, name)| && Removed(rows, name)[i].username == x;
      assert Removed(rows, name)[i] in Removed(rows, name);
    }
  }

  /** Deleting keeps names and ids unique. */
  lemma {:induction false} RemovedDistinct(rows: seq<User>, name: string)
    requires Distinct(rows)
    ensures Distinct(Removed(rows, name))
  {
    if rows != [] {
      assert Distinct(rows[1..]);
      RemovedDistinct(rows[1..], name);
      if rows[0].username != name {
        var rest := Removed(rows[1..], name);
        RemovedFrame(rows[1..], name);
        forall u | u in rest ensures u.username != rows[0].username && u.id != rows[0].id {
          var j :| 0 <= j < |rows[1..]| && rows[1..][j] == u;
          assert rows[j + 1] == u;
        }
      }
    }
  }

  /** With unique names, deleting a name that is there removes one row. */
  lemma {:induction false} RemovedOne(rows: seq<User>, name: string)
    requires Distinct(rows) && name in Names(rows)
    ensures |Removed(rows, name)| == |rows| - 1
  {
    assert Distinct(rows[1..]);
    if rows[0].username == name {
      forall i | 0 <= i < |rows[1..]| ensures rows[1..][i].username != name {
        assert rows[i + 1] == rows[1..][i];
      }
      assert name !in Names(rows[1..]);
      RemovedAbsent(rows[1..], name);
    } else {
      var i :| 0 <= i < |rows| && rows[i].username == name;
      assert rows[1..][i - 1].username == name;
      RemovedOne(rows[1..], name);
    }
  }

  /** Deleting a name that is not there changes nothing. */
  lemma {:induction false} RemovedAbsent(rows: seq<User>, name: string)
    requires name !in Names(rows)
    ensures Removed(rows, name) == rows
  {
    if rows != [] {
      assert rows[0].username in Names(rows);
      assert Names(rows[1..]) <= Names(rows) by {
        forall x | x in Names(rows[1..]) ensures x in Names(rows) {
          var i :| 0 <= i < |rows[1..]| && rows[1..][i].username == x;
          assert rows[i + 1].username == x;
        }
      }
      RemovedAbsent(rows[1..], name);
    }
  }

  // ---------------------------------------------------------------------
  // The table object

  class UserTable {
    /** Whether the `user` table exists in the database file. */
    var created: bool
    var rows: seq<User>

    ghost predicate Valid()
      reads this
    {
      Distinct(rows) && (!created ==> rows == [])
    }

    /** The database as found: either without the table, or with these rows. */
    constructor (created: bool, initial: seq<User>)
      requires Distinct(initial) && (!created ==> initial == [])
      ensures Valid() && this.created == created && rows == initial
    {
      this.created := created;
      rows := initial;
    }

    /** `SELECT COUNT(*) ...`: counts the matching rows; the query raises
        when the table does not exist. */
    method Count(name: string, adminOnly: bool) returns (n: Option<nat>)
      ensures n == if created then Some(CountNamed(rows, name, adminOnly)) else None
    {
      if !created {
        return None;
      }
      var c := 0;
      var i := |rows|;
      while i > 0
        invariant 0 <= i <= |rows|
        invariant c == CountNamed(rows[i..], name, adminOnly)
      {
        i := i - 1;
        assert rows[i..][1..] == rows[i + 1..];
        if rows[i].username == name && (!adminOnly || rows[i].role == "admin") {
          c := c + 1;
        }
      }
      assert rows[0..] == rows;
      return Some(c);
    }

    /** `add_new_user`: refuses an existing name, otherwise inserts the row
        with the column defaults. The name is counted before the `CREATE
        TABLE IF NOT EXISTS`, so without the table the count raises and no
        user is created. */
    method Add(name: string, hash: string) returns (outcome: Outcome)
      requires Valid()
      modifies this
      ensures Valid() && created == old(created)
      ensures !created ==> outcome == NoTable && rows == old(rows)
      ensures created && name in old(Names(rows)) ==> outcome == AlreadyExists && rows == old(rows)
      ensures created && name !in old(Names(rows)) ==>
        outcome == Done && rows == old(rows) + [NewUser(old(rows), name, hash)]
    {
      var exists_ := Count(name, false);
      if exists_.None? {
        return NoTable;
      }
      if exists_.value > 0 {
        return AlreadyExists;
      }
      AddKeepsDistinct(rows, name, hash);
      rows := rows + [NewUser(rows, name, hash)];
      return Done;
    }

    /** `update_username`: needs the old name present and the new one absent,
        so renaming a user to its own name is refused. */
    method Rename(from: string, to: string) returns (outcome: Outcome)
      requires Valid()
      modifies this
      ensures Valid() && created == old(created)
      ensures !created ==> outcome == NoTable && rows == old(rows)
      ensures created && from !in old(Names(rows)) ==> outcome == NotFound && rows == old(rows)
      ensures from in old(Names(rows)) && to in old(Names(rows)) ==> outcome == NameTaken && rows == old(rows)
      ensures from in old(Names(rows)) && to !in old(Names(rows)) ==>
        outcome == Done && rows == Renamed(old(rows), from, to)
    {
      var userExists := Count(from, false);
      var newExists := Count(to, false);
      if userExists.None? || newExists.None? {
        return NoTable;
      }
      if userExists.value > 0 {
        if newExists.value > 0 {
          return NameTaken;
        }
        RenameKeepsDistinct(rows, from, to);
        rows := Renamed(rows, from, to);
        return Done;
      }
      return NotFound;
    }

    /** `update_password`: only checks that the user exists. */
    method SetPassword(name: string, hash: string) returns (outcome: Outcome)
      requires Valid()
      modifies this
      ensures Valid() && created == old(created)
      ensures !created ==> outcome == NoTable && rows == old(rows)
      ensures created && name !in old(Names(rows)) ==> outcome == NotFound && rows == old(rows)
      ensures name in old(Names(rows)) ==> outcome == Done && rows == WithHash(old(rows), name, hash)
    {
      var userExists := Count(name, false);
      if userExists.None? {
        return NoTable;
      }
      if userExists.value > 0 {
        FieldUpdatesFrame(rows, name, hash, true);
        rows := WithHash(rows, name, hash);
        return Done;
      }
      return NotFound;
    }

    /** `suspend_user`: refused for an `admin`. */
    method Suspend(name: string) returns (outcome: Outcome)
      requires Valid()
      modifies this
      ensures Valid() && created == old(created)
      ensures !created ==> outcome == NoTable && rows == old(rows)
      ensures created && name !in old(Names(rows)) ==> outcome == NotFound && rows == old(rows)
      ensures name in old(Names(rows)) && CountNamed(old(rows), name, true) > 0 ==>
        outcome == AdminProtected && rows == old(rows)
      ensures name in old(Names(rows)) && CountNamed(old(rows), name, true) == 0 ==>
        outcome == Done && rows == WithActive(old(rows), name, false)
    {
      var userExists := Count(name, false);
      var isAdmin := Count(name, true);
      if userExists.None? || isAdmin.None? {
        return NoTable;
      }
      if userExists.value > 0 {
        if isAdmin.value > 0 {
          return AdminProtected;
        }
        FieldUpdatesFrame(rows, name, "", false);
        rows := WithActive(rows, name, false);
        return Done;
      }
      return NotFound;
    }

    /** `unsuspend_user`: only checks that the user exists. */
    method Unsuspend(name: string) returns (outcome: Outcome)
      requires Valid()
      modifies this
      ensures Valid() && created == old(created)
      ensures !created ==> outcome == NoTable && rows == old(rows)
      ensures created && name !in old(Names(rows)) ==> outcome == NotFound && rows == old(rows)
      ensures name in old(Names(rows)) ==> outcome == Done && rows == WithActive(old(rows), name, true)
    {
      var userExists := Count(name, false);
      if userExists.None? {
        return NoTable;
      }
      if userExists.value > 0 {
        FieldUpdatesFrame(rows, name, "", true);
        rows := WithActive(rows, name, true);
        return Done;
      }
      return NotFound;
    }

    /** `delete_existing_users`: refused for an `admin`. */
    method Delete(name: string) returns (outcome: Outcome)
      requires Valid()
      modifies this
      ensures Valid() && created == old(created)
      ensures !created ==> outcome == NoTable && rows == old(rows)
      ensures created && name !in old(Names(rows)) ==> outcome == NotFound && rows == old(rows)
      ensures name in old(Names(rows)) && CountNamed(old(rows), name, true) > 0 ==>
        outcome == AdminProtected && rows == old(rows)
      ensures name in old(Names(rows)) && CountNamed(old(rows), name, true) == 0 ==>
        outcome == Done && rows == Removed(old(rows), name) && |rows| == |old(rows)| - 1
    {
      var userExists := Count(name, false);
      var isAdmin := Count(name, true);
      if userExists.None? || isAdmin.None? {
        return NoTable;
      }
      if userExists.value > 0 {
        if isAdmin.value > 0 {
          return AdminProtected;
        }
        RemovedFrame(rows, name);
        RemovedDistinct(rows, name);
        RemovedOne(rows, name);
        rows := Removed(rows, name);
        return Done;
      }
      return NotFound;
    }

    /** `list_current_users`: `(username, role, is_active)` for every row in
        table order, with `is_active` as SQLite stores it (1 or 0); the query
        raises when the table does not exist. */
    method List() returns (listed: Option<seq<(string, string, int)>>)
      ensures listed.None? <==> !created
      ensures listed.Some? ==> |listed.value| == |rows|
      ensures listed.Some? ==> forall i :: 0 <= i < |rows| ==>
        listed.value[i] == (rows[i].username, rows[i].role, if rows[i].active then 1 else 0)
    {
      if !created {
        return None;
      }
      var out: seq<(string, string, int)> := [];
      var i := 0;
      while i < |rows|
        invariant 0 <= i <= |rows| && |out| == i
        invariant forall j :: 0 <= j < i ==>
          out[j] == (rows[j].username, rows[j].role, if rows[j].active then 1 else 0)
      {
        out := out + [(rows[i].username, rows[i].role, if rows[i].active then 1 else 0)];
        i := i + 1;
      }
      return Some(out);
    }
  }
}
