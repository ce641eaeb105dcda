/** The SQLite persistence layer (db.py): the `users` and `credentials`
    tables in memory, rows kept in rowid order, with the AUTOINCREMENT
    counters. Queries are functions of the tables; the statements that write
    are methods of `Store`, each proved to produce the tables that a
    specification function computes from the old ones. */
module Db {
  import opened Wrappers
  import opened Octets
  import opened Json

  /** A row of `users`: `id` is the AUTOINCREMENT key. */
  datatype UserRow = UserRow(id: nat, username: string, userHandle: Bytes)

  /** A row of `credentials`. `transports` holds the JSON value whose text
      the column stores; `backedUp` is the stored integer. */
  datatype CredentialRow = CredentialRow(
    id: nat,
    userId: nat,
    credentialIdHash: Bytes,
    credentialIdEnc: Bytes,
    publicKeyEnc: Bytes,
    signCount: int,
    transports: Json,
    deviceType: Option<string>,
    backedUp: int)

  /** The values bound to one `INSERT OR REPLACE INTO credentials`. */
  datatype NewCredential = NewCredential(
    userId: nat,
    credentialIdHash: Bytes,
    credentialIdEnc: Bytes,
    publicKeyEnc: Bytes,
    signCount: int,
    transports: Json,
    deviceType: Option<string>,
    backedUp: bool)

  /** Both tables in rowid order, and the largest id each AUTOINCREMENT key
      has handed out (SQLite's `sqlite_sequence`). */
  datatype Tables = Tables(
    users: seq<UserRow>,
    credentials: seq<CredentialRow>,
    userSeq: nat,
    credentialSeq: nat)

  /** Row `a` precedes row `b` in a `users` table: a smaller id and, the
      column being UNIQUE, a different username. */
  predicate UserBefore(a: UserRow, b: UserRow) {
    a.id < b.id && a.username != b.username
  }

  /** Row `a` precedes row `b` in a `credentials` table: a smaller id and,
      the column being UNIQUE, a different credential id hash. */
  predicate CredentialBefore(a: CredentialRow, b: CredentialRow) {
    a.id < b.id && a.credentialIdHash != b.credentialIdHash
  }

  ghost predicate UsersOrdered(rows: seq<UserRow>) {
    forall i, j :: 0 <= i < j < |rows| ==> UserBefore(rows[i], rows[j])
  }

  ghost predicate CredentialsOrdered(rows: seq<CredentialRow>) {
    forall i, j :: 0 <= i < j < |rows| ==> CredentialBefore(rows[i], rows[j])
  }

  /** What the schema of `init_db` guarantees: ids are positive, increase in
      rowid order and never exceed the counter; `username` is UNIQUE;
      `credential_id_hash` is UNIQUE; `backed_up` holds 0 or 1. */
  ghost predicate WellFormed(t: Tables) {
    && (forall u :: u in t.users ==> 0 < u.id <= t.userSeq)
    && UsersOrdered(t.users)
    && (forall c :: c in t.credentials ==> 0 < c.id <= t.credentialSeq && c.backedUp in {0, 1})
    && CredentialsOrdered(t.credentials)
  }

  /** The tables `init_db` creates in a fresh database file. */
  function Empty(): (t: Tables)
    ensures WellFormed(t) && t.users == [] && t.credentials == []
  {
    Tables([], [], 0, 0)
  }

  // ---------------------------------------------------------------------
  // Queries
  // ---------------------------------------------------------------------

  /** `SELECT * FROM users WHERE username = ?` followed by `fetchone()`. */
  function FindUser(users: seq<UserRow>, username: string): (r: Option<UserRow>)
    ensures r.Some? ==> r.value in users && r.value.username == username
    ensures r.None? ==> forall u :: u in users ==> u.username != username
  {
    if users == [] then None
    else if users[0].username == username then Some(users[0])
    else FindUser(users[1..], username)
  }

  /** `get_user`. */
  function GetUser(t: Tables, username: string): Option<UserRow> {
    FindUser(t.users, username)
  }

  /** `SELECT * FROM credentials WHERE user_id = ?`, in rowid order. */
  function CredentialsOf(rows: seq<CredentialRow>, userId: nat): (r: seq<CredentialRow>)
    ensures forall c :: c in r <==> c in rows && c.userId == userId
    ensures (forall i, j :: 0 <= i < j < |rows| ==> rows[i].id < rows[j].id) ==>
              forall i, j :: 0 <= i < j < |r| ==> r[i].id < r[j].id
  {
    if rows == [] then []
    else if rows[0].userId == userId then [rows[0]] + CredentialsOf(rows[1..], userId)
    else CredentialsOf(rows[1..], userId)
  }

  /** `list_user_credentials`. */
  function ListUserCredentials(t: Tables, userId: nat): seq<CredentialRow> {
    CredentialsOf(t.credentials, userId)
  }

  /** `SELECT * FROM credentials WHERE credential_id_hash = ?` followed by
      `fetchone()`. */
  function FindCredential(rows: seq<CredentialRow>, hash: Bytes): (r: Option<CredentialRow>)
    ensures r.Some? ==> r.value in rows && r.value.credentialIdHash == hash
    ensures r.None? ==> forall c :: c in rows ==> c.credentialIdHash != hash
  {
    if rows == [] then None
    else if rows[0].credentialIdHash == hash then Some(rows[0])
    else FindCredential(rows[1..], hash)
  }

  /** `find_credential_by_hash`. */
  function FindCredentialByHash(t: Tables, hash: Bytes): Option<CredentialRow> {
    FindCredential(t.credentials, hash)
  }

  // ---------------------------------------------------------------------
  // The statements that write, as functions of the old tables
  // ---------------------------------------------------------------------

  /** `get_or_create_user`: the existing row, or a new row with the given
      handle and the next AUTOINCREMENT id. */
  function GotOrCreated(t: Tables, username: string, userHandle: Bytes): (Tables, UserRow) {
    match GetUser(t, username)
    case Some(u) => (t, u)
    case None =>
      var u := UserRow(t.userSeq + 1, username, userHandle);
      (t.(users := t.users + [u], userSeq := t.userSeq + 1), u)
  }

  /** The rows whose hash is not `hash`, in order: what the REPLACE
      conflict resolution leaves before it inserts. */
  function WithoutHash(rows: seq<CredentialRow>, hash: Bytes): (r: seq<CredentialRow>)
    ensures forall c :: c in r <==> c in rows && c.credentialIdHash != hash
    ensures |r| <= |rows|
  {
    if rows == [] then []
    else if rows[0].credentialIdHash == hash then WithoutHash(rows[1..], hash)
    else [rows[0]] + WithoutHash(rows[1..], hash)
  }

  /** `insert_or_replace_credential`: delete the row with the same hash, if
      any, then insert a row with the next AUTOINCREMENT id. */
  function CredentialUpserted(t: Tables, c: NewCredential): Tables {
    var row := CredentialRow(
      t.credentialSeq + 1, c.userId, c.credentialIdHash, c.credentialIdEnc, c.publicKeyEnc,
      c.signCount, c.transports, c.deviceType, if c.backedUp then 1 else 0);
    t.(credentials := WithoutHash(t.credentials, c.credentialIdHash) + [row],
       credentialSeq := t.credentialSeq + 1)
  }

  /** `update_credential_sign_count`: `UPDATE credentials SET sign_count,
      device_type, backed_up WHERE credential_id_hash = ?`. */
  function SignCountUpdated(t: Tables, hash: Bytes, newSignCount: int, deviceType: Option<string>, backedUp: bool): Tables {
    var rows := t.credentials;
    t.(credentials := seq(|rows|, i requires 0 <= i < |rows| =>
         if rows[i].credentialIdHash == hash
         then rows[i].(signCount := newSignCount, deviceType := deviceType, backedUp := if backedUp then 1 else 0)
         else rows[i]))
  }

  // ---------------------------------------------------------------------
  // Properties
  // ---------------------------------------------------------------------

  /** In well-formed tables a username names at most one row, so
      `get_user` returns that row. */
  lemma GetUserUnique(t: Tables, username: string, u: UserRow)
    requires WellFormed(t) && u in t.users && u.username == username
    ensures GetUser(t, username) == Some(u)
  {
    var r := GetUser(t, username);
    var i :| 0 <= i < |t.users| && t.users[i] == u;
    var j :| 0 <= j < |t.users| && t.users[j] == r.value;
    assert i == j;
  }

  /** `get_or_create_user` keeps the tables well-formed, returns the row
      that `get_user` then finds, keeps an existing user's handle and
      otherwise adds exactly one row with the new handle; it never touches
      `credentials`. */
  lemma GotOrCreatedEffect(t: Tables, username: string, userHandle: Bytes)
    requires WellFormed(t)
    ensures var (t', u) := GotOrCreated(t, username, userHandle);
      && WellFormed(t')
      && GetUser(t', username) == Some(u)
      && u.username == username
      && t'.credentials == t.credentials
      && (GetUser(t, username).Some? ==> t' == t && u == GetUser(t, username).value)
      && (GetUser(t, username).None? ==> t'.users == t.users + [u] && u.userHandle == userHandle)
  {
    var (t', u) := GotOrCreated(t, username, userHandle);
    if GetUser(t, username).None? {
      assert forall i :: 0 <= i < |t.users| ==> t.users[i].id < u.id && t.users[i].username != username by {
        forall i | 0 <= i < |t.users| ensures t.users[i].username != username {
          assert t.users[i] in t.users;
        }
      }
      assert WellFormed(t');
      assert u in t'.users;
    }
    GetUserUnique(t', username, u);
  }

  /** Calling `get_or_create_user` a second time, with any handle, changes
      nothing and returns the same row. */
  lemma GotOrCreatedIdempotent(t: Tables, username: string, h1: Bytes, h2: Bytes)
    requires WellFormed(t)
    ensures var (t1, u1) := GotOrCreated(t, username, h1);
      GotOrCreated(t1, username, h2) == (t1, u1)
  {
    GotOrCreatedEffect(t, username, h1);
  }

  /** In well-formed tables a hash names at most one credential row, so
      `find_credential_by_hash` returns that row. */
  lemma FindCredentialUnique(t: Tables, c: CredentialRow)
    requires WellFormed(t) && c in t.credentials
    ensures FindCredentialByHash(t, c.credentialIdHash) == Some(c)
  {
    var r := FindCredentialByHash(t, c.credentialIdHash);
    var i :| 0 <= i < |t.credentials| && t.credentials[i] == c;
    var j :| 0 <= j < |t.credentials| && t.credentials[j] == r.value;
    assert i == j;
  }

  /** A row followed by an ordered table that it precedes is ordered. */
  lemma CredentialsOrderedCons(x: CredentialRow, rest: seq<CredentialRow>)
    requires CredentialsOrdered(rest) && forall c :: c in rest ==> CredentialBefore(x, c)
    ensures CredentialsOrdered([x] + rest)
  {
    var r := [x] + rest;
    forall i, j | 0 <= i < j < |r| ensures CredentialBefore(r[i], r[j]) {
      assert r[j] == rest[j - 1] && rest[j - 1] in rest;
      if i > 0 {
        assert r[i] == rest[i - 1];
      }
    }
  }

  /** `WithoutHash` keeps the surviving rows in their order. */
  lemma {:induction false} WithoutHashOrdered(rows: seq<CredentialRow>, hash: Bytes)
    requires CredentialsOrdered(rows)
    ensures CredentialsOrdered(WithoutHash(rows, hash))
  {
    if rows != [] {
      var tail := rows[1..];
      assert CredentialsOrdered(tail) by {
        forall i, j | 0 <= i < j < |tail| ensures CredentialBefore(tail[i], tail[j]) {
          assert tail[i] == rows[i + 1] && tail[j] == rows[j + 1];
        }
      }
      WithoutHashOrdered(tail, hash);
      if rows[0].credentialIdHash != hash {
        var rest := WithoutHash(tail, hash);
        forall c | c in rest ensures CredentialBefore(rows[0], c) {
          var k :| 0 <= k < |tail| && tail[k] == c;
          assert rows[k + 1] == c;
        }
        CredentialsOrderedCons(rows[0], rest);
      }
    }
  }

  /** After `insert_or_replace_credential`, exactly one row carries the
      hash: the new last row, with the new owner, blobs, counter and
      metadata and a fresh id. Rows with other hashes are exactly the ones
      there were, and `users` is untouched. */
  lemma CredentialUpsertedEffect(t: Tables, c: NewCredential)
    requires WellFormed(t)
    ensures var t' := CredentialUpserted(t, c);
      var n := |t'.credentials|;
      && WellFormed(t')
      && t'.users == t.users
      && n >= 1
      && t'.credentials[n - 1] == CredentialRow(t.credentialSeq + 1, c.userId, c.credentialIdHash,
           c.credentialIdEnc, c.publicKeyEnc, c.signCount, c.transports, c.deviceType,
           if c.backedUp then 1 else 0)
      && (forall i :: 0 <= i < n - 1 ==> t'.credentials[i].credentialIdHash != c.credentialIdHash)
      && FindCredentialByHash(t', c.credentialIdHash) == Some(t'.credentials[n - 1])
      && (forall r: CredentialRow :: r.credentialIdHash != c.credentialIdHash ==>
            (r in t'.credentials <==> r in t.credentials))
  {
    var t' := CredentialUpserted(t, c);
    var kept := WithoutHash(t.credentials, c.credentialIdHash);
    var n := |t'.credentials|;
    CredentialUpsertedWellFormed(t, c);
    forall i | 0 <= i < n - 1
      ensures t'.credentials[i].credentialIdHash != c.credentialIdHash
    {
      assert t'.credentials[i] == kept[i] && kept[i] in kept;
    }
    FindCredentialUnique(t', t'.credentials[n - 1]);
  }

  /** `insert_or_replace_credential` keeps the tables well formed. */
  lemma CredentialUpsertedWellFormed(t: Tables, c: NewCredential)
    requires WellFormed(t)
    ensures WellFormed(CredentialUpserted(t, c))
  {
    var t' := CredentialUpserted(t, c);
    var kept := WithoutHash(t.credentials, c.credentialIdHash);
    var n := |t'.credentials|;
    WithoutHashOrdered(t.credentials, c.credentialIdHash);
    forall i | 0 <= i < n - 1
      ensures CredentialBefore(t'.credentials[i], t'.credentials[n - 1])
    {
      assert t'.credentials[i] == kept[i] && kept[i] in kept;
    }
    forall i, j | 0 <= i < j < n
      ensures CredentialBefore(t'.credentials[i], t'.credentials[j])
    {
      if j < n - 1 {
        assert t'.credentials[i] == kept[i] && t'.credentials[j] == kept[j];
      }
    }
  }

  /** `update_credential_sign_count` keeps the tables well formed. */
  lemma SignCountUpdatedWellFormed(t: Tables, hash: Bytes, newSignCount: int, deviceType: Option<string>, backedUp: bool)
    requires WellFormed(t)
    ensures WellFormed(SignCountUpdated(t, hash, newSignCount, deviceType, backedUp))
  {
    var t' := SignCountUpdated(t, hash, newSignCount, deviceType, backedUp);
    forall c | c in t'.credentials ensures 0 < c.id <= t'.credentialSeq && c.backedUp in {0, 1} {
      var i :| 0 <= i < |t'.credentials| && t'.credentials[i] == c;
      assert t.credentials[i] in t.credentials;
    }
    forall i, j | 0 <= i < j < |t'.credentials|
      ensures CredentialBefore(t'.credentials[i], t'.credentials[j])
    {
      assert CredentialBefore(t.credentials[i], t.credentials[j]);
    }
  }

  /** `update_credential_sign_count` changes only `sign_count`,
      `device_type` and `backed_up`, and only of the row with the given
      hash; every other column and row is unchanged, and with no matching
      row it changes nothing. */
  lemma SignCountUpdatedEffect(t: Tables, hash: Bytes, newSignCount: int, deviceType: Option<string>, backedUp: bool)
    requires WellFormed(t)
    ensures var t' := SignCountUpdated(t, hash, newSignCount, deviceType, backedUp);
      && WellFormed(t')
      && t'.users == t.users && t'.userSeq == t.userSeq && t'.credentialSeq == t.credentialSeq
      && |t'.credentials| == |t.credentials|
      && (forall i :: 0 <= i < |t.credentials| ==>
            var (old_, new_) := (t.credentials[i], t'.credentials[i]);
            && new_.id == old_.id && new_.userId == old_.userId
            && new_.credentialIdHash == old_.credentialIdHash
            && new_.credentialIdEnc == old_.credentialIdEnc && new_.publicKeyEnc == old_.publicKeyEnc
            && new_.transports == old_.transports
            && (old_.credentialIdHash != hash ==> new_ == old_)
            && (old_.credentialIdHash == hash ==>
                  new_.signCount == newSignCount && new_.deviceType == deviceType
                  && new_.backedUp == (if backedUp then 1 else 0)))
      && (FindCredentialByHash(t, hash).None? ==> t' == t)
  {
    var t' := SignCountUpdated(t, hash, newSignCount, deviceType, backedUp);
    SignCountUpdatedWellFormed(t, hash, newSignCount, deviceType, backedUp);
    if FindCredentialByHash(t, hash).None? {
      forall i | 0 <= i < |t.credentials| ensures t'.credentials[i] == t.credentials[i] {
        assert t.credentials[i] in t.credentials;
      }
      assert t'.credentials == t.credentials;
    }
  }

  // ---------------------------------------------------------------------
  // The database file, updated in place
  // ---------------------------------------------------------------------

  /** The database file: each method is one connection that runs its
      statements and commits. */
  class Store {
    var users: seq<UserRow>
    var credentials: seq<CredentialRow>
    var userSeq: nat
    var credentialSeq: nat

    /** The current contents of both tables. */
    function State(): Tables
      reads this
    {
      Tables(users, credentials, userSeq, credentialSeq)
    }

    ghost predicate Valid()
      reads this
    {
      WellFormed(State())
    }

    /** `init_db` on a fresh database file: both tables exist and are empty. */
    constructor ()
      ensures Valid() && State() == Empty()
    {
      users := [];
      credentials := [];
      userSeq := 0;
      credentialSeq := 0;
    }

    /** `get_or_create_user`: select; if nothing is found, insert, commit and
        select again. */
    method GetOrCreateUser(username: string, userHandle: Bytes) returns (row: UserRow)
      requires Valid()
      modifies this
      ensures Valid()
      ensures (State(), row) == GotOrCreated(old(State()), username, userHandle)
    {
      GotOrCreatedEffect(State(), username, userHandle);
      var found := FindUser(users, username);
      if found.Some? {
        return found.value;
      }
      userSeq := userSeq + 1;
      users := users + [UserRow(userSeq, username, userHandle)];
      found := FindUser(users, username);
      row := found.value;
    }

    /** `insert_or_replace_credential`. */
    method InsertOrReplaceCredential(c: NewCredential)
      requires Valid()
      modifies this
      ensures Valid()
      ensures State() == CredentialUpserted(old(State()), c)
    {
      CredentialUpsertedWellFormed(State(), c);
      credentialSeq := credentialSeq + 1;
      credentials := WithoutHash(credentials, c.credentialIdHash)
        + [CredentialRow(credentialSeq, c.userId, c.credentialIdHash, c.credentialIdEnc, c.publicKeyEnc,
                         c.signCount, c.transports, c.deviceType, if c.backedUp then 1 else 0)];
    }

    /** `update_credential_sign_count`. */
    method UpdateCredentialSignCount(hash: Bytes, newSignCount: int, deviceType: Option<string>, backedUp: bool)
      requires Valid()
      modifies this
      ensures Valid()
      ensures State() == SignCountUpdated(old(State()), hash, newSignCount, deviceType, backedUp)
    {
      SignCountUpdatedWellFormed(State(), hash, newSignCount, deviceType, backedUp);
      credentials := SignCountUpdated(State(), hash, newSignCount, deviceType, backedUp).credentials;
    }
  }
}
