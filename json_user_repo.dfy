/**
 * `JsonUserRepository`: the users of `users.json`, looked up by e-mail
 * without regard to ASCII case. The repository never writes the store.
 */
module JsonUserRepo {
  import opened Wrappers
  import opened Strings
  import opened PhpArrays
  import opened DomainModels
  import opened JsonStore

  /** A stored user row; the id is its key. A row may lack `email`. */
  datatype UserRow = UserRow(email: Option<string>, passwordHash: string, createdAt: Option<string>)

  type UserTable = OMap<int, UserRow>

  /** `rowToUser`: an empty creation time (`''`, `'0'` or null) becomes null. */
  function RowToUser(e: (int, UserRow)): (u: User)
    requires e.1.email.Some?
    ensures u.id == e.0 && u.email == e.1.email.value && u.passwordHash == e.1.passwordHash
    ensures u.createdAt.Some? <==> e.1.createdAt.Some? && !IsFalsy(e.1.createdAt.value)
  {
    var created := if e.1.createdAt.Some? && !IsFalsy(e.1.createdAt.value) then e.1.createdAt else None;
    User(e.0, e.1.email.value, e.1.passwordHash, created)
  }

  /** A row `findByEmail` accepts: it has an e-mail equal to the one asked for, ignoring ASCII case. */
  predicate EmailHit(row: UserRow, email: string) {
    row.email.Some? && EqualsIgnoreCase(row.email.value, email)
  }

  /** What `findByEmail` returns: the user of the first accepted row in store order. */
  function EmailOwner(t: UserTable, email: string): (r: Option<User>)
    ensures r.None? <==> forall i :: 0 <= i < |t| ==> !EmailHit(t[i].1, email)
    ensures r.Some? ==> exists i :: 0 <= i < |t| && EmailHit(t[i].1, email) && r.value == RowToUser(t[i]) &&
                          forall j :: 0 <= j < i ==> !EmailHit(t[j].1, email)
  {
    if t == [] then None
    else if EmailHit(t[0].1, email) then Some(RowToUser(t[0]))
    else
      var r := EmailOwner(t[1..], email);
      assert forall i :: 1 <= i < |t| ==> t[i] == t[1..][i - 1];
      if r.Some? then
        var k :| 0 <= k < |t[1..]| && EmailHit(t[1..][k].1, email) && r.value == RowToUser(t[1..][k]) &&
                 forall j :: 0 <= j < k ==> !EmailHit(t[1..][j].1, email);
        assert EmailHit(t[k + 1].1, email) && r.value == RowToUser(t[k + 1]);
        assert forall j :: 0 <= j < k + 1 ==> !EmailHit(t[j].1, email);
        r
      else r
  }

  class JsonUserRepository {
    /** The decoded contents of `users.json`. */
    const table: UserTable

    /** The repository over a storage file, as `loadData` reads it. */
    constructor (file: StoreFile<UserRow>)
      ensures table == Loaded(file) && IsMap(table)
    {
      var data := LoadData(file);
      LoadedIsMap(file);
      table := data;
    }

    /** `findByEmail`: a scan in store order that stops at the first accepted row. */
    method FindByEmail(email: string) returns (u: Option<User>)
      ensures u == EmailOwner(table, email)
    {
      var i := 0;
      while i < |table|
        invariant 0 <= i <= |table|
        invariant EmailOwner(table[i..], email) == EmailOwner(table, email)
      {
        var row := table[i].1;
        if row.email.Some? && ToLower(row.email.value) == ToLower(email) {
          return Some(RowToUser(table[i]));
        }
        assert table[i..][1..] == table[i + 1..];
        i := i + 1;
      }
      return None;
    }
  }

  /** The user found has the e-mail asked for up to ASCII case, and the row it came from is stored under its id. */
  lemma FoundUserMatches(t: UserTable, email: string)
    requires EmailOwner(t, email).Some?
    ensures var u := EmailOwner(t, email).value;
            EqualsIgnoreCase(u.email, email) && Get(t, u.id).Some?
  {
    var u := EmailOwner(t, email).value;
    var i :| 0 <= i < |t| && EmailHit(t[i].1, email) && u == RowToUser(t[i]) &&
             forall j :: 0 <= j < i ==> !EmailHit(t[j].1, email);
    assert t[i].0 in Keys(t);
  }
}
