/** The account table and the three database operations of the program:
    inserting an account with defaults and deduplication, inserting a record
    conditionally, and the parametrised `UPDATE` the update broker applies.
    The table is the ordered sequence of its rows. */
module Table {
  import opened Wrappers
  import opened Strings
  import opened Accounts
  import opened Impersonation

  /** The table every account row lives in. */
  const TableName := "Zk1Labs"

  /** A field dictionary: column/value pairs in insertion order. */
  type Fields = seq<(Column, Value)>

  datatype DbError =
    | SyntaxError        // an empty SET or WHERE list leaves the statement malformed
    | NoSuchTable        // the statement names a table other than the account table
    | NotNullViolation   // a NULL stored into a NOT NULL column
    | MultipleRowsFound  // `scalar_one_or_none` found more than one row
    | BadKey             // the bare `raise` on a key that is not 66 characters long

  /** Python dictionaries never repeat a key. */
  predicate DistinctColumns(d: Fields) {
    forall i, j :: 0 <= i < j < |d| ==> d[i].0 != d[j].0
  }

  /** Every value is of its column's type, or Null. */
  predicate Storable(d: Fields) {
    forall i :: 0 <= i < |d| ==> Fits(d[i].0, d[i].1)
  }

  predicate HasNull(d: Fields) {
    exists i :: 0 <= i < |d| && d[i].1.Null?
  }

  function Columns(d: Fields): set<Column> {
    set i | 0 <= i < |d| :: d[i].0
  }

  /** A row satisfies `c1 = ? AND c2 = ? ...`; `= NULL` never holds. */
  predicate Matches(a: Account, filter: Fields) {
    forall i :: 0 <= i < |filter| ==> Get(a, filter[i].0) == filter[i].1
  }

  /** The row with every field of the dictionary written into it. */
  function Assign(a: Account, d: Fields): (r: Account)
    requires DistinctColumns(d) && Storable(d) && !HasNull(d)
    ensures r.id == a.id
    ensures forall i :: 0 <= i < |d| ==> Get(r, d[i].0) == d[i].1
    ensures forall c :: c !in Columns(d) ==> Get(r, c) == Get(a, c)
    decreases |d|
  {
    if |d| == 0 then a
    else
      var rest := d[1..];
      assert d[0].0 !in Columns(rest);
      assert forall i :: 0 <= i < |rest| ==> rest[i] == d[i + 1];
      assert forall c :: c !in Columns(d) ==> c != d[0].0 && c !in Columns(rest);
      Assign(Set(a, d[0].0, d[0].1), rest)
  }

  // ---------------------------------------------------------------------
  // update_db: the statement text

  /** `"k = ?"` for each key, in order. */
  function Placeholders(d: Fields): seq<string> {
    seq(|d|, i requires 0 <= i < |d| => ColumnName(d[i].0) + " = ?")
  }

  function Values(d: Fields): seq<Value> {
    seq(|d|, i requires 0 <= i < |d| => d[i].1)
  }

  /** The statement update_db sends to the database. */
  function UpdateQuery(table: string, filter: Fields, fields: Fields): string {
    "UPDATE " + table + " SET " + Join(", ", Placeholders(fields))
      + " WHERE " + Join(" AND ", Placeholders(filter))
  }

  /** The parameters bound to the statement: the new values, then the filter values. */
  function QueryParams(filter: Fields, fields: Fields): (params: seq<Value>)
    ensures |params| == |fields| + |filter|
    ensures forall i :: 0 <= i < |fields| ==> params[i] == fields[i].1
    ensures forall i :: 0 <= i < |filter| ==> params[|fields| + i] == filter[i].1
  {
    Values(fields) + Values(filter)
  }

  lemma ColumnNameHasNoPlaceholder(c: Column)
    ensures '?' !in ColumnName(c)
  {
  }

  lemma PlaceholderPieceCount(c: Column)
    ensures Count('?', ColumnName(c) + " = ?") == 1
  {
    ColumnNameHasNoPlaceholder(c);
    CountAbsent('?', ColumnName(c) + " = ");
    assert ColumnName(c) + " = ?" == (ColumnName(c) + " = ") + "?";
    CountAppend('?', ColumnName(c) + " = ", "?");
  }

  lemma PlaceholdersCount(sep: string, d: Fields)
    requires '?' !in sep
    ensures Count('?', Join(sep, Placeholders(d))) == |d|
  {
    forall i | 0 <= i < |d| ensures Count('?', Placeholders(d)[i]) == 1 {
      PlaceholderPieceCount(d[i].0);
    }
    CountAbsent('?', sep);
    CountJoin('?', sep, Placeholders(d));
  }

  /** The statement holds exactly one `?` per bound parameter, provided the
      table name holds none. */
  lemma PlaceholdersMatchParams(table: string, filter: Fields, fields: Fields)
    requires '?' !in table
    ensures Count('?', UpdateQuery(table, filter, fields)) == |QueryParams(filter, fields)|
  {
    var head := "UPDATE " + table + " SET ";
    var setList := Join(", ", Placeholders(fields));
    var whereList := Join(" AND ", Placeholders(filter));
    assert UpdateQuery(table, filter, fields) == head + setList + (" WHERE " + whereList);
    PlaceholdersCount(", ", fields);
    PlaceholdersCount(" AND ", filter);
    CountAbsent('?', head);
    CountAbsent('?', " WHERE ");
    CountAppend('?', " WHERE ", whereList);
    CountAppend('?', head, setList);
    CountAppend('?', head + setList, " WHERE " + whereList);
  }

  // ---------------------------------------------------------------------
  // update_db: the statement's effect

  /** Executing the update on the table and committing it. The error cases
      are rolled back, so a Failure leaves the table as it was. */
  function UpdateDb(rows: seq<Account>, table: string, filter: Fields, fields: Fields)
    : (r: Result<seq<Account>, DbError>)
    requires DistinctColumns(fields) && Storable(fields)
    ensures r.Failure? <==>
      |fields| == 0 || |filter| == 0 || table != TableName
      || (HasNull(fields) && exists i :: 0 <= i < |rows| && Matches(rows[i], filter))
    ensures r.Success? ==> |r.value| == |rows|
    ensures r.Success? ==> forall i :: 0 <= i < |rows| && !Matches(rows[i], filter) ==> r.value[i] == rows[i]
    ensures r.Success? ==>
              (forall i, k :: 0 <= i < |rows| && Matches(rows[i], filter) && 0 <= k < |fields|
                 ==> Get(r.value[i], fields[k].0) == fields[k].1)
    ensures r.Success? ==>
              (forall i, c :: 0 <= i < |rows| && c !in Columns(fields)
                 ==> Get(r.value[i], c) == Get(rows[i], c))
    ensures r.Success? ==> forall i :: 0 <= i < |rows| ==> r.value[i].id == rows[i].id
  {
    if |fields| == 0 || |filter| == 0 then Failure(SyntaxError)
    else if table != TableName then Failure(NoSuchTable)
    else if HasNull(fields) then
      if exists i :: 0 <= i < |rows| && Matches(rows[i], filter) then Failure(NotNullViolation)
      else Success(rows)
    else
      Success(seq(|rows|, i requires 0 <= i < |rows| =>
        if Matches(rows[i], filter) then Assign(rows[i], fields) else rows[i]))
  }

  // ---------------------------------------------------------------------
  // Inserts

  function MaxId(rows: seq<Account>): (m: int)
    requires |rows| > 0
    ensures forall i :: 0 <= i < |rows| ==> rows[i].id <= m
    ensures exists i :: 0 <= i < |rows| && rows[i].id == m
    decreases |rows|
  {
    if |rows| == 1 then rows[0].id
    else
      var init := MaxId(rows[..|rows| - 1]);
      var last := rows[|rows| - 1].id;
      if last <= init then init else last
  }

  /** SQLite's choice of rowid for a new row: one past the largest in use,
      or 1 in an empty table. */
  function NextId(rows: seq<Account>): (id: int)
    ensures forall i :: 0 <= i < |rows| ==> rows[i].id < id
  {
    if |rows| == 0 then 1 else MaxId(rows) + 1
  }

  /** Adding a record to the session: it gets the next id and goes last. */
  function Insert(rows: seq<Account>, a: Account): seq<Account> {
    rows + [a.(id := NextId(rows))]
  }

  /** How many rows satisfy a filter. */
  function CountMatching(rows: seq<Account>, filter: Fields): (n: nat)
    ensures n <= |rows|
    ensures n == 0 <==> forall i :: 0 <= i < |rows| ==> !Matches(rows[i], filter)
    decreases |rows|
  {
    if |rows| == 0 then 0
    else
      var last := rows[|rows| - 1];
      CountMatching(rows[..|rows| - 1], filter) + if Matches(last, filter) then 1 else 0
  }

  /** The result of an insertion attempt: the table afterwards and whether a row was added. */
  datatype Inserted = Inserted(rows: seq<Account>, added: bool)

  /** completion_db_entry: insert `data` unless a row already satisfies
      `check_exists`; an absent or empty check always inserts. */
  function CompletionDbEntry(rows: seq<Account>, data: Account, checkExists: Option<Fields>)
    : (r: Result<Inserted, DbError>)
    ensures (checkExists.None? || checkExists == Some([])) ==> r == Success(Inserted(Insert(rows, data), true))
    ensures r.Success? && r.value.added ==> r.value.rows == Insert(rows, data)
    ensures r.Success? && !r.value.added ==> r.value.rows == rows
    ensures checkExists.Some? && |checkExists.value| > 0 ==>
      (r.Success? && r.value.added <==> CountMatching(rows, checkExists.value) == 0)
    ensures checkExists.Some? && |checkExists.value| > 0 ==>
      (r.Failure? <==> CountMatching(rows, checkExists.value) > 1)
    ensures r.Failure? ==> r.error == MultipleRowsFound
  {
    if checkExists.Some? && |checkExists.value| > 0 then
      var found := CountMatching(rows, checkExists.value);
      if found > 1 then Failure(MultipleRowsFound)
      else if found == 1 then Success(Inserted(rows, false))
      else Success(Inserted(Insert(rows, data), true))
    else Success(Inserted(Insert(rows, data), true))
  }

  /** The record add_account builds before any additional fields: the
      normalised key and proxy, the contact fields, every step flag false,
      no code, no errors, and the drawn browser identity. */
  function NewAccount(key: string, proxy: string, email: string, twitter: string, dsToken: string,
                      os: Os, version: Version): Account {
    Account(
      id := 0,
      privateKey := key,
      proxy := proxy,
      email := email,
      twitter := twitter,
      dsToken := dsToken,
      login := false,
      joinWaitingList := false,
      followTwitter := false,
      writeTwitterHandle := false,
      discordOauth := false,
      usedCode := false,
      usedOrReceivedCode := "0",
      osHeader := OsToStr(os),
      chromeVersion := VersionToStr(version),
      errors := "")
  }

  function KeyFilter(key: string): Fields {
    [(PrivateKey, Str(key))]
  }

  /** add_account. The identity (`generate_random_impersonation`) is drawn by
      the caller; `extra` is the `**additional_fields` dictionary, which
      overrides the defaults. Storing a Null from `extra` fails the session. */
  function AddAccount(rows: seq<Account>, privateKey: string, proxyUrl: string, email: string,
                      twitter: string, dsToken: string, os: Os, version: Version, extra: Fields)
    : (r: Result<Inserted, DbError>)
    requires DistinctColumns(extra) && Storable(extra)
  {
    var key := NormalizeKey(privateKey);
    if |key| != KeyLength then Failure(BadKey)
    else
      var found := CountMatching(rows, KeyFilter(key));
      if found > 1 then Failure(MultipleRowsFound)
      else if found == 1 then Success(Inserted(rows, false))
      else if HasNull(extra) then Failure(NotNullViolation)
      else
        var data := Assign(NewAccount(key, NormalizeProxy(proxyUrl), email, twitter, dsToken, os, version), extra);
        Success(Inserted(Insert(rows, data), true))
  }

  /** Every private key occurs in at most one row. */
  predicate UniqueKeys(rows: seq<Account>) {
    forall i, j :: 0 <= i < j < |rows| ==> rows[i].privateKey != rows[j].privateKey
  }

  lemma MatchesKeyFilter(a: Account, key: string)
    ensures Matches(a, KeyFilter(key)) <==> a.privateKey == key
  {
    if a.privateKey == key {
      assert Get(a, PrivateKey) == Str(key);
    } else {
      assert KeyFilter(key)[0] == (PrivateKey, Str(key));
      assert Get(a, KeyFilter(key)[0].0) != KeyFilter(key)[0].1;
    }
  }

  /** Some row satisfies the key filter exactly when some row has the key. */
  lemma CountMatchingKey(rows: seq<Account>, key: string)
    ensures CountMatching(rows, KeyFilter(key)) > 0 <==> exists i :: 0 <= i < |rows| && rows[i].privateKey == key
  {
    forall i | 0 <= i < |rows| ensures Matches(rows[i], KeyFilter(key)) <==> rows[i].privateKey == key {
      MatchesKeyFilter(rows[i], key);
    }
  }

  lemma {:induction false} CountMatchingUniqueKey(rows: seq<Account>, key: string)
    requires UniqueKeys(rows)
    ensures CountMatching(rows, KeyFilter(key)) <= 1
    decreases |rows|
  {
    if |rows| > 0 {
      var init := rows[..|rows| - 1];
      CountMatchingUniqueKey(init, key);
      MatchesKeyFilter(rows[|rows| - 1], key);
      if rows[|rows| - 1].privateKey == key {
        forall i | 0 <= i < |init| ensures !Matches(init[i], KeyFilter(key)) {
          assert init[i] == rows[i];
          MatchesKeyFilter(init[i], key);
        }
      }
    }
  }

  /** add_account, as the source promises: a bad key is refused and nothing
      is added; a key already present adds nothing and answers false; a new
      key whose additional fields hold a Null fails on the insert; otherwise
      exactly one row is appended after the existing ones, with the next id,
      and the answer is true. */
  lemma AddAccountOutcome(rows: seq<Account>, privateKey: string, proxyUrl: string, email: string,
                          twitter: string, dsToken: string, os: Os, version: Version, extra: Fields)
    requires DistinctColumns(extra) && Storable(extra)
    requires UniqueKeys(rows)
    ensures var r := AddAccount(rows, privateKey, proxyUrl, email, twitter, dsToken, os, version, extra);
      && (r == Failure(BadKey) <==> !ValidKey(privateKey))
      && (r.Failure? ==> r == Failure(BadKey) || r == Failure(NotNullViolation))
      && (r.Success? && !r.value.added <==>
            ValidKey(privateKey) && exists i :: 0 <= i < |rows| && rows[i].privateKey == NormalizeKey(privateKey))
      && (r.Success? && r.value.added <==>
            && ValidKey(privateKey)
            && !HasNull(extra)
            && forall i :: 0 <= i < |rows| ==> rows[i].privateKey != NormalizeKey(privateKey))
      && (r == Failure(NotNullViolation) <==>
            && ValidKey(privateKey)
            && HasNull(extra)
            && forall i :: 0 <= i < |rows| ==> rows[i].privateKey != NormalizeKey(privateKey))
      && (r.Success? && !r.value.added ==> r.value.rows == rows)
      && (r.Success? && r.value.added ==>
            && |r.value.rows| == |rows| + 1
            && r.value.rows[..|rows|] == rows
            && r.value.rows[|rows|].id == NextId(rows))
  {
    var key := NormalizeKey(privateKey);
    CountMatchingKey(rows, key);
    CountMatchingUniqueKey(rows, key);
    var r := AddAccount(rows, privateKey, proxyUrl, email, twitter, dsToken, os, version, extra);
    if r.Success? && r.value.added {
      assert r.value.rows[..|rows|] == rows;
    }
  }

  /** Where the additional fields are silent, the record add_account builds
      holds the normalised key and proxy, `used_code` false, code "0" and no
      errors. (Where they speak, it holds what they say, by Assign's contract.) */
  lemma NewAccountDefaults(key: string, proxy: string, email: string, twitter: string, dsToken: string,
                           os: Os, version: Version, extra: Fields)
    requires DistinctColumns(extra) && Storable(extra) && !HasNull(extra)
    ensures var a := Assign(NewAccount(key, proxy, email, twitter, dsToken, os, version), extra);
      && (PrivateKey !in Columns(extra) ==> a.privateKey == key)
      && (Proxy !in Columns(extra) ==> a.proxy == proxy)
      && (UsedCode !in Columns(extra) ==> !a.usedCode)
      && (UsedOrReceivedCode !in Columns(extra) ==> a.usedOrReceivedCode == "0")
      && (Errors !in Columns(extra) ==> a.errors == "")
  {
    var base := NewAccount(key, proxy, email, twitter, dsToken, os, version);
    Untouched(base, extra, PrivateKey);
    Untouched(base, extra, Proxy);
    Untouched(base, extra, UsedCode);
    Untouched(base, extra, UsedOrReceivedCode);
    Untouched(base, extra, Errors);
  }

  /** Where the additional fields are silent, every step flag of the new
      record is false. */
  lemma NewAccountStepsPending(key: string, proxy: string, email: string, twitter: string, dsToken: string,
                               os: Os, version: Version, extra: Fields)
    requires DistinctColumns(extra) && Storable(extra) && !HasNull(extra)
    ensures var a := Assign(NewAccount(key, proxy, email, twitter, dsToken, os, version), extra);
      && (Login !in Columns(extra) ==> !a.login)
      && (JoinWaitingList !in Columns(extra) ==> !a.joinWaitingList)
      && (FollowTwitter !in Columns(extra) ==> !a.followTwitter)
      && (WriteTwitterHandle !in Columns(extra) ==> !a.writeTwitterHandle)
      && (DiscordOauth !in Columns(extra) ==> !a.discordOauth)
  {
    var base := NewAccount(key, proxy, email, twitter, dsToken, os, version);
    Untouched(base, extra, Login);
    Untouched(base, extra, JoinWaitingList);
    Untouched(base, extra, FollowTwitter);
    Untouched(base, extra, WriteTwitterHandle);
    Untouched(base, extra, DiscordOauth);
  }

  lemma Untouched(base: Account, extra: Fields, c: Column)
    requires DistinctColumns(extra) && Storable(extra) && !HasNull(extra)
    ensures c !in Columns(extra) ==> Get(Assign(base, extra), c) == Get(base, c)
  {
  }

  /** The row add_account appends is that record, under the next id. */
  lemma AddAccountRecord(rows: seq<Account>, privateKey: string, proxyUrl: string, email: string,
                         twitter: string, dsToken: string, os: Os, version: Version, extra: Fields)
    requires DistinctColumns(extra) && Storable(extra)
    requires AddAccount(rows, privateKey, proxyUrl, email, twitter, dsToken, os, version, extra).Success?
    requires AddAccount(rows, privateKey, proxyUrl, email, twitter, dsToken, os, version, extra).value.added
    ensures !HasNull(extra)
    ensures AddAccount(rows, privateKey, proxyUrl, email, twitter, dsToken, os, version, extra).value.rows[|rows|]
      == Assign(NewAccount(NormalizeKey(privateKey), NormalizeProxy(proxyUrl), email, twitter, dsToken, os, version), extra)
           .(id := NextId(rows))
  {
  }

  /** add_account is completion_db_entry with the normalised key as the
      existence check, once the key has passed its length test. */
  lemma AddAccountIsGuardedCompletion(rows: seq<Account>, privateKey: string, proxyUrl: string, email: string,
                                      twitter: string, dsToken: string, os: Os, version: Version, extra: Fields)
    requires DistinctColumns(extra) && Storable(extra) && !HasNull(extra)
    requires ValidKey(privateKey)
    ensures AddAccount(rows, privateKey, proxyUrl, email, twitter, dsToken, os, version, extra)
      == CompletionDbEntry(rows,
           Assign(NewAccount(NormalizeKey(privateKey), NormalizeProxy(proxyUrl), email, twitter, dsToken, os, version), extra),
           Some(KeyFilter(NormalizeKey(privateKey))))
  {
  }

  /** Adding an account keeps private keys unique, as long as the additional
      fields do not overwrite the key the duplicate check was made on. */
  lemma AddAccountKeepsKeysUnique(rows: seq<Account>, privateKey: string, proxyUrl: string, email: string,
                                  twitter: string, dsToken: string, os: Os, version: Version, extra: Fields)
    requires DistinctColumns(extra) && Storable(extra) && PrivateKey !in Columns(extra)
    requires UniqueKeys(rows)
    ensures var r := AddAccount(rows, privateKey, proxyUrl, email, twitter, dsToken, os, version, extra);
      r.Success? ==> UniqueKeys(r.value.rows)
  {
    var r := AddAccount(rows, privateKey, proxyUrl, email, twitter, dsToken, os, version, extra);
    AddAccountOutcome(rows, privateKey, proxyUrl, email, twitter, dsToken, os, version, extra);
    if r.Success? && r.value.added {
      AddAccountRecord(rows, privateKey, proxyUrl, email, twitter, dsToken, os, version, extra);
      NewAccountDefaults(NormalizeKey(privateKey), NormalizeProxy(proxyUrl), email, twitter, dsToken, os, version, extra);
      var key := NormalizeKey(privateKey);
      CountMatchingKey(rows, key);
      var rows' := r.value.rows;
      forall i, j | 0 <= i < j < |rows'| ensures rows'[i].privateKey != rows'[j].privateKey {
        if j == |rows| {
          assert rows'[i] == rows[i];
        } else {
          assert rows'[i] == rows[i] && rows'[j] == rows[j];
        }
      }
    }
  }
}
