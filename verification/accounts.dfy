/** The account record: one row of the `Zk1Labs` table, its columns, and the
    normalisation every entry point applies to a private key and a proxy. */
module Accounts {
  import opened Wrappers
  import opened Strings

  /** The columns of the table, apart from the `id` primary key (which no
      field dictionary of the program ever names). */
  datatype Column =
    | PrivateKey | Proxy | Email | Twitter | DsToken
    | Login | JoinWaitingList | FollowTwitter | WriteTwitterHandle | DiscordOauth
    | UsedCode | UsedOrReceivedCode | OsHeader | ChromeVersion | Errors

  /** The SQL name of a column, as used in dictionaries and queries. */
  function ColumnName(c: Column): string {
    match c
    case PrivateKey => "private_key"
    case Proxy => "proxy"
    case Email => "email"
    case Twitter => "twitter"
    case DsToken => "ds_token"
    case Login => "login"
    case JoinWaitingList => "join_waiting_list"
    case FollowTwitter => "follow_twitter"
    case WriteTwitterHandle => "write_twitter_handle"
    case DiscordOauth => "discord_oauth"
    case UsedCode => "used_code"
    case UsedOrReceivedCode => "used_or_received_code"
    case OsHeader => "os_header"
    case ChromeVersion => "chrome_version"
    case Errors => "errors"
  }

  /** The column a dictionary key names, if any: the inverse of ColumnName,
      so that no two columns share a name. */
  function ColumnNamed(name: string): (c: Option<Column>)
    ensures c.Some? ==> ColumnName(c.value) == name
    ensures forall col :: ColumnName(col) == name ==> c == Some(col)
  {
    match name
    case "private_key" => Some(PrivateKey)
    case "proxy" => Some(Proxy)
    case "email" => Some(Email)
    case "twitter" => Some(Twitter)
    case "ds_token" => Some(DsToken)
    case "login" => Some(Login)
    case "join_waiting_list" => Some(JoinWaitingList)
    case "follow_twitter" => Some(FollowTwitter)
    case "write_twitter_handle" => Some(WriteTwitterHandle)
    case "discord_oauth" => Some(DiscordOauth)
    case "used_code" => Some(UsedCode)
    case "used_or_received_code" => Some(UsedOrReceivedCode)
    case "os_header" => Some(OsHeader)
    case "chrome_version" => Some(ChromeVersion)
    case "errors" => Some(Errors)
    case _ => None
  }

  /** Boolean columns; the others hold strings. */
  predicate IsBoolColumn(c: Column) {
    c in {Login, JoinWaitingList, FollowTwitter, WriteTwitterHandle, DiscordOauth, UsedCode}
  }

  /** A value bound to a column in a field dictionary; Python's None is Null. */
  datatype Value = Bool(b: bool) | Str(s: string) | Null

  /** A value of the column's declared type, or Null (which every column,
      being NOT NULL, refuses when it is stored). */
  predicate Fits(c: Column, v: Value) {
    match v
    case Bool(_) => IsBoolColumn(c)
    case Str(_) => !IsBoolColumn(c)
    case Null => true
  }

  datatype Account = Account(
    id: int,
    privateKey: string,
    proxy: string,
    email: string,
    twitter: string,
    dsToken: string,
    login: bool,
    joinWaitingList: bool,
    followTwitter: bool,
    writeTwitterHandle: bool,
    discordOauth: bool,
    usedCode: bool,
    usedOrReceivedCode: string,
    osHeader: string,
    chromeVersion: string,
    errors: string)

  /** The value a row holds in a column. */
  function Get(a: Account, c: Column): (v: Value)
    ensures Fits(c, v) && !v.Null?
  {
    match c
    case PrivateKey => Str(a.privateKey)
    case Proxy => Str(a.proxy)
    case Email => Str(a.email)
    case Twitter => Str(a.twitter)
    case DsToken => Str(a.dsToken)
    case Login => Bool(a.login)
    case JoinWaitingList => Bool(a.joinWaitingList)
    case FollowTwitter => Bool(a.followTwitter)
    case WriteTwitterHandle => Bool(a.writeTwitterHandle)
    case DiscordOauth => Bool(a.discordOauth)
    case UsedCode => Bool(a.usedCode)
    case UsedOrReceivedCode => Str(a.usedOrReceivedCode)
    case OsHeader => Str(a.osHeader)
    case ChromeVersion => Str(a.chromeVersion)
    case Errors => Str(a.errors)
  }

  /** The row with one column replaced by a value of its type. */
  function Overwrite(a: Account, c: Column, v: Value): Account
    requires Fits(c, v) && !v.Null?
  {
    match c
    case PrivateKey => a.(privateKey := v.s)
    case Proxy => a.(proxy := v.s)
    case Email => a.(email := v.s)
    case Twitter => a.(twitter := v.s)
    case DsToken => a.(dsToken := v.s)
    case Login => a.(login := v.b)
    case JoinWaitingList => a.(joinWaitingList := v.b)
    case FollowTwitter => a.(followTwitter := v.b)
    case WriteTwitterHandle => a.(writeTwitterHandle := v.b)
    case DiscordOauth => a.(discordOauth := v.b)
    case UsedCode => a.(usedCode := v.b)
    case UsedOrReceivedCode => a.(usedOrReceivedCode := v.s)
    case OsHeader => a.(osHeader := v.s)
    case ChromeVersion => a.(chromeVersion := v.s)
    case Errors => a.(errors := v.s)
  }

  lemma OverwriteFrame(a: Account, c: Column, v: Value, c': Column)
    requires Fits(c, v) && !v.Null?
    ensures Get(Overwrite(a, c, v), c') == if c' == c then v else Get(a, c')
  {
  }

  lemma OverwriteFrameAll(a: Account, c: Column, v: Value)
    requires Fits(c, v) && !v.Null?
    ensures forall c' :: Get(Overwrite(a, c, v), c') == if c' == c then v else Get(a, c')
  {
    forall c' ensures Get(Overwrite(a, c, v), c') == if c' == c then v else Get(a, c') {
      OverwriteFrame(a, c, v, c');
    }
  }

  /** The row with one column overwritten: afterwards the column reads back
      the value, and every other column and the id are untouched. */
  function Set(a: Account, c: Column, v: Value): (r: Account)
    requires Fits(c, v) && !v.Null?
    ensures Get(r, c) == v
    ensures forall c' :: c' != c ==> Get(r, c') == Get(a, c')
    ensures r.id == a.id
  {
    OverwriteFrameAll(a, c, v);
    Overwrite(a, c, v)
  }

  // ---------------------------------------------------------------------
  // Normalisation of the inputs

  /** Length of a `0x`-prefixed 32-byte private key in hex. */
  const KeyLength := 66

  /** A private key with the `0x` prefix added when it lacks one. */
  function NormalizeKey(key: string): (r: string)
    ensures StartsWith(r, "0x")
    ensures StartsWith(key, "0x") ==> r == key
    ensures !StartsWith(key, "0x") ==> r == "0x" + key
  {
    if StartsWith(key, "0x") then key else "0x" + key
  }

  /** A proxy URL with `http://` added unless it already starts with `http`. */
  function NormalizeProxy(proxy: string): (r: string)
    ensures StartsWith(r, "http")
    ensures StartsWith(proxy, "http") ==> r == proxy
    ensures !StartsWith(proxy, "http") ==> r == "http://" + proxy
  {
    if StartsWith(proxy, "http") then proxy else "http://" + proxy
  }

  /** Normalising twice is normalising once, and normalisation changes a key
      exactly when the key lacks the prefix. */
  lemma NormalizeKeyIdempotent(key: string)
    ensures NormalizeKey(NormalizeKey(key)) == NormalizeKey(key)
    ensures NormalizeKey(key) == key <==> StartsWith(key, "0x")
  {
    if !StartsWith(key, "0x") {
      assert |NormalizeKey(key)| == |key| + 2;
    }
  }

  lemma NormalizeProxyIdempotent(proxy: string)
    ensures NormalizeProxy(NormalizeProxy(proxy)) == NormalizeProxy(proxy)
    ensures NormalizeProxy(proxy) == proxy <==> StartsWith(proxy, "http")
  {
    if !StartsWith(proxy, "http") {
      assert |NormalizeProxy(proxy)| == |proxy| + 7;
    }
  }

  /** A key the program accepts: 66 characters once normalised. */
  predicate ValidKey(key: string) {
    |NormalizeKey(key)| == KeyLength
  }

  /** The accepted keys are exactly the 64-character bare keys and the
      66-character prefixed ones. */
  lemma ValidKeyLengths(key: string)
    ensures ValidKey(key) <==>
      (StartsWith(key, "0x") && |key| == 66) || (!StartsWith(key, "0x") && |key| == 64)
  {
  }
}
