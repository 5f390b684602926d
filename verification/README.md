# ChainOpera quest runner — a Dafny model

The program farms the ChainOpera quest site with a table of accounts. Each
account row (`Zk1Labs`: private key, proxy, e-mail, twitter, Discord token,
five step flags, `used_code`, `used_or_received_code`, browser identity,
errors) is driven through five quest steps:

1. login
2. join the waiting list
3. follow twitter
4. write the twitter handle
5. Discord OAuth

After the steps comes an invite-code exchange. Accounts come in groups of
eleven. The first eleventh of the table are *seeds*: each draws a fresh
invite code. Every other account is a *dependent*: it is handed one seed's
code and submits it, ten dependents per code.

The program runs on Windows only. Every run, and the program itself,
installs the Windows selector event-loop policy (main.py:5, main.py:22,
main.py:254). Its process pool (main.py:210) therefore takes at most 61
workers.

The model covers:

- the per-account runner;
- the batch scheduler and the account loader;
- the three table operations (`add_account`, `completion_db_entry`, `update_db`);
- the browser-identity enums and header builders;
- the sign-in message.

Everything is pure functions over immutable datatypes.

| module | file | what it models |
|---|---|---|
| `Wrappers` | wrappers.dfy | `Option` and `Result` |
| `Strings` | strings.dfy | `join`/`split` on one separator, zero-padded decimal numerals, digit truncation |
| `Accounts` | accounts.dfy | the record and its columns, reading and overwriting one column, key and proxy normalisation |
| `Impersonation` | impersonation.dfy | `ImpersonateOs`, `Impersonate`, the User-Agent, the four identity headers, the per-endpoint header builders |
| `Table` | table.dfy | `update_db` (statement text, parameters, effect, rollback), `completion_db_entry`, `add_account` |
| `Runner` | runner.dfy | `process_wallet`: the guarded steps, fail-fast, seed and dependent code exchange |
| `Broker` | broker.dfy | applying a run's update events to the table in order; what a later run sees |
| `Scheduler` | scheduler.dfy | menu choice 1 (loading the files) and choices 2/3 (seed group, code collection, round-robin codes, windows) |
| `SignIn` | signin.dfy | `create_sign_message` (the message layout of EIP-4361, Sign-In with Ethereum) and its RFC 3339 millisecond timestamp |

## How each part is modelled

**The HTTP client** is an oracle, `Runner.Client`. It holds:

- one reply per quest step;
- the successive replies of `get_invite_code`;
- the reply of `write_invite_code`.

A reply is one of three things:

- an answer string, the field the runner reads (`code` for a step and for
  `write_invite_code`, `data` for `get_invite_code`);
- `NullAnswer`, a JSON null in that field;
- `Fault`, which stands for an exception raised by the client, or a
  missing field (a KeyError).

A null `data` from `get_invite_code` ends the seed's polling loop like any
non-empty value (main.py:136-142). The seed then enqueues `used_code =
False` and a NULL code, and returns None. The NOT NULL column refuses the
second update, so only `used_code` changes.

**A run** is `Run(calls, events, end)`:

- `calls` are the requests made;
- `events` are the `update_db` jobs handed to the broker, in order;
- `end` is one of three outcomes: `Returned(code or None)`; `Raised`, an
  exception escaping `process_wallet`; or `Hung`, a loop that never exits.

**The broker** applies the events in order, one `update_db` call each.

**The batch** (menu choices 2 and 3) ends in one of three ways:

- `Rejected`: the account count is not a multiple of 11, or the pool size
  is outside 1 to 61, which makes the pool constructor raise;
- `SeedFailed`: waiting on a seed raised or never returned;
- `Scheduled`: the seeds' codes, the dependents' windows, how many windows
  were submitted, and how the dependents' phase ended.

Waiting on a run re-raises its exception, or blocks for good if it hangs.
Either way no later window is submitted. Leaving the pool's `with` block
then waits for every run already submitted, so the program hangs if one of
them hangs (`Stall`) and otherwise ends with the exception (`Crash`).

**The loader's randomness.** The random browser identity `add_account`
draws becomes a parameter.

**The clock.** The reading `create_sign_message` takes becomes a parameter.

### Where the code differs from what its names suggest

The model follows the code in every case below.

- **A failed seed contributes None.** A seed whose run returns None gives
  `None` to `codes`, not `"0"` (main.py:218-220). The dependents handed
  that code therefore take the dependent path with `write_invite_code(None)`.
  On SUCCESS they enqueue a NULL `used_or_received_code`, which the NOT NULL
  column refuses.
- **The completion check ignores `used_code`.** It looks only at the five
  flags and the stored code (main.py:27).
- **Loading compares only two lengths.** It compares the key list with the
  proxy list and nothing else. `zip` then cuts all five lists to the
  shortest (main.py:183-188). A malformed key raises a bare `raise` (a
  RuntimeError), which is not an SQLAlchemyError, so the session is never
  committed: the whole load is lost.
- **The dependent polling loop never re-reads its reply** (main.py:145-150).
  Any answer other than SUCCESS loops forever (`Hung`). The source's seed
  loop is unbounded; the model runs it over the finite list of replies it is
  given, and running out of that list is `Hung`.
- **Some failures raise out of the runner instead of returning None.**
  Everything from main.py:37 to main.py:60 runs before the `try` at
  main.py:63. The model raises for a key that is not 66 characters once
  prefixed, and for an OS or version string that is not an enum value.
  Waiting on such a seed re-raises and ends the batch (`SeedFailed`).

## Model

| member | source | states |
|---|---|---|
| `Accounts.ColumnNamed` | db/models/cypher_model.py:6-21 | a dictionary key names at most one column, and naming a column reads back as that column |
| `Accounts.NormalizeKey` | db/db_client.py:48-49 | the result starts with `0x`; a key already prefixed is unchanged, any other gets `0x` in front |
| `Accounts.NormalizeKeyIdempotent` | db/db_client.py:48-49 | normalising twice equals normalising once, and normalisation leaves a key unchanged exactly when it already starts with `0x` |
| `Accounts.NormalizeProxy` | db/db_client.py:54-55 | the result starts with `http`; a proxy starting with `http` is unchanged, any other gets `http://` in front |
| `Accounts.NormalizeProxyIdempotent` | db/db_client.py:54-55 | idempotent, and the identity exactly on proxies starting with `http` |
| `Accounts.ValidKeyLengths` | db/db_client.py:48-52 | the key test accepts exactly 66-character `0x` keys and 64-character bare keys |
| `Accounts.Set` | db/db_client.py:127-128 | after writing a value into a column, that column reads the value and every other column and the id are unchanged |
| `Impersonation.OsFromStr` | utils/request_utils.py:12-17 | only `"macOS"` and `"Windows"` are accepted, and an accepted value prints back as the string it came from |
| `Impersonation.OsRoundTrip` | utils/request_utils.py:12-17 | `from_str(to_str(os)) == os` for both systems |
| `Impersonation.VersionFromStr` | utils/request_utils.py:30-46 | a string is accepted iff it is one of the nine version values, and it prints back unchanged |
| `Impersonation.VersionRoundTrip` | utils/request_utils.py:30-46 | `from_str(to_str(v)) == v` for all nine versions |
| `Impersonation.VersionToStrInjective` | utils/request_utils.py:30-46 | two versions with the same stored string are the same version |
| `Impersonation.UaAdvertisesVersion` | utils/request_utils.py:48-60 | every version's brand list names Chromium and Google Chrome at that version's own major number |
| `Impersonation.UserAgentRoundTrip` | utils/request_utils.py:62-65 | the User-Agent string determines the version and the OS it was built from |
| `Impersonation.UserAgentInjective` | utils/request_utils.py:62-65 | distinct identities never produce the same User-Agent |
| `Impersonation.Headers` | utils/request_utils.py:67-73 | exactly four keys; `sec-ch-ua-mobile` is `?0`; `sec-ch-ua-platform` is the quoted OS string; the User-Agent parses back to the identity; the brand list names the version |
| `Impersonation.NonceHeadersMatchReference` | utils/request_utils.py:105-120 | the nonce request's headers are the reference shape, with `Origin` and no `Content-Length` |
| `Impersonation.LoginHeadersMatchReference` | utils/request_utils.py:128-160 | the login and waiting-list headers are the reference shape echoing their cookie and length arguments |
| `Impersonation.TwitterHeadersMatchReference` | utils/request_utils.py:162-192 | follow-twitter has neither `Origin` nor `Content-Length`; write-twitter-handle has both |
| `Impersonation.InviteHeadersMatchReference` | utils/request_utils.py:194-226 | both invite-code builders are the reference shape echoing cookie and length |
| `Impersonation.DiscordHeadersMatchReference` | utils/request_utils.py:228-243 | the Discord headers echo cookie, length and the referer argument |
| `Impersonation.EndpointHeadersEcho` | utils/request_utils.py:105-243 | in the reference shape `Cookie` and `Referer` echo their arguments, `Origin` is present iff asked, and `Content-Length` is present iff a length is given and then equals it |
| `Table.Assign` | db/db_client.py:59-76 | every field of the dictionary is written, every column it does not name keeps its value, and the id is kept |
| `Table.QueryParams` | db/db_client.py:125 | the parameters are the update values in order followed by the filter values in order |
| `Table.PlaceholdersMatchParams` | db/db_client.py:121-125 | the `UPDATE … SET … WHERE …` text holds exactly as many `?` as there are parameters |
| `Table.UpdateDb` | db/db_client.py:114-131 | fails iff SET or WHERE is empty, the table is wrong, or a NULL would land on a matched row; on failure the table is unchanged; on success the matched rows get the fields, unmatched rows and unnamed columns are unchanged, and ids are kept |
| `Table.CompletionDbEntry` | db/db_client.py:91-111 | an absent or empty check always inserts; otherwise it inserts iff no row matches and fails (the only error) iff more than one row matches; a refusal leaves the table unchanged |
| `Table.AddAccountOutcome` | db/db_client.py:45-89 | raises BadKey iff the normalised key is not 66 long; returns False with the table unchanged iff the key is present; for a valid absent key, adds exactly one row after the existing ones, with the next id, iff no extra field is NULL, and fails with the NOT NULL violation iff one is |
| `Table.NewAccountDefaults` | db/db_client.py:59-76 | unless the extra fields override them: normalised key and proxy, `used_code` false, code `"0"`, empty errors |
| `Table.NewAccountStepsPending` | db/db_client.py:59-76 | unless overridden, all five step flags of a new record are false |
| `Table.AddAccountRecord` | db/db_client.py:57-88 | the appended row is the default record with the extra fields applied, under the next id |
| `Table.AddAccountIsGuardedCompletion` | db/db_client.py:78-89 | for a valid key, `add_account` is `completion_db_entry` with the normalised key as its existence check |
| `Table.AddAccountKeepsKeysUnique` | db/db_client.py:78-89 | adding an account keeps private keys unique |
| `Runner.RunSteps` | main.py:69-124 | only step requests are made; each accepted request is followed by exactly one event setting that step's flag on the key's row; a failed run ends with its refused request and no event for it |
| `Runner.RunStepsRequests` | main.py:69-124 | a step is requested iff its flag is false and every pending step before it was accepted |
| `Runner.RunStepsInOrder` | main.py:69-124 | requests go in strictly increasing step order |
| `Runner.RunStepsFailure` | main.py:69-124 | the steps fail iff some pending step is refused |
| `Runner.DrawCode` | main.py:131-142 | the draw stops at the first reply that is not an empty answer: a non-empty answer or a null gives that code (None for null), a fault breaks the draw; every reply before it was empty; the draw is endless iff every available reply is empty |
| `Runner.Exchange` | main.py:129-156 | no exchange unless `used_code` is false and the stored code is `"0"`. A seed hangs iff every reply is empty; on a fault it returns None with no event; on a null it returns None after recording `used_code = False` and a NULL code; on a code it records `used_code = False` then the code and returns it. A dependent submits its code once and records `used_code = True` then the code iff the site says SUCCESS; a fault returns None; any other answer hangs |
| `Runner.ProcessWallet` | main.py:26-163 | a complete account returns None with no request or event (whatever `used_code` is); the run raises iff the account is incomplete and its key or identity is malformed, and then has made no request |
| `Runner.ProcessWalletRequests` | main.py:69-124 | within a whole run, a step is requested iff its flag is false and every pending step before it was accepted |
| `Runner.DoneStepsAreSkipped` | main.py:69-124 | a step whose flag is true is never requested |
| `Runner.ProcessWalletFlags` | main.py:69-124 | a step's flag event is emitted iff the step was requested and accepted |
| `Runner.ProcessWalletFailFast` | main.py:63-163 | once a pending step is refused the run returns None, makes no further request and no exchange, and emits only flag events for earlier steps |
| `Runner.SeedRun` | main.py:129-142 | with the steps accepted, a seed ends as its draw does: the drawn code (None for a null), None on a fault, a hang iff every available reply is empty; after a drawn code or null its last two events are `used_code = False` and that code, and all other events set step flags |
| `Runner.DependentRun` | main.py:143-156 | a dependent's last request submits its code; on SUCCESS it returns the code and its last two events are `used_code = True` and the code; otherwise only flag events, None on a fault, a hang on any other answer |
| `Runner.NoExchangeRun` | main.py:129-160 | an account already past the exchange makes only step requests and returns the supplied code |
| `Broker.ApplyLogEffect` | db/db_client.py:114-131 | applying a log of keyed updates leaves other keys' rows unchanged; on the key's rows every column holds its last non-NULL write, or its old value |
| `Broker.RunEventsKeyed` | main.py:69-156 | every event a run enqueues updates one column other than the key, with a value of that column's type, on the row filtered by the normalised key |
| `Broker.FlagsAfterRun` | main.py:69-124 | after a run's log is applied, the account's flag for a step is true iff it was before or the run had the step accepted; other accounts' rows are untouched |
| `Broker.AcceptedStepsAreNotRepeated` | main.py:69-124 | a later run on the updated row never requests a step the earlier run had accepted |
| `Broker.SeedCodeRecorded` | main.py:139-142 | after a successful seed run the row holds the drawn code, with `used_code` false |
| `Broker.SeedNullCodeNotRecorded` | main.py:131-142 | after a seed run whose draw ends on a null, the run returns None and the row has `used_code` false but keeps its old stored code, since the NULL code update violates NOT NULL and is dropped |
| `Broker.DependentCodeRecorded` | main.py:152-156 | after an accepted dependent run the row holds the submitted code, with `used_code` true |
| `Scheduler.Zip` | main.py:187 | as long as the shortest of the five lists; line i holds the i-th element of each |
| `Scheduler.Fresh` | main.py:186-188 | the positions, in increasing order, of exactly the lines whose normalised key is neither in the table nor on an earlier line |
| `Scheduler.LoadAccounts` | main.py:183-188 | nothing is loaded when the key and proxy lists differ in length |
| `Scheduler.AddAllFails` | main.py:186-188 | the session aborts iff some line's key is malformed, and then with the bare raise |
| `Scheduler.AddAllKeeps` | main.py:186-188 | a committed session keeps the old rows in place, adds at most one row per line and keeps keys unique |
| `Scheduler.AddAllHasKeys` | main.py:186-188 | after a committed session every line's normalised key is in the table |
| `Scheduler.AddAllAppends` | main.py:186-188 | a committed session appends, at the fresh positions and in order, each line's record with its drawn identity under the next id |
| `Scheduler.LoadSpec` | main.py:183-188 | ignored iff the key and proxy lists differ in length; aborted, with nothing committed, iff one of the first min(lengths) keys is malformed; otherwise old rows are kept, keys stay unique, every zipped key is present, and the rows added are, in line order, the records of exactly the lines whose normalised key is new, each under the next id |
| `Scheduler.CollectCodes` | main.py:216-223 | codes are collected iff every seed returns; code i is the seed's stored code when it is not `"0"`, else its run's result; otherwise the first seed that raises or hangs is named |
| `Scheduler.AssignCodes` | main.py:225-236 | the running counter hands dependent j the code at index `(j / 10) % k` |
| `Scheduler.EachCodeTenTimes` | main.py:225-236 | with ten dependents per code, each of the k codes is handed out exactly ten times |
| `Scheduler.ChunksPartition` | main.py:238-245 | the reference windows concatenate back to the task list; each window holds 1 to m tasks, and all but the last hold exactly m |
| `Scheduler.Windows` | main.py:238-241 | the source's slice arithmetic yields exactly the reference windows, so they cover the tasks once, in order |
| `Scheduler.HandOut` | main.py:225-241 | dependent j, in order, gets the code of seed j / 10, so each code goes to ten consecutive dependents; the windows are the reference windows of the task list |
| `Scheduler.RunWindows` | main.py:238-245 | all windows are submitted iff every dependent returns; otherwise the first that does not return is named, it lies in the last window submitted, no later window is submitted, and the program hangs iff a run of that window hangs |
| `Scheduler.Schedule` | main.py:198-245 | rejected iff the count is not a multiple of 11 or the pool size is outside 1 to 61. If waiting on a seed raises or hangs, the first such seed is named, and the program hangs iff some seed hangs. Otherwise: one code per seed, its stored code when not `"0"` and its run's result otherwise; dependent j is the account after the seeds at offset j and gets the code of seed j / 10; the windows are the list cut into `maxTasks`; the dependents' runs are waited on window by window as `Scheduler.RunWindows` states |
| `Scheduler.DependentsPerSeed` | main.py:211-225 | when the count is a multiple of 11 there are ten dependents per seed, and at least one seed whenever there is a dependent |
| `SignIn.TimestampLayout` | utils/web3_utils.py:5-6 | the timestamp is `YYYY-MM-DDTHH:MM:SS.mmmZ`; each field reads back as the instant's value, and the last as its microseconds divided by 1000 |
| `SignIn.TimestampInjective` | utils/web3_utils.py:5-6 | two instants give the same timestamp iff they agree to the millisecond |
| `SignIn.SignMessageSplits` | utils/web3_utils.py:8-12 | when address and nonce hold no line break, the message splits into exactly its ten lines: greeting, address, blank, statement, blank, URI, version, chain id, nonce, `Issued At` |
| `SignIn.SignMessageInjective` | utils/web3_utils.py:4-12 | for a fixed clock reading, the message determines the address and the nonce |
| `SignIn.SignMessageStart` | utils/web3_utils.py:9 | the message starts with the greeting line followed by the address line |
| `SignIn.SignMessageEnd` | utils/web3_utils.py:9 | the message ends with a line break and `Issued At: ` plus the timestamp |

## Left out

- **The HTTP client** (src/chainopera_client.py): requests, proxies,
  retries, cookies, nonce fetching, signing and the Discord OAuth redirects.
  The runner sees only the oracle's replies. A reply without a `code` key
  raises a KeyError, which the `try` turns into None; the model's `Fault`
  covers it.
- **The broker process.** `TaskExecutor` and `utils.broker_utils` are not
  part of this model. The broker is assumed to apply the queued
  `update_db` calls one at a time, in order. It is also assumed that one
  that fails (and is rolled back) does not stop the ones after it.
- **Concurrency.** The process pool, `Manager().Queue()` and the broker
  `Process` are not modelled as processes. Each run is an independent
  function of its account and its replies. The pool is modelled only
  through the order in which results are waited on and what leaving its
  `with` block waits for. Interleavings between runs are left out, and so
  is a later run reading a row an earlier run of the same batch updated.
- **Delays and randomness.** Not modelled: the random sleeps, the 20-30
  minute sleep before a dependent's exchange, `GaCookie`, and the random
  role sample. `generate_random_impersonation` becomes the `draw`
  parameter of the loader.
- **PKCE helpers** (utils/random_utils.py): built from `os.urandom`,
  SHA-256 and base64 library calls. `parse_url_params` (urllib) is left out
  too.
- **Database plumbing.** The SQLAlchemy engine, `init_db` and session
  plumbing are left out. Only two effects are kept: a session commits
  all-or-nothing, and an add is visible to the next duplicate check
  (autoflush).
- **SQLite's dynamic typing.** A value of the wrong type for a column cannot
  be represented; dictionaries are required to hold values of their
  columns' types, or NULL.
- **The operator surface.** The menu, `input`/`print`, logging and the
  masked-ID display string are left out.
- **Years before 1000.** `SignIn.Timestamp` pads the year to four digits.
  Instants are years 1 to 9999, as `datetime` allows. Whether `%Y` pads
  years below 1000 depends on the platform's C library.
- Scheduler.Schedule: says nothing about the broker process. Starting it,
  and `broker.close` after the pool (main.py:247), which every failure
  skips, are not modelled, because utils.broker_utils is not part of this
  model.
- Runner.ProcessWallet: the client constructor (main.py:51-60) also runs
  before the `try`. It builds an `AsyncWeb3Account` from the key and reads
  its address (src/chainopera_client.py:41-43). src/web3_client.py is not
  part of this model, so a 66-character key that is not valid hex, which
  may raise there, is modelled as reaching the `try`.
- Runner.ProcessWallet: its own contract covers the early return and the
  raise only. The step and exchange behaviour is stated by the `Runner`
  lemmas listed above.
