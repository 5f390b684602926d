/** The two batch paths of the program's entry point: loading the account
    files into the table, and scheduling a run over every account (the seed
    group first, then the dependents in windows, each handed a seed's code).
    Reading files, the process pool and the broker process are not
    modelled; the seeds' runs are the runner applied to each seed. */
module Scheduler {
  import opened Wrappers
  import opened Accounts
  import opened Table
  import opened Impersonation
  import Runner

  // ---------------------------------------------------------------------
  // Loading

  /** One line from each of the five input files. */
  datatype Line = Line(key: string, proxy: string, email: string, twitter: string, dsToken: string)

  function Min(a: nat, b: nat): nat {
    if a <= b then a else b
  }

  /** Python's `zip` over the five lists: as long as the shortest one. */
  function Zip(keys: seq<string>, proxies: seq<string>, emails: seq<string>, twitters: seq<string>,
               tokens: seq<string>): (lines: seq<Line>)
    ensures |lines| <= |keys| && |lines| <= |proxies| && |lines| <= |emails|
    ensures |lines| <= |twitters| && |lines| <= |tokens|
    ensures |lines| == |keys| || |lines| == |proxies| || |lines| == |emails|
            || |lines| == |twitters| || |lines| == |tokens|
    ensures forall i :: 0 <= i < |lines| ==>
              lines[i] == Line(keys[i], proxies[i], emails[i], twitters[i], tokens[i])
  {
    var n := Min(Min(Min(Min(|keys|, |proxies|), |emails|), |twitters|), |tokens|);
    seq(n, i requires 0 <= i < n => Line(keys[i], proxies[i], emails[i], twitters[i], tokens[i]))
  }

  /** add_account on each line in turn, inside one session; the browser
      identity drawn for the line at position `start + i` is `draw(start + i)`.
      The first error ends the session. */
  function AddAll(rows: seq<Account>, lines: seq<Line>, draw: nat -> (Os, Version), start: nat)
    : Result<seq<Account>, DbError>
    decreases |lines|
  {
    if |lines| == 0 then Success(rows)
    else
      var l := lines[0];
      var (os, version) := draw(start);
      match AddAccount(rows, l.key, l.proxy, l.email, l.twitter, l.dsToken, os, version, [])
      case Failure(e) => Failure(e)
      case Success(ins) => AddAll(ins.rows, lines[1..], draw, start + 1)
  }

  datatype Load = Ignored | Loaded(rows: seq<Account>) | Aborted(error: DbError)

  /** Menu choice 1: nothing happens when the key and proxy files differ in
      length; otherwise every zipped line is added in one session, which is
      committed only if no add raised. */
  function LoadAccounts(rows: seq<Account>, keys: seq<string>, proxies: seq<string>, emails: seq<string>,
                        twitters: seq<string>, tokens: seq<string>, draw: nat -> (Os, Version)): (l: Load)
    ensures |keys| != |proxies| ==> l == Ignored
  {
    if |keys| != |proxies| then Ignored
    else
      match AddAll(rows, Zip(keys, proxies, emails, twitters, tokens), draw, 0)
      case Success(out) => Loaded(out)
      case Failure(e) => Aborted(e)
  }

  /** The table once the load's session is over: an aborted session commits nothing. */
  function TableAfterLoad(rows: seq<Account>, l: Load): seq<Account> {
    match l
    case Loaded(out) => out
    case _ => rows
  }

  predicate HasKey(rows: seq<Account>, key: string) {
    exists j :: 0 <= j < |rows| && rows[j].privateKey == key
  }

  /** Adding lines to a table with unique keys aborts (with the bare
      raise) exactly when some line's key is malformed. */
  lemma {:induction false} AddAllFails(rows: seq<Account>, lines: seq<Line>, draw: nat -> (Os, Version), start: nat)
    requires UniqueKeys(rows)
    ensures var r := AddAll(rows, lines, draw, start);
      && (r.Failure? <==> exists i :: 0 <= i < |lines| && !ValidKey(lines[i].key))
      && (r.Failure? ==> r.error == BadKey)
    decreases |lines|
  {
    if |lines| > 0 {
      var l := lines[0];
      var (os, version) := draw(start);
      var first := AddAccount(rows, l.key, l.proxy, l.email, l.twitter, l.dsToken, os, version, []);
      AddAccountOutcome(rows, l.key, l.proxy, l.email, l.twitter, l.dsToken, os, version, []);
      assert forall i :: 1 <= i < |lines| ==> lines[i] == lines[1..][i - 1];
      if first.Success? {
        AddAccountKeepsKeysUnique(rows, l.key, l.proxy, l.email, l.twitter, l.dsToken, os, version, []);
        AddAllFails(first.value.rows, lines[1..], draw, start + 1);
      }
    }
  }

  /** A successful session keeps every existing row in place, adds at most
      one row per line and keeps keys unique. */
  lemma {:induction false} AddAllKeeps(rows: seq<Account>, lines: seq<Line>, draw: nat -> (Os, Version), start: nat)
    requires UniqueKeys(rows)
    ensures var r := AddAll(rows, lines, draw, start);
      r.Success? ==>
        && UniqueKeys(r.value)
        && |rows| <= |r.value| <= |rows| + |lines|
        && r.value[..|rows|] == rows
    decreases |lines|
  {
    if |lines| > 0 {
      var l := lines[0];
      var (os, version) := draw(start);
      var first := AddAccount(rows, l.key, l.proxy, l.email, l.twitter, l.dsToken, os, version, []);
      AddAccountOutcome(rows, l.key, l.proxy, l.email, l.twitter, l.dsToken, os, version, []);
      if first.Success? {
        var mid := first.value.rows;
        AddAccountKeepsKeysUnique(rows, l.key, l.proxy, l.email, l.twitter, l.dsToken, os, version, []);
        AddAllKeeps(mid, lines[1..], draw, start + 1);
        var r := AddAll(mid, lines[1..], draw, start + 1);
        if r.Success? {
          assert r.value[..|rows|] == mid[..|rows|];
        }
      }
    }
  }

  /** After a successful session every line's key is in the table. */
  lemma {:induction false} AddAllHasKeys(rows: seq<Account>, lines: seq<Line>, draw: nat -> (Os, Version), start: nat)
    requires UniqueKeys(rows)
    ensures var r := AddAll(rows, lines, draw, start);
      r.Success? ==> forall i :: 0 <= i < |lines| ==> HasKey(r.value, NormalizeKey(lines[i].key))
    decreases |lines|
  {
    if |lines| > 0 {
      var l := lines[0];
      var (os, version) := draw(start);
      var first := AddAccount(rows, l.key, l.proxy, l.email, l.twitter, l.dsToken, os, version, []);
      AddAccountOutcome(rows, l.key, l.proxy, l.email, l.twitter, l.dsToken, os, version, []);
      if first.Success? {
        var mid := first.value.rows;
        AddAccountKeepsKeysUnique(rows, l.key, l.proxy, l.email, l.twitter, l.dsToken, os, version, []);
        AddAllKeeps(mid, lines[1..], draw, start + 1);
        AddAllHasKeys(mid, lines[1..], draw, start + 1);
        var r := AddAll(mid, lines[1..], draw, start + 1);
        if r.Success? {
          var out := r.value;
          AddedKeyPresent(rows, mid, out, l.key, first.value.added);
          forall i | 0 <= i < |lines| ensures HasKey(out, NormalizeKey(lines[i].key)) {
            if i > 0 {
              assert lines[i] == lines[1..][i - 1];
            }
          }
        }
      }
    }
  }

  /** After the first line, its key is in the table, and it stays there. */
  lemma AddedKeyPresent(rows: seq<Account>, mid: seq<Account>, out: seq<Account>, key: string, added: bool)
    requires ValidKey(key)
    requires !added ==> mid == rows && HasKey(rows, NormalizeKey(key))
    requires added ==> |mid| == |rows| + 1 && mid[|rows|].privateKey == NormalizeKey(key)
    requires |mid| <= |out| && out[..|mid|] == mid
    ensures HasKey(out, NormalizeKey(key))
  {
    if added {
      assert out[|rows|] == mid[|rows|];
    } else {
      var j :| 0 <= j < |rows| && rows[j].privateKey == NormalizeKey(key);
      assert out[j] == mid[j];
    }
  }

  /** The keys already in the table. */
  function Keys(rows: seq<Account>): set<string> {
    set i | 0 <= i < |rows| :: rows[i].privateKey
  }

  /** Line `i` brings a key that is neither among `seen` nor on an earlier line. */
  predicate NewKeyAt(seen: set<string>, lines: seq<Line>, i: nat)
    requires i < |lines|
  {
    && NormalizeKey(lines[i].key) !in seen
    && forall q :: 0 <= q < i ==> NormalizeKey(lines[q].key) != NormalizeKey(lines[i].key)
  }

  /** The positions (counted from `start`) of the lines a load inserts, in
      line order: exactly those that bring a new key. */
  function Fresh(seen: set<string>, lines: seq<Line>, start: nat): (pos: seq<nat>)
    ensures FreshPositions(seen, lines, start, pos)
    decreases |lines|
  {
    if |lines| == 0 then []
    else
      var k := NormalizeKey(lines[0].key);
      var seen' := if k in seen then seen else seen + {k};
      var rest := Fresh(seen', lines[1..], start + 1);
      FreshCons(seen, lines, start, rest);
      if k in seen then rest else [start] + rest
  }

  /** `pos` lists, in increasing order, exactly the positions (counted from
      `start`) of the lines that bring a new key. */
  ghost predicate FreshPositions(seen: set<string>, lines: seq<Line>, start: nat, pos: seq<nat>)
  {
    && (forall t :: 0 <= t < |pos| ==> start <= pos[t] < start + |lines|)
    && (forall t, u :: 0 <= t < u < |pos| ==> pos[t] < pos[u])
    && (forall p :: p in pos <==> start <= p < start + |lines| && NewKeyAt(seen, lines, p - start))
  }

  /** The first line is fresh exactly when its key is unseen; the rest are
      fresh against the keys seen so far. */
  lemma FreshCons(seen: set<string>, lines: seq<Line>, start: nat, rest: seq<nat>)
    requires |lines| > 0
    requires var k := NormalizeKey(lines[0].key);
      FreshPositions(if k in seen then seen else seen + {k}, lines[1..], start + 1, rest)
    ensures var k := NormalizeKey(lines[0].key);
      FreshPositions(seen, lines, start, if k in seen then rest else [start] + rest)
  {
    var k := NormalizeKey(lines[0].key);
    FreshMembers(seen, lines, start, rest);
    if k !in seen {
      PrependIncreasing(start, rest);
    }
  }

  /** The membership half of `FreshCons`. */
  lemma FreshMembers(seen: set<string>, lines: seq<Line>, start: nat, rest: seq<nat>)
    requires |lines| > 0
    requires var k := NormalizeKey(lines[0].key);
      forall p :: p in rest <==> start + 1 <= p < start + |lines| &&
                                 NewKeyAt(if k in seen then seen else seen + {k}, lines[1..], p - start - 1)
    ensures NormalizeKey(lines[0].key) in seen ==>
      forall p :: p in rest <==> start <= p < start + |lines| && NewKeyAt(seen, lines, p - start)
    ensures NormalizeKey(lines[0].key) !in seen ==>
      forall p :: p in [start] + rest <==> start <= p < start + |lines| && NewKeyAt(seen, lines, p - start)
  {
    var k := NormalizeKey(lines[0].key);
    FreshStep(seen, lines);
    assert NewKeyAt(seen, lines, 0) <==> k !in seen;
    var pos := if k in seen then rest else [start] + rest;
    forall p ensures p in pos <==> start <= p < start + |lines| && NewKeyAt(seen, lines, p - start) {
      if p != start {
        assert p in pos <==> p in rest;
      }
    }
  }

  /** A position below every later one keeps a rising list rising. */
  lemma PrependIncreasing(start: nat, rest: seq<nat>)
    requires forall t :: 0 <= t < |rest| ==> start < rest[t]
    requires forall t, u :: 0 <= t < u < |rest| ==> rest[t] < rest[u]
    ensures forall t, u :: 0 <= t < u < |[start] + rest| ==> ([start] + rest)[t] < ([start] + rest)[u]
  {
    var pos := [start] + rest;
    forall t, u | 0 <= t < u < |pos| ensures pos[t] < pos[u] {
      assert pos[u] == rest[u - 1];
      if t > 0 {
        assert pos[t] == rest[t - 1];
      }
    }
  }

  /** Past the first line, a line brings a new key against `seen` exactly
      when it does against `seen` with the first line's key added. */
  lemma FreshStep(seen: set<string>, lines: seq<Line>)
    requires |lines| > 0
    ensures var k := NormalizeKey(lines[0].key);
      var seen' := if k in seen then seen else seen + {k};
      forall i :: 1 <= i < |lines| ==> (NewKeyAt(seen', lines[1..], i - 1) <==> NewKeyAt(seen, lines, i))
  {
    var k := NormalizeKey(lines[0].key);
    var seen' := if k in seen then seen else seen + {k};
    forall i | 1 <= i < |lines| ensures NewKeyAt(seen', lines[1..], i - 1) <==> NewKeyAt(seen, lines, i) {
      assert lines[1..][i - 1] == lines[i];
      if NewKeyAt(seen, lines, i) {
        forall q | 0 <= q < i - 1 ensures NormalizeKey(lines[1..][q].key) != NormalizeKey(lines[1..][i - 1].key) {
          assert lines[1..][q] == lines[q + 1];
        }
      }
      if NewKeyAt(seen', lines[1..], i - 1) {
        forall q | 0 <= q < i ensures NormalizeKey(lines[q].key) != NormalizeKey(lines[i].key) {
          if q > 0 {
            assert lines[q] == lines[1..][q - 1];
          }
        }
      }
    }
  }

  /** The record add_account builds for a line, with the identity drawn for it. */
  function LineRecord(l: Line, identity: (Os, Version)): Account {
    NewAccount(NormalizeKey(l.key), NormalizeProxy(l.proxy), l.email, l.twitter, l.dsToken, identity.0, identity.1)
  }

  lemma KeysAppend(rows: seq<Account>, a: Account)
    ensures Keys(rows + [a]) == Keys(rows) + {a.privateKey}
  {
    var all := rows + [a];
    forall x | x in Keys(all) ensures x in Keys(rows) + {a.privateKey} {
      var i :| 0 <= i < |all| && all[i].privateKey == x;
      if i < |rows| {
        assert rows[i] == all[i];
      }
    }
    forall x | x in Keys(rows) ensures x in Keys(all) {
      var i :| 0 <= i < |rows| && rows[i].privateKey == x;
      assert all[i] == rows[i];
    }
    assert all[|rows|] == a;
  }

  /** Row `n + t` of `out` is the record of the line at position `p`
      (counted from `start`), under the next id. */
  predicate AppendedAt(n: nat, out: seq<Account>, lines: seq<Line>, draw: nat -> (Os, Version),
                       start: nat, p: nat, t: nat)
  {
    && start <= p < start + |lines|
    && n + t < |out|
    && out[n + t] == LineRecord(lines[p - start], draw(p)).(id := NextId(out[..n + t]))
  }

  /** The rows `out` holds after its first `n`, in line order: each the
      record of the line at its position, under the next id. */
  predicate AppendsRecords(n: nat, out: seq<Account>, lines: seq<Line>,
                           draw: nat -> (Os, Version), start: nat, pos: seq<nat>)
  {
    && |out| == n + |pos|
    && forall t :: 0 <= t < |pos| ==> AppendedAt(n, out, lines, draw, start, pos[t], t)
  }

  /** The appended rows after a first line that was added: its record, then
      the rest's. */
  lemma AppendsAfterAdded(n: nat, out: seq<Account>, lines: seq<Line>,
                          draw: nat -> (Os, Version), start: nat, pos': seq<nat>)
    requires |lines| > 0 && n < |out|
    requires AppendedAt(n, out, lines, draw, start, start, 0)
    requires AppendsRecords(n + 1, out, lines[1..], draw, start + 1, pos')
    ensures AppendsRecords(n, out, lines, draw, start, [start] + pos')
  {
    var pos := [start] + pos';
    forall t | 0 <= t < |pos| ensures AppendedAt(n, out, lines, draw, start, pos[t], t) {
      if t > 0 {
        assert pos[t] == pos'[t - 1];
        AppendedShift(n, out, lines, draw, start, pos'[t - 1], t - 1);
      }
    }
  }

  /** A row the rest of the lines appended, seen from one line earlier. */
  lemma AppendedShift(n: nat, out: seq<Account>, lines: seq<Line>, draw: nat -> (Os, Version),
                      start: nat, p: nat, u: nat)
    requires |lines| > 0
    requires AppendedAt(n + 1, out, lines[1..], draw, start + 1, p, u)
    ensures AppendedAt(n, out, lines, draw, start, p, u + 1)
  {
    assert lines[1..][p - (start + 1)] == lines[p - start];
    assert n + 1 + u == n + (u + 1);
  }

  /** The first appended row is the first line's record. */
  lemma AppendedFirst(rows: seq<Account>, rec: Account, out: seq<Account>, lines: seq<Line>,
                      draw: nat -> (Os, Version), start: nat)
    requires |lines| > 0
    requires rec == LineRecord(lines[0], draw(start)).(id := NextId(rows))
    requires |rows + [rec]| <= |out| && out[..|rows + [rec]|] == rows + [rec]
    ensures AppendedAt(|rows|, out, lines, draw, start, start, 0)
  {
    var mid := rows + [rec];
    assert out[..|rows|] == rows by {
      assert out[..|rows|] == out[..|mid|][..|rows|];
    }
    assert out[|rows|] == out[..|mid|][|rows|];
  }

  /** The appended rows after a first line that added nothing: the rest's. */
  lemma AppendsAfterSkipped(n: nat, out: seq<Account>, lines: seq<Line>,
                            draw: nat -> (Os, Version), start: nat, pos: seq<nat>)
    requires |lines| > 0
    requires AppendsRecords(n, out, lines[1..], draw, start + 1, pos)
    ensures AppendsRecords(n, out, lines, draw, start, pos)
  {
    forall t | 0 <= t < |pos| ensures AppendedAt(n, out, lines, draw, start, pos[t], t) {
      assert lines[1..][pos[t] - (start + 1)] == lines[pos[t] - start];
    }
  }

  /** A successful session appends, after the old rows and in line order,
      the record of each line that brings a new key, each under the next id. */
  lemma {:induction false} AddAllAppends(rows: seq<Account>, lines: seq<Line>, draw: nat -> (Os, Version), start: nat)
    requires UniqueKeys(rows)
    ensures var r := AddAll(rows, lines, draw, start);
      r.Success? ==> AppendsRecords(|rows|, r.value, lines, draw, start, Fresh(Keys(rows), lines, start))
    decreases |lines|
  {
    if |lines| > 0 {
      var l := lines[0];
      var (os, version) := draw(start);
      var k := NormalizeKey(l.key);
      var first := AddAccount(rows, l.key, l.proxy, l.email, l.twitter, l.dsToken, os, version, []);
      AddAccountOutcome(rows, l.key, l.proxy, l.email, l.twitter, l.dsToken, os, version, []);
      var r := AddAll(rows, lines, draw, start);
      if first.Success? {
        var mid := first.value.rows;
        AddAccountKeepsKeysUnique(rows, l.key, l.proxy, l.email, l.twitter, l.dsToken, os, version, []);
        AddAllKeeps(mid, lines[1..], draw, start + 1);
        AddAllAppends(mid, lines[1..], draw, start + 1);
        assert r == AddAll(mid, lines[1..], draw, start + 1);
        if r.Success? {
          if first.value.added {
            AddAccountRecord(rows, l.key, l.proxy, l.email, l.twitter, l.dsToken, os, version, []);
            var rec := LineRecord(l, (os, version)).(id := NextId(rows));
            assert mid == rows + [rec];
            KeysAppend(rows, rec);
            assert k !in Keys(rows);
            AppendedFirst(rows, rec, r.value, lines, draw, start);
            AppendsAfterAdded(|rows|, r.value, lines, draw, start, Fresh(Keys(mid), lines[1..], start + 1));
          } else {
            assert mid == rows;
            assert k in Keys(rows) by {
              var i :| 0 <= i < |rows| && rows[i].privateKey == k;
            }
            AppendsAfterSkipped(|rows|, r.value, lines, draw, start, Fresh(Keys(mid), lines[1..], start + 1));
          }
        }
      }
    }
  }

  /** Menu choice 1 as the source promises: nothing when the key and proxy
      lists differ; otherwise, on a table with unique keys, the load aborts
      (committing nothing) exactly when one of the first
      min(lengths) keys is malformed, and when it succeeds every one of those
      keys is present, the old rows are kept in place, keys stay unique, and
      the rows added are, in line order, the records of the lines that
      bring a new key, each under the next id. */
  lemma LoadSpec(rows: seq<Account>, keys: seq<string>, proxies: seq<string>, emails: seq<string>,
                 twitters: seq<string>, tokens: seq<string>, draw: nat -> (Os, Version))
    requires UniqueKeys(rows)
    ensures var l := LoadAccounts(rows, keys, proxies, emails, twitters, tokens, draw);
      var n := |Zip(keys, proxies, emails, twitters, tokens)|;
      && (l.Ignored? <==> |keys| != |proxies|)
      && (l.Aborted? <==> |keys| == |proxies| && exists i :: 0 <= i < n && !ValidKey(keys[i]))
      && (!l.Loaded? ==> TableAfterLoad(rows, l) == rows)
      && (l.Loaded? ==>
            && UniqueKeys(l.rows)
            && |rows| <= |l.rows|
            && l.rows[..|rows|] == rows
            && |l.rows| <= |rows| + n
            && (forall i :: 0 <= i < n ==> HasKey(l.rows, NormalizeKey(keys[i]))))
      && (l.Loaded? ==>
            var lines := Zip(keys, proxies, emails, twitters, tokens);
            AppendsRecords(|rows|, l.rows, lines, draw, 0, Fresh(Keys(rows), lines, 0)))
  {
    if |keys| == |proxies| {
      var lines := Zip(keys, proxies, emails, twitters, tokens);
      AddAllFails(rows, lines, draw, 0);
      AddAllKeeps(rows, lines, draw, 0);
      AddAllHasKeys(rows, lines, draw, 0);
      AddAllAppends(rows, lines, draw, 0);
    }
  }

  // ---------------------------------------------------------------------
  // The seed group and its codes

  const GroupSize := 11

  /** The first |wallets|/11 accounts run first and draw codes. */
  function Seeds(wallets: seq<Account>): seq<Account> {
    wallets[..|wallets| / GroupSize]
  }

  function Dependents(wallets: seq<Account>): seq<Account> {
    wallets[|wallets| / GroupSize..]
  }

  /** The code a seed contributes: its stored code when it has one, else
      what its run returned (None when the run failed). */
  function CodeFor(seed: Account, result: Option<string>): Option<string> {
    if seed.usedOrReceivedCode == Runner.NoCode then result else Some(seed.usedOrReceivedCode)
  }

  /** Collecting the seeds' results in order. Waiting on a run that raised
      re-raises and ends the batch; waiting on a run that never returns
      stalls it. */
  datatype Collected = Codes(codes: seq<Option<string>>) | Crashed(at: nat) | Stalled(at: nat)

  function CollectCodes(seeds: seq<Account>, ends: seq<Runner.End>): (c: Collected)
    requires |ends| == |seeds|
    ensures c.Codes? <==> forall i :: 0 <= i < |ends| ==> ends[i].Returned?
    ensures c.Codes? ==>
              && |c.codes| == |seeds|
              && forall i :: 0 <= i < |seeds| ==> c.codes[i] == CodeFor(seeds[i], ends[i].result)
    ensures c.Crashed? ==>
              && c.at < |ends| && ends[c.at].Raised?
              && forall i :: 0 <= i < c.at ==> ends[i].Returned?
    ensures c.Stalled? ==>
              && c.at < |ends| && ends[c.at].Hung?
              && forall i :: 0 <= i < c.at ==> ends[i].Returned?
    decreases |seeds|
  {
    if |seeds| == 0 then Codes([])
    else
      var rest := CollectCodes(seeds[1..], ends[1..]);
      assert forall i :: 1 <= i < |ends| ==> ends[i] == ends[1..][i - 1];
      match ends[0]
      case Raised => Crashed(0)
      case Hung => Stalled(0)
      case Returned(result) =>
        match rest
        case Codes(cs) =>
          var c := Codes([CodeFor(seeds[0], result)] + cs);
          assert forall i :: 1 <= i < |seeds| ==> seeds[i] == seeds[1..][i - 1];
          c
        case Crashed(i) => Crashed(i + 1)
        case Stalled(i) => Stalled(i + 1)
  }

  /** How each seed's run ends: the runner on the seed's record with code
      "0", against the replies `clients(i)` the site gives seed i. */
  function SeedEnds(seeds: seq<Account>, clients: nat -> Runner.Client): (ends: seq<Runner.End>)
    ensures |ends| == |seeds|
    ensures forall i :: 0 <= i < |seeds| ==> ends[i] == Runner.ProcessWallet(seeds[i], Some(Runner.NoCode), clients(i)).end
  {
    seq(|seeds|, i requires 0 <= i < |seeds| => Runner.ProcessWallet(seeds[i], Some(Runner.NoCode), clients(i)).end)
  }

  // ---------------------------------------------------------------------
  // Round-robin codes for the dependents

  /** The index into `codes` each of `count` dependents gets, computed as
      the source does with a running code index and a counter that wraps
      every ten accounts. */
  method AssignCodes(count: nat, k: nat) returns (slots: seq<nat>)
    requires k > 0 || count == 0
    ensures |slots| == count
    ensures forall j :: 0 <= j < count ==> slots[j] == (j / 10) % k
  {
    slots := [];
    var codeIndex := 0;
    var processed := 0;
    var j := 0;
    while j < count
      invariant j <= count
      invariant |slots| == j
      invariant codeIndex == j / 10 && processed == j % 10
      invariant forall t :: 0 <= t < j ==> slots[t] == (t / 10) % k
    {
      slots := slots + [codeIndex % k];
      processed := processed + 1;
      if processed >= 10 {
        codeIndex := codeIndex + 1;
        processed := 0;
      }
      j := j + 1;
    }
  }

  function Occurrences(s: seq<nat>, v: nat): nat
    decreases |s|
  {
    if |s| == 0 then 0
    else Occurrences(s[..|s| - 1], v) + if s[|s| - 1] == v then 1 else 0
  }

  /** In the sequence 0,0,...(ten times),1,1,...: value i occurs ten times
      once the sequence is long enough, fewer in the last, partial block. */
  lemma {:induction false} BlockOccurrences(s: seq<nat>, i: nat)
    requires forall j :: 0 <= j < |s| ==> s[j] == j / 10
    ensures Occurrences(s, i) ==
      if |s| >= 10 * (i + 1) then 10 else if |s| > 10 * i then |s| - 10 * i else 0
    decreases |s|
  {
    if |s| > 0 {
      var init := s[..|s| - 1];
      assert forall j :: 0 <= j < |init| ==> init[j] == s[j];
      BlockOccurrences(init, i);
    }
  }

  /** With ten dependents per seed the wrap-around never happens:
      dependent `j` gets the code of seed `j / 10`. */
  lemma SeedOfDependent(j: nat, k: nat)
    requires j < 10 * k
    ensures (j / 10) % k == j / 10
  {
  }

  /** With ten dependents per seed, every code is handed to exactly ten
      dependents. */
  lemma EachCodeTenTimes(slots: seq<nat>, k: nat)
    requires k > 0 && |slots| == 10 * k
    requires forall j :: 0 <= j < |slots| ==> slots[j] == (j / 10) % k
    ensures forall i :: 0 <= i < k ==> Occurrences(slots, i) == 10
  {
    forall j | 0 <= j < |slots| ensures slots[j] == j / 10 {
      assert j / 10 < k;
    }
    forall i | 0 <= i < k ensures Occurrences(slots, i) == 10 {
      BlockOccurrences(slots, i);
    }
  }

  // ---------------------------------------------------------------------
  // Windows

  function Flatten<T>(ws: seq<seq<T>>): seq<T>
    decreases |ws|
  {
    if |ws| == 0 then [] else ws[0] + Flatten(ws[1..])
  }

  lemma {:induction false} FlattenAppend<T>(ws: seq<seq<T>>, w: seq<T>)
    ensures Flatten(ws + [w]) == Flatten(ws) + w
    decreases |ws|
  {
    if |ws| == 0 {
      assert ws + [w] == [w];
    } else {
      assert (ws + [w])[1..] == ws[1..] + [w];
      FlattenAppend(ws[1..], w);
    }
  }

  /** The reference cut of a list into consecutive windows of `m`, the
      last one possibly shorter. */
  function Chunks<T>(tasks: seq<T>, m: nat): seq<seq<T>>
    requires m > 0
    decreases |tasks|
  {
    if |tasks| == 0 then []
    else if |tasks| <= m then [tasks]
    else [tasks[..m]] + Chunks(tasks[m..], m)
  }

  /** The windows cover the list exactly once, in order; each holds between
      one and `m` tasks, and all but the last hold exactly `m`. */
  lemma {:induction false} ChunksPartition<T>(tasks: seq<T>, m: nat)
    requires m > 0
    ensures Flatten(Chunks(tasks, m)) == tasks
    ensures forall w :: w in Chunks(tasks, m) ==> 0 < |w| <= m
    ensures forall q :: 0 <= q < |Chunks(tasks, m)| - 1 ==> |Chunks(tasks, m)[q]| == m
    decreases |tasks|
  {
    if |tasks| > m {
      ChunksPartition(tasks[m..], m);
      var rest := Chunks(tasks[m..], m);
      assert Chunks(tasks, m) == [tasks[..m]] + rest;
      assert Flatten(Chunks(tasks, m)) == tasks[..m] + Flatten(rest);
      assert tasks[..m] + tasks[m..] == tasks;
      forall q | 0 <= q < |Chunks(tasks, m)| - 1 ensures |Chunks(tasks, m)[q]| == m {
        if q > 0 {
          assert Chunks(tasks, m)[q] == rest[q - 1];
        }
      }
    } else if |tasks| > 0 {
      assert Chunks(tasks, m) == [tasks];
      assert Flatten([tasks]) == tasks + Flatten([]);
    }
  }

  /** The slices the source submits together: from each multiple of `m`,
      `m` tasks, or, for the last, a slice whose end `i + |tasks|` runs past
      the list and is cut at its end. They are the reference windows. */
  method Windows<T>(tasks: seq<T>, m: nat) returns (ws: seq<seq<T>>)
    requires m > 0
    ensures ws == Chunks(tasks, m)
    ensures Flatten(ws) == tasks
    ensures forall w :: w in ws ==> 0 < |w| <= m
  {
    ws := [];
    var i := 0;
    while i < |tasks|
      invariant i <= |tasks|
      invariant ws + Chunks(tasks[i..], m) == Chunks(tasks, m)
      decreases |tasks| - i
    {
      var next := Min(i + m, |tasks|);
      ChunkAt(tasks, i, m);
      assert ws + Chunks(tasks[i..], m) == (ws + [tasks[i..next]]) + Chunks(tasks[next..], m);
      ws := ws + [tasks[i..next]];
      i := next;
    }
    assert ws == Chunks(tasks, m);
    ChunksPartition(tasks, m);
  }

  /** The window that starts at `i` is the next `m` tasks (or what is left). */
  lemma ChunkAt<T>(tasks: seq<T>, i: nat, m: nat)
    requires m > 0 && i < |tasks|
    ensures Chunks(tasks[i..], m)
         == [tasks[i..Min(i + m, |tasks|)]] + Chunks(tasks[Min(i + m, |tasks|)..], m)
  {
    var rest := tasks[i..];
    if |rest| <= m {
      assert tasks[Min(i + m, |tasks|)..] == [];
      assert rest == tasks[i..Min(i + m, |tasks|)];
    } else {
      assert rest[..m] == tasks[i..i + m];
      assert rest[m..] == tasks[i + m..];
    }
  }

  /** Two lists of the same length are cut into the same number of windows. */
  lemma {:induction false} ChunksCount<T, U>(a: seq<T>, b: seq<U>, m: nat)
    requires m > 0 && |a| == |b|
    ensures |Chunks(a, m)| == |Chunks(b, m)|
    decreases |a|
  {
    if |a| > m {
      ChunksCount(a[m..], b[m..], m);
    }
  }

  // ---------------------------------------------------------------------
  // Waiting on submitted runs

  /** Waiting on runs in order stops at the first one that does not return:
      this is its position, or the number of runs when all return. */
  function FirstUnreturned(ends: seq<Runner.End>): (n: nat)
    ensures n <= |ends|
    ensures forall i :: 0 <= i < n ==> ends[i].Returned?
    ensures n < |ends| ==> !ends[n].Returned?
    decreases |ends|
  {
    if |ends| == 0 || !ends[0].Returned? then 0
    else
      var n := FirstUnreturned(ends[1..]);
      assert forall i :: 1 <= i < |ends| ==> ends[i] == ends[1..][i - 1];
      n + 1
  }

  /** How the program ends once a wait meets a run that raised or hangs.
      Leaving the pool's `with` block waits for every run already
      submitted, so the program hangs if one of them hangs, and otherwise
      re-raises the exception. */
  datatype Halt = Crash | Stall

  function Halting(submitted: seq<Runner.End>): (h: Halt)
    ensures h == Stall <==> exists i :: 0 <= i < |submitted| && submitted[i].Hung?
  {
    if exists i :: 0 <= i < |submitted| && submitted[i].Hung? then Stall else Crash
  }

  /** The dependents' phase: every dependent returned, or dependent `at`
      (in task order) is the first whose wait did not return. */
  datatype Outcome = Completed | DependentFailed(at: nat, halt: Halt)

  /** The number of windows submitted and how the phase ended. */
  datatype Waited = Waited(submitted: nat, outcome: Outcome)

  /** Waiting on the runs in order meets run `at` first among those that
      do not return. */
  predicate StopsAt(ends: seq<Runner.End>, at: nat)
  {
    at < |ends| && !ends[at].Returned? && forall j :: 0 <= j < at ==> ends[j].Returned?
  }

  /** Some run in the window of `m` runs starting at `lo` hangs. */
  predicate HangsIn(ends: seq<Runner.End>, lo: nat, m: nat)
  {
    exists j :: lo <= j < lo + m && j < |ends| && ends[j].Hung?
  }

  /** Where window `k` (from 0) of `m` runs starts. */
  function WindowStart(k: nat, m: nat): nat
  {
    k * m
  }

  /** Window `s + 1` starts `m` runs after window `s`. */
  lemma NextWindowStart(s: nat, m: nat)
    requires s > 0
    ensures WindowStart(s - 1, m) + m == WindowStart(s, m)
  {
  }

  /** What waiting window by window promises about `w`: all windows are
      submitted exactly when every run returns; otherwise waiting stops at
      the first run that does not return, in the last window submitted, and
      the program hangs exactly when some run of that window hangs. */
  predicate WaitsAsWindows(ends: seq<Runner.End>, m: nat, w: Waited)
    requires m > 0
  {
    && w.submitted <= |Chunks(ends, m)|
    && (w.outcome.Completed? <==> forall j :: 0 <= j < |ends| ==> ends[j].Returned?)
    && (w.outcome.Completed? ==> w.submitted == |Chunks(ends, m)|)
    && (w.outcome.DependentFailed? ==>
          && 0 < w.submitted
          && StopsAt(ends, w.outcome.at)
          && WindowStart(w.submitted - 1, m) <= w.outcome.at < WindowStart(w.submitted, m)
          && (w.outcome.halt == Stall <==> HangsIn(ends, WindowStart(w.submitted - 1, m), m)))
  }

  /** The first window fails: waiting stops inside it, and the program
      hangs exactly when one of its runs hangs. */
  lemma FailsInFirst(ends: seq<Runner.End>, m: nat)
    requires 0 < m && 0 < |ends|
    requires FirstUnreturned(ends[..Min(m, |ends|)]) < Min(m, |ends|)
    ensures var n := Min(m, |ends|);
            WaitsAsWindows(ends, m, Waited(1, DependentFailed(FirstUnreturned(ends[..n]), Halting(ends[..n]))))
  {
    var n := Min(m, |ends|);
    var f := FirstUnreturned(ends[..n]);
    assert forall j :: 0 <= j < n ==> ends[..n][j] == ends[j];
    if HangsIn(ends, 0, m) {
      var j :| 0 <= j < m && j < |ends| && ends[j].Hung?;
      assert ends[..n][j].Hung?;
    }
    ChunksStep(ends, m);
    assert StopsAt(ends, f);
  }

  /** The first window returns and so does everything after it. */
  lemma CompletesAfterFirst(ends: seq<Runner.End>, m: nat, rest: Waited)
    requires 0 < m && 0 < |ends|
    requires FirstUnreturned(ends[..Min(m, |ends|)]) == Min(m, |ends|)
    requires WaitsAsWindows(ends[Min(m, |ends|)..], m, rest) && rest.outcome.Completed?
    ensures WaitsAsWindows(ends, m, Waited(rest.submitted + 1, Completed))
  {
    var n := Min(m, |ends|);
    FirstWindowReturns(ends, m);
    assert forall j :: n <= j < |ends| ==> ends[j] == ends[n..][j - n];
    ChunksStep(ends, m);
  }

  /** Waiting stops at the same run, counted from after the first `n`, once
      those `n` all return. */
  lemma StopsShift(ends: seq<Runner.End>, n: nat, g: nat)
    requires n <= |ends|
    requires forall j :: 0 <= j < n ==> ends[j].Returned?
    requires StopsAt(ends[n..], g)
    ensures StopsAt(ends, n + g)
  {
    forall j | n <= j < n + g ensures ends[j].Returned? {
      assert ends[j] == ends[n..][j - n];
    }
    assert ends[n + g] == ends[n..][g];
  }

  /** A window of the runs after the first `n` is the window `n` further on. */
  lemma HangsShift(ends: seq<Runner.End>, n: nat, lo: nat, m: nat)
    requires n <= |ends|
    ensures HangsIn(ends[n..], lo, m) <==> HangsIn(ends, lo + n, m)
  {
    if HangsIn(ends[n..], lo, m) {
      var j :| lo <= j < lo + m && j < |ends[n..]| && ends[n..][j].Hung?;
      assert ends[j + n].Hung?;
    }
    if HangsIn(ends, lo + n, m) {
      var j :| lo + n <= j < lo + n + m && j < |ends| && ends[j].Hung?;
      assert ends[n..][j - n].Hung?;
    }
  }

  /** The first window returns and a later one fails: positions and window
      numbers move by one window. */
  lemma FailsLater(ends: seq<Runner.End>, m: nat, rest: Waited)
    requires 0 < m && 0 < |ends|
    requires FirstUnreturned(ends[..Min(m, |ends|)]) == Min(m, |ends|)
    requires WaitsAsWindows(ends[Min(m, |ends|)..], m, rest) && rest.outcome.DependentFailed?
    ensures WaitsAsWindows(ends, m, Waited(rest.submitted + 1, DependentFailed(m + rest.outcome.at, rest.outcome.halt)))
  {
    var s, g := rest.submitted, rest.outcome.at;
    assert m < |ends|;
    FirstWindowReturns(ends, m);
    NextWindowStart(s, m);
    NextWindowStart(s + 1, m);
    StopsShift(ends, m, g);
    HangsShift(ends, m, WindowStart(s - 1, m), m);
    ChunksStep(ends, m);
  }

  /** When waiting passes the whole first window, each of its runs returned. */
  lemma FirstWindowReturns(ends: seq<Runner.End>, m: nat)
    requires FirstUnreturned(ends[..Min(m, |ends|)]) == Min(m, |ends|)
    ensures forall j :: 0 <= j < Min(m, |ends|) ==> ends[j].Returned?
  {
    assert forall j :: 0 <= j < Min(m, |ends|) ==> ends[j] == ends[..Min(m, |ends|)][j];
  }

  /** A non-empty list is one window more than what follows its first
      window. */
  lemma ChunksStep<T>(tasks: seq<T>, m: nat)
    requires 0 < m && 0 < |tasks|
    ensures |Chunks(tasks, m)| == 1 + |Chunks(tasks[Min(m, |tasks|)..], m)|
  {
  }

  /** The dependents' runs submitted `m` at a time, each window waited on
      in order before the next is submitted. The first run that does not
      return ends the phase, and no later window is submitted; the program
      then hangs exactly when some run of that window hangs. */
  function RunWindows(ends: seq<Runner.End>, m: nat): (w: Waited)
    requires m > 0
    ensures WaitsAsWindows(ends, m, w)
    decreases |ends|
  {
    if |ends| == 0 then Waited(0, Completed)
    else
      var n := Min(m, |ends|);
      var f := FirstUnreturned(ends[..n]);
      if f < n then
        FailsInFirst(ends, m);
        Waited(1, DependentFailed(f, Halting(ends[..n])))
      else
        var rest := RunWindows(ends[n..], m);
        ReturnsFirst(ends, m, rest);
        After(rest, n)
  }

  /** The phase once a first window of `n` runs has returned, given how the
      windows after it went. */
  function After(rest: Waited, n: nat): Waited {
    match rest.outcome
    case Completed => Waited(rest.submitted + 1, Completed)
    case DependentFailed(g, h) => Waited(rest.submitted + 1, DependentFailed(n + g, h))
  }

  /** The first window returns: the phase is one window longer than the
      phase after it. */
  lemma ReturnsFirst(ends: seq<Runner.End>, m: nat, rest: Waited)
    requires 0 < m && 0 < |ends|
    requires FirstUnreturned(ends[..Min(m, |ends|)]) == Min(m, |ends|)
    requires WaitsAsWindows(ends[Min(m, |ends|)..], m, rest)
    ensures WaitsAsWindows(ends, m, After(rest, Min(m, |ends|)))
  {
    if rest.outcome.Completed? {
      CompletesAfterFirst(ends, m, rest);
    } else {
      FailsLater(ends, m, rest);
    }
  }

  // ---------------------------------------------------------------------
  // The whole batch

  /** The largest pool the process pool accepts on Windows, the only
      platform the program runs on (it installs the Windows event-loop
      policy). */
  const MaxWindowsWorkers := 61

  /** A dependent's run: its record and the code it is handed. */
  datatype Task = Task(wallet: Account, code: Option<string>)

  /** How the runs of the tasks end, the task at position `j` being the
      account at position `first + j` and answered by `clients(first + j)`. */
  function TaskEnds(tasks: seq<Task>, first: nat, clients: nat -> Runner.Client): (ends: seq<Runner.End>)
    ensures |ends| == |tasks|
    ensures forall j :: 0 <= j < |tasks| ==>
              ends[j] == Runner.ProcessWallet(tasks[j].wallet, tasks[j].code, clients(first + j)).end
  {
    seq(|tasks|, j requires 0 <= j < |tasks| => Runner.ProcessWallet(tasks[j].wallet, tasks[j].code, clients(first + j)).end)
  }

  datatype Batch =
    | Rejected                          // not a multiple of 11 accounts, or a pool size outside 1..61
    | SeedFailed(at: nat, halt: Halt)   // waiting on seed `at` raised or never returned
    | Scheduled(codes: seq<Option<string>>, windows: seq<seq<Task>>, submitted: nat, outcome: Outcome)

  /** The dependents, in order, each with the code of the seed its block
      of ten belongs to (dependent `j` is the account after the seeds at
      offset `j` and gets the code of seed `j / 10`), cut into windows of
      `m`. */
  predicate HandedOut(wallets: seq<Account>, codes: seq<Option<string>>, windows: seq<seq<Task>>, m: nat)
    requires m > 0
  {
    && |codes| <= |wallets|
    && |Flatten(windows)| == |wallets| - |codes| == 10 * |codes|
    && (forall j :: 0 <= j < |Flatten(windows)| ==>
          Flatten(windows)[j] == Task(wallets[|codes| + j], codes[j / 10]))
    && windows == Chunks(Flatten(windows), m)
  }

  /** Pairs each dependent with a code, going round the seeds' codes and
      moving on every ten dependents, and cuts the list into windows. */
  method HandOut(wallets: seq<Account>, codes: seq<Option<string>>, m: nat) returns (ws: seq<seq<Task>>)
    requires |wallets| % GroupSize == 0 && |codes| == |Seeds(wallets)| && m > 0
    ensures HandedOut(wallets, codes, ws, m)
  {
    DependentsPerSeed(wallets);
    var remaining := Dependents(wallets);
    var slots := AssignCodes(|remaining|, |codes|);
    var tasks := seq(|remaining|, j requires 0 <= j < |remaining| => Task(remaining[j], codes[slots[j]]));
    forall j | 0 <= j < |remaining| ensures slots[j] == j / 10 {
      SeedOfDependent(j, |codes|);
    }
    ws := Windows(tasks, m);
  }

  /** Menu choices 2 and 3: check the count and the pool size, run the
      seeds and collect their codes, hand the dependents codes ten at a
      time, and run them window by window. */
  method Schedule(wallets: seq<Account>, maxTasks: int, clients: nat -> Runner.Client) returns (b: Batch)
    ensures (|wallets| % GroupSize != 0 || maxTasks <= 0 || maxTasks > MaxWindowsWorkers) <==> b.Rejected?
    ensures b.SeedFailed? ==>
              var e := SeedEnds(Seeds(wallets), clients);
              && StopsAt(e, b.at)
              && (b.halt == Stall <==> exists i :: 0 <= i < |e| && e[i].Hung?)
    ensures b.Scheduled? ==>
              var e := SeedEnds(Seeds(wallets), clients);
              && |b.codes| == |wallets| / GroupSize
              && forall i :: 0 <= i < |b.codes| ==> e[i].Returned? && b.codes[i] == CodeFor(wallets[i], e[i].result)
    ensures b.Scheduled? ==>
              && 0 < maxTasks <= MaxWindowsWorkers
              && HandedOut(wallets, b.codes, b.windows, maxTasks)
              && WaitsAsWindows(TaskEnds(Flatten(b.windows), |b.codes|, clients), maxTasks, Waited(b.submitted, b.outcome))
  {
    if |wallets| % GroupSize != 0 || maxTasks <= 0 || maxTasks > MaxWindowsWorkers {
      return Rejected;
    }
    var seeds := Seeds(wallets);
    var ends := SeedEnds(seeds, clients);
    var collected := CollectCodes(seeds, ends);
    match collected {
      case Crashed(i) => return SeedFailed(i, Halting(ends));
      case Stalled(i) => return SeedFailed(i, Halting(ends));
      case Codes(codes) =>
        var ws := HandOut(wallets, codes, maxTasks);
        var w := RunWindows(TaskEnds(Flatten(ws), |codes|, clients), maxTasks);
        return Scheduled(codes, ws, w.submitted, w.outcome);
    }
  }

  /** A batch that passes the count check has a code for every ten
      dependents: ten dependents per seed, and at least one seed whenever
      there is a dependent. */
  lemma DependentsPerSeed(wallets: seq<Account>)
    requires |wallets| % GroupSize == 0
    ensures |Dependents(wallets)| == 10 * |Seeds(wallets)|
    ensures |Dependents(wallets)| > 0 ==> |Seeds(wallets)| > 0
  {
  }
}
