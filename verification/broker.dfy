/** The update broker's effect on the table: the events a run enqueues are
    applied in order, each as one `update_db` call on the account table. A
    call that fails is rolled back, so it leaves the table as it was, and
    the broker goes on with the next event. */
module Broker {
  import opened Wrappers
  import opened Accounts
  import opened Table
  import Runner

  /** An event `update_db` accepts as an argument. */
  predicate Typed(e: Runner.Event) {
    DistinctColumns(e.fields) && Storable(e.fields)
  }

  /** One event applied to the table. */
  function Apply(rows: seq<Account>, e: Runner.Event): (out: seq<Account>)
    requires Typed(e)
    ensures |out| == |rows|
    ensures forall i :: 0 <= i < |rows| ==> out[i].id == rows[i].id
  {
    match UpdateDb(rows, TableName, e.filter, e.fields)
    case Success(updated) => updated
    case Failure(_) => rows
  }

  /** The events, oldest first, applied to the table. */
  function ApplyLog(rows: seq<Account>, events: seq<Runner.Event>): (out: seq<Account>)
    requires forall k :: 0 <= k < |events| ==> Typed(events[k])
    ensures |out| == |rows|
    ensures forall i :: 0 <= i < |rows| ==> out[i].id == rows[i].id
    decreases |events|
  {
    if |events| == 0 then rows
    else ApplyLog(Apply(rows, events[0]), events[1..])
  }

  /** The events a run enqueues: each sets one column, other than the
      private key, with a value of the column's type or Null, on the row
      holding the key. */
  predicate KeyedUpdate(pk: string, e: Runner.Event) {
    && e.filter == KeyFilter(pk)
    && |e.fields| == 1
    && Fits(e.fields[0].0, e.fields[0].1)
    && e.fields[0].0 != PrivateKey
  }

  /** The value the latest event writing `c` stores, ignoring Null writes
      (which the table refuses): the reference "last writer wins" reading
      of a log. */
  function LastWrite(events: seq<Runner.Event>, c: Column): Option<Value>
    decreases |events|
  {
    if |events| == 0 then None
    else
      var later := LastWrite(events[1..], c);
      if later.Some? then later
      else if Writes(events[0], c) then Some(events[0].fields[0].1)
      else None
  }

  /** The event stores a value, not Null, into the column. */
  predicate Writes(e: Runner.Event, c: Column) {
    |e.fields| == 1 && e.fields[0].0 == c && !e.fields[0].1.Null?
  }

  function Written(w: Option<Value>, old_: Value): Value {
    match w
    case Some(v) => v
    case None => old_
  }

  /** One keyed update: rows with another key are untouched; on a row with
      the key, the named column takes the value unless it is Null, and every
      other column, the key included, stays. */
  lemma ApplyKeyed(rows: seq<Account>, pk: string, e: Runner.Event)
    requires KeyedUpdate(pk, e)
    ensures Typed(e)
    ensures |Apply(rows, e)| == |rows|
    ensures forall i :: 0 <= i < |rows| ==> Apply(rows, e)[i].id == rows[i].id
    ensures forall i :: 0 <= i < |rows| && rows[i].privateKey != pk ==> Apply(rows, e)[i] == rows[i]
    ensures forall i, c :: 0 <= i < |rows| && rows[i].privateKey == pk ==>
              Get(Apply(rows, e)[i], c) ==
                (if c == e.fields[0].0 && !e.fields[0].1.Null? then e.fields[0].1 else Get(rows[i], c))
  {
    assert Typed(e);
    forall i | 0 <= i < |rows| ensures Matches(rows[i], e.filter) <==> rows[i].privateKey == pk {
      MatchesKeyFilter(rows[i], pk);
    }
    assert Columns(e.fields) == {e.fields[0].0};
    if e.fields[0].1.Null? {
      assert HasNull(e.fields);
    } else {
      assert !HasNull(e.fields);
    }
  }

  /** A log of keyed updates leaves rows with another key alone and, on the
      rows holding the key, leaves every column as the last non-Null write
      to it says (or as it was, if nothing wrote it). */
  lemma {:induction false} ApplyLogEffect(rows: seq<Account>, pk: string, events: seq<Runner.Event>)
    requires forall k :: 0 <= k < |events| ==> KeyedUpdate(pk, events[k])
    ensures forall k :: 0 <= k < |events| ==> Typed(events[k])
    ensures |ApplyLog(rows, events)| == |rows|
    ensures forall i :: 0 <= i < |rows| ==> ApplyLog(rows, events)[i].id == rows[i].id
    ensures forall i :: 0 <= i < |rows| && rows[i].privateKey != pk ==> ApplyLog(rows, events)[i] == rows[i]
    ensures forall i, c :: 0 <= i < |rows| && rows[i].privateKey == pk ==>
              Get(ApplyLog(rows, events)[i], c) == Written(LastWrite(events, c), Get(rows[i], c))
    decreases |events|
  {
    forall k | 0 <= k < |events| ensures Typed(events[k]) {
      ApplyKeyed(rows, pk, events[k]);
    }
    if |events| > 0 {
      var mid := Apply(rows, events[0]);
      var rest := events[1..];
      ApplyKeyed(rows, pk, events[0]);
      assert forall k :: 0 <= k < |rest| ==> rest[k] == events[k + 1];
      ApplyLogEffect(mid, pk, rest);
      forall i | 0 <= i < |rows| && rows[i].privateKey == pk ensures mid[i].privateKey == pk {
        assert Get(mid[i], PrivateKey) == Get(rows[i], PrivateKey);
      }
    }
  }

  /** When the only writes to a column are of one value, the log's last
      write to it is that value exactly when some event writes it. */
  lemma {:induction false} LastWriteSingleValue(events: seq<Runner.Event>, c: Column, v: Value)
    requires forall k :: 0 <= k < |events| ==> |events[k].fields| == 1
    requires !v.Null?
    requires forall k :: 0 <= k < |events| && events[k].fields[0].0 == c ==> events[k].fields[0].1 == v
    ensures LastWrite(events, c) == if exists k :: 0 <= k < |events| && events[k].fields[0].0 == c then Some(v) else None
    decreases |events|
  {
    if |events| > 0 {
      var rest := events[1..];
      assert forall k :: 0 <= k < |rest| ==> rest[k] == events[k + 1];
      LastWriteSingleValue(rest, c, v);
      if exists k :: 0 <= k < |rest| && rest[k].fields[0].0 == c {
        var k :| 0 <= k < |rest| && rest[k].fields[0].0 == c;
        assert events[k + 1].fields[0].0 == c;
      }
      if exists k :: 0 <= k < |events| && events[k].fields[0].0 == c {
        var k :| 0 <= k < |events| && events[k].fields[0].0 == c;
        if k > 0 {
          assert rest[k - 1].fields[0].0 == c;
        }
      }
    }
  }

  // ---------------------------------------------------------------------
  // A run's log applied to the table

  /** Every event a run enqueues is a keyed update on the run's normalised key. */
  lemma RunEventsKeyed(a: Account, code: Option<string>, client: Runner.Client)
    ensures var r := Runner.ProcessWallet(a, code, client);
      forall k :: 0 <= k < |r.events| ==> KeyedUpdate(NormalizeKey(a.privateKey), r.events[k])
  {
    var pk := NormalizeKey(a.privateKey);
    if Runner.Launchable(a) && !Runner.Complete(a) {
      Runner.ProcessWalletShape(a, code, client);
      var p := Runner.RunSteps(a, pk, client, 0);
      forall k | 0 <= k < |p.events| ensures KeyedUpdate(pk, p.events[k]) {
        assert p.events[k] == Runner.SetFlag(pk, p.calls[k].step);
      }
      if !p.failed {
        var x := Runner.Exchange(a, pk, code, client);
        ExchangeKeyed(a, pk, code, client);
        KeyedAppend(pk, p.events, x.events);
      }
    }
  }

  lemma ExchangeKeyed(a: Account, pk: string, code: Option<string>, client: Runner.Client)
    ensures var x := Runner.Exchange(a, pk, code, client);
      forall k :: 0 <= k < |x.events| ==> KeyedUpdate(pk, x.events[k])
  {
    Runner.ExchangeEventsShape(a, pk, code, client);
  }

  lemma KeyedAppend(pk: string, first: seq<Runner.Event>, second: seq<Runner.Event>)
    requires forall k :: 0 <= k < |first| ==> KeyedUpdate(pk, first[k])
    requires forall k :: 0 <= k < |second| ==> KeyedUpdate(pk, second[k])
    ensures forall k :: 0 <= k < |first + second| ==> KeyedUpdate(pk, (first + second)[k])
  {
    forall k | 0 <= k < |first + second| ensures KeyedUpdate(pk, (first + second)[k]) {
      if k >= |first| { assert (first + second)[k] == second[k - |first|]; }
    }
  }

  /** A step's flag column is written only by that step's flag event, and only with true. */
  lemma RunFlagWrites(a: Account, code: Option<string>, client: Runner.Client, s: Runner.Step)
    ensures var r := Runner.ProcessWallet(a, code, client);
      var pk := NormalizeKey(a.privateKey);
      && (forall k :: 0 <= k < |r.events| && r.events[k].fields[0].0 == Runner.FlagColumn(s) ==>
            r.events[k] == Runner.SetFlag(pk, s))
  {
    var r := Runner.ProcessWallet(a, code, client);
    var pk := NormalizeKey(a.privateKey);
    RunEventsKeyed(a, code, client);
    if Runner.Launchable(a) && !Runner.Complete(a) {
      Runner.ProcessWalletShape(a, code, client);
      var p := Runner.RunSteps(a, pk, client, 0);
      var x := Runner.Exchange(a, pk, code, client);
      Runner.ExchangeEventsShape(a, pk, code, client);
      forall k | 0 <= k < |r.events| && r.events[k].fields[0].0 == Runner.FlagColumn(s)
        ensures r.events[k] == Runner.SetFlag(pk, s)
      {
        if k < |p.events| {
          assert r.events[k] == Runner.SetFlag(pk, p.calls[k].step);
          Runner.FlagColumnInjective(s, p.calls[k].step);
        }
      }
    }
  }

  /** After a run's log is applied, the account's row has a step's flag set
      exactly when it had it before or the run had the step accepted; rows
      of other accounts are untouched. */
  lemma FlagsAfterRun(rows: seq<Account>, j: nat, a: Account, code: Option<string>, client: Runner.Client)
    requires j < |rows| && rows[j].privateKey == NormalizeKey(a.privateKey)
    ensures var r := Runner.ProcessWallet(a, code, client);
      var pk := NormalizeKey(a.privateKey);
      && (forall k :: 0 <= k < |r.events| ==> Typed(r.events[k]))
      && |ApplyLog(rows, r.events)| == |rows|
      && (forall i :: 0 <= i < |rows| && rows[i].privateKey != pk ==> ApplyLog(rows, r.events)[i] == rows[i])
      && (forall s :: Runner.Done(ApplyLog(rows, r.events)[j], s) <==>
            Runner.Done(rows[j], s) || Runner.SetFlag(pk, s) in r.events)
  {
    var r := Runner.ProcessWallet(a, code, client);
    var pk := NormalizeKey(a.privateKey);
    RunEventsKeyed(a, code, client);
    ApplyLogEffect(rows, pk, r.events);
    forall s ensures Runner.Done(ApplyLog(rows, r.events)[j], s) <==> Runner.Done(rows[j], s) || Runner.SetFlag(pk, s) in r.events {
      RunFlagWrites(a, code, client, s);
      FlagAfterLog(rows, j, pk, r.events, s);
    }
  }

  /** One step's flag after a keyed log whose only writes to that flag are
      the step's own flag events. */
  lemma FlagAfterLog(rows: seq<Account>, j: nat, pk: string, events: seq<Runner.Event>, s: Runner.Step)
    requires j < |rows| && rows[j].privateKey == pk
    requires forall k :: 0 <= k < |events| ==>
               && KeyedUpdate(pk, events[k])
               && (events[k].fields[0].0 == Runner.FlagColumn(s) ==> events[k] == Runner.SetFlag(pk, s))
    ensures forall k :: 0 <= k < |events| ==> Typed(events[k])
    ensures Runner.Done(ApplyLog(rows, events)[j], s) <==> Runner.Done(rows[j], s) || Runner.SetFlag(pk, s) in events
  {
    var c := Runner.FlagColumn(s);
    ApplyLogEffect(rows, pk, events);
    LastWriteSingleValue(events, c, Bool(true));
    if exists k :: 0 <= k < |events| && events[k].fields[0].0 == c {
      var k :| 0 <= k < |events| && events[k].fields[0].0 == c;
      assert events[k] == Runner.SetFlag(pk, s);
    }
    if Runner.SetFlag(pk, s) in events {
      var k :| 0 <= k < |events| && events[k] == Runner.SetFlag(pk, s);
      assert events[k].fields[0].0 == c;
    }
  }

  /** Resumption: once a run's log is applied, a later run on the account's
      row never requests a step the first run had accepted. */
  lemma AcceptedStepsAreNotRepeated(rows: seq<Account>, j: nat, a: Account, code: Option<string>,
                                    client: Runner.Client, code': Option<string>, client': Runner.Client)
    requires j < |rows| && rows[j].privateKey == NormalizeKey(a.privateKey)
    ensures var r := Runner.ProcessWallet(a, code, client);
      forall k :: 0 <= k < |r.events| ==> Typed(r.events[k])
    ensures var r := Runner.ProcessWallet(a, code, client);
      var again := Runner.ProcessWallet(ApplyLog(rows, r.events)[j], code', client');
      forall s :: Runner.SetFlag(NormalizeKey(a.privateKey), s) in r.events ==> Runner.Perform(s) !in again.calls
  {
    var r := Runner.ProcessWallet(a, code, client);
    FlagsAfterRun(rows, j, a, code, client);
    var b := ApplyLog(rows, r.events)[j];
    Runner.DoneStepsAreSkipped(b, code', client');
  }

  /** The last writes of a log ending in `used_code := v` then `used_or_received_code := c`. */
  lemma LastWritesOfExchange(events: seq<Runner.Event>, pk: string, v: bool, c: Value)
    requires |events| >= 2 && !c.Null?
    requires events[|events| - 2..] == [Runner.Update(pk, UsedCode, Bool(v)), Runner.Update(pk, UsedOrReceivedCode, c)]
    ensures LastWrite(events, UsedCode) == Some(Bool(v))
    ensures LastWrite(events, UsedOrReceivedCode) == Some(c)
  {
    var n := |events|;
    var init := events[..n - 1];
    assert events[n - 1] == events[n - 2..][1];
    assert init[n - 2] == events[n - 2..][0];
    assert events == init + [events[n - 1]];
    LastWriteEndsWith(events, UsedOrReceivedCode);
    LastWriteEndsWith(init, UsedCode);
    LastWriteAfter(init, events[n - 1], UsedCode);
  }

  /** A log of keyed updates ending in `used_code := v` then
      `used_or_received_code := c` leaves those values on the key's rows. */
  lemma ExchangeAfterLog(rows: seq<Account>, j: nat, pk: string, events: seq<Runner.Event>, v: bool, c: string)
    requires j < |rows| && rows[j].privateKey == pk
    requires forall k :: 0 <= k < |events| ==> KeyedUpdate(pk, events[k])
    requires |events| >= 2
    requires events[|events| - 2..] == [Runner.Update(pk, UsedCode, Bool(v)), Runner.Update(pk, UsedOrReceivedCode, Str(c))]
    ensures forall k :: 0 <= k < |events| ==> Typed(events[k])
    ensures ApplyLog(rows, events)[j].usedCode == v
    ensures ApplyLog(rows, events)[j].usedOrReceivedCode == c
  {
    LastWritesOfExchange(events, pk, v, Str(c));
    RowAfterLog(rows, j, pk, events, UsedOrReceivedCode);
    RowAfterLog(rows, j, pk, events, UsedCode);
  }

  /** A seed run that returns a code leaves that code on the account's row,
      with `used_code` false. */
  lemma SeedCodeRecorded(rows: seq<Account>, j: nat, a: Account, client: Runner.Client)
    requires j < |rows| && rows[j].privateKey == NormalizeKey(a.privateKey)
    requires Runner.Launchable(a) && !Runner.Complete(a) && Runner.Exchanging(a)
    requires forall s :: !Runner.Done(a, s) ==> Runner.Ok(client.step(s))
    ensures var r := Runner.ProcessWallet(a, Some(Runner.NoCode), client);
      forall k :: 0 <= k < |r.events| ==> Typed(r.events[k])
    ensures var r := Runner.ProcessWallet(a, Some(Runner.NoCode), client);
      r.end.Returned? && r.end.result.Some? ==>
        var b := ApplyLog(rows, r.events)[j];
        b.usedOrReceivedCode == r.end.result.value && !b.usedCode
  {
    var r := Runner.ProcessWallet(a, Some(Runner.NoCode), client);
    var pk := NormalizeKey(a.privateKey);
    RunEventsKeyed(a, Some(Runner.NoCode), client);
    ApplyLogEffect(rows, pk, r.events);
    if r.end.Returned? && r.end.result.Some? {
      Runner.SeedRun(a, client);
      ExchangeAfterLog(rows, j, pk, r.events, false, r.end.result.value);
    }
  }

  /** One column of the key's row after a keyed log: its last non-NULL
      write, or its old value. */
  lemma RowAfterLog(rows: seq<Account>, j: nat, pk: string, events: seq<Runner.Event>, c: Column)
    requires j < |rows| && rows[j].privateKey == pk
    requires forall k :: 0 <= k < |events| ==> KeyedUpdate(pk, events[k])
    ensures forall k :: 0 <= k < |events| ==> Typed(events[k])
    ensures Get(ApplyLog(rows, events)[j], c) == Written(LastWrite(events, c), Get(rows[j], c))
  {
    ApplyLogEffect(rows, pk, events);
  }

  /** Step-flag events never store a code. */
  lemma FlagsStoreNoCode(events: seq<Runner.Event>, pk: string)
    requires forall k :: 0 <= k < |events| ==> Runner.IsSetFlag(pk, events[k])
    ensures LastWrite(events, UsedOrReceivedCode) == None
  {
    forall k | 0 <= k < |events| ensures |events[k].fields| == 1 && events[k].fields[0].0 != UsedOrReceivedCode {
      assert Runner.IsSetFlag(pk, events[k]);
    }
    LastWriteSingleValue(events, UsedOrReceivedCode, Bool(true));
  }

  /** The last writes of a log of flag events followed by `used_code :=
      false` and a NULL `used_or_received_code`: nothing stores a code. */
  lemma LastWritesOfNullExchange(flags: seq<Runner.Event>, pk: string)
    requires forall k :: 0 <= k < |flags| ==> Runner.IsSetFlag(pk, flags[k])
    ensures var events := flags + [Runner.Update(pk, UsedCode, Bool(false)), Runner.Update(pk, UsedOrReceivedCode, Null)];
      && LastWrite(events, UsedCode) == Some(Bool(false))
      && LastWrite(events, UsedOrReceivedCode) == None
  {
    var first := Runner.Update(pk, UsedCode, Bool(false));
    var second := Runner.Update(pk, UsedOrReceivedCode, Null);
    var init := flags + [first];
    assert flags + [first, second] == init + [second];
    FlagsStoreNoCode(flags, pk);
    LastWriteAfter(flags, first, UsedOrReceivedCode);
    LastWriteAfter(init, second, UsedOrReceivedCode);
    LastWriteEndsWith(init, UsedCode);
    LastWriteAfter(init, second, UsedCode);
  }

  /** A log whose last two events are `used_code := false` and a NULL code
      and whose others set step flags is those flag events followed by the
      two. */
  lemma NullLogSplit(events: seq<Runner.Event>, pk: string)
    requires |events| >= 2
    requires events[|events| - 2..] == [Runner.Update(pk, UsedCode, Bool(false)), Runner.Update(pk, UsedOrReceivedCode, Null)]
    requires forall k :: 0 <= k < |events| - 2 ==> Runner.IsSetFlag(pk, events[k])
    ensures var flags := events[..|events| - 2];
      && events == flags + [Runner.Update(pk, UsedCode, Bool(false)), Runner.Update(pk, UsedOrReceivedCode, Null)]
      && forall k :: 0 <= k < |flags| ==> Runner.IsSetFlag(pk, flags[k])
  {
    var flags := events[..|events| - 2];
    assert events == flags + events[|events| - 2..];
    assert forall k :: 0 <= k < |flags| ==> flags[k] == events[k];
  }

  /** Applied to the table, a keyed log that sets `used_code` to false and
      stores no code leaves the stored code alone. */
  lemma NullExchangeAfterLog(rows: seq<Account>, j: nat, pk: string, events: seq<Runner.Event>)
    requires j < |rows| && rows[j].privateKey == pk
    requires forall k :: 0 <= k < |events| ==> KeyedUpdate(pk, events[k])
    requires LastWrite(events, UsedCode) == Some(Bool(false))
    requires LastWrite(events, UsedOrReceivedCode) == None
    ensures forall k :: 0 <= k < |events| ==> Typed(events[k])
    ensures ApplyLog(rows, events)[j].usedCode == false
    ensures ApplyLog(rows, events)[j].usedOrReceivedCode == rows[j].usedOrReceivedCode
  {
    RowAfterLog(rows, j, pk, events, UsedOrReceivedCode);
    RowAfterLog(rows, j, pk, events, UsedCode);
    var b := ApplyLog(rows, events)[j];
    assert Str(b.usedOrReceivedCode) == Str(rows[j].usedOrReceivedCode);
  }

  /** A seed run whose draw meets a null returns None; the table refuses
      the NULL code, so the row keeps its stored code, with `used_code`
      false, and the next run on it draws again. */
  lemma SeedNullCodeNotRecorded(rows: seq<Account>, j: nat, a: Account, client: Runner.Client)
    requires j < |rows| && rows[j].privateKey == NormalizeKey(a.privateKey)
    requires Runner.Launchable(a) && !Runner.Complete(a) && Runner.Exchanging(a)
    requires forall s :: !Runner.Done(a, s) ==> Runner.Ok(client.step(s))
    requires Runner.DrawCode(client.invites).Drawn? && Runner.DrawCode(client.invites).code.None?
    ensures var r := Runner.ProcessWallet(a, Some(Runner.NoCode), client);
      forall k :: 0 <= k < |r.events| ==> Typed(r.events[k])
    ensures var r := Runner.ProcessWallet(a, Some(Runner.NoCode), client);
      var b := ApplyLog(rows, r.events)[j];
      && r.end == Runner.Returned(None)
      && b.usedOrReceivedCode == rows[j].usedOrReceivedCode
      && !b.usedCode
  {
    var r := Runner.ProcessWallet(a, Some(Runner.NoCode), client);
    RunEventsKeyed(a, Some(Runner.NoCode), client);
    var pk := NormalizeKey(a.privateKey);
    Runner.SeedRun(a, client);
    NullLogSplit(r.events, pk);
    LastWritesOfNullExchange(r.events[..|r.events| - 2], pk);
    NullExchangeAfterLog(rows, j, pk, r.events);
  }

  /** A dependent run whose code the site accepts leaves the code on the
      account's row, with `used_code` true. */
  lemma DependentCodeRecorded(rows: seq<Account>, j: nat, a: Account, code: string, client: Runner.Client)
    requires j < |rows| && rows[j].privateKey == NormalizeKey(a.privateKey)
    requires Runner.Launchable(a) && !Runner.Complete(a) && Runner.Exchanging(a) && code != Runner.NoCode
    requires forall s :: !Runner.Done(a, s) ==> Runner.Ok(client.step(s))
    requires Runner.Ok(client.exchange)
    ensures var r := Runner.ProcessWallet(a, Some(code), client);
      forall k :: 0 <= k < |r.events| ==> Typed(r.events[k])
    ensures var r := Runner.ProcessWallet(a, Some(code), client);
      var b := ApplyLog(rows, r.events)[j];
      b.usedOrReceivedCode == code && b.usedCode
  {
    var r := Runner.ProcessWallet(a, Some(code), client);
    var pk := NormalizeKey(a.privateKey);
    RunEventsKeyed(a, Some(code), client);
    Runner.DependentRun(a, Some(code), client);
    ExchangeAfterLog(rows, j, pk, r.events, true, code);
  }

  /** The last write of a log ending in a write to `c`. */
  lemma {:induction false} LastWriteEndsWith(events: seq<Runner.Event>, c: Column)
    requires |events| > 0 && Writes(events[|events| - 1], c)
    ensures LastWrite(events, c) == Some(events[|events| - 1].fields[0].1)
    decreases |events|
  {
    if |events| > 1 {
      var rest := events[1..];
      assert rest[|rest| - 1] == events[|events| - 1];
      LastWriteEndsWith(rest, c);
    }
  }

  /** An event that does not write a column leaves its last write alone. */
  lemma {:induction false} LastWriteAfter(events: seq<Runner.Event>, e: Runner.Event, c: Column)
    requires !Writes(e, c)
    ensures LastWrite(events + [e], c) == LastWrite(events, c)
    decreases |events|
  {
    var all := events + [e];
    if |events| == 0 {
      assert all[1..] == [];
    } else {
      assert all[1..] == events[1..] + [e];
      LastWriteAfter(events[1..], e, c);
    }
  }
}
