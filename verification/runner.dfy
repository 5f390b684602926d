/** The per-account quest runner (`process_wallet`): five guarded steps in a
    fixed order, each recorded by an update event when the site answers
    SUCCESS, then the invite-code exchange. The HTTP client is an oracle of
    replies and the update broker is the ordered list of events the run
    enqueues; delays and logging are not modelled. */
module Runner {
  import opened Wrappers
  import Accounts
  import Impersonation
  import Table

  /** The reply code the site sends for an accepted request. */
  const Success := "SUCCESS"

  /** The stored or supplied code that means "no code yet". */
  const NoCode := "0"

  /** The quest steps, in the order the runner tries them. */
  datatype Step = Login | JoinWaitingList | FollowTwitter | WriteTwitterHandle | DiscordOauth

  function Index(s: Step): (n: nat)
    ensures n < 5
  {
    match s
    case Login => 0
    case JoinWaitingList => 1
    case FollowTwitter => 2
    case WriteTwitterHandle => 3
    case DiscordOauth => 4
  }

  function StepAt(n: nat): (s: Step)
    requires n < 5
    ensures Index(s) == n
  {
    if n == 0 then Login
    else if n == 1 then JoinWaitingList
    else if n == 2 then FollowTwitter
    else if n == 3 then WriteTwitterHandle
    else DiscordOauth
  }

  lemma IndexStepAt(s: Step)
    ensures StepAt(Index(s)) == s
  {
  }

  /** The boolean column recording that a step is done. */
  function FlagColumn(s: Step): (c: Accounts.Column)
    ensures Accounts.IsBoolColumn(c) && c != Accounts.UsedCode
  {
    match s
    case Login => Accounts.Login
    case JoinWaitingList => Accounts.JoinWaitingList
    case FollowTwitter => Accounts.FollowTwitter
    case WriteTwitterHandle => Accounts.WriteTwitterHandle
    case DiscordOauth => Accounts.DiscordOauth
  }

  lemma FlagColumnInjective(s: Step, t: Step)
    ensures FlagColumn(s) == FlagColumn(t) ==> s == t
  {
  }

  /** Whether the account's record says the step is done. */
  function Done(a: Accounts.Account, s: Step): (b: bool)
    ensures Accounts.Get(a, FlagColumn(s)) == Accounts.Bool(b)
  {
    match s
    case Login => a.login
    case JoinWaitingList => a.joinWaitingList
    case FollowTwitter => a.followTwitter
    case WriteTwitterHandle => a.writeTwitterHandle
    case DiscordOauth => a.discordOauth
  }

  /** An account the runner leaves alone: every step done and a code stored.
      `used_code` plays no part in the test. */
  predicate Complete(a: Accounts.Account) {
    && a.login && a.joinWaitingList && a.followTwitter && a.writeTwitterHandle && a.discordOauth
    && a.usedOrReceivedCode != NoCode
  }

  // ---------------------------------------------------------------------
  // The client oracle and what a run records

  /** A reply, as the runner reads it: the string in the field it looks at
      (`code` for a quest step or write_invite_code, `data` for
      get_invite_code), JSON null in that field, or an exception (the
      client failing, or a missing field raising KeyError). */
  datatype Reply = Answer(value: string) | NullAnswer | Fault

  predicate Ok(r: Reply) {
    r == Answer(Success)
  }

  /** The replies the site would give: one per quest step, the successive
      answers of get_invite_code, and the answer of write_invite_code. */
  datatype Client = Client(step: Step -> Reply, invites: seq<Reply>, exchange: Reply)

  datatype Call = Perform(step: Step) | GetInviteCode | WriteInviteCode(code: Option<string>)

  /** An update handed to the broker: `update_db("Zk1Labs", filter, fields)`. */
  datatype Event = Event(filter: Table.Fields, fields: Table.Fields)

  /** How a run ends: it returns a code or None, it raises out of the
      runner, or it never returns. */
  datatype End = Returned(result: Option<string>) | Raised | Hung

  datatype Run = Run(calls: seq<Call>, events: seq<Event>, end: End)

  /** The update setting one column of the row holding the key. */
  function Update(pk: string, c: Accounts.Column, v: Accounts.Value): Event {
    Event(Table.KeyFilter(pk), [(c, v)])
  }

  function SetFlag(pk: string, s: Step): Event {
    Update(pk, FlagColumn(s), Accounts.Bool(true))
  }

  /** A code as a column value; Python's None is Null. */
  function CodeValue(code: Option<string>): Accounts.Value {
    match code
    case Some(c) => Accounts.Str(c)
    case None => Accounts.Null
  }

  // ---------------------------------------------------------------------
  // The five steps

  /** Every pending step from position `i` up to (not including) `s` was accepted. */
  predicate ReachedFrom(a: Accounts.Account, client: Client, i: nat, s: Step) {
    forall t :: i <= Index(t) < Index(s) && !Done(a, t) ==> Ok(client.step(t))
  }

  datatype Progress = Progress(calls: seq<Call>, events: seq<Event>, failed: bool)

  /** The steps from position `i` on: a done step is skipped, a pending one
      is requested, and the first reply other than SUCCESS stops the run.
      Every request is a step request, and each accepted one is followed by
      one event setting its flag; a failed run ends with its refused
      request, which has no event. */
  function RunSteps(a: Accounts.Account, pk: string, client: Client, i: nat): (p: Progress)
    requires i <= 5
    ensures forall k :: 0 <= k < |p.calls| ==> p.calls[k].Perform?
    ensures |p.events| == if p.failed then |p.calls| - 1 else |p.calls|
    ensures forall k :: 0 <= k < |p.events| ==>
              Ok(client.step(p.calls[k].step)) && p.events[k] == SetFlag(pk, p.calls[k].step)
    ensures p.failed ==> !Ok(client.step(p.calls[|p.calls| - 1].step))
    decreases 5 - i
  {
    if i == 5 then Progress([], [], false)
    else
      var s := StepAt(i);
      var rest := RunSteps(a, pk, client, i + 1);
      if Done(a, s) then rest
      else if Ok(client.step(s)) then
        Progress([Perform(s)] + rest.calls, [SetFlag(pk, s)] + rest.events, rest.failed)
      else Progress([Perform(s)], [], true)
  }

  lemma OnlyStepAt(i: nat)
    requires i < 5
    ensures forall t :: Index(t) == i ==> t == StepAt(i)
  {
    forall t | Index(t) == i ensures t == StepAt(i) { IndexStepAt(t); }
  }

  /** A step is requested exactly when its flag is false and every pending
      step before it was accepted. */
  lemma {:induction false} RunStepsRequests(a: Accounts.Account, pk: string, client: Client, i: nat)
    requires i <= 5
    ensures forall s :: Perform(s) in RunSteps(a, pk, client, i).calls <==>
              i <= Index(s) && !Done(a, s) && ReachedFrom(a, client, i, s)
    decreases 5 - i
  {
    if i < 5 {
      var st := StepAt(i);
      var rest := RunSteps(a, pk, client, i + 1);
      var calls := RunSteps(a, pk, client, i).calls;
      RunStepsRequests(a, pk, client, i + 1);
      OnlyStepAt(i);
      if Done(a, st) {
        assert calls == rest.calls;
      } else if Ok(client.step(st)) {
        assert calls == [Perform(st)] + rest.calls;
      } else {
        assert calls == [Perform(st)];
      }
      forall s ensures Perform(s) in calls <==> i <= Index(s) && !Done(a, s) && ReachedFrom(a, client, i, s) {
        if Index(s) != i {
          ReachedStep(a, client, i, s);
        }
      }
    }
  }

  /** Past position `i`, a step is reached from `i` iff the step at `i` is
      done or accepted and the step is reached from `i + 1`. */
  lemma ReachedStep(a: Accounts.Account, client: Client, i: nat, s: Step)
    requires i < 5 && i != Index(s)
    ensures ReachedFrom(a, client, i, s) <==>
              (i > Index(s) || Done(a, StepAt(i)) || Ok(client.step(StepAt(i)))) && ReachedFrom(a, client, i + 1, s)
  {
    OnlyStepAt(i);
  }

  /** The requests of a run, as step positions, rise strictly and start at `i` or later. */
  predicate AscendingFrom(calls: seq<Call>, i: nat) {
    forall k, l :: 0 <= k < l < |calls| && calls[k].Perform? && calls[l].Perform? ==>
      i <= Index(calls[k].step) < Index(calls[l].step)
  }

  lemma AscendingCons(s: Step, rest: seq<Call>, i: nat)
    requires Index(s) == i
    requires forall k :: 0 <= k < |rest| ==> rest[k].Perform? && i + 1 <= Index(rest[k].step)
    requires AscendingFrom(rest, i + 1)
    ensures forall k :: 0 <= k < |[Perform(s)] + rest| ==> i <= Index(([Perform(s)] + rest)[k].step)
    ensures AscendingFrom([Perform(s)] + rest, i)
  {
    var calls := [Perform(s)] + rest;
    forall k | 0 <= k < |calls| ensures i <= Index(calls[k].step) {
      if k > 0 {
        assert calls[k] == rest[k - 1];
      }
    }
    forall k, l | 0 <= k < l < |calls| && calls[k].Perform? && calls[l].Perform?
      ensures i <= Index(calls[k].step) < Index(calls[l].step)
    {
      assert calls[l] == rest[l - 1];
      if k > 0 {
        assert calls[k] == rest[k - 1];
      }
    }
  }

  /** Requests go in the fixed step order. */
  lemma {:induction false} RunStepsInOrder(a: Accounts.Account, pk: string, client: Client, i: nat)
    requires i <= 5
    ensures forall k :: 0 <= k < |RunSteps(a, pk, client, i).calls| ==> i <= Index(RunSteps(a, pk, client, i).calls[k].step)
    ensures AscendingFrom(RunSteps(a, pk, client, i).calls, i)
    decreases 5 - i
  {
    if i < 5 {
      RunStepsInOrder(a, pk, client, i + 1);
      var s := StepAt(i);
      var rest := RunSteps(a, pk, client, i + 1).calls;
      var calls := RunSteps(a, pk, client, i).calls;
      if Done(a, s) {
        assert calls == rest;
      } else if Ok(client.step(s)) {
        assert calls == [Perform(s)] + rest;
        AscendingCons(s, rest, i);
      } else {
        assert calls == [Perform(s)];
        AscendingCons(s, [], i);
      }
    }
  }

  /** The steps fail exactly when some pending step is refused. */
  lemma {:induction false} RunStepsFailure(a: Accounts.Account, pk: string, client: Client, i: nat)
    requires i <= 5
    ensures RunSteps(a, pk, client, i).failed <==> exists s :: i <= Index(s) && !Done(a, s) && !Ok(client.step(s))
    decreases 5 - i
  {
    if i < 5 {
      RunStepsFailure(a, pk, client, i + 1);
      OnlyStepAt(i);
    }
  }

  // ---------------------------------------------------------------------
  // The code exchange

  /** The outcome of the seed's retry loop over get_invite_code: a
      non-empty code after some tries, an exception on some try, or (when
      every reply available is empty) a loop that never ends. */
  datatype Draw = Drawn(tries: nat, code: Option<string>) | Broken(tries: nat) | Endless

  /** The reply whose `data` is the code; None stands for JSON null. */
  function DataReply(code: Option<string>): Reply {
    match code
    case Some(c) => Answer(c)
    case None => NullAnswer
  }

  /** The loop stops at the first reply that is not the empty string: a
      non-empty code or null ends it with that value, an exception ends it
      by raising. */
  function DrawCode(invites: seq<Reply>): (d: Draw)
    ensures d.Drawn? ==> 0 < d.tries <= |invites| && invites[d.tries - 1] == DataReply(d.code) && d.code != Some("")
    ensures d.Broken? ==> 0 < d.tries <= |invites| && invites[d.tries - 1] == Fault
    ensures !d.Endless? ==> forall k :: 0 <= k < d.tries - 1 ==> invites[k] == Answer("")
    ensures d.Endless? <==> forall k :: 0 <= k < |invites| ==> invites[k] == Answer("")
    decreases |invites|
  {
    if |invites| == 0 then Endless
    else
      match invites[0]
      case Fault => Broken(1)
      case NullAnswer => Drawn(1, None)
      case Answer(c) =>
        if c != "" then Drawn(1, Some(c))
        else
          var d := DrawCode(invites[1..]);
          assert forall k :: 1 <= k < |invites| ==> invites[k] == invites[1..][k - 1];
          match d
          case Drawn(t, code) => Drawn(t + 1, code)
          case Broken(t) => Broken(t + 1)
          case Endless => Endless
  }

  function Repeat(c: Call, n: nat): (calls: seq<Call>)
    ensures |calls| == n && forall k :: 0 <= k < n ==> calls[k] == c
  {
    seq(n, _ => c)
  }

  /** Whether the account still takes part in the code exchange. */
  predicate Exchanging(a: Accounts.Account) {
    !a.usedCode && a.usedOrReceivedCode == NoCode
  }

  /** The code exchange after the steps. A seed (supplied code "0") draws a
      fresh code and records it; a dependent submits its supplied code and
      records it once the site accepts; an account that already exchanged
      returns the supplied code untouched. */
  function Exchange(a: Accounts.Account, pk: string, code: Option<string>, client: Client): (r: Run)
    ensures !Exchanging(a) ==> r == Run([], [], Returned(code))
    ensures r.end.Raised? ==> false
    ensures Exchanging(a) && code == Some(NoCode) ==>
              (r.end.Hung? <==> forall k :: 0 <= k < |client.invites| ==> client.invites[k] == Answer(""))
    ensures Exchanging(a) && code == Some(NoCode) && r.end == Returned(None) ==>
              || (r.events == [] && Fault in client.invites)
              || (r.events == [Update(pk, Accounts.UsedCode, Accounts.Bool(false)),
                               Update(pk, Accounts.UsedOrReceivedCode, Accounts.Null)]
                  && NullAnswer in client.invites)
    ensures Exchanging(a) && code == Some(NoCode) && r.end.Returned? && r.end.result.Some? ==>
              && r.end.result.value != ""
              && Answer(r.end.result.value) in client.invites
              && r.events == [Update(pk, Accounts.UsedCode, Accounts.Bool(false)),
                              Update(pk, Accounts.UsedOrReceivedCode, Accounts.Str(r.end.result.value))]
    ensures Exchanging(a) && code != Some(NoCode) ==>
              && r.calls == [WriteInviteCode(code)]
              && (r.events != [] <==> Ok(client.exchange))
              && (Ok(client.exchange) ==>
                    r.end == Returned(code)
                    && r.events == [Update(pk, Accounts.UsedCode, Accounts.Bool(true)),
                                    Update(pk, Accounts.UsedOrReceivedCode, CodeValue(code))])
              && (client.exchange == Fault ==> r.end == Returned(None))
              && (client.exchange != Fault && !Ok(client.exchange) ==> r.end.Hung?)
  {
    if !Exchanging(a) then Run([], [], Returned(code))
    else if code == Some(NoCode) then
      match DrawCode(client.invites)
      case Drawn(t, c) =>
        Run(Repeat(GetInviteCode, t),
            [Update(pk, Accounts.UsedCode, Accounts.Bool(false)),
             Update(pk, Accounts.UsedOrReceivedCode, CodeValue(c))],
            Returned(c))
      case Broken(t) => Run(Repeat(GetInviteCode, t), [], Returned(None))
      case Endless => Run(Repeat(GetInviteCode, |client.invites|), [], Hung)
    else
      var calls := [WriteInviteCode(code)];
      if client.exchange == Fault then Run(calls, [], Returned(None))
      else if Ok(client.exchange) then
        Run(calls,
            [Update(pk, Accounts.UsedCode, Accounts.Bool(true)),
             Update(pk, Accounts.UsedOrReceivedCode, CodeValue(code))],
            Returned(code))
      else Run(calls, [], Hung)
  }

  // ---------------------------------------------------------------------
  // process_wallet

  /** The checks made before the guarded section: the key must be 66
      characters once prefixed, and the stored browser identity must name an
      operating system and a version. Failing any of them raises out of the
      runner. */
  predicate Launchable(a: Accounts.Account) {
    && Accounts.ValidKey(a.privateKey)
    && Impersonation.OsFromStr(a.osHeader).Some?
    && Impersonation.VersionFromStr(a.chromeVersion).Some?
  }

  /** One run of `process_wallet` on the account's record with the supplied
      code (Some("0") for a seed, the seed's result for a dependent). */
  function ProcessWallet(a: Accounts.Account, code: Option<string>, client: Client): (r: Run)
    ensures Complete(a) ==> r == Run([], [], Returned(None))
    ensures r.end.Raised? <==> !Complete(a) && !Launchable(a)
    ensures r.end.Raised? ==> r.calls == [] && r.events == []
  {
    if Complete(a) then Run([], [], Returned(None))
    else if !Launchable(a) then Run([], [], Raised)
    else
      var pk := Accounts.NormalizeKey(a.privateKey);
      var p := RunSteps(a, pk, client, 0);
      if p.failed then Run(p.calls, p.events, Returned(None))
      else
        var x := Exchange(a, pk, code, client);
        Run(p.calls + x.calls, p.events + x.events, x.end)
  }

  // ---------------------------------------------------------------------
  // What a run does, step by step

  predicate IsSetFlag(pk: string, e: Event) {
    exists s :: e == SetFlag(pk, s)
  }

  /** The steps' progress and the exchange compose into the run. */
  lemma ProcessWalletShape(a: Accounts.Account, code: Option<string>, client: Client)
    requires Launchable(a) && !Complete(a)
    ensures var pk := Accounts.NormalizeKey(a.privateKey);
      var p := RunSteps(a, pk, client, 0);
      var r := ProcessWallet(a, code, client);
      && (p.failed ==> r == Run(p.calls, p.events, Returned(None)))
      && (!p.failed ==>
            var x := Exchange(a, pk, code, client);
            r == Run(p.calls + x.calls, p.events + x.events, x.end))
  {
  }

  /** Every event of the steps sets a step flag of the wallet. */
  lemma StepsSetFlags(a: Accounts.Account, pk: string, client: Client)
    ensures forall k :: 0 <= k < |RunSteps(a, pk, client, 0).events| ==>
              IsSetFlag(pk, RunSteps(a, pk, client, 0).events[k])
  {
    var p := RunSteps(a, pk, client, 0);
    forall k | 0 <= k < |p.events| ensures IsSetFlag(pk, p.events[k]) {
      assert p.events[k] == SetFlag(pk, p.calls[k].step);
    }
  }

  /** The exchange makes no step request and sets no step flag. */
  lemma ExchangeTouchesNoStep(a: Accounts.Account, pk: string, code: Option<string>, client: Client)
    ensures var x := Exchange(a, pk, code, client);
      && (forall k :: 0 <= k < |x.calls| ==> !x.calls[k].Perform?)
      && (forall k :: 0 <= k < |x.events| ==> !IsSetFlag(pk, x.events[k]))
  {
    var x := Exchange(a, pk, code, client);
    forall k | 0 <= k < |x.events| ensures !IsSetFlag(pk, x.events[k]) {
      var c := x.events[k].fields[0].0;
      assert c == Accounts.UsedCode || c == Accounts.UsedOrReceivedCode;
    }
  }

  /** Every exchange event updates, on the row holding the key, either
      `used_code` with a boolean or `used_or_received_code` with the code. */
  lemma ExchangeEventsShape(a: Accounts.Account, pk: string, code: Option<string>, client: Client)
    ensures var x := Exchange(a, pk, code, client);
      forall k :: 0 <= k < |x.events| ==>
        || (exists b :: x.events[k] == Update(pk, Accounts.UsedCode, Accounts.Bool(b)))
        || (exists v :: x.events[k] == Update(pk, Accounts.UsedOrReceivedCode, v) && !v.Bool?)
  {
    var x := Exchange(a, pk, code, client);
    if Exchanging(a) && code == Some(NoCode) && x.end.Returned? && x.end.result.Some? {
      assert x.events[0] == Update(pk, Accounts.UsedCode, Accounts.Bool(false));
      assert x.events[1] == Update(pk, Accounts.UsedOrReceivedCode, Accounts.Str(x.end.result.value));
    } else if Exchanging(a) && code != Some(NoCode) && Ok(client.exchange) {
      assert x.events[0] == Update(pk, Accounts.UsedCode, Accounts.Bool(true));
      assert x.events[1] == Update(pk, Accounts.UsedOrReceivedCode, CodeValue(code));
    }
  }

  /** A step is requested exactly when its flag is false and every pending
      step before it was accepted. */
  lemma ProcessWalletRequests(a: Accounts.Account, code: Option<string>, client: Client)
    requires Launchable(a) && !Complete(a)
    ensures forall s :: Perform(s) in ProcessWallet(a, code, client).calls <==>
              !Done(a, s) && ReachedFrom(a, client, 0, s)
  {
    var pk := Accounts.NormalizeKey(a.privateKey);
    var p := RunSteps(a, pk, client, 0);
    var r := ProcessWallet(a, code, client);
    ProcessWalletShape(a, code, client);
    RunStepsRequests(a, pk, client, 0);
    if !p.failed {
      var x := Exchange(a, pk, code, client);
      ExchangeTouchesNoStep(a, pk, code, client);
      forall s ensures Perform(s) in r.calls <==> Perform(s) in p.calls {
        assert r.calls == p.calls + x.calls;
      }
    }
  }

  /** A step whose flag is already true is never requested. */
  lemma DoneStepsAreSkipped(a: Accounts.Account, code: Option<string>, client: Client)
    ensures forall s :: Done(a, s) ==> Perform(s) !in ProcessWallet(a, code, client).calls
  {
    if Launchable(a) && !Complete(a) {
      ProcessWalletRequests(a, code, client);
    }
  }

  /** A step's flag is set exactly when the step is requested and the site
      accepts it. */
  lemma ProcessWalletFlags(a: Accounts.Account, code: Option<string>, client: Client)
    requires Launchable(a) && !Complete(a)
    ensures var pk := Accounts.NormalizeKey(a.privateKey);
      forall s :: SetFlag(pk, s) in ProcessWallet(a, code, client).events <==>
        !Done(a, s) && ReachedFrom(a, client, 0, s) && Ok(client.step(s))
  {
    var pk := Accounts.NormalizeKey(a.privateKey);
    var p := RunSteps(a, pk, client, 0);
    var r := ProcessWallet(a, code, client);
    ProcessWalletShape(a, code, client);
    RunStepsRequests(a, pk, client, 0);
    assert WellFormed(pk, client, p);
    forall s ensures SetFlag(pk, s) in r.events <==> Perform(s) in p.calls && Ok(client.step(s)) {
      StepEventIff(pk, client, p, s);
      if !p.failed {
        var x := Exchange(a, pk, code, client);
        ExchangeTouchesNoStep(a, pk, code, client);
        assert r.events == p.events + x.events;
      }
    }
  }

  /** The shape RunSteps promises: step requests, one flag event per
      accepted request, and a refused last request when it fails. */
  predicate WellFormed(pk: string, client: Client, p: Progress) {
    && (forall k :: 0 <= k < |p.calls| ==> p.calls[k].Perform?)
    && |p.events| == (if p.failed then |p.calls| - 1 else |p.calls|)
    && (forall k :: 0 <= k < |p.events| ==>
          Ok(client.step(p.calls[k].step)) && p.events[k] == SetFlag(pk, p.calls[k].step))
    && (p.failed ==> !Ok(client.step(p.calls[|p.calls| - 1].step)))
  }

  /** Within the steps, a flag event is emitted exactly for the accepted requests. */
  lemma StepEventIff(pk: string, client: Client, p: Progress, s: Step)
    requires WellFormed(pk, client, p)
    ensures SetFlag(pk, s) in p.events <==> Perform(s) in p.calls && Ok(client.step(s))
  {
    if SetFlag(pk, s) in p.events {
      var k :| 0 <= k < |p.events| && p.events[k] == SetFlag(pk, s);
      FlagColumnInjective(s, p.calls[k].step);
      assert p.calls[k] == Perform(s);
    }
    if Perform(s) in p.calls && Ok(client.step(s)) {
      var k :| 0 <= k < |p.calls| && p.calls[k] == Perform(s);
      assert k < |p.events|;
    }
  }

  /** Fail fast: once a pending step is refused, the run returns None, makes
      no further request (in particular no code exchange) and emits only the
      flag events of the steps accepted before. */
  lemma ProcessWalletFailFast(a: Accounts.Account, code: Option<string>, client: Client)
    requires Launchable(a) && !Complete(a)
    requires exists s :: !Done(a, s) && !Ok(client.step(s))
    ensures var r := ProcessWallet(a, code, client);
      && r.end == Returned(None)
      && |r.calls| > 0
      && (forall k :: 0 <= k < |r.calls| ==> r.calls[k].Perform?)
      && !Ok(client.step(r.calls[|r.calls| - 1].step))
      && |r.events| == |r.calls| - 1
      && (forall k :: 0 <= k < |r.events| ==> IsSetFlag(Accounts.NormalizeKey(a.privateKey), r.events[k]))
  {
    var pk := Accounts.NormalizeKey(a.privateKey);
    ProcessWalletShape(a, code, client);
    RunStepsFailure(a, pk, client, 0);
    var p := RunSteps(a, pk, client, 0);
    forall k | 0 <= k < |p.events| ensures IsSetFlag(pk, p.events[k]) {
      assert p.events[k] == SetFlag(pk, p.calls[k].step);
    }
  }

  /** How a seed's draw ends the run: with the code it drew (None for a
      null), with None after an exception, or never. */
  function DrawEnd(d: Draw): End {
    match d
    case Drawn(_, c) => Returned(c)
    case Broken(_) => Returned(None)
    case Endless => Hung
  }

  /** A seed whose steps all pass: it returns what its first non-empty
      get_invite_code answer holds (None for a null), recording
      `used_code = False` and then that code; an exception while drawing
      returns None with no exchange event; if every available answer is
      empty it never returns. */
  lemma SeedRun(a: Accounts.Account, client: Client)
    requires Launchable(a) && !Complete(a) && Exchanging(a)
    requires forall s :: !Done(a, s) ==> Ok(client.step(s))
    ensures var r := ProcessWallet(a, Some(NoCode), client);
      var pk := Accounts.NormalizeKey(a.privateKey);
      var d := DrawCode(client.invites);
      && r.end == DrawEnd(d)
      && (r.end.Hung? <==> forall k :: 0 <= k < |client.invites| ==> client.invites[k] == Answer(""))
      && (!d.Drawn? ==> forall k :: 0 <= k < |r.events| ==> IsSetFlag(pk, r.events[k]))
      && (d.Drawn? ==>
            && |r.events| >= 2
            && r.events[|r.events| - 2..] == [Update(pk, Accounts.UsedCode, Accounts.Bool(false)),
                                              Update(pk, Accounts.UsedOrReceivedCode, CodeValue(d.code))]
            && forall k :: 0 <= k < |r.events| - 2 ==> IsSetFlag(pk, r.events[k]))
  {
    var pk := Accounts.NormalizeKey(a.privateKey);
    ProcessWalletShape(a, Some(NoCode), client);
    RunStepsFailure(a, pk, client, 0);
    var p := RunSteps(a, pk, client, 0);
    var x := Exchange(a, pk, Some(NoCode), client);
    var r := ProcessWallet(a, Some(NoCode), client);
    assert r.events == p.events + x.events;
    forall k | 0 <= k < |p.events| ensures IsSetFlag(pk, r.events[k]) {
      assert r.events[k] == p.events[k] == SetFlag(pk, p.calls[k].step);
    }
    if DrawCode(client.invites).Drawn? {
      assert r.events[|r.events| - 2..] == x.events;
    }
  }

  /** A dependent whose steps all pass submits its supplied code once; on
      SUCCESS it records `used_code = True` and then the code and returns
      the code; on an exception it returns None with no exchange event; on
      any other answer, null included, it waits forever, since the answer
      is never asked again. */
  lemma DependentRun(a: Accounts.Account, code: Option<string>, client: Client)
    requires Launchable(a) && !Complete(a) && Exchanging(a) && code != Some(NoCode)
    requires forall s :: !Done(a, s) ==> Ok(client.step(s))
    ensures var r := ProcessWallet(a, code, client);
      var pk := Accounts.NormalizeKey(a.privateKey);
      && |r.calls| > 0 && r.calls[|r.calls| - 1] == WriteInviteCode(code)
      && (Ok(client.exchange) ==>
            && r.end == Returned(code)
            && |r.events| >= 2
            && r.events[|r.events| - 2..] == [Update(pk, Accounts.UsedCode, Accounts.Bool(true)),
                                              Update(pk, Accounts.UsedOrReceivedCode, CodeValue(code))])
      && (!Ok(client.exchange) ==> forall k :: 0 <= k < |r.events| ==> IsSetFlag(pk, r.events[k]))
      && (client.exchange == Fault ==> r.end == Returned(None))
      && (client.exchange != Fault && !Ok(client.exchange) ==> r.end.Hung?)
  {
    var pk := Accounts.NormalizeKey(a.privateKey);
    ProcessWalletShape(a, code, client);
    RunStepsFailure(a, pk, client, 0);
    var p := RunSteps(a, pk, client, 0);
    var x := Exchange(a, pk, code, client);
    var r := ProcessWallet(a, code, client);
    assert r.events == p.events + x.events;
    StepsSetFlags(a, pk, client);
    if Ok(client.exchange) {
      assert r.events[|r.events| - 2..] == x.events;
    }
  }

  /** An account that already exchanged a code (or holds one) runs its
      pending steps and returns the supplied code, with no exchange call
      and no exchange event. */
  lemma NoExchangeRun(a: Accounts.Account, code: Option<string>, client: Client)
    requires Launchable(a) && !Complete(a) && !Exchanging(a)
    requires forall s :: !Done(a, s) ==> Ok(client.step(s))
    ensures var r := ProcessWallet(a, code, client);
      && r.end == Returned(code)
      && (forall k :: 0 <= k < |r.calls| ==> r.calls[k].Perform?)
      && |r.events| == |r.calls|
  {
    var pk := Accounts.NormalizeKey(a.privateKey);
    ProcessWalletShape(a, code, client);
    RunStepsFailure(a, pk, client, 0);
    var p := RunSteps(a, pk, client, 0);
    assert ProcessWallet(a, code, client).calls == p.calls + [];
  }
}
