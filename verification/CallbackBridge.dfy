/** The bridge from asynchronous callbacks to a blocked caller: a pending key with a time to live, and a
    publish/subscribe channel. Callers and publishers interleave between their Redis commands. */
module CallbackBridge {
  import opened CallbackNames

  const KEY_TTL := 35000
  const WAIT_TIMEOUT := 30000

  /** The course of one forwardAndWait. `since` is the length of the channel log at the subscription. */
  datatype Phase =
    | Forwarding
    | Waiting(deadline: int)
    | Subscribed(deadline: int, since: nat)
    | Got(deadline: int, since: nat, body: string)
    | TimedOut(deadline: int, since: nat)
    | Failed

  /** `keyDeleted` is a history variable: some DEL hit the caller's key after it registered. */
  datatype Caller = Caller(route: string, txn: string, registeredAt: int, phase: Phase, keyDeleted: bool)

  datatype Progress = Checking | Refused | Publishing | Deleting | Finished

  datatype Publisher = Publisher(route: string, txn: string, body: string, progress: Progress)

  /** A message on a channel, with the position of the publisher that sent it. */
  datatype Published = Published(channel: string, body: string, at: int, sender: nat)

  /** `registered` and `accepted` are history variables counting SETs and successful EXISTS checks per key. */
  datatype State = State(
    now: int, keys: map<string, int>, log: seq<Published>, callers: seq<Caller>, publishers: seq<Publisher>,
    registered: multiset<string>, accepted: multiset<string>)

  datatype Label =
    | Tick(to: int)
    | Register(route: string, txn: string)
    | ForwardFails(c: nat)
    | StartWait(c: nat)
    | Subscribe(c: nat)
    | Receive(c: nat)
    | Expire(c: nat)
    | Arrive(route: string, txn: string, body: string)
    | Check(p: nat)
    | Publish(p: nat)
    | Delete(p: nat)

  function Key(p: Publisher): string {
    PendingKey(p.route, p.txn)
  }

  function Channel(c: Caller): string {
    CallbackChannel(c.route, c.txn)
  }

  predicate Alive(s: State, key: string) {
    key in s.keys && s.now < s.keys[key]
  }

  /** The position of the first message on a channel at or after a position; the length when there is none. */
  function FirstOn(log: seq<Published>, channel: string, since: nat): (k: nat)
    ensures since <= |log| ==> since <= k <= |log|
    ensures k < |log| ==> since <= k && log[k].channel == channel
    ensures forall i :: since <= i < k && i < |log| ==> log[i].channel != channel
    decreases |log| - since
  {
    if since >= |log| || log[since].channel == channel then (if since >= |log| then |log| else since)
    else FirstOn(log, channel, since + 1)
  }

  function SetPhase(s: State, c: nat, phase: Phase): State
    requires c < |s.callers|
  {
    s.(callers := s.callers[c := s.callers[c].(phase := phase)])
  }

  function SetProgress(s: State, p: nat, progress: Progress): State
    requires p < |s.publishers|
  {
    s.(publishers := s.publishers[p := s.publishers[p].(progress := progress)])
  }

  function MarkDeleted(callers: seq<Caller>, key: string): (r: seq<Caller>)
    ensures |r| == |callers|
    ensures forall i :: 0 <= i < |r| ==>
      r[i] == if PendingKey(callers[i].route, callers[i].txn) == key then callers[i].(keyDeleted := true) else callers[i]
  {
    seq(|callers|, i requires 0 <= i < |callers| =>
      if PendingKey(callers[i].route, callers[i].txn) == key then callers[i].(keyDeleted := true) else callers[i])
  }

  /** One step. A label that is not enabled changes nothing. When a message is there and the deadline has
      passed, the blocked select may go either way. */
  function Next(s: State, l: Label): State {
    match l
    case Tick(to) => if to >= s.now then s.(now := to) else s
    case Register(route, txn) =>
      var key := PendingKey(route, txn);
      s.(keys := s.keys[key := s.now + KEY_TTL],
         callers := s.callers + [Caller(route, txn, s.now, Forwarding, false)],
         registered := s.registered + multiset{key})
    case ForwardFails(c) =>
      if c < |s.callers| && s.callers[c].phase.Forwarding? then SetPhase(s, c, Failed) else s
    case StartWait(c) =>
      if c < |s.callers| && s.callers[c].phase.Forwarding? then SetPhase(s, c, Waiting(s.now + WAIT_TIMEOUT)) else s
    case Subscribe(c) =>
      if c < |s.callers| && s.callers[c].phase.Waiting?
      then SetPhase(s, c, Subscribed(s.callers[c].phase.deadline, |s.log|)) else s
    case Receive(c) =>
      if c < |s.callers| && s.callers[c].phase.Subscribed? then
        var phase := s.callers[c].phase;
        var k := FirstOn(s.log, Channel(s.callers[c]), phase.since);
        if k < |s.log| then SetPhase(s, c, Got(phase.deadline, phase.since, s.log[k].body)) else s
      else s
    case Expire(c) =>
      if c < |s.callers| && s.callers[c].phase.Subscribed? && s.callers[c].phase.deadline <= s.now
      then SetPhase(s, c, TimedOut(s.callers[c].phase.deadline, s.callers[c].phase.since)) else s
    case Arrive(route, txn, body) =>
      s.(publishers := s.publishers + [Publisher(route, txn, body, Checking)])
    case Check(p) =>
      if p < |s.publishers| && s.publishers[p].progress.Checking? then
        var key := Key(s.publishers[p]);
        if Alive(s, key) then SetProgress(s, p, Publishing).(accepted := s.accepted + multiset{key})
        else SetProgress(s, p, Refused)
      else s
    case Publish(p) =>
      if p < |s.publishers| && s.publishers[p].progress.Publishing? then
        var m := s.publishers[p];
        SetProgress(s, p, Deleting).(log := s.log + [Published(CallbackChannel(m.route, m.txn), m.body, s.now, p)])
      else s
    case Delete(p) =>
      if p < |s.publishers| && s.publishers[p].progress.Deleting? then
        var key := Key(s.publishers[p]);
        SetProgress(s, p, Finished).(keys := s.keys - {key}, callers := MarkDeleted(s.callers, key))
      else s
  }

  function Initial(): State {
    State(0, map[], [], [], [], multiset{}, multiset{})
  }

  function Run(run: seq<Label>): State {
    if run == [] then Initial() else Next(Run(run[..|run| - 1]), run[|run| - 1])
  }

  ghost predicate Along(run: seq<Label>, condition: (State, Label) -> bool) {
    run == [] || (Along(run[..|run| - 1], condition) && condition(Run(run[..|run| - 1]), run[|run| - 1]))
  }

  // ---- Exact delivery ----

  /** A blocked caller reacts before anything else happens to it: the clock does not reach its deadline while a
      message waits for it, and nothing is published to it after its deadline. */
  ghost predicate Prompt(s: State, l: Label) {
    forall c :: 0 <= c < |s.callers| && s.callers[c].phase.Subscribed? ==>
      && (l.Tick? && l.to >= s.now && HasMessage(s, c) ==> l.to < s.callers[c].phase.deadline)
      && (l.Publish? && PublishesOn(s, l.p, Channel(s.callers[c])) ==> s.now < s.callers[c].phase.deadline)
  }

  /** Publisher p is about to publish on this channel. */
  predicate PublishesOn(s: State, p: nat, channel: string) {
    p < |s.publishers| && s.publishers[p].progress.Publishing? &&
    CallbackChannel(s.publishers[p].route, s.publishers[p].txn) == channel
  }

  ghost predicate HasMessage(s: State, c: nat)
    requires c < |s.callers| && s.callers[c].phase.Subscribed?
  {
    FirstOn(s.log, Channel(s.callers[c]), s.callers[c].phase.since) < |s.log|
  }

  /** The first message on the caller's channel after its subscription, before its deadline. */
  ghost predicate FirstInWindow(log: seq<Published>, channel: string, since: nat, deadline: int, k: nat) {
    && since <= k < |log| && log[k].channel == channel && log[k].at < deadline
    && (forall i :: since <= i < k ==> log[i].channel != channel)
  }

  ghost predicate LogOk(s: State) {
    && (forall i :: 0 <= i < |s.log| ==>
         && s.log[i].at <= s.now
         && s.log[i].sender < |s.publishers|
         && s.log[i].body == s.publishers[s.log[i].sender].body
         && s.log[i].channel == CallbackChannel(s.publishers[s.log[i].sender].route, s.publishers[s.log[i].sender].txn))
  }

  /** What holds of a caller in every run. */
  ghost predicate CallerOk(s: State, c: Caller) {
    match c.phase
    case Subscribed(_, since) => since <= |s.log|
    case Got(_, since, body) =>
      since <= |s.log| && var k := FirstOn(s.log, Channel(c), since); k < |s.log| && body == s.log[k].body
    case TimedOut(deadline, since) => since <= |s.log| && deadline <= s.now
    case _ => true
  }

  /** What holds of a caller in a prompt run. */
  ghost predicate PromptOk(s: State, c: Caller) {
    match c.phase
    case Subscribed(deadline, since) =>
      FirstOn(s.log, Channel(c), since) < |s.log| ==>
        s.now < deadline && FirstInWindow(s.log, Channel(c), since, deadline, FirstOn(s.log, Channel(c), since))
    case Got(deadline, since, _) =>
      FirstInWindow(s.log, Channel(c), since, deadline, FirstOn(s.log, Channel(c), since))
    case TimedOut(deadline, since) =>
      forall k: nat :: !FirstInWindow(s.log, Channel(c), since, deadline, k)
    case _ => true
  }

  ghost predicate Inv(s: State) {
    LogOk(s) && forall c :: 0 <= c < |s.callers| ==> CallerOk(s, s.callers[c])
  }

  ghost predicate PromptInv(s: State) {
    Inv(s) && forall c :: 0 <= c < |s.callers| ==> PromptOk(s, s.callers[c])
  }

  /** Appending to the log does not move a first message that is already there. */
  lemma FirstStable(log: seq<Published>, m: Published, channel: string, since: nat)
    requires since <= |log|
    ensures var k := FirstOn(log, channel, since);
      FirstOn(log + [m], channel, since) ==
        if k < |log| then k else if m.channel == channel then |log| else |log| + 1
  {
    var k := FirstOn(log, channel, since);
    assert forall i :: 0 <= i < |log| ==> (log + [m])[i] == log[i];
    FirstIs(log + [m], channel, since, if k < |log| then k else if m.channel == channel then |log| else |log| + 1);
  }

  lemma FirstIs(log: seq<Published>, channel: string, since: nat, k: nat)
    requires since <= k <= |log|
    requires k < |log| ==> log[k].channel == channel
    requires forall i :: since <= i < k ==> log[i].channel != channel
    ensures FirstOn(log, channel, since) == k
  {
    var j := FirstOn(log, channel, since);
    assert j < |log| ==> log[j].channel == channel;
  }

  lemma PublishKeepsCaller(s: State, p: nat, c: Caller)
    requires Inv(s) && CallerOk(s, c)
    ensures CallerOk(Next(s, Publish(p)), c)
    ensures PromptOk(s, c) && (c.phase.Subscribed? && PublishesOn(s, p, Channel(c)) ==> s.now < c.phase.deadline) ==>
      PromptOk(Next(s, Publish(p)), c)
  {
    var s' := Next(s, Publish(p));
    if s'.log != s.log {
      var m := s'.log[|s.log|];
      assert s'.log == s.log + [m];
      if c.phase.Subscribed? || c.phase.Got? || c.phase.TimedOut? {
        FirstStable(s.log, m, Channel(c), c.phase.since);
      }
      if c.phase.TimedOut? && PromptOk(s, c) {
        forall k: nat ensures !FirstInWindow(s'.log, Channel(c), c.phase.since, c.phase.deadline, k) {
          assert k < |s.log| ==> s'.log[k] == s.log[k];
          if FirstInWindow(s'.log, Channel(c), c.phase.since, c.phase.deadline, k) && k < |s.log| {
            assert forall i :: c.phase.since <= i < k ==> s'.log[i] == s.log[i];
            assert FirstInWindow(s.log, Channel(c), c.phase.since, c.phase.deadline, k);
          }
        }
      }
    }
  }

  lemma NextKeepsInv(s: State, l: Label)
    requires Inv(s)
    ensures Inv(Next(s, l))
  {
    NextKeepsLog(s, l);
    var s' := Next(s, l);
    forall c | 0 <= c < |s'.callers| ensures CallerOk(s', s'.callers[c]) {
      if l.Publish? {
        PublishKeepsCaller(s, l.p, s.callers[c]);
      } else {
        StepKeepsCallerOk(s, l, c);
      }
    }
  }

  lemma NextKeepsLog(s: State, l: Label)
    requires LogOk(s)
    ensures LogOk(Next(s, l))
  {
  }

  lemma StepKeepsCallerOk(s: State, l: Label, c: nat)
    requires Inv(s) && !l.Publish? && c < |Next(s, l).callers|
    ensures CallerOk(Next(s, l), Next(s, l).callers[c])
  {
    var s' := Next(s, l);
    assert s'.log == s.log && s.now <= s'.now;
    if c < |s.callers| {
      assert CallerOk(s, s.callers[c]);
      if s'.callers[c].phase == s.callers[c].phase {
        NextKeepsNames(s, l, c);
        SameCallerOk(s, s', s.callers[c], s'.callers[c]);
      }
    }
  }

  lemma NextKeepsNames(s: State, l: Label, c: nat)
    requires c < |s.callers|
    ensures c < |Next(s, l).callers|
    ensures Next(s, l).callers[c].route == s.callers[c].route && Next(s, l).callers[c].txn == s.callers[c].txn
  {
  }

  lemma SameCallerOk(s: State, s': State, c: Caller, c': Caller)
    requires CallerOk(s, c) && s'.log == s.log && s.now <= s'.now
    requires c'.phase == c.phase && c'.route == c.route && c'.txn == c.txn
    ensures CallerOk(s', c')
  {
  }

  /** A caller whose phase and channel log did not change keeps its window facts as time passes. */
  lemma SameView(s: State, s': State, c: Caller, c': Caller)
    requires PromptOk(s, c) && s'.log == s.log && s.now <= s'.now
    requires c'.phase == c.phase && c'.route == c.route && c'.txn == c.txn
    requires c.phase.Subscribed? && FirstOn(s.log, Channel(c), c.phase.since) < |s.log| ==> s'.now < c.phase.deadline
    ensures PromptOk(s', c')
  {
    assert Channel(c') == Channel(c);
    if c.phase.TimedOut? {
      forall k: nat ensures !FirstInWindow(s'.log, Channel(c'), c'.phase.since, c'.phase.deadline, k) {
        assert !FirstInWindow(s.log, Channel(c), c.phase.since, c.phase.deadline, k);
      }
    }
  }

  /** Steps other than a publish, seen by one caller. */
  lemma StepKeepsCaller(s: State, l: Label, c: nat)
    requires PromptInv(s) && Prompt(s, l) && !l.Publish? && c < |s.callers|
    ensures PromptOk(Next(s, l), Next(s, l).callers[c])
  {
    var s' := Next(s, l);
    assert PromptOk(s, s.callers[c]) && CallerOk(s, s.callers[c]);
    if s'.callers[c].phase == s.callers[c].phase {
      StepKeepsView(s, l, c);
      SameView(s, s', s.callers[c], s'.callers[c]);
    } else if l.Subscribe? {
      SubscribeSeesNothing(s, c);
    } else if l.Expire? {
      NoneInWindow(s, s.callers[c]);
    }
  }

  lemma SubscribeSeesNothing(s: State, c: nat)
    requires c < |s.callers| && s.callers[c].phase.Waiting?
    ensures var s' := Next(s, Subscribe(c)); PromptOk(s', s'.callers[c])
  {
    FirstIs(s.log, Channel(s.callers[c]), |s.log|, |s.log|);
  }

  lemma StepKeepsView(s: State, l: Label, c: nat)
    requires PromptInv(s) && Prompt(s, l) && !l.Publish? && c < |s.callers|
    ensures var s' := Next(s, l);
      && c < |s'.callers| && s'.log == s.log && s.now <= s'.now
      && s'.callers[c].route == s.callers[c].route && s'.callers[c].txn == s.callers[c].txn
      && (s.callers[c].phase.Subscribed? && HasMessage(s, c) ==> s'.now < s.callers[c].phase.deadline)
  {
    assert PromptOk(s, s.callers[c]);
  }

  lemma NoneInWindow(s: State, c: Caller)
    requires c.phase.Subscribed? && FirstOn(s.log, Channel(c), c.phase.since) >= |s.log|
    ensures forall k: nat :: !FirstInWindow(s.log, Channel(c), c.phase.since, c.phase.deadline, k)
  {
  }

  lemma NextKeepsPrompt(s: State, l: Label)
    requires PromptInv(s) && Prompt(s, l)
    ensures PromptInv(Next(s, l))
  {
    NextKeepsInv(s, l);
    var s' := Next(s, l);
    if l.Publish? {
      assert s'.callers == s.callers;
      forall c | 0 <= c < |s.callers| ensures PromptOk(s', s'.callers[c]) {
        PublishKeepsCaller(s, l.p, s.callers[c]);
      }
    } else {
      forall c | 0 <= c < |s'.callers| ensures PromptOk(s', s'.callers[c]) {
        if c < |s.callers| {
          StepKeepsCaller(s, l, c);
        }
      }
    }
  }

  lemma {:induction false} RunKeepsInv(run: seq<Label>)
    ensures Inv(Run(run))
  {
    if run != [] {
      RunKeepsInv(run[..|run| - 1]);
      NextKeepsInv(Run(run[..|run| - 1]), run[|run| - 1]);
    }
  }

  lemma {:induction false} RunKeepsPrompt(run: seq<Label>)
    requires Along(run, (s, l) => Prompt(s, l))
    ensures PromptInv(Run(run))
  {
    if run != [] {
      RunKeepsPrompt(run[..|run| - 1]);
      NextKeepsPrompt(Run(run[..|run| - 1]), run[|run| - 1]);
    }
  }

  /** Whatever the scheduling, a caller that returns a body returns the first message published on its channel
      after its subscription, and that message was sent for its own route and transaction. */
  lemma DeliveredIsOwnFirst(run: seq<Label>, c: nat)
    requires c < |Run(run).callers| && Run(run).callers[c].phase.Got?
    requires Plain(Run(run).callers[c].route)
    requires forall p :: 0 <= p < |Run(run).publishers| ==> Plain(Run(run).publishers[p].route)
    ensures var s := Run(run);
      var caller := s.callers[c];
      var k := FirstOn(s.log, Channel(caller), caller.phase.since);
      && k < |s.log|
      && caller.phase.body == s.log[k].body
      && s.log[k].sender < |s.publishers|
      && var from := s.publishers[s.log[k].sender];
         from.route == caller.route && from.txn == caller.txn && from.body == caller.phase.body
  {
    RunKeepsInv(run);
    var s := Run(run);
    var caller := s.callers[c];
    var k := FirstOn(s.log, Channel(caller), caller.phase.since);
    assert CallerOk(s, caller);
    var from := s.publishers[s.log[k].sender];
    NamesInjective(from.route, from.txn, caller.route, caller.txn);
  }

  /** Delivery is not guaranteed: a callback handled between Register and the subscription is published to
      nobody, and the caller times out although its callback arrived. */
  lemma EarlyCallbackLost() returns (run: seq<Label>)
    ensures Along(run, (s, l) => Prompt(s, l))
    ensures var s := Run(run);
      |s.callers| == 1 && s.callers[0].phase.TimedOut? && |s.log| == 1 && s.log[0].channel == Channel(s.callers[0])
  {
    run := LateSubscription();
    var caller := Run(run).callers[0];
    var s;
    FirstIs(Run(run).log, Channel(caller), 1, 1);
    run, s := Step(run, Tick(30000));
    assert s.callers == [caller] && |s.log| == 1 && s.now == 30000;
    run, s := Step(run, Expire(0));
    assert s.callers == [caller.(phase := TimedOut(30000, 1))];
  }

  lemma LateSubscription() returns (run: seq<Label>)
    ensures Along(run, (s, l) => Prompt(s, l))
    ensures var s := Run(run);
      && s.now == 0
      && s.callers == [Caller("init", "t", 0, Subscribed(30000, 1), false)]
      && s.log == [Published(CallbackChannel("init", "t"), "b", 0, 0)]
  {
    var caller := Caller("init", "t", 0, Forwarding, false);
    var s;
    run := EarlyCallback();
    run, s := Step(run, StartWait(0));
    assert s.callers == [caller.(phase := Waiting(30000))];
    run, s := Step(run, Subscribe(0));
  }

  lemma EarlyCallback() returns (run: seq<Label>)
    ensures Along(run, (s, l) => Prompt(s, l))
    ensures var s := Run(run);
      && s.now == 0
      && s.callers == [Caller("init", "t", 0, Forwarding, false)]
      && s.log == [Published(CallbackChannel("init", "t"), "b", 0, 0)]
  {
    var key := PendingKey("init", "t");
    var sender := Publisher("init", "t", "b", Checking);
    var caller := Caller("init", "t", 0, Forwarding, false);
    var s;
    run, s := Step([], Register("init", "t"));
    assert s == State(0, map[key := 35000], [], [caller], [], multiset{key}, multiset{});
    run, s := Step(run, Arrive("init", "t", "b"));
    assert s == State(0, map[key := 35000], [], [caller], [sender], multiset{key}, multiset{});
    run, s := Step(run, Check(0));
    assert s == State(0, map[key := 35000], [], [caller], [sender.(progress := Publishing)], multiset{key}, multiset{key});
    run, s := Step(run, Publish(0));
  }

  lemma Step(run: seq<Label>, l: Label) returns (longer: seq<Label>, s: State)
    ensures longer == run + [l] && s == Run(longer) == Next(Run(run), l)
    ensures Along(run, (s, l) => Prompt(s, l)) && Prompt(Run(run), l) ==> Along(longer, (s, l) => Prompt(s, l))
  {
    longer := run + [l];
    assert longer[..|run|] == run;
    s := Run(longer);
  }

  // ---- The timing bound ----

  /** As long as no DEL hit it, a caller's key is there for the whole time to live. */
  ghost predicate KeysOk(s: State) {
    forall c :: 0 <= c < |s.callers| ==> KeyOk(s, s.callers[c])
  }

  lemma {:induction false} RunKeepsKeys(run: seq<Label>)
    ensures KeysOk(Run(run))
  {
    if run != [] {
      RunKeepsKeys(run[..|run| - 1]);
      NextKeepsKeys(Run(run[..|run| - 1]), run[|run| - 1]);
    }
  }

  ghost predicate KeyOk(s: State, c: Caller) {
    c.registeredAt <= s.now &&
    (!c.keyDeleted ==>
      var key := PendingKey(c.route, c.txn);
      key in s.keys && s.keys[key] >= c.registeredAt + KEY_TTL)
  }

  lemma NextKeepsKeys(s: State, l: Label)
    requires KeysOk(s)
    ensures KeysOk(Next(s, l))
  {
    var s' := Next(s, l);
    forall c | 0 <= c < |s'.callers| ensures KeyOk(s', s'.callers[c]) {
      if c < |s.callers| {
        assert KeyOk(s, s.callers[c]);
      }
    }
  }

  /** A live key was set by a registration that is younger than the time to live and was not deleted since. */
  ghost predicate KeysFromCallers(s: State) {
    forall key :: key in s.keys ==> exists c :: 0 <= c < |s.callers| && KeySetBy(s, key, s.callers[c])
  }

  predicate KeySetBy(s: State, key: string, c: Caller) {
    PendingKey(c.route, c.txn) == key && !c.keyDeleted && key in s.keys && s.keys[key] == c.registeredAt + KEY_TTL
  }

  lemma NextKeepsKeySetters(s: State, l: Label)
    requires KeysFromCallers(s)
    ensures KeysFromCallers(Next(s, l))
  {
    var s' := Next(s, l);
    forall key | key in s'.keys ensures exists c :: 0 <= c < |s'.callers| && KeySetBy(s', key, s'.callers[c]) {
      if l.Register? && key == PendingKey(l.route, l.txn) {
        assert KeySetBy(s', key, s'.callers[|s.callers|]);
      } else {
        var c :| 0 <= c < |s.callers| && KeySetBy(s, key, s.callers[c]);
        SetterStays(s, l, key, c);
        assert KeySetBy(s', key, s'.callers[c]);
      }
    }
  }

  lemma SetterStays(s: State, l: Label, key: string, c: nat)
    requires c < |s.callers| && KeySetBy(s, key, s.callers[c]) && key in Next(s, l).keys
    requires !(l.Register? && key == PendingKey(l.route, l.txn))
    ensures c < |Next(s, l).callers| && KeySetBy(Next(s, l), key, Next(s, l).callers[c])
  {
  }

  lemma {:induction false} RunKeepsKeySetters(run: seq<Label>)
    ensures KeysFromCallers(Run(run))
  {
    if run != [] {
      RunKeepsKeySetters(run[..|run| - 1]);
      NextKeepsKeySetters(Run(run[..|run| - 1]), run[|run| - 1]);
    }
  }

  /** c registered this key less than 35 s ago, and no DEL hit it since. */
  predicate Holds(s: State, c: Caller, key: string) {
    PendingKey(c.route, c.txn) == key && !c.keyDeleted && s.now < c.registeredAt + 35000
  }

  /** After every run, a publisher that checks its key is accepted if and only if some caller registered that key
      less than 35 s ago and no DEL hit it since; otherwise it is refused. */
  lemma AcceptedExactly(run: seq<Label>, p: nat)
    requires p < |Run(run).publishers| && Run(run).publishers[p].progress.Checking?
    ensures var s := Run(run);
      var after := Next(s, Check(p)).publishers[p].progress;
      && (after.Publishing? <==> exists c :: 0 <= c < |s.callers| && Holds(s, s.callers[c], Key(s.publishers[p])))
      && (after.Publishing? || after.Refused?)
  {
    RunKeepsKeys(run);
    RunKeepsKeySetters(run);
    var s := Run(run);
    var key := Key(s.publishers[p]);
    if Alive(s, key) {
      var c :| 0 <= c < |s.callers| && KeySetBy(s, key, s.callers[c]);
      assert Holds(s, s.callers[c], key);
    }
    assert forall c :: 0 <= c < |s.callers| && Holds(s, s.callers[c], key) ==> KeyOk(s, s.callers[c]);
  }

  /** When forwarding took less than 5 s and no DEL hit the key since the Register, a callback that checks the
      key before the caller's deadline is accepted. */
  lemma TimelyCallbackAccepted(run: seq<Label>, c: nat, p: nat)
    requires var s := Run(run);
      && c < |s.callers| && (s.callers[c].phase.Waiting? || s.callers[c].phase.Subscribed?)
      && s.callers[c].phase.deadline - WAIT_TIMEOUT - s.callers[c].registeredAt < 5000
      && s.now < s.callers[c].phase.deadline
      && !s.callers[c].keyDeleted
      && p < |s.publishers| && s.publishers[p].progress.Checking?
      && s.publishers[p].route == s.callers[c].route && s.publishers[p].txn == s.callers[c].txn
    ensures Run(run + [Check(p)]).publishers[p].progress.Publishing?
  {
    RunKeepsKeys(run);
    var s := Run(run);
    assert KeyOk(s, s.callers[c]);
    var key := PendingKey(s.callers[c].route, s.callers[c].txn);
    assert Alive(s, key);
    assert (run + [Check(p)])[..|run|] == run;
  }

  /** The history variable means what it says: it is set exactly by a DEL of the caller's key after its Register. */
  lemma KeyDeletedBy(s: State, l: Label, c: nat)
    requires c < |s.callers| && !s.callers[c].keyDeleted
    ensures c < |Next(s, l).callers|
    ensures Next(s, l).callers[c].keyDeleted <==>
      l.Delete? && l.p < |s.publishers| && s.publishers[l.p].progress.Deleting? &&
      Key(s.publishers[l.p]) == PendingKey(s.callers[c].route, s.callers[c].txn)
  {
  }

  // ---- Accounting ----

  predicate InFlight(p: Publisher, key: string) {
    Key(p) == key && (p.progress.Publishing? || p.progress.Deleting?)
  }

  /** A publisher checks its key only while no other publisher of that key is past its own check. */
  ghost predicate NoOverlap(s: State, l: Label) {
    l.Check? && l.p < |s.publishers| && s.publishers[l.p].progress.Checking? ==>
      forall q :: 0 <= q < |s.publishers| ==> !InFlight(s.publishers[q], Key(s.publishers[l.p]))
  }

  ghost predicate Busy(s: State, key: string) {
    exists p :: 0 <= p < |s.publishers| && InFlight(s.publishers[p], key)
  }

  /** Each accepted publish has used up a registration, and a live key that nobody is publishing on is one more. */
  ghost predicate Balanced(s: State, key: string) {
    s.accepted[key] + (if key in s.keys && !Busy(s, key) then 1 else 0) <= s.registered[key]
  }

  predicate BothInFlight(p: Publisher, q: Publisher) {
    InFlight(p, Key(p)) && InFlight(q, Key(p))
  }

  ghost predicate AccountInv(s: State) {
    && (forall key :: Balanced(s, key))
    && (forall p, q :: 0 <= p < q < |s.publishers| ==> !BothInFlight(s.publishers[p], s.publishers[q]))
  }

  lemma NextKeepsAccounts(s: State, l: Label)
    requires AccountInv(s) && NoOverlap(s, l)
    ensures AccountInv(Next(s, l))
  {
    var s' := Next(s, l);
    forall key ensures Balanced(s', key) {
      assert Balanced(s, key);
      BusyAfter(s, l, key);
    }
  }

  lemma BusyAfter(s: State, l: Label, key: string)
    requires AccountInv(s) && NoOverlap(s, l)
    ensures Busy(s, key) && !Busy(Next(s, l), key) ==> key !in Next(s, l).keys
    ensures !Busy(s, key) && Busy(Next(s, l), key) ==>
      l.Check? && key in s.keys && Next(s, l).accepted == s.accepted + multiset{key}
    ensures l.Check? && Next(s, l).accepted != s.accepted && Next(s, l).accepted[key] != s.accepted[key] ==>
      !Busy(s, key) && Busy(Next(s, l), key)
  {
    var s' := Next(s, l);
    if Busy(s, key) {
      StaysBusy(s, l, key);
    } else if Busy(s', key) {
      BecomesBusy(s, l, key);
    }
    if l.Check? && s'.accepted != s.accepted && s'.accepted[key] != s.accepted[key] {
      assert InFlight(s'.publishers[l.p], key);
    }
  }

  lemma StaysBusy(s: State, l: Label, key: string)
    requires Busy(s, key)
    ensures Busy(Next(s, l), key) || key !in Next(s, l).keys
  {
    var s' := Next(s, l);
    var p :| 0 <= p < |s.publishers| && InFlight(s.publishers[p], key);
    if !(l.Delete? && l.p == p) {
      assert p < |s'.publishers| && InFlight(s'.publishers[p], key);
    }
  }

  lemma BecomesBusy(s: State, l: Label, key: string)
    requires !Busy(s, key) && Busy(Next(s, l), key)
    ensures l.Check? && key in s.keys && Next(s, l).accepted == s.accepted + multiset{key}
  {
    var s' := Next(s, l);
    var p :| 0 <= p < |s'.publishers| && InFlight(s'.publishers[p], key);
    assert p < |s.publishers| ==> !InFlight(s.publishers[p], key);
  }

  lemma {:induction false} RunKeepsAccounts(run: seq<Label>)
    requires Along(run, (s, l) => NoOverlap(s, l))
    ensures AccountInv(Run(run))
  {
    if run != [] {
      RunKeepsAccounts(run[..|run| - 1]);
      NextKeepsAccounts(Run(run[..|run| - 1]), run[|run| - 1]);
    }
  }

  /** In every run whose publishes do not overlap on a key, the accepted publishes of a key never outnumber its
      registrations, with expiry and repeated registration included. */
  lemma AcceptedWithinRegistered(run: seq<Label>, key: string)
    requires Along(run, (s, l) => NoOverlap(s, l))
    ensures Run(run).accepted[key] <= Run(run).registered[key]
  {
    RunKeepsAccounts(run);
    assert Balanced(Run(run), key);
  }

  /** Overlapping publishes can both be accepted for one registration. */
  lemma OverlapAcceptsTwice() returns (run: seq<Label>)
    ensures var key := PendingKey("init", "t");
      Run(run).accepted[key] == 2 && Run(run).registered[key] == 1
  {
    var key := PendingKey("init", "t");
    var caller := Caller("init", "t", 0, Forwarding, false);
    var a, b := Publisher("init", "t", "a", Checking), Publisher("init", "t", "b", Checking);
    var s;
    run := TwoArrivals(key, caller, a, b);
    ghost var s0 := Run(run);
    run, s := Step(run, Check(0));
    assert s.publishers == [a.(progress := Publishing), b] && s.keys == s0.keys && s.now == 0;
    assert s.accepted == multiset{} + multiset{key} && s.registered == multiset{key};
    ghost var s1 := s;
    assert Key(b) == key && Alive(s1, key);
    run, s := Step(run, Check(1));
    assert s.accepted == s1.accepted + multiset{key};
  }

  lemma TwoArrivals(key: string, caller: Caller, a: Publisher, b: Publisher) returns (run: seq<Label>)
    requires key == PendingKey("init", "t") && caller == Caller("init", "t", 0, Forwarding, false)
    requires a == Publisher("init", "t", "a", Checking) && b == Publisher("init", "t", "b", Checking)
    ensures Run(run) == State(0, map[key := 35000], [], [caller], [a, b], multiset{key}, multiset{})
  {
    var s;
    run, s := Step([], Register("init", "t"));
    assert s == State(0, map[key := 35000], [], [caller], [], multiset{key}, multiset{});
    run, s := Step(run, Arrive("init", "t", "a"));
    assert s == State(0, map[key := 35000], [], [caller], [a], multiset{key}, multiset{});
    run, s := Step(run, Arrive("init", "t", "b"));
  }
}
