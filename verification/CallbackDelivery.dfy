/** Exact delivery: when a blocked caller returns the first message of its window, and when it does not. */
module CallbackDelivery {
  import opened CallbackBridge
  import opened CallbackNames

  predicate HasEnded(c: Caller) {
    c.phase.Got? || c.phase.TimedOut?
  }

  /** b is the body of the first message in the window of a caller that ended in this phase. */
  ghost predicate FirstBodyInWindow(log: seq<Published>, channel: string, phase: Phase, b: string)
    requires phase.Got? || phase.TimedOut?
  {
    exists k: nat :: FirstInWindow(log, channel, phase.since, phase.deadline, k) && log[k].body == b
  }

  ghost predicate EmptyWindow(log: seq<Published>, channel: string, since: nat, deadline: int) {
    forall k: nat :: !FirstInWindow(log, channel, since, deadline, k)
  }

  /** The caller returned b exactly when b is the body of the first message published on its channel between its
      subscription and its deadline, and timed out exactly when there was none. */
  ghost predicate WindowExact(log: seq<Published>, channel: string, phase: Phase)
    requires phase.Got? || phase.TimedOut?
  {
    && (forall b :: phase.Got? && phase.body == b <==> FirstBodyInWindow(log, channel, phase, b))
    && (phase.TimedOut? <==> forall b :: !FirstBodyInWindow(log, channel, phase, b))
  }

  ghost predicate Exact(s: State, c: Caller)
    requires HasEnded(c)
  {
    WindowExact(s.log, Channel(c), c.phase)
  }

  lemma FirstUnique(log: seq<Published>, channel: string, phase: Phase, a: string, b: string)
    requires phase.Got? || phase.TimedOut?
    requires FirstBodyInWindow(log, channel, phase, a) && FirstBodyInWindow(log, channel, phase, b)
    ensures a == b
  {
    var i: nat :| FirstInWindow(log, channel, phase.since, phase.deadline, i) && log[i].body == a;
    var j: nat :| FirstInWindow(log, channel, phase.since, phase.deadline, j) && log[j].body == b;
    assert !(i < j) && !(j < i);
  }

  /** The phase of a caller that got the first message after its subscription. */
  ghost predicate GotFirst(log: seq<Published>, channel: string, phase: Phase) {
    phase.Got? && phase.since <= |log| &&
    var k := FirstOn(log, channel, phase.since); k < |log| && phase.body == log[k].body
  }

  /** A returned body is exact if and only if its message was published before the deadline. */
  lemma GotExact(log: seq<Published>, channel: string, phase: Phase)
    requires GotFirst(log, channel, phase)
    ensures WindowExact(log, channel, phase) <==> log[FirstOn(log, channel, phase.since)].at < phase.deadline
  {
    var k := FirstOn(log, channel, phase.since);
    if log[k].at < phase.deadline {
      assert FirstInWindow(log, channel, phase.since, phase.deadline, k);
      assert FirstBodyInWindow(log, channel, phase, phase.body);
      forall b | FirstBodyInWindow(log, channel, phase, b) ensures b == phase.body {
        FirstUnique(log, channel, phase, b, phase.body);
      }
    } else {
      LateIsOutside(log, channel, phase.since, phase.deadline);
      assert !FirstBodyInWindow(log, channel, phase, phase.body);
    }
  }

  lemma LateIsOutside(log: seq<Published>, channel: string, since: nat, deadline: int)
    requires since <= |log|
    requires var k := FirstOn(log, channel, since); k < |log| && log[k].at >= deadline
    ensures EmptyWindow(log, channel, since, deadline)
  {
  }

  /** A timeout is exact if and only if the window is empty. */
  lemma TimedOutExact(log: seq<Published>, channel: string, phase: Phase)
    requires phase.TimedOut?
    ensures WindowExact(log, channel, phase) <==> EmptyWindow(log, channel, phase.since, phase.deadline)
  {
    if !EmptyWindow(log, channel, phase.since, phase.deadline) {
      var k: nat :| FirstInWindow(log, channel, phase.since, phase.deadline, k);
      assert FirstBodyInWindow(log, channel, phase, log[k].body);
    }
  }

  // ---- The step that ends a caller ----

  /** The step that ends caller c, if this is one, keeps to the window: the message it receives was published
      before the deadline, or no such message is waiting when it gives up. */
  ghost predicate EndsInWindow(s: State, l: Label, c: nat) {
    c < |s.callers| && s.callers[c].phase.Subscribed? ==>
      var caller := s.callers[c];
      var k := FirstOn(s.log, Channel(caller), caller.phase.since);
      && (l == Receive(c) && k < |s.log| ==> s.log[k].at < caller.phase.deadline)
      && (l == Expire(c) && caller.phase.deadline <= s.now ==>
           EmptyWindow(s.log, Channel(caller), caller.phase.since, caller.phase.deadline))
  }

  lemma EndingStep(s: State, l: Label, c: nat)
    requires Inv(s) && c < |s.callers| && !HasEnded(s.callers[c]) && HasEnded(Next(s, l).callers[c])
    ensures Exact(Next(s, l), Next(s, l).callers[c]) <==> EndsInWindow(s, l, c)
  {
    var caller, log := s.callers[c], s.log;
    assert CallerOk(s, caller);
    var phase := Next(s, l).callers[c].phase;
    EndingLabel(s, l, c);
    if l == Receive(c) {
      GotExact(log, Channel(caller), phase);
    } else {
      TimedOutExact(log, Channel(caller), phase);
    }
  }

  lemma EndingLabel(s: State, l: Label, c: nat)
    requires c < |s.callers| && !HasEnded(s.callers[c]) && HasEnded(Next(s, l).callers[c])
    ensures var caller, caller' := s.callers[c], Next(s, l).callers[c];
      && caller.phase.Subscribed? && Next(s, l).log == s.log && Channel(caller') == Channel(caller)
      && caller'.phase.since == caller.phase.since && caller'.phase.deadline == caller.phase.deadline
      && (if caller'.phase.Got?
          then l == Receive(c) &&
            var k := FirstOn(s.log, Channel(caller), caller.phase.since); k < |s.log| && caller'.phase.body == s.log[k].body
          else l == Expire(c) && caller.phase.deadline <= s.now)
  {
  }

  // ---- What a caller saw does not change later ----

  lemma LogGrows(s: State, l: Label)
    ensures Next(s, l).log == s.log ||
            (exists m: Published :: Next(s, l).log == s.log + [m] && m.at == s.now)
  {
    var log' := Next(s, l).log;
    if log' != s.log {
      assert log' == s.log + [log'[|s.log|]];
    }
  }

  lemma GotStays(log: seq<Published>, m: Published, channel: string, phase: Phase)
    requires GotFirst(log, channel, phase)
    ensures WindowExact(log + [m], channel, phase) <==> WindowExact(log, channel, phase)
  {
    FirstStable(log, m, channel, phase.since);
    GotExact(log, channel, phase);
    GotExact(log + [m], channel, phase);
  }

  lemma TimeoutStays(log: seq<Published>, m: Published, channel: string, phase: Phase)
    requires phase.TimedOut? && phase.since <= |log| && phase.deadline <= m.at
    ensures WindowExact(log + [m], channel, phase) <==> WindowExact(log, channel, phase)
  {
    TimedOutExact(log, channel, phase);
    TimedOutExact(log + [m], channel, phase);
    forall k: nat
      ensures FirstInWindow(log + [m], channel, phase.since, phase.deadline, k) <==>
              FirstInWindow(log, channel, phase.since, phase.deadline, k)
    {
      assert k < |log| ==> forall i :: 0 <= i <= k ==> (log + [m])[i] == log[i];
    }
  }

  lemma EndedKeeps(s: State, l: Label, c: nat)
    requires c < |s.callers| && HasEnded(s.callers[c])
    ensures c < |Next(s, l).callers|
    ensures Next(s, l).callers[c].phase == s.callers[c].phase && Channel(Next(s, l).callers[c]) == Channel(s.callers[c])
  {
  }

  lemma EndedStays(s: State, l: Label, c: nat)
    requires Inv(s) && c < |s.callers| && HasEnded(s.callers[c])
    ensures c < |Next(s, l).callers| && HasEnded(Next(s, l).callers[c])
    ensures Exact(Next(s, l), Next(s, l).callers[c]) <==> Exact(s, s.callers[c])
  {
    var caller, channel := s.callers[c], Channel(s.callers[c]);
    assert CallerOk(s, caller);
    EndedKeeps(s, l, c);
    LogGrows(s, l);
    if Next(s, l).log != s.log {
      var m: Published :| Next(s, l).log == s.log + [m] && m.at == s.now;
      if caller.phase.Got? {
        GotStays(s.log, m, channel, caller.phase);
      } else {
        TimeoutStays(s.log, m, channel, caller.phase);
      }
    }
  }

  lemma NotEnding(s: State, l: Label, c: nat)
    requires c < |s.callers| ==> !HasEnded(Next(s, l).callers[c])
    ensures EndsInWindow(s, l, c)
    ensures c < |Next(s, l).callers| && c >= |s.callers| ==> !HasEnded(Next(s, l).callers[c])
  {
  }

  // ---- All runs ----

  /** Caller c ended, and what it saw is exact or not, as the run says; or it has not ended. */
  ghost predicate EndedAs(s: State, c: nat, kept: bool) {
    if c < |s.callers| && HasEnded(s.callers[c]) then Exact(s, s.callers[c]) <==> kept else kept
  }

  lemma NextEndedAs(s: State, l: Label, c: nat, kept: bool)
    requires Inv(s) && EndedAs(s, c, kept)
    ensures EndedAs(Next(s, l), c, kept && EndsInWindow(s, l, c))
  {
    if c < |s.callers| && HasEnded(s.callers[c]) {
      EndedStays(s, l, c);
    } else if c < |s.callers| && HasEnded(Next(s, l).callers[c]) {
      EndingStep(s, l, c);
    } else {
      NotEnding(s, l, c);
    }
  }

  lemma {:induction false} RunEndedAs(run: seq<Label>, c: nat)
    ensures EndedAs(Run(run), c, Along(run, (s, l) => EndsInWindow(s, l, c)))
  {
    if run != [] {
      var before := run[..|run| - 1];
      RunEndedAs(before, c);
      RunKeepsInv(before);
      NextEndedAs(Run(before), run[|run| - 1], c, Along(before, (s, l) => EndsInWindow(s, l, c)));
    }
  }

  /** In every run, whatever the scheduling: a caller returned body b if and only if b is the body of the first
      message on its channel between its subscription and its deadline, and timed out if and only if there is
      none, exactly when the step that ended it received a message published in time or gave up with none waiting. */
  lemma ExactDelivery(run: seq<Label>, c: nat)
    requires c < |Run(run).callers| && HasEnded(Run(run).callers[c])
    ensures Exact(Run(run), Run(run).callers[c]) <==> Along(run, (s, l) => EndsInWindow(s, l, c))
  {
    RunEndedAs(run, c);
  }

  // ---- One message ----

  /** Message k is the one caller c returned: the first on its channel after the subscription. */
  predicate ReturnedMessage(s: State, c: Caller, k: nat) {
    c.phase.Got? && k < |s.log| && k == FirstOn(s.log, Channel(c), c.phase.since)
  }

  lemma ReturnedIsFirst(s: State, c: Caller, k: nat)
    requires HasEnded(c) && CallerOk(s, c) && Exact(s, c)
    ensures ReturnedMessage(s, c, k) <==> FirstInWindow(s.log, Channel(c), c.phase.since, c.phase.deadline, k)
    ensures ReturnedMessage(s, c, k) ==> c.phase.body == s.log[k].body
  {
    if c.phase.Got? {
      GotExact(s.log, Channel(c), c.phase);
      if FirstInWindow(s.log, Channel(c), c.phase.since, c.phase.deadline, k) {
        FirstIs(s.log, Channel(c), c.phase.since, k);
      }
    } else {
      TimedOutExact(s.log, Channel(c), c.phase);
    }
  }

  /** In every run in which the step that ended caller c keeps to its window: a published callback is the one it
      returned if and only if it is the first on its channel between its subscription and its deadline. */
  lemma DeliveredExactly(run: seq<Label>, c: nat, k: nat)
    requires c < |Run(run).callers| && HasEnded(Run(run).callers[c])
    requires Along(run, (s, l) => EndsInWindow(s, l, c))
    ensures var s := Run(run);
      var caller := s.callers[c];
      && (ReturnedMessage(s, caller, k) <==> FirstInWindow(s.log, Channel(caller), caller.phase.since, caller.phase.deadline, k))
      && (ReturnedMessage(s, caller, k) ==> caller.phase.body == s.log[k].body)
  {
    ExactDelivery(run, c);
    RunKeepsInv(run);
    assert CallerOk(Run(run), Run(run).callers[c]);
    ReturnedIsFirst(Run(run), Run(run).callers[c], k);
  }

  /** A callback published before the subscription is never returned, whatever the scheduling. */
  lemma EarlyNeverReturned(run: seq<Label>, c: nat, k: nat)
    requires c < |Run(run).callers| && Run(run).callers[c].phase.Got? && k < Run(run).callers[c].phase.since
    ensures !ReturnedMessage(Run(run), Run(run).callers[c], k)
  {
    RunKeepsInv(run);
    assert CallerOk(Run(run), Run(run).callers[c]);
  }

  /** A blocked caller that reacts promptly always keeps to its window. */
  lemma PromptDelivery(run: seq<Label>, c: nat)
    requires Along(run, (s, l) => Prompt(s, l))
    requires c < |Run(run).callers| && HasEnded(Run(run).callers[c])
    ensures Exact(Run(run), Run(run).callers[c])
  {
    RunKeepsPrompt(run);
    var s := Run(run);
    var caller := s.callers[c];
    assert PromptOk(s, caller) && CallerOk(s, caller);
    if caller.phase.Got? {
      GotExact(s.log, Channel(caller), caller.phase);
    } else {
      TimedOutExact(s.log, Channel(caller), caller.phase);
    }
  }

  // ---- The condition is needed ----

  lemma Subscription() returns (run: seq<Label>)
    ensures Run(run) == State(0, map[PendingKey("init", "t") := 35000], [],
      [Caller("init", "t", 0, Subscribed(30000, 0), false)], [], multiset{PendingKey("init", "t")}, multiset{})
  {
    var key := PendingKey("init", "t");
    var caller := Caller("init", "t", 0, Forwarding, false);
    var s;
    run, s := Step([], Register("init", "t"));
    assert s == State(0, map[key := 35000], [], [caller], [], multiset{key}, multiset{});
    run, s := Step(run, StartWait(0));
    assert s.callers == [caller.(phase := Waiting(30000))];
    run, s := Step(run, Subscribe(0));
    assert s.callers == [caller.(phase := Subscribed(30000, 0))];
  }

  lemma MessageWaiting() returns (run: seq<Label>)
    ensures var s := Run(run);
      && s.now == 0
      && s.callers == [Caller("init", "t", 0, Subscribed(30000, 0), false)]
      && s.log == [Published(CallbackChannel("init", "t"), "b", 0, 0)]
  {
    var sender := Publisher("init", "t", "b", Checking);
    var s;
    run := Subscription();
    run, s := Step(run, Arrive("init", "t", "b"));
    assert s.publishers == [sender] && s.now == 0;
    assert Alive(s, PendingKey("init", "t"));
    run, s := Step(run, Check(0));
    assert s.publishers == [sender.(progress := Publishing)];
    run, s := Step(run, Publish(0));
  }

  /** The select may pick the timeout although the message came at once: the caller then times out with its
      message in the window. */
  lemma TimeoutWithMessage() returns (run: seq<Label>)
    ensures var s := Run(run);
      |s.callers| == 1 && s.callers[0].phase.TimedOut? && !Exact(s, s.callers[0])
  {
    var s;
    run := MessageWaiting();
    var caller := Run(run).callers[0];
    run, s := Step(run, Tick(30000));
    assert s.callers == [caller] && s.now == 30000 && |s.log| == 1;
    run, s := Step(run, Expire(0));
    assert s.callers == [caller.(phase := TimedOut(30000, 0))];
    assert FirstInWindow(s.log, Channel(caller), 0, 30000, 0);
    TimedOutExact(s.log, Channel(caller), s.callers[0].phase);
  }
}
