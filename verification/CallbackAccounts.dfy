/** Which registration an accepted publish uses, and when a registration is used at most once. */
module CallbackAccounts {
  import opened CallbackNames
  import opened CallbackBridge
  import opened Wrappers

  /** The latest registration of a key. */
  function LastFor(callers: seq<Caller>, key: string): (c: Option<nat>)
    ensures c.Some? ==> c.value < |callers| && PendingKey(callers[c.value].route, callers[c.value].txn) == key
  {
    if callers == [] then None
    else
      var last := callers[|callers| - 1];
      if PendingKey(last.route, last.txn) == key then Some(|callers| - 1) else LastFor(callers[..|callers| - 1], key)
  }

  /** This step accepts publisher p. */
  predicate Accepts(s: State, l: Label, p: nat) {
    l == Check(p) && p < |s.publishers| && s.publishers[p].progress.Checking? && Alive(s, Key(s.publishers[p]))
  }

  /** The registration that publisher p used: the latest one of its key when it was accepted. */
  function Uses(run: seq<Label>, p: nat): Option<nat> {
    if run == [] then None
    else
      var before, l := run[..|run| - 1], run[|run| - 1];
      if Accepts(Run(before), l, p) then LastFor(Run(before).callers, Key(Run(before).publishers[p])) else Uses(before, p)
  }

  /** No registration is used by two accepted publishes. */
  ghost predicate UsedOnce(run: seq<Label>) {
    forall p: nat, q: nat :: p != q && Uses(run, p).Some? ==> Uses(run, p) != Uses(run, q)
  }

  /** q used the registration that p would use now. */
  predicate SameUse(before: seq<Label>, p: nat, q: nat)
    requires p < |Run(before).publishers|
  {
    Uses(before, q).Some? && Uses(before, q) == LastFor(Run(before).callers, Key(Run(before).publishers[p]))
  }

  /** When a publisher is accepted, no other that was accepted for the same registration is still before its DEL. */
  ghost predicate NotShared(before: seq<Label>, l: Label) {
    var s := Run(before);
    forall p: nat, q: nat :: Accepts(s, l, p) && q < |s.publishers| && SameUse(before, p, q) ==>
      !InFlight(s.publishers[q], Key(s.publishers[p]))
  }

  ghost predicate NeverShared(run: seq<Label>) {
    run == [] || (NeverShared(run[..|run| - 1]) && NotShared(run[..|run| - 1], run[|run| - 1]))
  }

  /** A used registration is one of the publisher's own key, and it is deleted once the publisher is done. */
  ghost predicate UseOk(s: State, p: nat, use: Option<nat>) {
    use.Some? ==>
      && p < |s.publishers| && use.value < |s.callers|
      && (s.publishers[p].progress.Publishing? || s.publishers[p].progress.Deleting? || s.publishers[p].progress.Finished?)
      && PendingKey(s.callers[use.value].route, s.callers[use.value].txn) == Key(s.publishers[p])
      && (s.publishers[p].progress.Finished? ==> s.callers[use.value].keyDeleted)
  }

  /** The latest registration of a key that is there was not deleted. */
  ghost predicate LastOk(s: State, key: string) {
    key in s.keys ==>
      var c := LastFor(s.callers, key); c.Some? && !s.callers[c.value].keyDeleted
  }

  lemma {:induction false} LastForSame(a: seq<Caller>, b: seq<Caller>, key: string)
    requires |a| == |b| && forall i :: 0 <= i < |a| ==> a[i].route == b[i].route && a[i].txn == b[i].txn
    ensures LastFor(a, key) == LastFor(b, key)
  {
    if a != [] {
      LastForSame(a[..|a| - 1], b[..|b| - 1], key);
    }
  }

  lemma NextKeepsLast(s: State, l: Label, key: string)
    requires LastOk(s, key)
    ensures LastOk(Next(s, l), key)
  {
    var s' := Next(s, l);
    if l.Register? {
      assert s'.callers[..|s.callers|] == s.callers;
    } else {
      SameNames(s, l);
      LastForSame(s.callers, s'.callers, key);
      if key in s'.keys {
        UndeletedStays(s, l, LastFor(s.callers, key).value, key);
      }
    }
  }

  lemma SameNames(s: State, l: Label)
    requires !l.Register?
    ensures |Next(s, l).callers| == |s.callers|
    ensures forall i :: 0 <= i < |s.callers| ==>
      Next(s, l).callers[i].route == s.callers[i].route && Next(s, l).callers[i].txn == s.callers[i].txn
  {
  }

  lemma UndeletedStays(s: State, l: Label, c: nat, key: string)
    requires c < |s.callers| && PendingKey(s.callers[c].route, s.callers[c].txn) == key && !s.callers[c].keyDeleted
    requires key in s.keys && key in Next(s, l).keys && !l.Register?
    ensures c < |Next(s, l).callers| && !Next(s, l).callers[c].keyDeleted
  {
  }

  lemma {:induction false} RunKeepsLast(run: seq<Label>, key: string)
    ensures LastOk(Run(run), key)
  {
    if run != [] {
      RunKeepsLast(run[..|run| - 1], key);
      NextKeepsLast(Run(run[..|run| - 1]), run[|run| - 1], key);
    }
  }

  lemma NextKeepsUse(s: State, l: Label, p: nat, use: Option<nat>)
    requires UseOk(s, p, use)
    ensures UseOk(Next(s, l), p, use)
  {
    if use.Some? {
      NextKeepsNames(s, l, use.value);
    }
  }

  lemma AcceptUseOk(s: State, p: nat)
    requires Accepts(s, Check(p), p)
    ensures UseOk(Next(s, Check(p)), p, LastFor(s.callers, Key(s.publishers[p])))
  {
  }

  lemma {:induction false} RunUseOk(run: seq<Label>, p: nat)
    ensures UseOk(Run(run), p, Uses(run, p))
  {
    if run != [] {
      var before, l := run[..|run| - 1], run[|run| - 1];
      if Accepts(Run(before), l, p) {
        AcceptUseOk(Run(before), p);
      } else {
        RunUseOk(before, p);
        NextKeepsUse(Run(before), l, p, Uses(before, p));
      }
    }
  }

  /** A publisher being accepted shares its registration with q exactly when q is still before its DEL. */
  lemma SharerInFlight(before: seq<Label>, p: nat, q: nat)
    requires Accepts(Run(before), Check(p), p)
    requires SameUse(before, p, q)
    ensures q < |Run(before).publishers| && q != p
    ensures InFlight(Run(before).publishers[q], Key(Run(before).publishers[p]))
  {
    RunUseOk(before, q);
    RunKeepsLast(before, Key(Run(before).publishers[p]));
  }

  lemma UsesStep(run: seq<Label>, p: nat)
    requires run != []
    ensures var before, l := run[..|run| - 1], run[|run| - 1];
      Uses(run, p) ==
      if Accepts(Run(before), l, p) then LastFor(Run(before).callers, Key(Run(before).publishers[p])) else Uses(before, p)
  {
  }

  lemma UsedOnceStep(run: seq<Label>)
    requires run != []
    ensures UsedOnce(run) <==> UsedOnce(run[..|run| - 1]) && NotShared(run[..|run| - 1], run[|run| - 1])
  {
    var before, l := run[..|run| - 1], run[|run| - 1];
    if l.Check? && Accepts(Run(before), l, l.p) {
      AcceptingStep(run, l.p);
    } else {
      forall p: nat ensures Uses(run, p) == Uses(before, p) {
        UsesStep(run, p);
      }
    }
  }

  /** The run ends by accepting p. */
  ghost predicate Accepting(run: seq<Label>, p: nat) {
    run != [] && run[|run| - 1] == Check(p) && Accepts(Run(run[..|run| - 1]), Check(p), p)
  }

  lemma UsesAfterAccept(run: seq<Label>, p: nat, q: nat)
    requires Accepting(run, p)
    ensures var before := run[..|run| - 1];
      var c := LastFor(Run(before).callers, Key(Run(before).publishers[p]));
      c.Some? && Uses(before, p) == None && Uses(run, q) == if q == p then c else Uses(before, q)
  {
    var before := run[..|run| - 1];
    UsesStep(run, q);
    RunUseOk(before, p);
    RunKeepsLast(before, Key(Run(before).publishers[p]));
  }

  ghost predicate Unused(before: seq<Label>, p: nat)
    requires p < |Run(before).publishers|
  {
    forall q: nat :: !SameUse(before, p, q)
  }

  lemma UnusedIffNotShared(before: seq<Label>, p: nat)
    requires Accepts(Run(before), Check(p), p)
    ensures Unused(before, p) <==> NotShared(before, Check(p))
  {
    forall q: nat ensures SameUse(before, p, q) ==>
      q < |Run(before).publishers| && InFlight(Run(before).publishers[q], Key(Run(before).publishers[p]))
    {
      if SameUse(before, p, q) {
        SharerInFlight(before, p, q);
      }
    }
  }

  lemma OnceBefore(run: seq<Label>, p: nat)
    requires Accepting(run, p) && UsedOnce(run)
    ensures UsedOnce(run[..|run| - 1]) && Unused(run[..|run| - 1], p)
  {
    var before := run[..|run| - 1];
    UsesAfterAccept(run, p, p);
    forall a: nat, b: nat | a != b && Uses(before, a).Some? ensures Uses(before, a) != Uses(before, b) {
      UsesAfterAccept(run, p, a);
      UsesAfterAccept(run, p, b);
    }
    forall q: nat ensures !SameUse(before, p, q) {
      UsesAfterAccept(run, p, q);
    }
  }

  lemma OnceAfter(run: seq<Label>, p: nat)
    requires Accepting(run, p) && UsedOnce(run[..|run| - 1]) && Unused(run[..|run| - 1], p)
    ensures UsedOnce(run)
  {
    var before := run[..|run| - 1];
    forall a: nat, b: nat | a != b && Uses(run, a).Some? ensures Uses(run, a) != Uses(run, b) {
      UsesAfterAccept(run, p, a);
      UsesAfterAccept(run, p, b);
      assert !SameUse(before, p, a) && !SameUse(before, p, b);
    }
  }

  lemma AcceptingStep(run: seq<Label>, p: nat)
    requires Accepting(run, p)
    ensures UsedOnce(run) <==> UsedOnce(run[..|run| - 1]) && NotShared(run[..|run| - 1], Check(p))
  {
    UnusedIffNotShared(run[..|run| - 1], p);
    if UsedOnce(run) {
      OnceBefore(run, p);
    } else if UsedOnce(run[..|run| - 1]) && Unused(run[..|run| - 1], p) {
      OnceAfter(run, p);
    }
  }

  /** In every run, no registration is used twice if and only if no publisher is accepted while another that was
      accepted for the same registration is still before its DEL. */
  lemma {:induction false} UsedOnceExactly(run: seq<Label>)
    ensures UsedOnce(run) <==> NeverShared(run)
  {
    if run == [] {
    } else {
      UsedOnceExactly(run[..|run| - 1]);
      UsedOnceStep(run);
    }
  }
}
