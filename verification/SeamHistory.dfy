/** The order of status writes in the buyer app's transaction table. */
module SeamHistory {
  import opened SeamTypes
  import opened BppSteps
  import opened SeamRun
  import BapSteps

  /** CONFIRMED was written for t. */
  ghost predicate ConfirmedIn(history: seq<Write>, t: Txn) {
    exists i :: 0 <= i < |history| && history[i] == Write(t, Confirmed)
  }

  /** RECONCILING was written for t, after CONFIRMED. */
  ghost predicate ReconciledIn(history: seq<Write>, t: Txn) {
    exists j :: 0 <= j < |history| && history[j] == Write(t, Reconciling) && ConfirmedIn(history[..j], t)
  }

  ghost predicate Ordered(history: seq<Write>) {
    forall k :: 0 <= k < |history| ==>
      && (history[k].status == Reconciling ==> ConfirmedIn(history[..k], history[k].txn))
      && (history[k].status == Settled ==> ReconciledIn(history[..k], history[k].txn))
  }

  /** A statement of the buyer app executed by this step succeeds. */
  predicate BapSucceeds(l: Label) {
    l.BapRuns? ==> l.env.ok
  }

  ghost predicate MsgOk(history: seq<Write>, m: Msg) {
    m.Reconcile? || m.OnReconcile? ==> ReconciledIn(history, m.txn)
  }

  ghost predicate TaskOk(history: seq<Write>, task: BppTask) {
    task.ReconcileRead? || task.ReconcileRelease? || task.ReconcileSettle? || task.ReconcileReply? ==>
      ReconciledIn(history, task.txn)
  }

  ghost predicate JobOk(history: seq<Write>, job: BapSteps.BapTask) {
    match job
    case OnInitFirst(m) => MsgOk(history, m)
    case OnInitCheckout(m) => MsgOk(history, m)
    case OnInitSaveRequest(m, _) => MsgOk(history, m)
    case OnInitSaveAmount(m, _) => MsgOk(history, m)
    case SaveSnapshot(m) => MsgOk(history, m)
    case WriteStatus(m) => MsgOk(history, m)
    case ReconRead(t) => ConfirmedIn(history, t)
    case ReconSnapshot(t, _) => ConfirmedIn(history, t)
    case ReconUpsert(t, _, _) => ConfirmedIn(history, t)
    case ReconSend(t, _, _) => ReconciledIn(history, t)
    case _ => true
  }

  ghost predicate Inv(w: World) {
    && Ordered(w.bap.history)
    && (forall i :: 0 <= i < |w.tasks| ==> TaskOk(w.bap.history, w.tasks[i]))
    && (forall i :: 0 <= i < |w.jobs| ==> JobOk(w.bap.history, w.jobs[i]))
    && (forall m :: m in w.net ==> MsgOk(w.bap.history, m))
  }

  lemma Extend(h: seq<Write>, more: seq<Write>, t: Txn)
    ensures ConfirmedIn(h, t) ==> ConfirmedIn(h + more, t)
    ensures ReconciledIn(h, t) ==> ReconciledIn(h + more, t)
  {
    if ConfirmedIn(h, t) {
      var i :| 0 <= i < |h| && h[i] == Write(t, Confirmed);
      assert (h + more)[i] == Write(t, Confirmed);
    }
    if ReconciledIn(h, t) {
      var j :| 0 <= j < |h| && h[j] == Write(t, Reconciling) && ConfirmedIn(h[..j], t);
      assert (h + more)[j] == Write(t, Reconciling) && (h + more)[..j] == h[..j];
    }
  }

  lemma AppendOrdered(h: seq<Write>, write: Write)
    requires Ordered(h)
    requires write.status == Reconciling ==> ConfirmedIn(h, write.txn)
    requires write.status == Settled ==> ReconciledIn(h, write.txn)
    ensures Ordered(h + [write])
    ensures write.status == Confirmed ==> ConfirmedIn(h + [write], write.txn)
    ensures write.status == Reconciling ==> ReconciledIn(h + [write], write.txn)
  {
    var after := h + [write];
    assert after[..|h|] == h && after[|h|] == write;
    forall k | 0 <= k < |after|
      ensures after[k].status == Reconciling ==> ConfirmedIn(after[..k], after[k].txn)
      ensures after[k].status == Settled ==> ReconciledIn(after[..k], after[k].txn)
    {
      if k < |h| {
        assert after[..k] == h[..k];
      }
    }
  }

  /** The status write of a step, if it makes one. */
  function Written(job: BapSteps.BapTask): seq<Write> {
    match job
    case CallUpsert(call) => [Write(call.txn, BapSteps.SentStatus(call))]
    case OnInitFirst(m) => [Write(m.txn, InitReceived)]
    case WriteStatus(m) => WrittenFor(m)
    case ReconUpsert(t, _, _) => [Write(t, Reconciling)]
    case _ => []
  }

  function WrittenFor(m: Msg): seq<Write> {
    match m
    case OnInit(t, _) => [Write(t, InitReceived)]
    case OnConfirm(t, Issued(_, _, _)) => [Write(t, Confirmed)]
    case OnReconcile(t, _) => [Write(t, Settled)]
    case OnCancel(t) => [Write(t, TxnCancelled)]
    case _ => []
  }

  lemma BapStepOk(bap: BapDb, job: BapSteps.BapTask, env: Env)
    requires env.ok && Ordered(bap.history) && JobOk(bap.history, job)
    ensures var e := BapSteps.BapStep(bap, job, env);
      && e.db.history == bap.history + Written(job)
      && Ordered(e.db.history)
      && JobOk(e.db.history, e.task)
      && (forall s :: s in e.spawned ==> JobOk(e.db.history, s))
      && (forall m :: m in e.out ==> MsgOk(e.db.history, m))
  {
    var e := BapSteps.BapStep(bap, job, env);
    var writes := Written(job);
    assert e.db.history == bap.history + writes;
    if writes != [] {
      assert writes == [writes[0]];
      AppendOrdered(bap.history, writes[0]);
    }
    if job.OnInitFirst? {
      Extend(bap.history, writes, job.msg.txn);
    }
  }

  lemma Kept(h: seq<Write>, more: seq<Write>, task: BppTask, job: BapSteps.BapTask, m: Msg)
    ensures TaskOk(h, task) ==> TaskOk(h + more, task)
    ensures JobOk(h, job) ==> JobOk(h + more, job)
    ensures MsgOk(h, m) ==> MsgOk(h + more, m)
  {
    forall t: Txn
      ensures ConfirmedIn(h, t) ==> ConfirmedIn(h + more, t)
      ensures ReconciledIn(h, t) ==> ReconciledIn(h + more, t)
    {
      Extend(h, more, t);
    }
  }

  lemma BapRunsKeepsInv(w: World, i: nat, env: Env)
    requires Inv(w) && i < |w.jobs| && env.ok
    ensures Inv(AfterBap(w, i, BapSteps.BapStep(w.bap, w.jobs[i], env)))
  {
    var e := BapSteps.BapStep(w.bap, w.jobs[i], env);
    var w' := AfterBap(w, i, e);
    var h, more := w.bap.history, Written(w.jobs[i]);
    BapStepOk(w.bap, w.jobs[i], env);
    forall k | 0 <= k < |w'.tasks| ensures TaskOk(w'.bap.history, w'.tasks[k]) {
      Kept(h, more, w.tasks[k], BapSteps.Done, Cancel(""));
    }
    forall k | 0 <= k < |w'.jobs| ensures JobOk(w'.bap.history, w'.jobs[k]) {
      if k < |w.jobs| {
        Kept(h, more, Finished, w.jobs[k], Cancel(""));
      }
    }
    forall m | m in w'.net ensures MsgOk(w'.bap.history, m) {
      Kept(h, more, Finished, BapSteps.Done, m);
    }
  }

  lemma NextKeepsInv(quote: int -> int, w: World, l: Label)
    requires Inv(w) && BapSucceeds(l)
    ensures Inv(Next(quote, w, l))
  {
    match l
    case BppRuns(i, env) =>
      if i < |w.tasks| {
        var e := BppStep(quote, w.bpp, w.tasks[i], env);
        assert TaskOk(w.bap.history, e.task);
        assert forall m :: m in e.out ==> MsgOk(w.bap.history, m);
      }
    case BapRuns(i, env) =>
      if i < |w.jobs| {
        BapRunsKeepsInv(w, i, env);
      }
    case Deliver(m) =>
      if m in w.net && BapSteps.IsCallback(m) {
        assert JobOk(w.bap.history, BapSteps.Callback(m));
      } else if m in w.net {
        assert TaskOk(w.bap.history, Receive(m));
      }
    case Notify(invoice, requestId, amount) =>
      assert TaskOk(w.bap.history, Notified(invoice, requestId, amount));
    case Frontend(call) =>
      assert JobOk(w.bap.history, BapSteps.Start(call));
  }

  lemma {:induction false} RunKeepsInv(quote: int -> int, run: seq<Label>)
    requires Along(quote, run, (w, l) => BapSucceeds(l))
    ensures Inv(Run(quote, run))
  {
    if run != [] {
      RunKeepsInv(quote, run[..|run| - 1]);
      NextKeepsInv(quote, Run(quote, run[..|run| - 1]), run[|run| - 1]);
    }
  }

  /** When the buyer app's own statements succeed, every SETTLED write for a transaction comes after a
      RECONCILING write for it, which comes after a CONFIRMED write for it; the insurer's statements may fail. */
  lemma SettledAfterReconcilingAfterConfirmed(quote: int -> int, run: seq<Label>, k: nat, t: Txn)
    requires Along(quote, run, (w, l) => BapSucceeds(l))
    requires k < |Run(quote, run).bap.history| && Run(quote, run).bap.history[k] == Write(t, Settled)
    ensures var h := Run(quote, run).bap.history;
      exists i, j :: 0 <= i < j < k && h[i] == Write(t, Confirmed) && h[j] == Write(t, Reconciling)
  {
    RunKeepsInv(quote, run);
    var h := Run(quote, run).bap.history;
    var j :| 0 <= j < k && h[..k][j] == Write(t, Reconciling) && ConfirmedIn(h[..k][..j], t);
    assert h[..k][..j] == h[..j];
    var i :| 0 <= i < j && h[..j][i] == Write(t, Confirmed);
    assert h[i] == Write(t, Confirmed) && h[j] == Write(t, Reconciling);
  }

  /** A transaction row is never removed and its action never changes after the first insert. */
  lemma ActionFixed(quote: int -> int, w: World, l: Label, t: Txn)
    requires t in w.bap.transactions
    ensures t in Next(quote, w, l).bap.transactions
    ensures Next(quote, w, l).bap.transactions[t].action == w.bap.transactions[t].action
  {
  }

  /** The same over any continuation of a run. */
  lemma {:induction false} ActionFixedAlong(quote: int -> int, run: seq<Label>, more: seq<Label>, t: Txn)
    requires t in Run(quote, run).bap.transactions
    ensures t in Run(quote, run + more).bap.transactions
    ensures Run(quote, run + more).bap.transactions[t].action == Run(quote, run).bap.transactions[t].action
  {
    if more == [] {
      assert run + more == run;
    } else {
      var all := run + more;
      assert all[..|all| - 1] == run + more[..|more| - 1];
      ActionFixedAlong(quote, run, more[..|more| - 1], t);
      ActionFixed(quote, Run(quote, all[..|all| - 1]), all[|all| - 1], t);
    }
  }
}
