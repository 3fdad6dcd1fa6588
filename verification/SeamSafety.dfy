/** Safety of settlement and of issuance over every run. */
module SeamSafety {
  import opened Calendar
  import opened SeamTypes
  import opened BppSteps
  import opened SeamRun
  import BapSteps

  /** No policy is issued without payment, and an issued policy is complete. */
  ghost predicate RowOk(row: PolicyRow) {
    && (row.status == Active ==> row.number.Some?)
    && (row.settled ==> row.number.Some?)
    && (row.number.Some? ==> row.paid && row.coverage.Some? && row.coverage.value.end == AddYear(row.coverage.value.start))
    && row.status in {PendingIssuance, Active, Cancelled}
  }

  ghost predicate RowsOk(db: BppDb) {
    forall t :: t in db.policies ==> RowOk(db.policies[t])
  }

  ghost predicate PaidAt(db: BppDb, t: Txn) {
    t in db.policies && db.policies[t].paid
  }

  ghost predicate IssuedAt(db: BppDb, t: Txn) {
    t in db.policies && db.policies[t].paid && db.policies[t].number.Some?
  }

  ghost predicate SettledAt(db: BppDb, t: Txn) {
    IssuedAt(db, t) && (db.policies[t].settled || t in db.lostSettles)
  }

  ghost predicate ConfirmationOk(c: Confirmation) {
    c.Issued? ==> c.number.Some? && c.coverage.Some? && c.coverage.value.end == AddYear(c.coverage.value.start)
  }

  /** What a message says about the insurer's table. */
  ghost predicate MsgOk(db: BppDb, m: Msg) {
    match m
    case OnConfirm(t, c) => ConfirmationOk(c) && (c.Issued? ==> IssuedAt(db, t))
    case Reconcile(t, invoice, _) => IssuedAt(db, t) && invoice == Invoice(t)
    case OnReconcile(t, _) => SettledAt(db, t)
    case _ => true
  }

  /** What a running handler knows about the table although it read it earlier. */
  ghost predicate TaskOk(db: BppDb, task: BppTask) {
    match task
    case ConfirmCount(t, row, _) => PaidAt(db, t)
    case ConfirmIssue(t, row, _, _) => PaidAt(db, t)
    case ConfirmRecord(t, _, _, _, coverage) => IssuedAt(db, t) && coverage.end == AddYear(coverage.start)
    case ConfirmReply(t, c) => ConfirmationOk(c) && (c.Issued? ==> IssuedAt(db, t))
    case ReconcileRead(t, invoice, _) => IssuedAt(db, t) && invoice == Invoice(t)
    case ReconcileRelease(t, invoice, _, _) => IssuedAt(db, t) && invoice == Invoice(t)
    case ReconcileSettle(t, _) => IssuedAt(db, t)
    case ReconcileReply(t, _) => SettledAt(db, t)
    case _ => true
  }

  ghost predicate JobOk(db: BppDb, job: BapSteps.BapTask) {
    match job
    case OnInitFirst(m) => MsgOk(db, m)
    case OnInitCheckout(m) => MsgOk(db, m)
    case OnInitSaveRequest(m, _) => MsgOk(db, m)
    case OnInitSaveAmount(m, _) => MsgOk(db, m)
    case SaveSnapshot(m) => MsgOk(db, m)
    case WriteStatus(m) => MsgOk(db, m)
    case ReconRead(t) => IssuedAt(db, t)
    case ReconSnapshot(t, invoice) => IssuedAt(db, t) && invoice == Invoice(t)
    case ReconUpsert(t, invoice, _) => IssuedAt(db, t) && invoice == Invoice(t)
    case ReconSend(t, invoice, _) => IssuedAt(db, t) && invoice == Invoice(t)
    case _ => true
  }

  /** The buyer app stores no invoice but the transaction's own, and SETTLED was only ever written for
      transactions that are settled at the insurer. */
  ghost predicate BapOk(db: BppDb, bap: BapDb) {
    && (forall t :: t in bap.transactions ==> bap.transactions[t].invoice in {"", Invoice(t)})
    && (forall i :: 0 <= i < |bap.history| && bap.history[i].status == Settled ==> SettledAt(db, bap.history[i].txn))
  }

  ghost predicate Inv(w: World) {
    && RowsOk(w.bpp)
    && (forall i :: 0 <= i < |w.tasks| ==> TaskOk(w.bpp, w.tasks[i]))
    && (forall i :: 0 <= i < |w.jobs| ==> JobOk(w.bpp, w.jobs[i]))
    && (forall m :: m in w.net ==> MsgOk(w.bpp, m))
    && BapOk(w.bpp, w.bap)
  }

  /** The facts the handlers rely on only ever grow. */
  ghost predicate Grows(a: BppDb, b: BppDb) {
    && a.lostSettles <= b.lostSettles
    && (forall t :: t in a.policies ==>
         && t in b.policies
         && (a.policies[t].paid ==> b.policies[t].paid)
         && (a.policies[t].number.Some? ==> b.policies[t].number.Some?)
         && (a.policies[t].settled ==> b.policies[t].settled))
  }

  lemma BppStepOk(quote: int -> int, db: BppDb, task: BppTask, env: Env)
    requires RowsOk(db) && TaskOk(db, task)
    ensures var e := BppStep(quote, db, task, env);
      && Grows(db, e.db)
      && RowsOk(e.db)
      && TaskOk(e.db, e.task)
      && (forall m :: m in e.out ==> MsgOk(e.db, m))
  {
    BppStepGrows(quote, db, task, env);
    BppStepKeepsRows(quote, db, task, env);
  }

  lemma BppStepGrows(quote: int -> int, db: BppDb, task: BppTask, env: Env)
    ensures Grows(db, BppStep(quote, db, task, env).db)
  {
  }

  lemma BppStepKeepsRows(quote: int -> int, db: BppDb, task: BppTask, env: Env)
    requires RowsOk(db) && TaskOk(db, task)
    ensures RowsOk(BppStep(quote, db, task, env).db)
  {
    assert forall t :: t in db.policies ==> RowOk(db.policies[t]);
  }

  lemma BapStepOk(db: BppDb, bap: BapDb, job: BapSteps.BapTask, env: Env)
    requires BapOk(db, bap) && JobOk(db, job)
    ensures var e := BapSteps.BapStep(bap, job, env);
      && BapOk(db, e.db)
      && JobOk(db, e.task)
      && (forall s :: s in e.spawned ==> JobOk(db, s))
      && (forall m :: m in e.out ==> MsgOk(db, m))
  {
  }

  lemma GrowsKeeps(a: BppDb, b: BppDb, task: BppTask, job: BapSteps.BapTask, m: Msg)
    requires Grows(a, b)
    ensures TaskOk(a, task) ==> TaskOk(b, task)
    ensures JobOk(a, job) ==> JobOk(b, job)
    ensures MsgOk(a, m) ==> MsgOk(b, m)
  {
  }

  lemma BppRunsKeepsInv(quote: int -> int, w: World, i: nat, env: Env)
    requires Inv(w) && i < |w.tasks|
    ensures Inv(AfterBpp(w, i, BppStep(quote, w.bpp, w.tasks[i], env)))
  {
    var e := BppStep(quote, w.bpp, w.tasks[i], env);
    var w' := AfterBpp(w, i, e);
    BppStepOk(quote, w.bpp, w.tasks[i], env);
    forall k | 0 <= k < |w'.tasks| ensures TaskOk(w'.bpp, w'.tasks[k]) {
      GrowsKeeps(w.bpp, e.db, w.tasks[k], BapSteps.Done, Cancel(""));
    }
    forall k | 0 <= k < |w'.jobs| ensures JobOk(w'.bpp, w'.jobs[k]) {
      GrowsKeeps(w.bpp, e.db, Finished, w.jobs[k], Cancel(""));
    }
    forall m | m in w'.net ensures MsgOk(w'.bpp, m) {
      GrowsKeeps(w.bpp, e.db, Finished, BapSteps.Done, m);
    }
  }

  lemma BapRunsKeepsInv(w: World, i: nat, env: Env)
    requires Inv(w) && i < |w.jobs|
    ensures Inv(AfterBap(w, i, BapSteps.BapStep(w.bap, w.jobs[i], env)))
  {
    BapStepOk(w.bpp, w.bap, w.jobs[i], env);
  }

  lemma NextKeepsInv(quote: int -> int, w: World, l: Label)
    requires Inv(w)
    ensures Inv(Next(quote, w, l))
  {
    match l
    case BppRuns(i, env) =>
      if i < |w.tasks| {
        BppRunsKeepsInv(quote, w, i, env);
      }
    case BapRuns(i, env) =>
      if i < |w.jobs| {
        BapRunsKeepsInv(w, i, env);
      }
    case Deliver(m) =>
      if m in w.net && BapSteps.IsCallback(m) {
        assert JobOk(w.bpp, BapSteps.Callback(m));
      } else if m in w.net {
        assert TaskOk(w.bpp, Receive(m));
      }
    case Notify(invoice, requestId, amount) =>
      assert TaskOk(w.bpp, Notified(invoice, requestId, amount));
    case Frontend(call) =>
      assert JobOk(w.bpp, BapSteps.Start(call));
  }

  lemma {:induction false} RunKeepsInv(quote: int -> int, run: seq<Label>)
    ensures Inv(Run(quote, run))
  {
    if run != [] {
      RunKeepsInv(quote, run[..|run| - 1]);
      NextKeepsInv(quote, Run(quote, run[..|run| - 1]), run[|run| - 1]);
    }
  }

  /** In every run, every ACTIVE policy is paid, numbered, and covered for one year. */
  lemma NoIssueWithoutPayment(quote: int -> int, run: seq<Label>, t: Txn)
    requires t in Run(quote, run).bpp.policies
    ensures var row := Run(quote, run).bpp.policies[t];
      row.status == Active ==>
        row.paid && row.number.Some? && row.coverage.Some? && row.coverage.value.end == AddYear(row.coverage.value.start)
  {
    RunKeepsInv(quote, run);
  }

  // ---- When a settled transaction is settled at the insurer ----

  /** This step is the statement that marks the policy of t settled. */
  predicate MarkStep(w: World, l: Label, t: Txn) {
    l.BppRuns? && l.i < |w.tasks| && w.tasks[l.i].ReconcileSettle? && w.tasks[l.i].txn == t
  }

  /** Some marking statement for t succeeded during the run. */
  ghost predicate EverMarked(quote: int -> int, run: seq<Label>, t: Txn) {
    run != [] &&
    var before, l := run[..|run| - 1], run[|run| - 1];
    EverMarked(quote, before, t) || (MarkStep(Run(quote, before), l, t) && l.env.ok)
  }

  /** One step: a row is settled afterwards exactly if it was before or this step marks it. */
  lemma StepSettles(quote: int -> int, w: World, l: Label, t: Txn)
    requires Inv(w)
    ensures var db, after := w.bpp, Next(quote, w, l).bpp;
      (t in after.policies && after.policies[t].settled) <==>
      ((t in db.policies && db.policies[t].settled) || (MarkStep(w, l, t) && l.env.ok))
  {
    match l
    case BppRuns(i, env) =>
      if i < |w.tasks| {
        assert TaskOk(w.bpp, w.tasks[i]);
      }
    case _ =>
  }

  /** In every run, a policy is settled exactly if a marking statement for it succeeded, and it stays so. */
  lemma {:induction false} SettledIffMarked(quote: int -> int, run: seq<Label>, t: Txn)
    ensures var db := Run(quote, run).bpp;
      (t in db.policies && db.policies[t].settled) <==> EverMarked(quote, run, t)
  {
    if run != [] {
      var before := run[..|run| - 1];
      SettledIffMarked(quote, before, t);
      RunKeepsInv(quote, before);
      StepSettles(quote, Run(quote, before), run[|run| - 1], t);
    }
  }

  /** In every run, a transaction the buyer app ever recorded as SETTLED is paid and issued at the insurer, and
      it is settled there exactly if a marking statement for it succeeded; if none did, one failed. */
  lemma SettlementSafety(quote: int -> int, run: seq<Label>, t: Txn)
    requires Write(t, Settled) in Run(quote, run).bap.history
    ensures var db := Run(quote, run).bpp;
      && t in db.policies
      && db.policies[t].paid
      && db.policies[t].number.Some?
      && (db.policies[t].settled <==> EverMarked(quote, run, t))
      && (db.policies[t].settled || t in db.lostSettles)
  {
    RunKeepsInv(quote, run);
    SettledIffMarked(quote, run, t);
  }

  lemma {:induction false} NothingLost(quote: int -> int, run: seq<Label>, t: Txn)
    requires Along(quote, run, (w, l) => MarkStep(w, l, t) ==> l.env.ok)
    ensures t !in Run(quote, run).bpp.lostSettles
  {
    if run != [] {
      NothingLost(quote, run[..|run| - 1], t);
      LostByMarkOnly(quote, Run(quote, run[..|run| - 1]), run[|run| - 1], t);
    }
  }

  lemma LostByMarkOnly(quote: int -> int, w: World, l: Label, t: Txn)
    ensures t in Next(quote, w, l).bpp.lostSettles <==> t in w.bpp.lostSettles || (MarkStep(w, l, t) && !l.env.ok)
  {
  }

  /** As long as no marking statement for the transaction fails, SETTLED at the buyer app means settled at the
      insurer, whatever else fails. */
  lemma SettlementSafetyWithoutFaults(quote: int -> int, run: seq<Label>, t: Txn)
    requires Along(quote, run, (w, l) => MarkStep(w, l, t) ==> l.env.ok)
    requires Write(t, Settled) in Run(quote, run).bap.history
    ensures var db := Run(quote, run).bpp;
      t in db.policies && db.policies[t].paid && db.policies[t].number.Some? && db.policies[t].settled
  {
    SettlementSafety(quote, run, t);
    NothingLost(quote, run, t);
  }

  /** The current status of a buyer-app row is the last one written for it, so the same holds of a row
      that shows SETTLED now. */
  ghost predicate StatusRecorded(bap: BapDb) {
    forall t :: t in bap.transactions ==> Write(t, bap.transactions[t].status) in bap.history
  }

  lemma {:induction false} RunRecordsStatus(quote: int -> int, run: seq<Label>)
    ensures StatusRecorded(Run(quote, run).bap)
  {
    if run != [] {
      var w := Run(quote, run[..|run| - 1]);
      RunRecordsStatus(quote, run[..|run| - 1]);
      match run[|run| - 1]
      case BapRuns(i, env) =>
        if i < |w.jobs| {
          StepRecordsStatus(w.bap, w.jobs[i], env);
        }
      case _ =>
    }
  }

  lemma StepRecordsStatus(bap: BapDb, job: BapSteps.BapTask, env: Env)
    requires StatusRecorded(bap)
    ensures StatusRecorded(BapSteps.BapStep(bap, job, env).db)
  {
  }

  lemma SettledRowSafety(quote: int -> int, run: seq<Label>, t: Txn)
    requires var w := Run(quote, run); t in w.bap.transactions && w.bap.transactions[t].status == Settled
    ensures var db := Run(quote, run).bpp;
      && t in db.policies && db.policies[t].paid && db.policies[t].number.Some?
      && (db.policies[t].settled <==> EverMarked(quote, run, t))
  {
    RunRecordsStatus(quote, run);
    SettlementSafety(quote, run, t);
  }
}
