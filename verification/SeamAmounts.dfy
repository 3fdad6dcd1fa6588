/** One transaction, one amount: quote, stored payment amount, confirmation and release agree exactly when every
    amount that was not stored could be read back from the on_init. */
module SeamAmounts {
  import opened SeamTypes
  import opened Wrappers
  import opened BppSteps
  import opened SeamRun
  import SeamSafety
  import Premium
  import BapSteps

  /** The transaction under study, the insured value its inits carry, the quote for it, and the amounts that
      reconcile and release may carry. */
  datatype Deal = Deal(txn: Txn, idv: int, amount: int, allowed: set<int>)

  ghost predicate HasSnapshot(bap: BapDb, t: Txn) {
    exists i :: 0 <= i < |bap.snapshots| && bap.snapshots[i].OnInit? && bap.snapshots[i].txn == t
  }

  /** All inits of the transaction carry the same insured value. */
  predicate OneValue(l: Label, t: Txn, idv: int) {
    l.Frontend? && l.call.CallInit? && l.call.txn == t ==> l.call.idv == idv
  }

  /** This step reads an amount that was not stored back from the snapshots. */
  predicate SnapshotStep(w: World, l: Label, t: Txn) {
    l.BapRuns? && l.i < |w.jobs| && w.jobs[l.i].ReconSnapshot? && w.jobs[l.i].txn == t
  }

  /** Such a read succeeds and finds an on_init, or the quote is the fallback anyway. */
  ghost predicate FindsQuote(w: World, l: Label, t: Txn, amount: int) {
    SnapshotStep(w, l, t) ==> (l.env.ok && HasSnapshot(w.bap, t)) || amount == BapSteps.FALLBACK_AMOUNT
  }

  ghost predicate MsgAgrees(d: Deal, m: Msg) {
    m.txn == d.txn ==>
      match m
      case Init(_, _, _, idv) => idv == d.idv
      case OnInit(_, total) => total == d.amount
      case OnConfirm(_, Issued(_, _, total)) => total == d.amount
      case Reconcile(_, _, total) => total in d.allowed
      case _ => true
  }

  ghost predicate TaskAgrees(d: Deal, task: BppTask) {
    match task
    case InitInsert(t, _, idv) => t == d.txn ==> idv == d.idv
    case InitReply(t, total) => t == d.txn ==> total == d.amount
    case ConfirmCount(t, row, _) => t == d.txn ==> row.idv == d.idv
    case ConfirmIssue(t, row, _, _) => t == d.txn ==> row.idv == d.idv
    case ConfirmRecord(t, row, _, _, _) => t == d.txn ==> row.idv == d.idv
    case ConfirmReply(t, Issued(_, _, total)) => t == d.txn ==> total == d.amount
    case ReconcileRead(t, _, total) => t == d.txn ==> total in d.allowed
    case ReconcileRelease(t, _, total, _) => t == d.txn ==> total in d.allowed
    case _ => true
  }

  ghost predicate DbAgrees(d: Deal, db: BppDb) {
    && (d.txn in db.policies ==> db.policies[d.txn].idv == d.idv)
    && (forall i :: 0 <= i < |db.releases| && db.releases[i].invoice == Invoice(d.txn) ==> db.releases[i].amount in d.allowed)
  }

  ghost predicate JobAgrees(d: Deal, job: BapSteps.BapTask) {
    match job
    case CallUpsert(call) => call.CallInit? && call.txn == d.txn ==> call.idv == d.idv
    case CallSend(call) => call.CallInit? && call.txn == d.txn ==> call.idv == d.idv
    case OnInitFirst(m) => MsgAgrees(d, m)
    case OnInitCheckout(m) => MsgAgrees(d, m)
    case OnInitSaveRequest(m, _) => MsgAgrees(d, m)
    case OnInitSaveAmount(m, _) => MsgAgrees(d, m)
    case SaveSnapshot(m) => MsgAgrees(d, m)
    case WriteStatus(m) => MsgAgrees(d, m)
    case ReconUpsert(t, _, amount) => t == d.txn ==> amount in d.allowed
    case ReconSend(t, _, amount) => t == d.txn ==> amount in d.allowed
    case _ => true
  }

  ghost predicate RowAgrees(bap: BapDb, t: Txn, amount: int) {
    t in bap.transactions ==>
      var row := bap.transactions[t];
      row.invoice in {"", Invoice(t)} && row.amount == (if row.invoice == "" then 0 else amount)
  }

  ghost predicate BapAgrees(d: Deal, bap: BapDb) {
    && (forall i :: 0 <= i < |bap.snapshots| ==> MsgAgrees(d, bap.snapshots[i]))
    && RowAgrees(bap, d.txn, d.amount)
  }

  ghost predicate Inv(d: Deal, w: World) {
    && DbAgrees(d, w.bpp)
    && BapAgrees(d, w.bap)
    && (forall i :: 0 <= i < |w.tasks| ==> TaskAgrees(d, w.tasks[i]))
    && (forall i :: 0 <= i < |w.jobs| ==> JobAgrees(d, w.jobs[i]))
    && (forall m :: m in w.net ==> MsgAgrees(d, m))
  }

  /** The amount read back is one of the allowed ones. */
  ghost predicate ReadsAllowed(d: Deal, w: World, l: Label) {
    SnapshotStep(w, l, d.txn) ==> BapSteps.SnapshotAmount(w.bap.snapshots, d.txn, l.env.ok) in d.allowed
  }

  // ---- What the read of the snapshots gives ----

  lemma {:induction false} LatestAgrees(d: Deal, snapshots: seq<Msg>)
    requires forall i :: 0 <= i < |snapshots| ==> MsgAgrees(d, snapshots[i])
    ensures BapSteps.LatestTotal(snapshots, d.txn) ==
      if exists i :: 0 <= i < |snapshots| && snapshots[i].OnInit? && snapshots[i].txn == d.txn
      then Some(d.amount) else None
  {
    if snapshots != [] {
      var last, init := snapshots[|snapshots| - 1], snapshots[..|snapshots| - 1];
      assert MsgAgrees(d, last);
      LatestAgrees(d, init);
      if last.OnInit? && last.txn == d.txn {
        assert snapshots[|snapshots| - 1] == last;
      } else if i :| 0 <= i < |snapshots| && snapshots[i].OnInit? && snapshots[i].txn == d.txn {
        assert init[i] == snapshots[i];
      }
    }
  }

  /** The read gives the quote exactly when it succeeds and finds an on_init, or the quote is 500,000;
      otherwise it gives 500,000. */
  lemma SnapshotExact(d: Deal, bap: BapDb, ok: bool)
    requires BapAgrees(d, bap)
    ensures var amount := BapSteps.SnapshotAmount(bap.snapshots, d.txn, ok);
      && (amount == d.amount <==> (ok && HasSnapshot(bap, d.txn)) || d.amount == BapSteps.FALLBACK_AMOUNT)
      && amount in {d.amount, BapSteps.FALLBACK_AMOUNT}
  {
    LatestAgrees(d, bap.snapshots);
  }

  // ---- The invariant ----

  lemma BppStepAgrees(quote: int -> int, d: Deal, db: BppDb, task: BppTask, env: Env)
    requires d.amount == quote(d.idv) && d.amount in d.allowed
    requires DbAgrees(d, db) && TaskAgrees(d, task)
    requires SeamSafety.TaskOk(db, task)
    ensures var e := BppStep(quote, db, task, env);
      && DbAgrees(d, e.db)
      && TaskAgrees(d, e.task)
      && (forall m :: m in e.out ==> MsgAgrees(d, m))
  {
    if task.ReconcileRelease? && task.invoice == Invoice(d.txn) {
      InvoiceInjective(task.txn, d.txn);
    }
  }

  lemma BapStepAgrees(d: Deal, bap: BapDb, job: BapSteps.BapTask, env: Env)
    requires BapAgrees(d, bap) && JobAgrees(d, job) && d.amount in d.allowed
    requires job.ReconSnapshot? && job.txn == d.txn ==> BapSteps.SnapshotAmount(bap.snapshots, d.txn, env.ok) in d.allowed
    ensures var e := BapSteps.BapStep(bap, job, env);
      && BapAgrees(d, e.db)
      && JobAgrees(d, e.task)
      && (forall s :: s in e.spawned ==> JobAgrees(d, s))
      && (forall m :: m in e.out ==> MsgAgrees(d, m))
  {
  }

  lemma NextKeepsInv(quote: int -> int, d: Deal, w: World, l: Label)
    requires d.amount == quote(d.idv) && d.amount in d.allowed
    requires Inv(d, w) && SeamSafety.Inv(w) && OneValue(l, d.txn, d.idv) && ReadsAllowed(d, w, l)
    ensures Inv(d, Next(quote, w, l))
  {
    match l
    case BppRuns(i, env) =>
      if i < |w.tasks| {
        BppStepAgrees(quote, d, w.bpp, w.tasks[i], env);
      }
    case BapRuns(i, env) =>
      if i < |w.jobs| {
        BapStepAgrees(d, w.bap, w.jobs[i], env);
      }
    case Deliver(m) =>
      if m in w.net && BapSteps.IsCallback(m) {
        assert JobAgrees(d, BapSteps.Callback(m));
      } else if m in w.net {
        assert TaskAgrees(d, Receive(m));
      }
    case Notify(invoice, requestId, amount) =>
      assert TaskAgrees(d, Notified(invoice, requestId, amount));
    case Frontend(call) =>
      assert JobAgrees(d, BapSteps.Start(call));
  }

  /** With no assumption on the reads: the amounts are the quote or the fallback. */
  function Loose(quote: int -> int, t: Txn, idv: int): Deal {
    Deal(t, idv, quote(idv), {quote(idv), BapSteps.FALLBACK_AMOUNT})
  }

  function Strict(quote: int -> int, t: Txn, idv: int): Deal {
    Deal(t, idv, quote(idv), {quote(idv)})
  }

  lemma {:induction false} RunKeepsLoose(quote: int -> int, run: seq<Label>, t: Txn, idv: int)
    requires Along(quote, run, (w, l) => OneValue(l, t, idv))
    ensures Inv(Loose(quote, t, idv), Run(quote, run))
  {
    if run != [] {
      var before, l, d := run[..|run| - 1], run[|run| - 1], Loose(quote, t, idv);
      RunKeepsLoose(quote, before, t, idv);
      SeamSafety.RunKeepsInv(quote, before);
      if SnapshotStep(Run(quote, before), l, t) {
        SnapshotExact(d, Run(quote, before).bap, l.env.ok);
      }
      NextKeepsInv(quote, d, Run(quote, before), l);
    }
  }

  lemma {:induction false} RunKeepsStrict(quote: int -> int, run: seq<Label>, t: Txn, idv: int)
    requires Along(quote, run, (w, l) => OneValue(l, t, idv))
    requires Along(quote, run, (w, l) => FindsQuote(w, l, t, quote(idv)))
    ensures Inv(Strict(quote, t, idv), Run(quote, run))
  {
    if run != [] {
      var before, l, d := run[..|run| - 1], run[|run| - 1], Strict(quote, t, idv);
      RunKeepsStrict(quote, before, t, idv);
      SeamSafety.RunKeepsInv(quote, before);
      if SnapshotStep(Run(quote, before), l, t) {
        SnapshotExact(d, Run(quote, before).bap, l.env.ok);
      }
      NextKeepsInv(quote, d, Run(quote, before), l);
    }
  }

  // ---- The results ----

  /** Every amount of the transaction, sent, stored, released or about to be sent, is this number; no amount is
      stored before a checkout was. */
  ghost predicate AmountsAgree(w: World, t: Txn, amount: int) {
    && (forall total :: OnInit(t, total) in w.net ==> total == amount)
    && (forall n, c, total :: OnConfirm(t, Issued(n, c, total)) in w.net ==> total == amount)
    && RowAgrees(w.bap, t, amount)
    && (forall i :: 0 <= i < |w.jobs| && w.jobs[i].ReconUpsert? && w.jobs[i].txn == t ==> w.jobs[i].amount == amount)
    && (forall invoice, total :: Reconcile(t, invoice, total) in w.net ==> total == amount)
    && (forall i :: 0 <= i < |w.bpp.releases| && w.bpp.releases[i].invoice == Invoice(t) ==>
         w.bpp.releases[i].amount == amount)
  }

  /** With one insured value per transaction, and every amount that was not stored read back from an on_init, all
      amounts are the quote, checkout or not. */
  lemma AmountConservation(quote: int -> int, run: seq<Label>, t: Txn, idv: int)
    requires Along(quote, run, (w, l) => OneValue(l, t, idv))
    requires Along(quote, run, (w, l) => FindsQuote(w, l, t, quote(idv)))
    ensures AmountsAgree(Run(quote, run), t, quote(idv))
  {
    RunKeepsStrict(quote, run, t, idv);
    StrictAgrees(Strict(quote, t, idv), Run(quote, run));
  }

  lemma StrictAgrees(d: Deal, w: World)
    requires Inv(d, w) && d.allowed == {d.amount}
    ensures AmountsAgree(w, d.txn, d.amount)
  {
    assert forall m :: m in w.net ==> MsgAgrees(d, m);
    forall i | 0 <= i < |w.jobs| && w.jobs[i].ReconUpsert? && w.jobs[i].txn == d.txn ensures w.jobs[i].amount == d.amount {
      assert JobAgrees(d, w.jobs[i]);
    }
  }

  /** The amounts agree after every step of the run. */
  ghost predicate AgreeThroughout(quote: int -> int, run: seq<Label>, t: Txn, amount: int) {
    AmountsAgree(Run(quote, run), t, amount) && (run != [] ==> AgreeThroughout(quote, run[..|run| - 1], t, amount))
  }

  /** With one insured value per transaction, the amounts agree all along a run exactly when every read of the
      snapshots in it succeeds and finds an on_init, or the quote is the fallback. */
  lemma {:induction false} AmountsAgreeExactly(quote: int -> int, run: seq<Label>, t: Txn, idv: int)
    requires Along(quote, run, (w, l) => OneValue(l, t, idv))
    ensures AgreeThroughout(quote, run, t, quote(idv)) <==>
            Along(quote, run, (w, l) => FindsQuote(w, l, t, quote(idv)))
  {
    if run != [] {
      AmountsAgreeExactly(quote, run[..|run| - 1], t, idv);
    }
    if Along(quote, run, (w, l) => FindsQuote(w, l, t, quote(idv))) {
      AmountConservation(quote, run, t, idv);
    } else if run != [] && AgreeThroughout(quote, run, t, quote(idv)) {
      BadReadShows(quote, run[..|run| - 1], run[|run| - 1], t, idv);
      assert false;
    }
  }

  /** A read that misses the quote shows at once, in the reconcile being prepared. */
  lemma BadReadShows(quote: int -> int, before: seq<Label>, l: Label, t: Txn, idv: int)
    requires Along(quote, before, (w, l) => OneValue(l, t, idv))
    requires !FindsQuote(Run(quote, before), l, t, quote(idv))
    ensures !AmountsAgree(Next(quote, Run(quote, before), l), t, quote(idv))
  {
    var w := Run(quote, before);
    RunKeepsLoose(quote, before, t, idv);
    SnapshotExact(Loose(quote, t, idv), w.bap, l.env.ok);
    ReadPrepares(quote, w, l, t);
  }

  /** The amount read back goes into the reconcile being prepared. */
  lemma ReadPrepares(quote: int -> int, w: World, l: Label, t: Txn)
    requires SnapshotStep(w, l, t)
    ensures var jobs := Next(quote, w, l).jobs;
      && l.i < |jobs| && jobs[l.i].ReconUpsert? && jobs[l.i].txn == t
      && jobs[l.i].amount == BapSteps.SnapshotAmount(w.bap.snapshots, t, l.env.ok)
  {
  }

  /** In every run with one insured value per transaction, whatever fails and in whatever order, the on_init and
      on_confirm totals are the quote, and every reconcile and every release asks for the quote or for exactly
      500,000. */
  lemma QuoteOrFallback(quote: int -> int, run: seq<Label>, t: Txn, idv: int)
    requires Along(quote, run, (w, l) => OneValue(l, t, idv))
    ensures var w := Run(quote, run);
      && (forall total :: OnInit(t, total) in w.net ==> total == quote(idv))
      && (forall n, c, total :: OnConfirm(t, Issued(n, c, total)) in w.net ==> total == quote(idv))
      && RowAgrees(w.bap, t, quote(idv))
      && (forall invoice, total :: Reconcile(t, invoice, total) in w.net ==> total in {quote(idv), 500000})
      && (forall i :: 0 <= i < |w.bpp.releases| && w.bpp.releases[i].invoice == Invoice(t) ==>
           w.bpp.releases[i].amount in {quote(idv), 500000})
  {
    RunKeepsLoose(quote, run, t, idv);
    var d, w := Loose(quote, t, idv), Run(quote, run);
    assert forall m :: m in w.net ==> MsgAgrees(d, m);
  }

  /** With the tariff of the repository no release is below the fixed fees, and where every read finds an on_init
      each release is for the quoted total. */
  lemma ReleasedAtLeastFees(run: seq<Label>, t: Txn, idv: int, i: nat)
    requires idv >= 0
    requires Along(Premium.QuoteTotal, run, (w, l) => OneValue(l, t, idv))
    requires var db := Run(Premium.QuoteTotal, run).bpp; i < |db.releases| && db.releases[i].invoice == Invoice(t)
    ensures Run(Premium.QuoteTotal, run).bpp.releases[i].amount >= 160000
    ensures Along(Premium.QuoteTotal, run, (w, l) => FindsQuote(w, l, t, Premium.QuoteTotal(idv))) ==>
      Run(Premium.QuoteTotal, run).bpp.releases[i].amount == Premium.QuoteTotal(idv)
  {
    QuoteOrFallback(Premium.QuoteTotal, run, t, idv);
    Premium.QuotePositive(idv);
    if Along(Premium.QuoteTotal, run, (w, l) => FindsQuote(w, l, t, Premium.QuoteTotal(idv))) {
      AmountConservation(Premium.QuoteTotal, run, t, idv);
    }
  }

  // ---- An on_init handled first is enough ----

  /** An on_init was handled before an on_confirm arrives, and reading it back succeeds. */
  ghost predicate InitHandledFirst(w: World, l: Label, t: Txn) {
    && (l.Deliver? && l.msg.OnConfirm? && l.msg.txn == t ==> HasSnapshot(w.bap, t))
    && (SnapshotStep(w, l, t) ==> l.env.ok)
  }

  ghost predicate JobAfterInit(bap: BapDb, t: Txn, job: BapSteps.BapTask) {
    match job
    case SaveSnapshot(m) => m.OnConfirm? && m.txn == t ==> HasSnapshot(bap, t)
    case WriteStatus(m) => m.OnConfirm? && m.txn == t ==> HasSnapshot(bap, t)
    case OnInitFirst(m) => !m.OnConfirm?
    case OnInitCheckout(m) => !m.OnConfirm?
    case OnInitSaveRequest(m, _) => !m.OnConfirm?
    case OnInitSaveAmount(m, _) => !m.OnConfirm?
    case ReconRead(u) => u == t ==> HasSnapshot(bap, t)
    case ReconSnapshot(u, _) => u == t ==> HasSnapshot(bap, t)
    case _ => true
  }

  ghost predicate JobsAfterInit(w: World, t: Txn) {
    forall i :: 0 <= i < |w.jobs| ==> JobAfterInit(w.bap, t, w.jobs[i])
  }

  lemma SnapshotsKept(bap: BapDb, job: BapSteps.BapTask, env: Env, t: Txn)
    requires HasSnapshot(bap, t)
    ensures HasSnapshot(BapSteps.BapStep(bap, job, env).db, t)
  {
    var i :| 0 <= i < |bap.snapshots| && bap.snapshots[i].OnInit? && bap.snapshots[i].txn == t;
    var after := BapSteps.BapStep(bap, job, env).db;
    assert after.snapshots[i] == bap.snapshots[i];
  }

  lemma StepAfterInit(bap: BapDb, job: BapSteps.BapTask, env: Env, t: Txn)
    requires JobAfterInit(bap, t, job)
    ensures var e := BapSteps.BapStep(bap, job, env);
      && (HasSnapshot(bap, t) ==> HasSnapshot(e.db, t))
      && JobAfterInit(e.db, t, e.task)
      && forall s :: s in e.spawned ==> JobAfterInit(e.db, t, s)
  {
    if HasSnapshot(bap, t) {
      SnapshotsKept(bap, job, env, t);
    }
  }

  lemma AfterInitKept(a: BapDb, b: BapDb, t: Txn, job: BapSteps.BapTask)
    requires JobAfterInit(a, t, job) && (HasSnapshot(a, t) ==> HasSnapshot(b, t))
    ensures JobAfterInit(b, t, job)
  {
  }

  lemma BapRunsAfterInit(w: World, i: nat, env: Env, t: Txn)
    requires i < |w.jobs| && JobsAfterInit(w, t)
    ensures JobsAfterInit(AfterBap(w, i, BapSteps.BapStep(w.bap, w.jobs[i], env)), t)
  {
    var e := BapSteps.BapStep(w.bap, w.jobs[i], env);
    var w' := AfterBap(w, i, e);
    StepAfterInit(w.bap, w.jobs[i], env, t);
    forall k | 0 <= k < |w'.jobs| ensures JobAfterInit(w'.bap, t, w'.jobs[k]) {
      if k < |w.jobs| && k != i {
        AfterInitKept(w.bap, e.db, t, w.jobs[k]);
      }
    }
  }

  lemma NextKeepsAfterInit(quote: int -> int, w: World, l: Label, t: Txn)
    requires InitHandledFirst(w, l, t) && JobsAfterInit(w, t)
    ensures JobsAfterInit(Next(quote, w, l), t)
  {
    match l
    case BapRuns(i, env) =>
      if i < |w.jobs| {
        BapRunsAfterInit(w, i, env, t);
      }
    case Deliver(m) =>
      if m in w.net && BapSteps.IsCallback(m) {
        assert JobAfterInit(w.bap, t, BapSteps.Callback(m));
      }
    case Frontend(call) =>
      assert JobAfterInit(w.bap, t, BapSteps.Start(call));
    case _ =>
  }

  /** When an on_init was handled before each on_confirm and the reads succeed, every read finds the quote. */
  lemma {:induction false} InitHandledFirstSuffices(quote: int -> int, run: seq<Label>, t: Txn, amount: int)
    requires Along(quote, run, (w, l) => InitHandledFirst(w, l, t))
    ensures Along(quote, run, (w, l) => FindsQuote(w, l, t, amount))
    ensures JobsAfterInit(Run(quote, run), t)
  {
    if run != [] {
      var before := run[..|run| - 1];
      InitHandledFirstSuffices(quote, before, t, amount);
      NextKeepsAfterInit(quote, Run(quote, before), run[|run| - 1], t);
    }
  }
}
