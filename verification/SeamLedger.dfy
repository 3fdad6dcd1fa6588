/** The money trail: what payment rows and release requests say about the policies, over every run. */
module SeamLedger {
  import opened SeamTypes
  import opened BppSteps
  import opened SeamRun
  import SeamSafety

  /** The transaction an invoice names. */
  function TxnOf(invoice: string): Txn {
    if |invoice| >= 4 then invoice[4..] else ""
  }

  lemma TxnOfInvoice(t: Txn)
    ensures TxnOf(Invoice(t)) == t
  {
  }

  /** A payment row names the invoice of a paid policy and refers to that policy's row. */
  ghost predicate PaymentOk(db: BppDb, p: PaymentRow) {
    var t := TxnOf(p.ref);
    p.ref == Invoice(t) && t in db.policies && db.policies[t].id == p.policyId && db.policies[t].paid
  }

  /** A release request names the invoice of a policy that is paid and issued. */
  ghost predicate ReleaseOk(db: BppDb, r: Release) {
    var t := TxnOf(r.invoice);
    r.invoice == Invoice(t) && SeamSafety.IssuedAt(db, t)
  }

  ghost predicate DbOk(db: BppDb) {
    && (forall t :: t in db.policies ==> db.policies[t].invoice == Invoice(t) && db.policies[t].id < db.nextId)
    && (forall t, u :: t in db.policies && u in db.policies && t != u ==> db.policies[t].id != db.policies[u].id)
    && (forall i :: 0 <= i < |db.payments| ==> PaymentOk(db, db.payments[i]))
    && (forall i :: 0 <= i < |db.releases| ==> ReleaseOk(db, db.releases[i]))
  }

  /** What a handler remembers of the row it read. */
  ghost predicate TaskOk(db: BppDb, task: BppTask) {
    match task
    case ConfirmCount(t, row, _) => Remembers(db, t, row.id, row.invoice)
    case ConfirmIssue(t, row, _, _) => Remembers(db, t, row.id, row.invoice)
    case ConfirmRecord(t, row, _, _, _) => Remembers(db, t, row.id, row.invoice)
    case PayMark(t, id, _, _) => Remembers(db, t, id, Invoice(t))
    case PayRecord(t, id, _) => Remembers(db, t, id, Invoice(t)) && db.policies[t].paid
    case _ => true
  }

  ghost predicate Remembers(db: BppDb, t: Txn, id: nat, invoice: string) {
    t in db.policies && db.policies[t].id == id && invoice == Invoice(t)
  }

  /** Rows stay, keep their ids, and stay paid and issued. */
  ghost predicate RowsStay(a: BppDb, b: BppDb) {
    forall t :: t in a.policies ==>
      && t in b.policies && b.policies[t].id == a.policies[t].id
      && (a.policies[t].paid ==> b.policies[t].paid)
      && (a.policies[t].number.Some? ==> b.policies[t].number.Some?)
  }

  /** One row after a step: an old row keeps its id, a new row takes the next one. */
  lemma RowAfter(quote: int -> int, db: BppDb, task: BppTask, env: Env, t: Txn)
    requires t in db.policies ==> db.policies[t].invoice == Invoice(t) && db.policies[t].id < db.nextId
    ensures var after := BppStep(quote, db, task, env).db;
      && db.nextId <= after.nextId
      && (t in db.policies ==> t in after.policies && after.policies[t].id == db.policies[t].id)
      && (t in after.policies ==> after.policies[t].invoice == Invoice(t) && after.policies[t].id < after.nextId)
      && (t in after.policies && t !in db.policies ==>
           task.InitInsert? && task.txn == t && after.policies[t].id == db.nextId)
  {
  }

  lemma StepKeepsRows(quote: int -> int, db: BppDb, task: BppTask, env: Env)
    requires DbOk(db)
    ensures var after := BppStep(quote, db, task, env).db;
      && RowsStay(db, after)
      && (forall t :: t in after.policies ==> after.policies[t].invoice == Invoice(t) && after.policies[t].id < after.nextId)
      && (forall t, u :: t in after.policies && u in after.policies && t != u ==> after.policies[t].id != after.policies[u].id)
  {
    SeamSafety.BppStepGrows(quote, db, task, env);
    forall t: Txn
      ensures var after := BppStep(quote, db, task, env).db;
        && (t in db.policies ==> t in after.policies && after.policies[t].id == db.policies[t].id)
        && (t in after.policies ==> after.policies[t].invoice == Invoice(t) && after.policies[t].id < after.nextId)
        && (t in after.policies && t !in db.policies ==>
             task.InitInsert? && task.txn == t && after.policies[t].id == db.nextId)
    {
      RowAfter(quote, db, task, env, t);
    }
  }

  /** The rows a step appends. */
  lemma StepAppends(quote: int -> int, db: BppDb, task: BppTask, env: Env)
    requires TaskOk(db, task) && SeamSafety.TaskOk(db, task)
    ensures var after := BppStep(quote, db, task, env).db;
      && |db.payments| <= |after.payments| && after.payments[..|db.payments|] == db.payments
      && |db.releases| <= |after.releases| && after.releases[..|db.releases|] == db.releases
      && (forall i :: |db.payments| <= i < |after.payments| ==> PaymentOk(after, after.payments[i]))
      && (forall i :: |db.releases| <= i < |after.releases| ==> ReleaseOk(after, after.releases[i]))
  {
    if !task.Finished? {
      TxnOfInvoice(task.txn);
    }
  }

  lemma StepKeepsDb(quote: int -> int, db: BppDb, task: BppTask, env: Env)
    requires DbOk(db) && TaskOk(db, task) && SeamSafety.TaskOk(db, task)
    ensures DbOk(BppStep(quote, db, task, env).db)
  {
    StepKeepsRows(quote, db, task, env);
    StepAppends(quote, db, task, env);
    var after := BppStep(quote, db, task, env).db;
    forall i | 0 <= i < |after.payments| ensures PaymentOk(after, after.payments[i]) {
      if i < |db.payments| {
        assert after.payments[i] == db.payments[i] && PaymentOk(db, db.payments[i]);
      }
    }
    forall i | 0 <= i < |after.releases| ensures ReleaseOk(after, after.releases[i]) {
      if i < |db.releases| {
        assert after.releases[i] == db.releases[i] && ReleaseOk(db, db.releases[i]);
      }
    }
  }

  lemma NextTaskOk(quote: int -> int, db: BppDb, task: BppTask, env: Env)
    requires DbOk(db) && TaskOk(db, task)
    ensures var e := BppStep(quote, db, task, env); TaskOk(e.db, e.task)
  {
  }

  ghost predicate Inv(w: World) {
    DbOk(w.bpp) && forall i :: 0 <= i < |w.tasks| ==> TaskOk(w.bpp, w.tasks[i])
  }

  lemma StayKeepsTask(a: BppDb, b: BppDb, task: BppTask)
    requires RowsStay(a, b) && TaskOk(a, task)
    ensures TaskOk(b, task)
  {
  }

  lemma BppRunsKeepsInv(quote: int -> int, w: World, i: nat, env: Env)
    requires SeamSafety.Inv(w) && Inv(w) && i < |w.tasks|
    ensures Inv(AfterBpp(w, i, BppStep(quote, w.bpp, w.tasks[i], env)))
  {
    var e := BppStep(quote, w.bpp, w.tasks[i], env);
    var w' := AfterBpp(w, i, e);
    StepKeepsDb(quote, w.bpp, w.tasks[i], env);
    StepKeepsRows(quote, w.bpp, w.tasks[i], env);
    NextTaskOk(quote, w.bpp, w.tasks[i], env);
    forall k | 0 <= k < |w'.tasks| ensures TaskOk(w'.bpp, w'.tasks[k]) {
      StayKeepsTask(w.bpp, e.db, w.tasks[k]);
    }
  }

  lemma NextKeepsInv(quote: int -> int, w: World, l: Label)
    requires SeamSafety.Inv(w) && Inv(w)
    ensures Inv(Next(quote, w, l))
  {
    match l
    case BppRuns(i, env) =>
      if i < |w.tasks| {
        BppRunsKeepsInv(quote, w, i, env);
      }
    case Deliver(m) =>
      assert TaskOk(w.bpp, Receive(m));
    case Notify(invoice, requestId, amount) =>
      assert TaskOk(w.bpp, Notified(invoice, requestId, amount));
    case _ =>
  }

  lemma {:induction false} RunKeepsInv(quote: int -> int, run: seq<Label>)
    ensures Inv(Run(quote, run))
  {
    if run != [] {
      RunKeepsInv(quote, run[..|run| - 1]);
      SeamSafety.RunKeepsInv(quote, run[..|run| - 1]);
      NextKeepsInv(quote, Run(quote, run[..|run| - 1]), run[|run| - 1]);
    }
  }

  /** In any state, whatever else is running, a step of a payment handler for t sends nothing, changes no row but
      that of t and there only the payment fields, never unmarks a payment, and stays a payment handler for t. */
  lemma PaymentTouchesOneRow(quote: int -> int, w: World, i: nat, env: Env, t: Txn)
    requires i < |w.tasks| && IsPayment(w.tasks[i], t)
    ensures var w' := Next(quote, w, BppRuns(i, env));
      && w'.bap == w.bap && w'.net == w.net && w'.jobs == w.jobs
      && |w'.tasks| == |w.tasks| && (forall k :: 0 <= k < |w.tasks| && k != i ==> w'.tasks[k] == w.tasks[k])
      && (w'.tasks[i].Finished? || IsPayment(w'.tasks[i], t))
      && w'.bpp.policies.Keys == w.bpp.policies.Keys
      && (forall other :: other in w.bpp.policies && other != t ==> w'.bpp.policies[other] == w.bpp.policies[other])
      && (t in w.bpp.policies ==>
           var row, row' := w.bpp.policies[t], w'.bpp.policies[t];
           row' == row.(paid := row'.paid, requestId := row'.requestId) && (row.paid ==> row'.paid))
  {
    PaymentStep(quote, w.bpp, w.tasks[i], env, t);
    forall other | other in w.bpp.policies && other != t
      ensures Next(quote, w, BppRuns(i, env)).bpp.policies[other] == w.bpp.policies[other]
    {
      StepTouchesOwnRow(quote, w.bpp, w.tasks[i], env, other);
    }
  }

  /** In every run, each payment row belongs to exactly one policy, whose invoice it names and which is paid. */
  lemma PaymentsBelong(quote: int -> int, run: seq<Label>, i: nat)
    requires i < |Run(quote, run).bpp.payments|
    ensures var db := Run(quote, run).bpp;
      var p := db.payments[i];
      exists t :: t in db.policies && db.policies[t].id == p.policyId && db.policies[t].paid && p.ref == Invoice(t) &&
        forall u :: u in db.policies && db.policies[u].id == p.policyId ==> u == t
  {
    RunKeepsInv(quote, run);
    var db := Run(quote, run).bpp;
    assert PaymentOk(db, db.payments[i]);
    assert TxnOf(db.payments[i].ref) in db.policies;
  }

  /** In every run, funds are only ever asked to be released for the invoice of a policy that is paid and issued. */
  lemma NoReleaseWithoutIssue(quote: int -> int, run: seq<Label>, r: Release)
    requires r in Run(quote, run).bpp.releases
    ensures var db := Run(quote, run).bpp;
      exists t :: t in db.policies && r.invoice == Invoice(t) && db.policies[t].paid && db.policies[t].number.Some?
  {
    RunKeepsInv(quote, run);
    var db := Run(quote, run).bpp;
    var i :| 0 <= i < |db.releases| && db.releases[i] == r;
    assert ReleaseOk(db, db.releases[i]);
    assert TxnOf(r.invoice) in db.policies;
  }

  // ---- How often an invoice is released ----

  function One(b: bool): nat {
    if b then 1 else 0
  }

  /** The release requests for the invoice of t. */
  function ReleasesFor(releases: seq<Release>, t: Txn): nat {
    if releases == [] then 0
    else ReleasesFor(releases[..|releases| - 1], t) + One(releases[|releases| - 1].invoice == Invoice(t))
  }

  /** A reconcile handler for t that has not yet sent its request. */
  predicate BeforeRelease(task: BppTask, t: Txn) {
    (task.ReconcileRead? || task.ReconcileRelease?) && task.txn == t
  }

  function Waiting(tasks: seq<BppTask>, t: Txn): nat {
    if tasks == [] then 0 else Waiting(tasks[..|tasks| - 1], t) + One(BeforeRelease(tasks[|tasks| - 1], t))
  }

  /** A reconcile message for t is delivered. */
  predicate DeliversReconcile(w: World, l: Label, t: Txn) {
    l.Deliver? && l.msg in w.net && l.msg.Reconcile? && l.msg.txn == t
  }

  function Deliveries(quote: int -> int, run: seq<Label>, t: Txn): nat {
    if run == [] then 0
    else
      var before := run[..|run| - 1];
      Deliveries(quote, before, t) + One(DeliversReconcile(Run(quote, before), run[|run| - 1], t))
  }

  lemma WaitingAppend(tasks: seq<BppTask>, task: BppTask, t: Txn)
    ensures Waiting(tasks + [task], t) == Waiting(tasks, t) + One(BeforeRelease(task, t))
  {
    assert (tasks + [task])[..|tasks|] == tasks;
  }

  lemma {:induction false} WaitingUpdate(tasks: seq<BppTask>, i: nat, task: BppTask, t: Txn)
    requires i < |tasks|
    ensures Waiting(tasks[i := task], t) + One(BeforeRelease(tasks[i], t)) == Waiting(tasks, t) + One(BeforeRelease(task, t))
  {
    var last, after := |tasks| - 1, tasks[i := task];
    if i == last {
      assert after[..last] == tasks[..last];
    } else {
      assert after[..last] == tasks[..last][i := task];
      WaitingUpdate(tasks[..last], i, task, t);
    }
  }

  lemma ReleasesAppend(releases: seq<Release>, r: Release, t: Txn)
    ensures ReleasesFor(releases + [r], t) == ReleasesFor(releases, t) + One(r.invoice == Invoice(t))
  {
    assert (releases + [r])[..|releases|] == releases;
  }

  /** A handler's step trades its place before the release for one release of its own invoice. */
  lemma StepReleases(quote: int -> int, db: BppDb, task: BppTask, env: Env, t: Txn)
    requires SeamSafety.TaskOk(db, task)
    ensures var e := BppStep(quote, db, task, env);
      ReleasesFor(e.db.releases, t) + One(BeforeRelease(e.task, t)) ==
      ReleasesFor(db.releases, t) + One(BeforeRelease(task, t))
  {
    if task.ReconcileRelease? {
      var r := Release(task.invoice, task.requestId, task.total);
      ReleasesAppend(db.releases, r, t);
      if Invoice(task.txn) == Invoice(t) {
        InvoiceInjective(task.txn, t);
      }
    } else {
      OtherStepsRelease(quote, db, task, env, t);
    }
  }

  lemma OtherStepsRelease(quote: int -> int, db: BppDb, task: BppTask, env: Env, t: Txn)
    requires !task.ReconcileRelease?
    ensures var e := BppStep(quote, db, task, env);
      e.db.releases == db.releases && BeforeRelease(e.task, t) == BeforeRelease(task, t)
  {
  }

  lemma BppRunsReleases(quote: int -> int, w: World, i: nat, env: Env, t: Txn)
    requires SeamSafety.Inv(w) && i < |w.tasks|
    ensures var e := BppStep(quote, w.bpp, w.tasks[i], env);
      ReleasesFor(e.db.releases, t) + Waiting(w.tasks[i := e.task], t) == ReleasesFor(w.bpp.releases, t) + Waiting(w.tasks, t)
  {
    assert SeamSafety.TaskOk(w.bpp, w.tasks[i]);
    StepReleases(quote, w.bpp, w.tasks[i], env, t);
    WaitingUpdate(w.tasks, i, BppStep(quote, w.bpp, w.tasks[i], env).task, t);
  }

  lemma NextReleases(quote: int -> int, w: World, l: Label, t: Txn)
    requires SeamSafety.Inv(w)
    ensures var w' := Next(quote, w, l);
      ReleasesFor(w'.bpp.releases, t) + Waiting(w'.tasks, t) ==
      ReleasesFor(w.bpp.releases, t) + Waiting(w.tasks, t) + One(DeliversReconcile(w, l, t))
  {
    match l
    case BppRuns(i, env) =>
      if i < |w.tasks| {
        BppRunsReleases(quote, w, i, env, t);
      }
    case Deliver(m) =>
      WaitingAppend(w.tasks, Receive(m), t);
    case Notify(invoice, requestId, amount) =>
      WaitingAppend(w.tasks, Notified(invoice, requestId, amount), t);
    case _ =>
  }

  /** In every run, the releases requested for the invoice of t, plus the reconcile handlers for t still before
      their request, are exactly the deliveries of reconcile messages for t, duplicates included. */
  lemma {:induction false} ReleasesExactly(quote: int -> int, run: seq<Label>, t: Txn)
    ensures var w := Run(quote, run);
      ReleasesFor(w.bpp.releases, t) + Waiting(w.tasks, t) == Deliveries(quote, run, t)
  {
    if run != [] {
      var before := run[..|run| - 1];
      ReleasesExactly(quote, before, t);
      SeamSafety.RunKeepsInv(quote, before);
      NextReleases(quote, Run(quote, before), run[|run| - 1], t);
    }
  }
}
