/** The insurer's service as written: handlers that read a row, decide, and update tables in place.
    Each handler is proved equal to its step sequence run without interference. */
module BecknServiceModule {
  import opened Calendar
  import opened PolicyNumber
  import opened SeamTypes
  import opened Wrappers
  import opened BppSteps
  import opened PolicyReports
  import SeamSafety
  import SeamStages

  class BecknService {
    const quote: int -> int
    var policies: map<Txn, PolicyRow>
    var payments: seq<PaymentRow>
    var nextId: nat
    var releases: seq<Release>
    ghost var lostSettles: set<Txn>
    var sent: set<Msg>

    constructor (quote: int -> int)
      ensures this.quote == quote && sent == {}
      ensures Db() == BppDb(map[], [], 1, [], {})
    {
      this.quote := quote;
      policies, payments, nextId, releases, lostSettles, sent := map[], [], 1, [], {}, {};
    }

    ghost function Db(): BppDb
      reads this
    {
      BppDb(policies, payments, nextId, releases, lostSettles)
    }

    /** The state and the messages after a handler, in terms of its step sequence. */
    twostate predicate Ran(task: BppTask, env: nat -> Env)
      reads this
    {
      var outcome := Complete(quote, old(Db()), task, env, 0);
      Db() == outcome.db && sent == old(sent) + outcome.out
    }

    method HandleInit(t: Txn, bapId: string, nik: string, idv: int, env: nat -> Env)
      modifies this
      ensures Ran(Receive(Init(t, bapId, nik, idv)), env)
    {
      if !NikAccepted(nik) {
        return;
      }
      var total := quote(idv);
      if !env(0).ok {
        return;
      }
      if t in policies {
        policies := policies[t := policies[t].(status := PendingIssuance, invoice := Invoice(t))];
      } else {
        policies := policies[t :=
          PolicyRow(nextId, bapId, PendingIssuance, idv, None, None, false, "", Invoice(t), false)];
      }
      nextId := nextId + 1;
      FirstStep(quote, Db(), InitReply(t, total), env, 1);
      sent := sent + {OnInit(t, total)};
    }

    method HandleConfirm(t: Txn, paidAmount: int, env: nat -> Env)
      modifies this
      ensures Ran(Receive(Confirm(t, paidAmount)), env)
    {
      ConfirmCompletes(quote, Db(), t, paidAmount, env);
      if !env(0).ok || t !in policies {
        return;
      }
      var row := policies[t];
      var total := quote(row.idv);
      var number, coverage;
      if row.status == Active {
        number, coverage := row.number, row.coverage;
      } else {
        if !row.paid {
          sent := sent + {OnConfirm(t, Rejected)};
          return;
        }
        var seqNum := 0;
        if env(1).ok {
          seqNum := CountActive();
        }
        seqNum := seqNum + 1;
        if !env(2).ok {
          return;
        }
        number := Some(PolicyNo(env(2).year, seqNum));
        coverage := Some(Coverage(env(2).now, AddYear(env(2).now)));
        policies := policies[t := policies[t].(status := Active, number := number, coverage := coverage)];
        if env(3).ok {
          payments := payments + [PaymentRow(row.id, row.invoice, paidAmount)];
        }
      }
      sent := sent + {OnConfirm(t, Issued(number, coverage, total))};
    }

    /** SELECT COUNT(*) FROM policies WHERE status='ACTIVE' */
    method CountActive() returns (n: nat)
      ensures n == ActiveCount(Db())
    {
      n := |set t | t in policies && policies[t].status == Active|;
    }

    /** The stage shown while the frontend polls; 0 when the policy is not found. */
    method GetPaymentStatus(t: Txn) returns (seamStage: nat)
      ensures seamStage == StageAt(Db(), t)
      ensures t !in policies ==> seamStage == 0
      ensures t in policies && SeamSafety.RowOk(policies[t]) ==> SeamStages.StageTellsState(policies[t], seamStage)
    {
      if t !in policies {
        return 0;
      }
      var row := policies[t];
      seamStage := 1;
      if row.paid && row.status != Active {
        seamStage := 2;
      } else if row.status == Active && !row.settled {
        seamStage := 3;
      } else if row.settled {
        seamStage := 5;
      }
    }

    method GetDashboardStats() returns (stats: Stats)
      ensures stats == Dashboard(Db())
      ensures SeamSafety.RowsOk(Db()) ==> SeamStages.CountsAddUp(Db(), stats)
    {
      var active := |set t | t in policies && policies[t].status == Active|;
      var all := |policies|;
      var paymentPending := |set t | t in policies && !policies[t].paid && policies[t].status == PendingIssuance|;
      var paymentReceived := |set t | t in policies && policies[t].paid|;
      var settled := |set t | t in policies && policies[t].settled|;
      var pending := |set t | t in policies && !policies[t].settled && policies[t].status == Active|;
      stats := Stats(active, all, paymentPending, paymentReceived, settled, pending);
      if SeamSafety.RowsOk(Db()) {
        SeamStages.DashboardOfTable(Db());
      }
    }

    method HandlePaymentReceived(invoice: string, requestId: string, amount: int, env: nat -> Env)
      modifies this
      ensures Ran(Notified(invoice, requestId, amount), env)
      ensures (|invoice| >= 4 && invoice[..4] == "ins-" && env(0).ok && env(1).ok &&
               invoice[4..] in old(policies) && old(policies)[invoice[4..]].status != Active) ==>
        && invoice[4..] in policies
        && var row, before := policies[invoice[4..]], old(policies)[invoice[4..]];
           row.paid && row.requestId == if requestId != "" then requestId else before.requestId
    {
      if !(|invoice| >= 4 && invoice[..4] == "ins-") {
        return;
      }
      var t := invoice[4..];
      assert invoice == Invoice(t);
      PaymentCompletes(quote, Db(), t, requestId, amount, env);
      if !env(0).ok || t !in policies {
        return;
      }
      var policyId := policies[t].id;
      if policies[t].status == Active {
        return;
      }
      if !env(1).ok {
        return;
      }
      if requestId != "" {
        policies := policies[t := policies[t].(paid := true, requestId := requestId)];
      } else {
        policies := policies[t := policies[t].(paid := true)];
      }
      if env(2).ok {
        payments := payments + [PaymentRow(policyId, invoice, amount)];
      }
    }

    method HandleReconcile(t: Txn, invoice: string, total: int, env: nat -> Env)
      modifies this
      ensures Ran(Receive(Reconcile(t, invoice, total)), env)
    {
      var invoiceNumber, totalAmount := invoice, total;
      if invoiceNumber == "" {
        invoiceNumber := Invoice(t);
      }
      ReconcileCompletes(quote, Db(), t, invoiceNumber, total, env);
      var requestId, idv := "", 0;
      if env(0).ok && t in policies {
        requestId, idv := policies[t].requestId, policies[t].idv;
      }
      if totalAmount == 0 && idv > 0 {
        totalAmount := quote(idv);
      }
      releases := releases + [Release(invoiceNumber, requestId, totalAmount)];
      if env(2).ok {
        if t in policies {
          policies := policies[t := policies[t].(settled := true)];
        }
      } else {
        lostSettles := lostSettles + {t};
      }
      sent := sent + {OnReconcile(t, invoiceNumber)};
    }

    method HandleCancel(t: Txn, env: nat -> Env)
      modifies this
      ensures Ran(Receive(Cancel(t)), env)
    {
      CancelCompletes(quote, Db(), t, env);
      if env(0).ok && t in policies && policies[t].status == PendingIssuance {
        policies := policies[t := policies[t].(status := Cancelled)];
      }
      sent := sent + {OnCancel(t)};
    }
  }

  // ---- What each handler does when nothing interferes ----

  /** A confirm: nothing for an unknown policy, the stored number again for an ACTIVE one, a rejection for an
      unpaid one, and an issuance with the next number for a paid one. */
  function ConfirmOutcome(quote: int -> int, db: BppDb, t: Txn, paidAmount: int, env: nat -> Env): BppOutcome {
    if !env(0).ok || t !in db.policies then BppOutcome(db, {})
    else
      var row := db.policies[t];
      if row.status == Active then BppOutcome(db, {OnConfirm(t, Issued(row.number, row.coverage, quote(row.idv)))})
      else if !row.paid then BppOutcome(db, {OnConfirm(t, Rejected)})
      else IssueOutcome(quote, db, t, row, paidAmount, env)
  }

  function IssueOutcome(quote: int -> int, db: BppDb, t: Txn, row: PolicyRow, paidAmount: int, env: nat -> Env): BppOutcome {
    var number := PolicyNo(env(2).year, (if env(1).ok then ActiveCount(db) else 0) + 1);
    var coverage := Coverage(env(2).now, AddYear(env(2).now));
    if !env(2).ok then BppOutcome(db, {})
    else
      BppOutcome(AddPayment(IssuePolicy(db, t, number, coverage), row.id, row.invoice, paidAmount, env(3).ok),
                 {OnConfirm(t, Issued(Some(number), Some(coverage), quote(row.idv)))})
  }

  lemma ConfirmCompletes(quote: int -> int, db: BppDb, t: Txn, paidAmount: int, env: nat -> Env)
    ensures Complete(quote, db, ConfirmRead(t, paidAmount), env, 0) == ConfirmOutcome(quote, db, t, paidAmount, env)
  {
    var e := BppStep(quote, db, ConfirmRead(t, paidAmount), env(0));
    FirstStep(quote, db, ConfirmRead(t, paidAmount), env, 0);
    if e.task.ConfirmCount? {
      IssueCompletes(quote, db, t, e.task.row, paidAmount, env);
    } else {
      ReplyCompletes(quote, db, e.task, env);
    }
  }

  lemma IssueCompletes(quote: int -> int, db: BppDb, t: Txn, row: PolicyRow, paidAmount: int, env: nat -> Env)
    ensures Complete(quote, db, ConfirmCount(t, row, paidAmount), env, 1) == IssueOutcome(quote, db, t, row, paidAmount, env)
  {
    if env(2).ok {
      IssueSucceeds(quote, db, t, row, paidAmount, env);
    } else {
      IssueFails(quote, db, t, row, paidAmount, env);
    }
  }

  lemma ReplyCompletes(quote: int -> int, db: BppDb, task: BppTask, env: nat -> Env)
    requires task.ConfirmReply? || task.ConfirmReject? || task.Finished?
    ensures Complete(quote, db, task, env, 1) == BppOutcome(db, BppStep(quote, db, task, env(1)).out)
  {
    FirstStep(quote, db, task, env, 1);
    FirstStep(quote, db, Finished, env, 2);
  }

  /** A payment: ignored for an unknown or ACTIVE policy, else the row is marked paid and a payment recorded. */
  lemma PaymentCompletes(quote: int -> int, db: BppDb, t: Txn, requestId: string, amount: int, env: nat -> Env)
    ensures Complete(quote, db, PayRead(t, requestId, amount), env, 0) ==
      BppOutcome(if !env(0).ok || t !in db.policies || db.policies[t].status == Active || !env(1).ok then db
                 else AddPayment(MarkPaid(db, t, requestId), db.policies[t].id, Invoice(t), amount, env(2).ok), {})
  {
    FirstStep(quote, db, PayRead(t, requestId, amount), env, 0);
    if env(0).ok && t in db.policies && db.policies[t].status != Active {
      MarkCompletes(quote, db, t, db.policies[t].id, requestId, amount, env);
    } else {
      FirstStep(quote, db, Finished, env, 1);
    }
  }

  lemma MarkCompletes(quote: int -> int, db: BppDb, t: Txn, policyId: nat, requestId: string, amount: int, env: nat -> Env)
    ensures Complete(quote, db, PayMark(t, policyId, requestId, amount), env, 1) ==
      BppOutcome(if env(1).ok then AddPayment(MarkPaid(db, t, requestId), policyId, Invoice(t), amount, env(2).ok) else db, {})
  {
    var e1 := BppStep(quote, db, PayMark(t, policyId, requestId, amount), env(1));
    FirstStep(quote, db, PayMark(t, policyId, requestId, amount), env, 1);
    FirstStep(quote, e1.db, e1.task, env, 2);
    FirstStep(quote, BppStep(quote, e1.db, e1.task, env(2)).db, Finished, env, 3);
  }

  lemma CancelCompletes(quote: int -> int, db: BppDb, t: Txn, env: nat -> Env)
    ensures Complete(quote, db, CancelUpdate(t), env, 0) ==
      BppOutcome(if env(0).ok then CancelPending(db, t) else db, {OnCancel(t)})
  {
    var e0 := BppStep(quote, db, CancelUpdate(t), env(0));
    FirstStep(quote, db, CancelUpdate(t), env, 0);
    FirstStep(quote, e0.db, CancelReply(t), env, 1);
    FirstStep(quote, e0.db, Finished, env, 2);
  }

  lemma ReconcileCompletes(quote: int -> int, db: BppDb, t: Txn, invoice: string, total: int, env: nat -> Env)
    ensures var found := env(0).ok && t in db.policies;
      var requestId := if found then db.policies[t].requestId else "";
      var amount := ReleaseAmount(quote, total, if found then db.policies[t].idv else 0);
      var released := db.(releases := db.releases + [Release(invoice, requestId, amount)]);
      Complete(quote, db, ReconcileRead(t, invoice, total), env, 0) ==
      BppOutcome(if env(2).ok then MarkSettled(released, t)
                 else released.(lostSettles := released.lostSettles + {t}),
                 {OnReconcile(t, invoice)})
  {
    var e0 := BppStep(quote, db, ReconcileRead(t, invoice, total), env(0));
    var e1 := BppStep(quote, e0.db, e0.task, env(1));
    var e2 := BppStep(quote, e1.db, e1.task, env(2));
    var e3 := BppStep(quote, e2.db, e2.task, env(3));
    FirstStep(quote, db, ReconcileRead(t, invoice, total), env, 0);
    FirstStep(quote, e0.db, e0.task, env, 1);
    FirstStep(quote, e1.db, e1.task, env, 2);
    FirstStep(quote, e2.db, e2.task, env, 3);
    FirstStep(quote, e3.db, e3.task, env, 4);
  }

  lemma IssueFails(quote: int -> int, db: BppDb, t: Txn, row: PolicyRow, paidAmount: int, env: nat -> Env)
    requires !env(2).ok
    ensures Complete(quote, db, ConfirmCount(t, row, paidAmount), env, 1) == IssueOutcome(quote, db, t, row, paidAmount, env)
  {
    var e := BppStep(quote, db, ConfirmCount(t, row, paidAmount), env(1));
    FirstStep(quote, db, ConfirmCount(t, row, paidAmount), env, 1);
    FirstStep(quote, db, e.task, env, 2);
  }

  lemma IssueSucceeds(quote: int -> int, db: BppDb, t: Txn, row: PolicyRow, paidAmount: int, env: nat -> Env)
    requires env(2).ok
    ensures Complete(quote, db, ConfirmCount(t, row, paidAmount), env, 1) == IssueOutcome(quote, db, t, row, paidAmount, env)
  {
    var e1 := BppStep(quote, db, ConfirmCount(t, row, paidAmount), env(1));
    var e2 := BppStep(quote, e1.db, e1.task, env(2));
    FirstStep(quote, db, ConfirmCount(t, row, paidAmount), env, 1);
    FirstStep(quote, e1.db, e1.task, env, 2);
    RecordCompletes(quote, e2.db, e2.task, env);
  }

  lemma RecordCompletes(quote: int -> int, db: BppDb, task: BppTask, env: nat -> Env)
    requires task.ConfirmRecord?
    ensures Complete(quote, db, task, env, 3) ==
      BppOutcome(AddPayment(db, task.row.id, task.row.invoice, task.paidAmount, env(3).ok),
                 {OnConfirm(task.txn, Issued(Some(task.number), Some(task.coverage), quote(task.row.idv)))})
  {
    var e3 := BppStep(quote, db, task, env(3));
    FirstStep(quote, db, task, env, 3);
    FirstStep(quote, e3.db, e3.task, env, 4);
    FirstStep(quote, e3.db, Finished, env, 5);
  }
}
