/** What each part of the buyer app leaves behind when nothing interferes, field by field. */
module BapEffects {
  import opened SeamTypes
  import opened Wrappers
  import opened BapSteps
  import ClientServiceModule

  /** A frontend request is recorded and sent with exactly what the user gave; a row that exists keeps everything
      but its status, and a failing record does not stop the message. */
  lemma ForwardEffect(db: BapDb, call: Call, env: nat -> Env)
    requires call.CallConfirm? ==> |call.txn| >= 8
    ensures var o := Complete(db, Start(call), env, 0);
      var t := call.txn;
      && o.spawned == [] && o.db.snapshots == db.snapshots
      && (match call
          case CallInit(_, nik, idv) => o.out == {Init(t, "insurance-bap.iontest", nik, idv)}
          case CallConfirm(_, amount) => o.out == {Confirm(t, amount)}
          case CallCancel(_) => o.out == {Cancel(t)})
      && (!env(0).ok ==> o.db == db)
      && (env(0).ok ==>
           && o.db.transactions.Keys == db.transactions.Keys + {t}
           && (forall u :: u in db.transactions && u != t ==> o.db.transactions[u] == db.transactions[u])
           && o.db.transactions[t].status ==
              (match call case CallInit(_, _, _) => InitSent case CallConfirm(_, _) => ConfirmSent case CallCancel(_) => CancelSent)
           && (t in db.transactions ==> o.db.transactions[t] == db.transactions[t].(status := o.db.transactions[t].status))
           && (t !in db.transactions ==>
                o.db.transactions[t] ==
                TxnRow((match call case CallInit(_, _, _) => ActInit case CallConfirm(_, _) => ActConfirm case CallCancel(_) => ActCancel),
                       o.db.transactions[t].status, "", "", 0, "")))
  {
    var e := BapStep(db, CallUpsert(call), env(0));
    FirstStep(db, CallUpsert(call), env, 0);
    FirstStep(e.db, CallSend(call), env, 1);
    FirstStep(e.db, Done, env, 2);
  }

  lemma ShortConfirm(db: BapDb, call: Call, env: nat -> Env)
    requires call.CallConfirm? && |call.txn| < 8
    ensures Complete(db, Start(call), env, 0) == BapOutcome(db, {}, [])
  {
    FirstStep(db, Done, env, 0);
  }

  /** An on_init whose checkout was created: the row holds the answered payment request id when there is one, and for
      a page of at most 50 characters the transaction's invoice, the page and the on_init total. Each statement that
      fails leaves out its own part only. */
  lemma CheckoutEffect(db: BapDb, m: Msg, env: nat -> Env)
    requires m.OnInit? && m.txn != "" && m.total > 0 && env(1).checkout.Some?
    requires m.txn in db.transactions
    ensures m.txn in Complete(db, Callback(m), env, 0).db.transactions
    ensures var o, c := Complete(db, Callback(m), env, 0), env(1).checkout.value;
      var n := if c.requestId != "" then 3 else 2;
      var before, row := db.transactions[m.txn], o.db.transactions[m.txn];
      && row.action == before.action
      && row.status == (if env(0).ok || env(n + 2).ok then InitReceived else before.status)
      && row.checkoutRequest == (if c.requestId != "" && env(2).ok then c.requestId else before.checkoutRequest)
      && (|c.url| <= 50 && env(n).ok ==> row.invoice == "ins-" + m.txn && row.url == c.url && row.amount == m.total)
      && (|c.url| > 50 || !env(n).ok ==>
           row.invoice == before.invoice && row.url == before.url && row.amount == before.amount)
      && o.db.snapshots == db.snapshots + if env(n + 1).ok then [m] else []
  {
    ClientServiceModule.CallbackCompletes(db, m, env);
  }

  /** The same for a transaction without a row, which the first statement creates. */
  lemma CheckoutCreates(db: BapDb, m: Msg, env: nat -> Env)
    requires m.OnInit? && m.txn != "" && m.total > 0 && env(1).checkout.Some?
    requires m.txn !in db.transactions && forall n :: env(n).ok
    ensures var o, c := Complete(db, Callback(m), env, 0), env(1).checkout.value;
      && m.txn in o.db.transactions
      && o.db.transactions[m.txn] ==
         if |c.url| <= 50 then TxnRow(ActInit, InitReceived, "ins-" + m.txn, c.url, m.total, c.requestId)
         else TxnRow(ActInit, InitReceived, "", "", 0, c.requestId)
  {
    ClientServiceModule.CallbackCompletes(db, m, env);
  }

  /** What the on_init callback does besides: its snapshot, no other row, nothing sent and nothing started. */
  lemma OnInitFrame(db: BapDb, m: Msg, env: nat -> Env)
    requires m.OnInit? && m.txn != ""
    requires forall n :: env(n).ok
    ensures var o := Complete(db, Callback(m), env, 0);
      && o.out == {} && o.spawned == [] && o.db.snapshots == db.snapshots + [m]
      && o.db.transactions.Keys == db.transactions.Keys + {m.txn}
      && forall u :: u in db.transactions && u != m.txn ==> o.db.transactions[u] == db.transactions[u]
  {
    ClientServiceModule.CallbackCompletes(db, m, env);
    EnrichFrame(db, m, env);
  }

  lemma EnrichFrame(db: BapDb, m: Msg, env: nat -> Env)
    requires m.OnInit? && forall n :: env(n).ok
    ensures var after := ClientServiceModule.EnrichedOnInit(db, m, env).db;
      && after.snapshots == db.snapshots && after.transactions.Keys == db.transactions.Keys + {m.txn}
      && forall u :: u in db.transactions && u != m.txn ==> after.transactions[u] == db.transactions[u]
  {
  }

  /** A statement that fails changes nothing, wherever it is. */
  lemma FailureChangesNothing(db: BapDb, task: BapTask, env: Env)
    requires !env.ok
    ensures BapStep(db, task, env).db == db
  {
  }

  /** Without a checkout, or for a total that is not positive, only the status changes. */
  lemma NoCheckoutEffect(db: BapDb, m: Msg, env: nat -> Env)
    requires m.OnInit? && m.txn != "" && (m.total <= 0 || env(1).checkout == None)
    requires forall n :: env(n).ok
    ensures var o := Complete(db, Callback(m), env, 0);
      && o.db.snapshots == db.snapshots + [m]
      && o.db.transactions == db.transactions[m.txn :=
           if m.txn in db.transactions then db.transactions[m.txn].(status := InitReceived)
           else TxnRow(ActInit, InitReceived, "", "", 0, "")]
  {
    ClientServiceModule.CallbackCompletes(db, m, env);
  }

  /** The other callbacks of a transaction with a row: a snapshot, the status of their kind, and a reconcile only for a
      policy that was issued; a rejection changes no row. Each statement that fails leaves out its own part only. */
  lemma CallbackEffect(db: BapDb, m: Msg, env: nat -> Env)
    requires (m.OnConfirm? || m.OnReconcile? || m.OnCancel?) && m.txn in db.transactions && m.txn != ""
    ensures var o, before := Complete(db, Callback(m), env, 0), db.transactions[m.txn];
      && o.out == {} && o.db.snapshots == db.snapshots + (if env(0).ok then [m] else [])
      && o.spawned == (if m.OnConfirm? && m.confirmation.Issued? then [ReconRead(m.txn)] else [])
      && o.db.transactions == db.transactions[m.txn := before.(status :=
           if !env(1).ok then before.status
           else if m.OnReconcile? then Settled
           else if m.OnCancel? then TxnCancelled
           else if m.confirmation.Issued? then Confirmed
           else before.status)]
  {
    ClientServiceModule.CallbackCompletes(db, m, env);
    assert db.transactions[m.txn := db.transactions[m.txn]] == db.transactions;
  }

  /** Without a row the snapshot, which refers to it, is refused; the status write then creates the row. */
  lemma CallbackCreates(db: BapDb, m: Msg, env: nat -> Env)
    requires (m.OnConfirm? || m.OnReconcile? || m.OnCancel?) && m.txn !in db.transactions && m.txn != ""
    ensures var o := Complete(db, Callback(m), env, 0);
      && o.db.snapshots == db.snapshots
      && (m.OnConfirm? && m.confirmation.Rejected? ==> o.db.transactions == db.transactions)
      && (!env(1).ok ==> o.db.transactions == db.transactions)
      && (env(1).ok && !(m.OnConfirm? && m.confirmation.Rejected?) ==>
           o.db.transactions == db.transactions[m.txn :=
             if m.OnReconcile? then TxnRow(ActReconcile, Settled, "", "", 0, "")
             else if m.OnCancel? then TxnRow(ActCancel, TxnCancelled, "", "", 0, "")
             else TxnRow(ActConfirm, Confirmed, "", "", 0, "")])
  {
    ClientServiceModule.CallbackCompletes(db, m, env);
  }

  /** A callback that names no transaction only writes its status, under the empty id. */
  lemma CallbackUnnamed(db: BapDb, m: Msg, env: nat -> Env)
    requires IsCallback(m) && m.txn == ""
    ensures var o := Complete(db, Callback(m), env, 0);
      && o.db.snapshots == db.snapshots && (!env(0).ok ==> o.db == db)
      && (forall u :: u in db.transactions && u != "" ==>
           u in o.db.transactions && o.db.transactions[u] == db.transactions[u])
      && (env(0).ok && (m.OnInit? || m.OnCancel?) ==>
           "" in o.db.transactions &&
           o.db.transactions[""].status == if m.OnInit? then InitReceived else TxnCancelled)
  {
    ClientServiceModule.CallbackCompletes(db, m, env);
  }

  /** A reconcile goroutine sends the stored invoice and amount, and records RECONCILING. */
  lemma ReconcileEffect(db: BapDb, t: Txn, env: nat -> Env)
    requires env(0).ok && t in db.transactions && db.transactions[t].amount != 0
    ensures var o, row := Complete(db, ReconRead(t), env, 0), db.transactions[t];
      && o.out == {Reconcile(t, if row.invoice == "" then "ins-" + t else row.invoice, row.amount)}
      && o.db.transactions == (if env(1).ok then db.transactions[t := row.(status := Reconciling)] else db.transactions)
      && o.db.snapshots == db.snapshots && o.spawned == []
  {
    ClientServiceModule.ReconcileCompletes(db, t, env);
  }

  /** The latest total is that of the last on_init among the snapshots of the transaction, whatever came before. */
  lemma {:induction false} LatestIsLast(snapshots: seq<Msg>, t: Txn)
    ensures LatestTotal(snapshots, t).None? <==>
      forall i :: 0 <= i < |snapshots| ==> !(snapshots[i].OnInit? && snapshots[i].txn == t)
    ensures LatestTotal(snapshots, t).Some? ==>
      exists i :: LastOnInit(snapshots, t, i) && snapshots[i].total == LatestTotal(snapshots, t).value
  {
    if snapshots != [] {
      var last, init := snapshots[|snapshots| - 1], snapshots[..|snapshots| - 1];
      LatestIsLast(init, t);
      if last.OnInit? && last.txn == t {
        assert LastOnInit(snapshots, t, |snapshots| - 1);
      } else if LatestTotal(init, t).Some? {
        var i :| LastOnInit(init, t, i) && init[i].total == LatestTotal(init, t).value;
        assert LastOnInit(snapshots, t, i) && snapshots[i] == init[i];
      }
    }
  }

  /** Snapshot i is the last on_init of t. */
  ghost predicate LastOnInit(snapshots: seq<Msg>, t: Txn, i: int) {
    && 0 <= i < |snapshots| && snapshots[i].OnInit? && snapshots[i].txn == t
    && forall j :: i < j < |snapshots| ==> !(snapshots[j].OnInit? && snapshots[j].txn == t)
  }

  /** Without a stored amount, or when the row cannot be read, the reconcile asks for the last on_init's total, or for
      500,000 when there is none or it cannot be read; without a stored invoice, under the transaction's own. */
  lemma ReconcileReadsBack(db: BapDb, t: Txn, env: nat -> Env)
    requires !env(0).ok || t !in db.transactions || db.transactions[t].amount == 0
    ensures var o := Complete(db, ReconRead(t), env, 0);
      var stored := if env(0).ok && t in db.transactions then db.transactions[t].invoice else "";
      var invoice := if stored == "" then "ins-" + t else stored;
      && (!env(1).ok ==> o.out == {Reconcile(t, invoice, 500000)})
      && ((forall i :: 0 <= i < |db.snapshots| ==> !(db.snapshots[i].OnInit? && db.snapshots[i].txn == t)) ==>
           o.out == {Reconcile(t, invoice, 500000)})
      && (forall i :: env(1).ok && LastOnInit(db.snapshots, t, i) ==> o.out == {Reconcile(t, invoice, db.snapshots[i].total)})
      && (!env(2).ok ==> o.db == db)
      && (env(2).ok ==> t in o.db.transactions && o.db.transactions[t].status == Reconciling)
  {
    ClientServiceModule.ReconcileCompletes(db, t, env);
    LatestIsLast(db.snapshots, t);
  }
}
