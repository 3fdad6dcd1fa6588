/** The buyer app's service as written; each method is proved equal to its step sequence run alone. */
module ClientServiceModule {
  import opened SeamTypes
  import opened BapSteps

  class ClientService {
    var transactions: map<Txn, TxnRow>
    var snapshots: seq<Msg>
    ghost var history: seq<Write>
    var sent: set<Msg>
    var spawned: seq<BapTask>

    constructor ()
      ensures Db() == BapDb(map[], [], []) && sent == {} && spawned == []
    {
      transactions, snapshots, history, sent, spawned := map[], [], [], {}, [];
    }

    ghost function Db(): BapDb
      reads this
    {
      BapDb(transactions, snapshots, history)
    }

    /** The state, the messages and the started goroutines after a method, in terms of its step sequence. */
    twostate predicate Ran(task: BapTask, env: nat -> Env)
      reads this
    {
      var outcome := Complete(old(Db()), task, env, 0);
      Db() == outcome.db && sent == old(sent) + outcome.out && spawned == old(spawned) + outcome.spawned
    }

    method UpsertTransaction(t: Txn, action: Action, status: TxnStatus, ok: bool)
      modifies this`transactions, this`history
      ensures Db() == Upsert(old(Db()), t, action, status, ok)
    {
      if ok {
        if t in transactions {
          transactions := transactions[t := transactions[t].(status := status)];
        } else {
          transactions := transactions[t := TxnRow(action, status, "", "", 0, "")];
        }
        history := history + [Write(t, status)];
      }
    }

    method SaveSnapshotRow(m: Msg, ok: bool)
      modifies this`snapshots
      ensures Db() == AddSnapshot(old(Db()), m, ok)
    {
      if ok && m.txn in transactions {
        snapshots := snapshots + [m];
      }
    }

    /** A frontend request: record it, then send it; the reply arrives through HandleCallback. */
    method Forward(call: Call, env: nat -> Env)
      modifies this
      ensures Ran(Start(call), env)
    {
      if call.CallConfirm? && |call.txn| < 8 {
        return;
      }
      UpsertTransaction(call.txn, CallAction(call), SentStatus(call), env(0).ok);
      FirstStep(Db(), CallSend(call), env, 1);
      sent := sent + {Request(call)};
    }

    /** HandleCallback. The step index moves with the branches taken. */
    method HandleCallback(m: Msg, env: nat -> Env)
      requires IsCallback(m)
      modifies this
      ensures Ran(Callback(m), env)
    {
      CallbackCompletes(Db(), m, env);
      var n := 0;
      if m.OnInit? && m.txn != "" {
        n := EnrichOnInit(m, env);
      }
      if m.txn != "" {
        SaveSnapshotRow(m, env(n).ok);
        n := n + 1;
      }
      ghost var db1 := Db();
      match m {
        case OnInit(t, _) => UpsertTransaction(t, ActInit, InitReceived, env(n).ok);
        case OnConfirm(t, confirmation) =>
          if confirmation.Issued? {
            UpsertTransaction(t, ActConfirm, Confirmed, env(n).ok);
            spawned := spawned + [ReconRead(t)];
          }
        case OnReconcile(t, _) => UpsertTransaction(t, ActReconcile, Settled, env(n).ok);
        case OnCancel(t) => UpsertTransaction(t, ActCancel, TxnCancelled, env(n).ok);
      }
      assert Db() == StatusEffect(db1, m, env(n).ok).db;
      assert spawned == old(spawned) + StatusEffect(db1, m, env(n).ok).spawned;
    }

    /** The checkout part of an on_init callback; n is the step that follows it. */
    method EnrichOnInit(m: Msg, env: nat -> Env) returns (n: nat)
      requires m.OnInit? && m.txn != ""
      modifies this`transactions, this`history
      ensures Enriched(Db(), n) == EnrichedOnInit(old(Db()), m, env)
      ensures (forall i :: env(i).ok) && env(1).checkout.Some? && m.total > 0 ==>
        && m.txn in transactions
        && var row, c := transactions[m.txn], env(1).checkout.value;
           && (c.requestId != "" ==> row.checkoutRequest == c.requestId)
           && (|c.url| <= 50 ==> row.invoice == "ins-" + m.txn && row.url == c.url && row.amount == m.total)
    {
      UpsertTransaction(m.txn, ActInit, InitReceived, env(0).ok);
      n := 2;
      if env(1).checkout.Some? && m.total > 0 {
        var checkout := env(1).checkout.value;
        if checkout.requestId != "" {
          if env(n).ok && m.txn in transactions {
            transactions := transactions[m.txn := transactions[m.txn].(checkoutRequest := checkout.requestId)];
          }
          n := n + 1;
        }
        if env(n).ok && |checkout.url| <= 50 && m.txn in transactions {
          transactions := transactions[m.txn :=
            transactions[m.txn].(invoice := Invoice(m.txn), url := checkout.url, amount := m.total)];
        }
        n := n + 1;
      }
    }

    /** The total of the latest on_init snapshot, found by scanning from the newest. */
    method GetPaymentAmountFromSnapshot(t: Txn, ok: bool) returns (amount: int)
      ensures amount == SnapshotAmount(snapshots, t, ok)
    {
      var i := |snapshots|;
      amount := FALLBACK_AMOUNT;
      if !ok {
        return;
      }
      assert snapshots[..i] == snapshots;
      while i > 0
        invariant 0 <= i <= |snapshots|
        invariant amount == FALLBACK_AMOUNT
        invariant LatestTotal(snapshots, t) == LatestTotal(snapshots[..i], t)
      {
        var last := snapshots[i - 1];
        assert snapshots[..i][..i - 1] == snapshots[..i - 1];
        if last.OnInit? && last.txn == t {
          return last.total;
        }
        i := i - 1;
      }
    }

    method SendReconcile(t: Txn, env: nat -> Env)
      modifies this
      ensures Ran(ReconRead(t), env)
    {
      ghost var db0 := Db();
      var invoice, amount, n := "", 0, 1;
      if env(0).ok && t in transactions {
        invoice, amount := transactions[t].invoice, transactions[t].amount;
      }
      if invoice == "" {
        invoice := Invoice(t);
      }
      if amount == 0 {
        amount := GetPaymentAmountFromSnapshot(t, env(1).ok);
        n := 2;
      }
      UpsertTransaction(t, ActReconcile, Reconciling, env(n).ok);
      ReconcileCompletes(db0, t, env);
      sent := sent + {Reconcile(t, invoice, amount)};
    }
  }

  datatype Enriched = Enriched(db: BapDb, n: nat)

  /** What the checkout part of an on_init callback leaves, and the step after it. */
  function EnrichedOnInit(db: BapDb, m: Msg, env: nat -> Env): Enriched
    requires m.OnInit?
  {
    AfterCheckout(Upsert(db, m.txn, ActInit, InitReceived, env(0).ok), m, env)
  }

  function AfterCheckout(db: BapDb, m: Msg, env: nat -> Env): Enriched
    requires m.OnInit?
  {
    if env(1).checkout.Some? && m.total > 0 then
      var checkout := env(1).checkout.value;
      if checkout.requestId != "" then
        var saved := SaveRequest(db, m.txn, checkout.requestId, env(2).ok);
        Enriched(SaveAmount(saved, m.txn, checkout.url, m.total, env(3).ok), 4)
      else
        Enriched(SaveAmount(db, m.txn, checkout.url, m.total, env(2).ok), 3)
    else Enriched(db, 2)
  }

  /** A step that sends and starts nothing. */
  lemma SilentStep(db: BapDb, task: BapTask, env: nat -> Env, n: nat)
    requires task != Done
    requires BapStep(db, task, env(n)).out == {} && BapStep(db, task, env(n)).spawned == []
    ensures var e := BapStep(db, task, env(n));
      Complete(db, task, env, n) == Complete(e.db, e.task, env, n + 1)
  {
    FirstStep(db, task, env, n);
    var e := BapStep(db, task, env(n));
    var rest := Complete(e.db, e.task, env, n + 1);
    assert e.out + rest.out == rest.out && e.spawned + rest.spawned == rest.spawned;
  }

  lemma EnrichCompletes(db: BapDb, m: Msg, env: nat -> Env)
    requires m.OnInit?
    ensures var e := EnrichedOnInit(db, m, env);
      Complete(db, OnInitFirst(m), env, 0) == Complete(e.db, SaveSnapshot(m), env, e.n)
  {
    SilentStep(db, OnInitFirst(m), env, 0);
    CheckoutCompletes(Upsert(db, m.txn, ActInit, InitReceived, env(0).ok), m, env);
  }

  lemma CheckoutCompletes(db: BapDb, m: Msg, env: nat -> Env)
    requires m.OnInit?
    ensures var e := AfterCheckout(db, m, env);
      Complete(db, OnInitCheckout(m), env, 1) == Complete(e.db, SaveSnapshot(m), env, e.n)
  {
    SilentStep(db, OnInitCheckout(m), env, 1);
    if env(1).checkout.Some? && m.total > 0 {
      var checkout := env(1).checkout.value;
      if checkout.requestId != "" {
        RequestCompletes(db, m, checkout, env);
      } else {
        AmountCompletes(db, m, checkout, env, 2);
      }
    }
  }

  lemma RequestCompletes(db: BapDb, m: Msg, checkout: Checkout, env: nat -> Env)
    requires m.OnInit? && checkout.requestId != ""
    ensures var saved := SaveRequest(db, m.txn, checkout.requestId, env(2).ok);
      Complete(db, OnInitSaveRequest(m, checkout), env, 2) ==
      Complete(SaveAmount(saved, m.txn, checkout.url, m.total, env(3).ok), SaveSnapshot(m), env, 4)
  {
    SilentStep(db, OnInitSaveRequest(m, checkout), env, 2);
    AmountCompletes(SaveRequest(db, m.txn, checkout.requestId, env(2).ok), m, checkout, env, 3);
  }

  lemma AmountCompletes(db: BapDb, m: Msg, checkout: Checkout, env: nat -> Env, n: nat)
    requires m.OnInit?
    ensures Complete(db, OnInitSaveAmount(m, checkout), env, n) ==
      Complete(SaveAmount(db, m.txn, checkout.url, m.total, env(n).ok), SaveSnapshot(m), env, n + 1)
  {
    SilentStep(db, OnInitSaveAmount(m, checkout), env, n);
  }

  lemma SnapshotCompletes(db: BapDb, m: Msg, env: nat -> Env, n: nat)
    ensures var e := StatusEffect(AddSnapshot(db, m, env(n).ok), m, env(n + 1).ok);
      Complete(db, SaveSnapshot(m), env, n) == BapOutcome(e.db, {}, e.spawned)
  {
    var e0 := BapStep(db, SaveSnapshot(m), env(n));
    FirstStep(db, SaveSnapshot(m), env, n);
    StatusCompletes(e0.db, m, env, n + 1);
  }

  lemma StatusCompletes(db: BapDb, m: Msg, env: nat -> Env, n: nat)
    ensures var e := StatusEffect(db, m, env(n).ok);
      Complete(db, WriteStatus(m), env, n) == BapOutcome(e.db, {}, e.spawned)
  {
    var e := BapStep(db, WriteStatus(m), env(n));
    FirstStep(db, WriteStatus(m), env, n);
    FirstStep(e.db, e.task, env, n + 1);
  }

  /** What a callback leaves before its status write, and the step of that write. */
  function BeforeStatus(db: BapDb, m: Msg, env: nat -> Env): Enriched {
    if m.txn == "" then Enriched(db, 0)
    else
      var e := if m.OnInit? then EnrichedOnInit(db, m, env) else Enriched(db, 0);
      Enriched(AddSnapshot(e.db, m, env(e.n).ok), e.n + 1)
  }

  lemma CallbackCompletes(db: BapDb, m: Msg, env: nat -> Env)
    requires IsCallback(m)
    ensures var b := BeforeStatus(db, m, env);
      var e := StatusEffect(b.db, m, env(b.n).ok);
      Complete(db, Callback(m), env, 0) == BapOutcome(e.db, {}, e.spawned)
  {
    if m.txn == "" {
      StatusCompletes(db, m, env, 0);
    } else if m.OnInit? {
      var e := EnrichedOnInit(db, m, env);
      EnrichCompletes(db, m, env);
      SnapshotCompletes(e.db, m, env, e.n);
    } else {
      SnapshotCompletes(db, m, env, 0);
    }
  }

  lemma ReconcileCompletes(db: BapDb, t: Txn, env: nat -> Env)
    ensures var found := env(0).ok && t in db.transactions;
      var stored := if found then db.transactions[t].invoice else "";
      var known := if found then db.transactions[t].amount else 0;
      var amount := if known == 0 then SnapshotAmount(db.snapshots, t, env(1).ok) else known;
      var n := if known == 0 then 2 else 1;
      Complete(db, ReconRead(t), env, 0) ==
      BapOutcome(Upsert(db, t, ActReconcile, Reconciling, env(n).ok),
                 {Reconcile(t, if stored == "" then Invoice(t) else stored, amount)}, [])
  {
    var next := BapStep(db, ReconRead(t), env(0)).task;
    SilentStep(db, ReconRead(t), env, 0);
    if next.ReconSnapshot? {
      SilentStep(db, next, env, 1);
      SendCompletes(db, t, next.invoice, SnapshotAmount(db.snapshots, t, env(1).ok), env, 2);
    } else {
      SendCompletes(db, t, next.invoice, next.amount, env, 1);
    }
  }

  lemma SendCompletes(db: BapDb, t: Txn, invoice: string, amount: int, env: nat -> Env, n: nat)
    ensures Complete(db, ReconUpsert(t, invoice, amount), env, n) ==
      BapOutcome(Upsert(db, t, ActReconcile, Reconciling, env(n).ok), {Reconcile(t, invoice, amount)}, [])
  {
    var e0 := BapStep(db, ReconUpsert(t, invoice, amount), env(n));
    var e1 := BapStep(e0.db, e0.task, env(n + 1));
    FirstStep(db, ReconUpsert(t, invoice, amount), env, n);
    FirstStep(e0.db, e0.task, env, n + 1);
    FirstStep(e1.db, e1.task, env, n + 2);
  }
}
