/** The buyer app's half of the protocol, one database statement, call or sent message per step. */
module BapSteps {
  import opened SeamTypes
  import opened Wrappers

  /** A request from the frontend. */
  datatype Call =
    | CallInit(txn: Txn, nik: string, idv: int)
    | CallConfirm(txn: Txn, amount: int)
    | CallCancel(txn: Txn)

  datatype BapTask =
    | CallUpsert(call: Call)
    | CallSend(call: Call)
    | OnInitFirst(msg: Msg)
    | OnInitCheckout(msg: Msg)
    | OnInitSaveRequest(msg: Msg, checkout: Checkout)
    | OnInitSaveAmount(msg: Msg, checkout: Checkout)
    | SaveSnapshot(msg: Msg)
    | WriteStatus(msg: Msg)
    | ReconRead(txn: Txn)
    | ReconSnapshot(txn: Txn, invoice: string)
    | ReconUpsert(txn: Txn, invoice: string, amount: int)
    | ReconSend(txn: Txn, invoice: string, amount: int)
    | Done

  datatype BapEffect = BapEffect(db: BapDb, task: BapTask, out: set<Msg>, spawned: seq<BapTask>)

  const BAP_ID := "insurance-bap.iontest"

  /** The amount assumed when no on_init snapshot is found. */
  const FALLBACK_AMOUNT := 500000

  /** A confirm builds its default payment reference from the first eight characters of the
      transaction id, and panics when there are fewer. */
  function Start(call: Call): BapTask {
    if call.CallConfirm? && |call.txn| < 8 then Done else CallUpsert(call)
  }

  function CallAction(call: Call): Action {
    match call
    case CallInit(_, _, _) => ActInit
    case CallConfirm(_, _) => ActConfirm
    case CallCancel(_) => ActCancel
  }

  function SentStatus(call: Call): TxnStatus {
    match call
    case CallInit(_, _, _) => InitSent
    case CallConfirm(_, _) => ConfirmSent
    case CallCancel(_) => CancelSent
  }

  function Request(call: Call): Msg {
    match call
    case CallInit(t, nik, idv) => Init(t, BAP_ID, nik, idv)
    case CallConfirm(t, amount) => Confirm(t, amount)
    case CallCancel(t) => Cancel(t)
  }

  predicate IsCallback(m: Msg) {
    m.OnInit? || m.OnConfirm? || m.OnReconcile? || m.OnCancel?
  }

  /** The work a callback message starts. */
  function Callback(m: Msg): BapTask {
    if !IsCallback(m) then Done
    else if m.txn == "" then WriteStatus(m)
    else if m.OnInit? then OnInitFirst(m)
    else SaveSnapshot(m)
  }

  /** INSERT ... ON CONFLICT DO UPDATE SET status: the action of an existing row stays. */
  function Upsert(db: BapDb, t: Txn, action: Action, status: TxnStatus, ok: bool): BapDb {
    if !ok then db
    else
      var row := if t in db.transactions then db.transactions[t].(status := status)
                 else TxnRow(action, status, "", "", 0, "");
      db.(transactions := db.transactions[t := row], history := db.history + [Write(t, status)])
  }

  function SaveRequest(db: BapDb, t: Txn, requestId: string, ok: bool): BapDb {
    if ok && t in db.transactions then
      db.(transactions := db.transactions[t := db.transactions[t].(checkoutRequest := requestId)])
    else db
  }

  /** The checkout page goes into a column of 50 characters; a longer one makes the statement fail. */
  function SaveAmount(db: BapDb, t: Txn, url: string, amount: int, ok: bool): BapDb {
    if ok && |url| <= 50 && t in db.transactions then
      db.(transactions := db.transactions[t :=
        db.transactions[t].(invoice := Invoice(t), url := url, amount := amount)])
    else db
  }

  /** A snapshot refers to a transaction row, which must exist. */
  function AddSnapshot(db: BapDb, m: Msg, ok: bool): BapDb {
    if ok && m.txn in db.transactions then db.(snapshots := db.snapshots + [m]) else db
  }

  /** The total of the latest on_init snapshot of a transaction. */
  function LatestTotal(snapshots: seq<Msg>, t: Txn): Option<int> {
    if snapshots == [] then None
    else
      var last := snapshots[|snapshots| - 1];
      if last.OnInit? && last.txn == t then Some(last.total) else LatestTotal(snapshots[..|snapshots| - 1], t)
  }

  function SnapshotAmount(snapshots: seq<Msg>, t: Txn, ok: bool): int {
    match LatestTotal(snapshots, t)
    case Some(total) => if ok then total else FALLBACK_AMOUNT
    case None => FALLBACK_AMOUNT
  }

  function StatusEffect(db: BapDb, m: Msg, ok: bool): BapEffect {
    match m
    case OnInit(t, _) => BapEffect(Upsert(db, t, ActInit, InitReceived, ok), Done, {}, [])
    case OnConfirm(t, Issued(_, _, _)) =>
      BapEffect(Upsert(db, t, ActConfirm, Confirmed, ok), Done, {}, [ReconRead(t)])
    case OnReconcile(t, _) => BapEffect(Upsert(db, t, ActReconcile, Settled, ok), Done, {}, [])
    case OnCancel(t) => BapEffect(Upsert(db, t, ActCancel, TxnCancelled, ok), Done, {}, [])
    case _ => BapEffect(db, Done, {}, [])
  }

  function BapStep(db: BapDb, task: BapTask, env: Env): BapEffect {
    match task
    case CallUpsert(call) =>
      BapEffect(Upsert(db, call.txn, CallAction(call), SentStatus(call), env.ok), CallSend(call), {}, [])
    case CallSend(call) =>
      BapEffect(db, Done, {Request(call)}, [])
    case OnInitFirst(m) =>
      BapEffect(Upsert(db, m.txn, ActInit, InitReceived, env.ok), OnInitCheckout(m), {}, [])
    case OnInitCheckout(m) =>
      // The payment service refuses amounts that are not positive.
      if env.checkout.Some? && m.OnInit? && m.total > 0 then
        var checkout := env.checkout.value;
        BapEffect(db, if checkout.requestId != "" then OnInitSaveRequest(m, checkout) else OnInitSaveAmount(m, checkout),
                  {}, [])
      else BapEffect(db, SaveSnapshot(m), {}, [])
    case OnInitSaveRequest(m, checkout) =>
      BapEffect(SaveRequest(db, m.txn, checkout.requestId, env.ok), OnInitSaveAmount(m, checkout), {}, [])
    case OnInitSaveAmount(m, checkout) =>
      BapEffect(if m.OnInit? then SaveAmount(db, m.txn, checkout.url, m.total, env.ok) else db, SaveSnapshot(m), {}, [])
    case SaveSnapshot(m) =>
      BapEffect(AddSnapshot(db, m, env.ok), WriteStatus(m), {}, [])
    case WriteStatus(m) =>
      StatusEffect(db, m, env.ok)
    case ReconRead(t) =>
      var found := env.ok && t in db.transactions;
      var stored := if found then db.transactions[t].invoice else "";
      var amount := if found then db.transactions[t].amount else 0;
      var invoice := if stored == "" then Invoice(t) else stored;
      BapEffect(db, if amount == 0 then ReconSnapshot(t, invoice) else ReconUpsert(t, invoice, amount), {}, [])
    case ReconSnapshot(t, invoice) =>
      BapEffect(db, ReconUpsert(t, invoice, SnapshotAmount(db.snapshots, t, env.ok)), {}, [])
    case ReconUpsert(t, invoice, amount) =>
      BapEffect(Upsert(db, t, ActReconcile, Reconciling, env.ok), ReconSend(t, invoice, amount), {}, [])
    case ReconSend(t, invoice, amount) =>
      BapEffect(db, Done, {Reconcile(t, invoice, amount)}, [])
    case Done =>
      BapEffect(db, Done, {}, [])
  }

  function Rank(task: BapTask): nat {
    match task
    case CallUpsert(_) => 2
    case CallSend(_) => 1
    case OnInitFirst(_) => 6
    case OnInitCheckout(_) => 5
    case OnInitSaveRequest(_, _) => 4
    case OnInitSaveAmount(_, _) => 3
    case SaveSnapshot(_) => 2
    case WriteStatus(_) => 1
    case ReconRead(_) => 4
    case ReconSnapshot(_, _) => 3
    case ReconUpsert(_, _, _) => 2
    case ReconSend(_, _, _) => 1
    case Done => 0
  }

  datatype BapOutcome = BapOutcome(db: BapDb, out: set<Msg>, spawned: seq<BapTask>)

  /** A task running to its end with nothing in between; step n is decided by env(n). */
  function Complete(db: BapDb, task: BapTask, env: nat -> Env, n: nat): BapOutcome
    decreases Rank(task)
  {
    if task == Done then BapOutcome(db, {}, [])
    else
      var e := BapStep(db, task, env(n));
      var rest := Complete(e.db, e.task, env, n + 1);
      BapOutcome(rest.db, e.out + rest.out, e.spawned + rest.spawned)
  }

  lemma FirstStep(db: BapDb, task: BapTask, env: nat -> Env, n: nat)
    ensures task == Done ==> Complete(db, task, env, n) == BapOutcome(db, {}, [])
    ensures task != Done ==>
      var e := BapStep(db, task, env(n));
      var rest := Complete(e.db, e.task, env, n + 1);
      Complete(db, task, env, n) == BapOutcome(rest.db, e.out + rest.out, e.spawned + rest.spawned)
  {
  }
}
