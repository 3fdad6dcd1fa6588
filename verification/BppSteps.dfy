/** The insurer's handlers, one database statement or one sent message per step.
    A task is a running handler: its program point and the local variables still needed. */
module BppSteps {
  import opened Calendar
  import opened PolicyNumber
  import opened SeamTypes
  import opened Wrappers
  import opened PolicyReports

  datatype BppTask =
    | InitInsert(txn: Txn, bapId: string, idv: int)
    | InitReply(txn: Txn, total: int)
    | ConfirmRead(txn: Txn, paidAmount: int)
    | ConfirmReject(txn: Txn)
    | ConfirmCount(txn: Txn, row: PolicyRow, paidAmount: int)
    | ConfirmIssue(txn: Txn, row: PolicyRow, paidAmount: int, seqNo: nat)
    | ConfirmRecord(txn: Txn, row: PolicyRow, paidAmount: int, number: PolicyNo, coverage: Coverage)
    | ConfirmReply(txn: Txn, confirmation: Confirmation)
    | PayRead(txn: Txn, requestId: string, amount: int)
    | PayMark(txn: Txn, policyId: nat, requestId: string, amount: int)
    | PayRecord(txn: Txn, policyId: nat, amount: int)
    | ReconcileRead(txn: Txn, invoice: string, total: int)
    | ReconcileRelease(txn: Txn, invoice: string, total: int, requestId: string)
    | ReconcileSettle(txn: Txn, invoice: string)
    | ReconcileReply(txn: Txn, invoice: string)
    | CancelUpdate(txn: Txn)
    | CancelReply(txn: Txn)
    | Finished

  datatype BppEffect = BppEffect(db: BppDb, task: BppTask, out: set<Msg>)

  predicate IsDigitString(s: string) {
    forall i :: 0 <= i < |s| ==> '0' <= s[i] <= '9'
  }

  /** The identity number is optional; when present it must be sixteen digits. */
  predicate NikAccepted(nik: string) {
    nik == "" || (|nik| == 16 && IsDigitString(nik))
  }

  /** The handler a message starts. */
  function Receive(m: Msg): BppTask {
    match m
    case Init(t, bapId, nik, idv) => if NikAccepted(nik) then InitInsert(t, bapId, idv) else Finished
    case Confirm(t, paidAmount) => ConfirmRead(t, paidAmount)
    case Reconcile(t, invoice, total) => ReconcileRead(t, if invoice == "" then Invoice(t) else invoice, total)
    case Cancel(t) => CancelUpdate(t)
    case _ => Finished
  }

  /** The handler a payment notification starts: the invoice must carry the prefix. */
  function Notified(invoice: string, requestId: string, amount: int): BppTask {
    if |invoice| >= 4 && invoice[..4] == "ins-" then PayRead(invoice[4..], requestId, amount) else Finished
  }

  /** SELECT COUNT(*) FROM policies WHERE status='ACTIVE' */
  function ActiveCount(db: BppDb): nat {
    |ActiveRows(db)|
  }

  /** INSERT ... ON CONFLICT DO UPDATE: an existing row only gets a new status and invoice. */
  function UpsertPolicy(db: BppDb, t: Txn, bapId: string, idv: int): BppDb {
    var row :=
      if t in db.policies then db.policies[t].(status := PendingIssuance, invoice := Invoice(t))
      else PolicyRow(db.nextId, bapId, PendingIssuance, idv, None, None, false, "", Invoice(t), false);
    db.(policies := db.policies[t := row], nextId := db.nextId + 1)
  }

  function UpdateRow(db: BppDb, t: Txn, row: PolicyRow): BppDb {
    if t in db.policies then db.(policies := db.policies[t := row]) else db
  }

  function IssuePolicy(db: BppDb, t: Txn, number: PolicyNo, coverage: Coverage): BppDb {
    if t in db.policies then
      UpdateRow(db, t, db.policies[t].(status := Active, number := Some(number), coverage := Some(coverage)))
    else db
  }

  function MarkPaid(db: BppDb, t: Txn, requestId: string): BppDb {
    if t in db.policies then
      var row := db.policies[t].(paid := true);
      UpdateRow(db, t, if requestId != "" then row.(requestId := requestId) else row)
    else db
  }

  function MarkSettled(db: BppDb, t: Txn): BppDb {
    if t in db.policies then UpdateRow(db, t, db.policies[t].(settled := true)) else db
  }

  function CancelPending(db: BppDb, t: Txn): BppDb {
    if t in db.policies && db.policies[t].status == PendingIssuance
    then UpdateRow(db, t, db.policies[t].(status := Cancelled))
    else db
  }

  function AddPayment(db: BppDb, policyId: nat, ref: string, amount: int, ok: bool): BppDb {
    if ok then db.(payments := db.payments + [PaymentRow(policyId, ref, amount)]) else db
  }

  /** The amount to release: the reconcile message's, or the quote when it names none. */
  function ReleaseAmount(quote: int -> int, total: int, idv: int): int {
    if total == 0 && idv > 0 then quote(idv) else total
  }

  /** One step of a handler. `quote` prices an insured value. */
  function BppStep(quote: int -> int, db: BppDb, task: BppTask, env: Env): BppEffect {
    match task
    case InitInsert(t, bapId, idv) =>
      if env.ok then BppEffect(UpsertPolicy(db, t, bapId, idv), InitReply(t, quote(idv)), {})
      else BppEffect(db, Finished, {})
    case InitReply(t, total) =>
      BppEffect(db, Finished, {OnInit(t, total)})
    case ConfirmRead(t, paidAmount) =>
      if !env.ok || t !in db.policies then BppEffect(db, Finished, {})
      else
        var row := db.policies[t];
        if row.status == Active then
          BppEffect(db, ConfirmReply(t, Issued(row.number, row.coverage, quote(row.idv))), {})
        else if !row.paid then BppEffect(db, ConfirmReject(t), {})
        else BppEffect(db, ConfirmCount(t, row, paidAmount), {})
    case ConfirmReject(t) =>
      BppEffect(db, Finished, {OnConfirm(t, Rejected)})
    case ConfirmCount(t, row, paidAmount) =>
      BppEffect(db, ConfirmIssue(t, row, paidAmount, (if env.ok then ActiveCount(db) else 0) + 1), {})
    case ConfirmIssue(t, row, paidAmount, seqNo) =>
      if env.ok then
        var number, coverage := PolicyNo(env.year, seqNo), Coverage(env.now, AddYear(env.now));
        BppEffect(IssuePolicy(db, t, number, coverage), ConfirmRecord(t, row, paidAmount, number, coverage), {})
      else BppEffect(db, Finished, {})
    case ConfirmRecord(t, row, paidAmount, number, coverage) =>
      BppEffect(AddPayment(db, row.id, row.invoice, paidAmount, env.ok),
                ConfirmReply(t, Issued(Some(number), Some(coverage), quote(row.idv))), {})
    case ConfirmReply(t, confirmation) =>
      BppEffect(db, Finished, {OnConfirm(t, confirmation)})
    case PayRead(t, requestId, amount) =>
      if !env.ok || t !in db.policies || db.policies[t].status == Active then BppEffect(db, Finished, {})
      else BppEffect(db, PayMark(t, db.policies[t].id, requestId, amount), {})
    case PayMark(t, policyId, requestId, amount) =>
      if env.ok then BppEffect(MarkPaid(db, t, requestId), PayRecord(t, policyId, amount), {})
      else BppEffect(db, Finished, {})
    case PayRecord(t, policyId, amount) =>
      BppEffect(AddPayment(db, policyId, Invoice(t), amount, env.ok), Finished, {})
    case ReconcileRead(t, invoice, total) =>
      var found := env.ok && t in db.policies;
      var requestId, idv := if found then db.policies[t].requestId else "", if found then db.policies[t].idv else 0;
      BppEffect(db, ReconcileRelease(t, invoice, ReleaseAmount(quote, total, idv), requestId), {})
    case ReconcileRelease(t, invoice, total, requestId) =>
      BppEffect(db.(releases := db.releases + [Release(invoice, requestId, total)]), ReconcileSettle(t, invoice), {})
    case ReconcileSettle(t, invoice) =>
      BppEffect(if env.ok then MarkSettled(db, t) else db.(lostSettles := db.lostSettles + {t}),
                ReconcileReply(t, invoice), {})
    case ReconcileReply(t, invoice) =>
      BppEffect(db, Finished, {OnReconcile(t, invoice)})
    case CancelUpdate(t) =>
      BppEffect(if env.ok then CancelPending(db, t) else db, CancelReply(t), {})
    case CancelReply(t) =>
      BppEffect(db, Finished, {OnCancel(t)})
    case Finished =>
      BppEffect(db, Finished, {})
  }

  /** The number of steps a task can still take. */
  function Rank(task: BppTask): nat {
    match task
    case ConfirmRead(_, _) => 5
    case ConfirmCount(_, _, _) => 4
    case ConfirmIssue(_, _, _, _) => 3
    case ConfirmRecord(_, _, _, _, _) => 2
    case ConfirmReply(_, _) => 1
    case ConfirmReject(_) => 1
    case ReconcileRead(_, _, _) => 4
    case ReconcileRelease(_, _, _, _) => 3
    case ReconcileSettle(_, _) => 2
    case ReconcileReply(_, _) => 1
    case PayRead(_, _, _) => 3
    case PayMark(_, _, _, _) => 2
    case PayRecord(_, _, _) => 1
    case InitInsert(_, _, _) => 2
    case InitReply(_, _) => 1
    case CancelUpdate(_) => 2
    case CancelReply(_) => 1
    case Finished => 0
  }

  datatype BppOutcome = BppOutcome(db: BppDb, out: set<Msg>)

  /** A handler running to its end with nothing in between; step n is decided by env(n). */
  function Complete(quote: int -> int, db: BppDb, task: BppTask, env: nat -> Env, n: nat): BppOutcome
    decreases Rank(task)
  {
    if task == Finished then BppOutcome(db, {})
    else
      var e := BppStep(quote, db, task, env(n));
      var rest := Complete(quote, e.db, e.task, env, n + 1);
      BppOutcome(rest.db, e.out + rest.out)
  }

  /** A payment notification for the invoice of t touches row t and no other,
      and there only the payment fields. */
  lemma NotificationAlone(quote: int -> int, db: BppDb, invoice: string, requestId: string, amount: int,
                          t: Txn, env: nat -> Env)
    requires Notified(invoice, requestId, amount) == PayRead(t, requestId, amount)
    ensures invoice == Invoice(t)
    ensures var after := Complete(quote, db, Notified(invoice, requestId, amount), env, 0).db;
      && after.policies.Keys == db.policies.Keys
      && (forall other :: other in db.policies && other != t ==> after.policies[other] == db.policies[other])
      && (t in db.policies ==>
           after.policies[t] == db.policies[t].(paid := after.policies[t].paid, requestId := after.policies[t].requestId))
      && (t in db.policies && db.policies[t].paid ==> after.policies[t].paid)
  {
    assert invoice == invoice[..4] + invoice[4..];
    var task := PayRead(t, requestId, amount);
    var e0 := BppStep(quote, db, task, env(0));
    var e1 := BppStep(quote, e0.db, e0.task, env(1));
    var e2 := BppStep(quote, e1.db, e1.task, env(2));
    FirstStep(quote, db, task, env, 0);
    FirstStep(quote, e0.db, e0.task, env, 1);
    FirstStep(quote, e1.db, e1.task, env, 2);
    FirstStep(quote, e2.db, e2.task, env, 3);
  }

  /** The steps of a payment notification for t. */
  predicate IsPayment(task: BppTask, t: Txn) {
    (task.PayRead? || task.PayMark? || task.PayRecord?) && task.txn == t
  }

  /** A notification starts work on t exactly when it names the invoice of t. */
  lemma NotifiedExactly(invoice: string, requestId: string, amount: int, t: Txn)
    ensures IsPayment(Notified(invoice, requestId, amount), t) <==> invoice == Invoice(t)
  {
    assert |invoice| >= 4 ==> invoice == invoice[..4] + invoice[4..];
    assert Invoice(t)[..4] == "ins-" && Invoice(t)[4..] == t;
  }

  /** A statement touches the row of its own transaction only, and rows are never removed. */
  lemma StepTouchesOwnRow(quote: int -> int, db: BppDb, task: BppTask, env: Env, other: Txn)
    ensures var after := BppStep(quote, db, task, env).db;
      && (other in db.policies ==> other in after.policies)
      && (task.Finished? || task.txn != other ==>
           && (other in after.policies ==> other in db.policies)
           && (other in db.policies ==> after.policies[other] == db.policies[other]))
  {
  }

  /** A statement of a payment handler changes only the payment fields, never unmarks a payment, and leaves the
      handler at the same transaction. */
  lemma PaymentStep(quote: int -> int, db: BppDb, task: BppTask, env: Env, t: Txn)
    requires IsPayment(task, t)
    ensures var e := BppStep(quote, db, task, env);
      && e.out == {}
      && (e.task.Finished? || IsPayment(e.task, t))
      && e.db.policies.Keys == db.policies.Keys
      && (t in db.policies ==>
           && e.db.policies[t] == db.policies[t].(paid := e.db.policies[t].paid, requestId := e.db.policies[t].requestId)
           && (db.policies[t].paid ==> e.db.policies[t].paid))
  {
  }

  lemma FirstStep(quote: int -> int, db: BppDb, task: BppTask, env: nat -> Env, n: nat)
    ensures task == Finished ==> Complete(quote, db, task, env, n) == BppOutcome(db, {})
    ensures task != Finished ==>
      var e := BppStep(quote, db, task, env(n));
      var rest := Complete(quote, e.db, e.task, env, n + 1);
      Complete(quote, db, task, env, n) == BppOutcome(rest.db, e.out + rest.out)
  {
  }
}
