/** The rows and messages of the settlement protocol between the buyer app (BAP) and the insurer (BPP). */
module SeamTypes {
  import opened Calendar
  import opened PolicyNumber
  import opened Wrappers

  type Txn = string

  datatype Status = PendingIssuance | Active | Cancelled | Expired | TotalLoss

  /** A row of the insurer's `policies` table; None and "" stand for NULL. */
  datatype PolicyRow = PolicyRow(
    id: nat,
    bapId: string,
    status: Status,
    idv: int,
    number: Option<PolicyNo>,
    coverage: Option<Coverage>,
    paid: bool,
    requestId: string,
    invoice: string,
    settled: bool)

  datatype PaymentRow = PaymentRow(policyId: nat, ref: string, amount: int)

  /** A release request sent to the payment service. */
  datatype Release = Release(invoice: string, requestId: string, amount: int)

  /** The insurer's database. `lostSettles` is a history variable: the transactions for which
      the statement that marks the policy settled failed at least once. */
  datatype BppDb = BppDb(
    policies: map<Txn, PolicyRow>,
    payments: seq<PaymentRow>,
    nextId: nat,
    releases: seq<Release>,
    lostSettles: set<Txn>)

  datatype Confirmation =
    | Rejected
    | Issued(number: Option<PolicyNo>, coverage: Option<Coverage>, total: int)

  datatype Msg =
    | Init(txn: Txn, bapId: string, nik: string, idv: int)
    | OnInit(txn: Txn, total: int)
    | Confirm(txn: Txn, paidAmount: int)
    | OnConfirm(txn: Txn, confirmation: Confirmation)
    | Reconcile(txn: Txn, invoice: string, total: int)
    | OnReconcile(txn: Txn, invoice: string)
    | Cancel(txn: Txn)
    | OnCancel(txn: Txn)

  datatype Action = ActInit | ActConfirm | ActReconcile | ActCancel

  datatype TxnStatus =
    | InitSent | InitReceived | ConfirmSent | Confirmed | Reconciling | Settled | CancelSent | TxnCancelled

  /** A row of the buyer app's `transactions` table; "" and 0 stand for NULL. */
  datatype TxnRow = TxnRow(
    action: Action, status: TxnStatus, invoice: string, url: string, amount: int, checkoutRequest: string)

  /** A status write, in the order the writes took effect. */
  datatype Write = Write(txn: Txn, status: TxnStatus)

  /** The buyer app's database. `history` is a history variable. */
  datatype BapDb = BapDb(transactions: map<Txn, TxnRow>, snapshots: seq<Msg>, history: seq<Write>)

  /** A successful checkout: the hosted page and the id of the payment request ("" when missing). */
  datatype Checkout = Checkout(url: string, requestId: string)

  /** What the environment decides for one step: whether the statement succeeds, the clock, the local
      year, and the outcome of a checkout call. */
  datatype Env = Env(ok: bool, now: Instant, year: nat, checkout: Option<Checkout>)

  function Invoice(t: Txn): string {
    "ins-" + t
  }

  /** The invoice of a transaction names that transaction only. */
  lemma InvoiceInjective(a: Txn, b: Txn)
    requires Invoice(a) == Invoice(b)
    ensures a == b
  {
    assert a == Invoice(a)[4..] && b == Invoice(b)[4..];
  }
}
