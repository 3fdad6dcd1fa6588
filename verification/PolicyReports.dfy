/** What the insurer reports about its policies: the stage of one transaction and the dashboard counts. */
module PolicyReports {
  import opened SeamTypes

  /** The SEAM stage of a policy: 1 awaiting payment, 2 funds held, 3 issued, 5 settled. */
  function Stage(row: PolicyRow): nat {
    if row.paid && row.status != Active then 2
    else if row.status == Active && !row.settled then 3
    else if row.settled then 5
    else 1
  }

  /** 0 stands for "policy not found". */
  function StageAt(db: BppDb, t: Txn): nat {
    if t in db.policies then Stage(db.policies[t]) else 0
  }

  datatype Stats = Stats(
    active: nat, all: nat, paymentPending: nat, paymentReceived: nat, reconcileSettled: nat, reconcilePending: nat)

  function ActiveRows(db: BppDb): set<Txn> {
    set t | t in db.policies && db.policies[t].status == Active
  }

  function UnpaidPending(db: BppDb): set<Txn> {
    set t | t in db.policies && !db.policies[t].paid && db.policies[t].status == PendingIssuance
  }

  function PaidRows(db: BppDb): set<Txn> {
    set t | t in db.policies && db.policies[t].paid
  }

  function SettledRows(db: BppDb): set<Txn> {
    set t | t in db.policies && db.policies[t].settled
  }

  function ActiveUnsettled(db: BppDb): set<Txn> {
    set t | t in db.policies && !db.policies[t].settled && db.policies[t].status == Active
  }

  /** The dashboard counts on one snapshot of the table. */
  function Dashboard(db: BppDb): Stats {
    Stats(|ActiveRows(db)|, |db.policies|, |UnpaidPending(db)|, |PaidRows(db)|, |SettledRows(db)|, |ActiveUnsettled(db)|)
  }
}
