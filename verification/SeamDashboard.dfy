/** What each dashboard count counts, by the history of a run, and how each statement moves the counts. */
module SeamDashboard {
  import opened SeamTypes
  import opened Wrappers
  import opened BppSteps
  import opened PolicyReports
  import opened SeamRun
  import SeamSafety
  import SeamTable

  // ---- Counting by history ----

  /** The statement that takes effect in the last step. */
  function Last(quote: int -> int, run: seq<Label>): BppTask
    requires run != []
  {
    SeamTable.Ran(Run(quote, run[..|run| - 1]), run[|run| - 1])
  }

  /** The transactions that had an init. */
  function Known(quote: int -> int, run: seq<Label>): set<Txn> {
    if run == [] then {}
    else
      var before, task := Known(quote, run[..|run| - 1]), Last(quote, run);
      if task.InitInsert? then before + {task.txn} else before
  }

  /** Those a payment was marked for. */
  function Paid(quote: int -> int, run: seq<Label>): set<Txn> {
    if run == [] then {}
    else
      var before, task := Paid(quote, run[..|run| - 1]), Last(quote, run);
      if task.PayMark? then before + {task.txn} else before
  }

  /** Those marked settled. */
  function Marked(quote: int -> int, run: seq<Label>): set<Txn> {
    if run == [] then {}
    else
      var before, task := Marked(quote, run[..|run| - 1]), Last(quote, run);
      if task.ReconcileSettle? then before + {task.txn} else before
  }

  /** Those issued and not reopened by an init since. */
  function IssuedNow(quote: int -> int, run: seq<Label>): set<Txn> {
    if run == [] then {}
    else
      var before, task := IssuedNow(quote, run[..|run| - 1]), Last(quote, run);
      if task.ConfirmIssue? then before + {task.txn} else if task.InitInsert? then before - {task.txn} else before
  }

  /** Those with an init and neither issued nor cancelled since. */
  function PendingNow(quote: int -> int, run: seq<Label>): set<Txn> {
    if run == [] then {}
    else
      var before, task := PendingNow(quote, run[..|run| - 1]), Last(quote, run);
      if task.InitInsert? then before + {task.txn}
      else if task.ConfirmIssue? || task.CancelUpdate? then before - {task.txn}
      else before
  }

  lemma {:induction false} InSets(quote: int -> int, run: seq<Label>, t: Txn)
    ensures t in Known(quote, run) <==> SeamTable.StatusOf(quote, run, t).Some?
    ensures t in IssuedNow(quote, run) <==> SeamTable.StatusOf(quote, run, t) == Some(Active)
    ensures t in PendingNow(quote, run) <==> SeamTable.StatusOf(quote, run, t) == Some(PendingIssuance)
    ensures t in Paid(quote, run) <==> SeamTable.EverPaid(quote, run, t)
    ensures t in Marked(quote, run) <==> SeamSafety.EverMarked(quote, run, t)
  {
    if run != [] {
      InSets(quote, run[..|run| - 1], t);
      IssueHasRow(quote, run, t);
    }
  }

  /** Only a transaction with an init is issued. */
  lemma IssueHasRow(quote: int -> int, run: seq<Label>, t: Txn)
    requires run != []
    ensures Last(quote, run).ConfirmIssue? && Last(quote, run).txn == t ==>
      SeamTable.StatusOf(quote, run[..|run| - 1], t).Some?
  {
    var before, l := run[..|run| - 1], run[|run| - 1];
    SeamSafety.RunKeepsInv(quote, before);
    SeamTable.RowIsHistory(quote, before, t);
    if l.BppRuns? && l.i < |Run(quote, before).tasks| {
      assert SeamSafety.TaskOk(Run(quote, before).bpp, Run(quote, before).tasks[l.i]);
    }
  }

  /** A row against the sets of the history. */
  ghost predicate RowInSets(db: BppDb, t: Txn, known: bool, issued: bool, pending: bool, paid: bool, marked: bool) {
    && (known <==> t in db.policies)
    && (issued <==> t in ActiveRows(db))
    && (paid <==> t in PaidRows(db))
    && (marked <==> t in SettledRows(db))
    && (pending && !paid <==> t in UnpaidPending(db))
    && (issued && !marked <==> t in ActiveUnsettled(db))
  }

  lemma RowOfHistory(quote: int -> int, run: seq<Label>, t: Txn)
    ensures RowInSets(Run(quote, run).bpp, t, t in Known(quote, run), t in IssuedNow(quote, run), t in PendingNow(quote, run),
                      t in Paid(quote, run), t in Marked(quote, run))
  {
    InSets(quote, run, t);
    SeamTable.RowIsHistory(quote, run, t);
  }

  /** Six sets that agree with the rows member by member. */
  lemma SetsOfTable(db: BppDb, known: set<Txn>, issued: set<Txn>, pending: set<Txn>, paid: set<Txn>, marked: set<Txn>)
    requires forall t: Txn ::
      RowInSets(db, t, t in known, t in issued, t in pending, t in paid, t in marked)
    ensures var s := Dashboard(db);
      && s.all == |known| && s.active == |issued| && s.paymentReceived == |paid| && s.reconcileSettled == |marked|
      && s.paymentPending == |pending - paid| && s.reconcilePending == |issued - marked|
  {
    forall t: Txn
      ensures t in known <==> t in db.policies
      ensures t in issued <==> t in ActiveRows(db)
      ensures t in paid <==> t in PaidRows(db)
      ensures t in marked <==> t in SettledRows(db)
      ensures t in pending - paid <==> t in UnpaidPending(db)
      ensures t in issued - marked <==> t in ActiveUnsettled(db)
    {
      assert RowInSets(db, t, t in known, t in issued, t in pending, t in paid, t in marked);
    }
    assert known == db.policies.Keys && |db.policies| == |db.policies.Keys|;
    assert issued == ActiveRows(db) && paid == PaidRows(db) && marked == SettledRows(db);
    assert pending - paid == UnpaidPending(db) && issued - marked == ActiveUnsettled(db);
  }

  /** After every run each dashboard count is the number of transactions with a history: all had an init, active were
      issued and not reopened, payment-received were ever marked paid, settled were ever marked settled,
      payment-pending are pending and never paid, and reconcile-pending are active and never marked settled. */
  lemma CountsAreHistory(quote: int -> int, run: seq<Label>)
    ensures var s := Dashboard(Run(quote, run).bpp);
      && s.all == |Known(quote, run)| && s.active == |IssuedNow(quote, run)|
      && s.paymentReceived == |Paid(quote, run)| && s.reconcileSettled == |Marked(quote, run)|
      && s.paymentPending == |PendingNow(quote, run) - Paid(quote, run)|
      && s.reconcilePending == |IssuedNow(quote, run) - Marked(quote, run)|
  {
    var db := Run(quote, run).bpp;
    var known, issued, pending := Known(quote, run), IssuedNow(quote, run), PendingNow(quote, run);
    var paid, marked := Paid(quote, run), Marked(quote, run);
    forall t: Txn ensures RowInSets(db, t, t in known, t in issued, t in pending, t in paid, t in marked) {
      RowOfHistory(quote, run, t);
    }
    SetsOfTable(db, known, issued, pending, paid, marked);
  }

  // ---- How one statement moves the counts ----

  function Rows(policies: map<Txn, PolicyRow>, f: PolicyRow -> bool): set<Txn> {
    set t | t in policies && f(policies[t])
  }

  function One(b: bool): int {
    if b then 1 else 0
  }

  lemma CountAfter(policies: map<Txn, PolicyRow>, t: Txn, row: PolicyRow, f: PolicyRow -> bool)
    ensures |Rows(policies[t := row], f)| == |Rows(policies, f)| - One(t in policies && f(policies[t])) + One(f(row))
  {
    var before, after := Rows(policies, f), Rows(policies[t := row], f);
    var others := before - {t};
    assert after == if f(row) then others + {t} else others;
    assert before == if t in policies && f(policies[t]) then others + {t} else others;
  }

  /** The counts after one row was written. */
  lemma CountsAfter(db: BppDb, after: BppDb, t: Txn, row: PolicyRow)
    requires after.policies == db.policies[t := row]
    ensures var s, s' := Dashboard(db), Dashboard(after);
      && s'.active == s.active - One(t in db.policies && db.policies[t].status == Active) + One(row.status == Active)
      && s'.all == s.all + One(t !in db.policies)
      && s'.paymentReceived == s.paymentReceived - One(t in db.policies && db.policies[t].paid) + One(row.paid)
      && s'.reconcileSettled == s.reconcileSettled - One(t in db.policies && db.policies[t].settled) + One(row.settled)
  {
    ActiveAfter(db, after, t, row);
    FlagsAfter(db, after, t, row);
  }

  lemma ActiveAfter(db: BppDb, after: BppDb, t: Txn, row: PolicyRow)
    requires after.policies == db.policies[t := row]
    ensures |ActiveRows(after)| ==
      |ActiveRows(db)| - One(t in db.policies && db.policies[t].status == Active) + One(row.status == Active)
    ensures |after.policies| == |db.policies| + One(t !in db.policies)
  {
    var active, any := (r: PolicyRow) => r.status == Active, (r: PolicyRow) => true;
    assert ActiveRows(db) == Rows(db.policies, active) && ActiveRows(after) == Rows(after.policies, active);
    CountAfter(db.policies, t, row, active);
    CountAfter(db.policies, t, row, any);
    assert Rows(db.policies, any) == db.policies.Keys && Rows(after.policies, any) == after.policies.Keys;
    assert |db.policies| == |db.policies.Keys| && |after.policies| == |after.policies.Keys|;
  }

  lemma FlagsAfter(db: BppDb, after: BppDb, t: Txn, row: PolicyRow)
    requires after.policies == db.policies[t := row]
    ensures |PaidRows(after)| == |PaidRows(db)| - One(t in db.policies && db.policies[t].paid) + One(row.paid)
    ensures |SettledRows(after)| == |SettledRows(db)| - One(t in db.policies && db.policies[t].settled) + One(row.settled)
  {
    var paid, settled := (r: PolicyRow) => r.paid, (r: PolicyRow) => r.settled;
    assert PaidRows(db) == Rows(db.policies, paid) && PaidRows(after) == Rows(after.policies, paid);
    CountAfter(db.policies, t, row, paid);
    assert SettledRows(db) == Rows(db.policies, settled) && SettledRows(after) == Rows(after.policies, settled);
    CountAfter(db.policies, t, row, settled);
  }

  lemma PendingCountsAfter(db: BppDb, after: BppDb, t: Txn, row: PolicyRow)
    requires after.policies == db.policies[t := row]
    ensures var s, s' := Dashboard(db), Dashboard(after);
      && s'.paymentPending == s.paymentPending
           - One(t in db.policies && !db.policies[t].paid && db.policies[t].status == PendingIssuance)
           + One(!row.paid && row.status == PendingIssuance)
      && s'.reconcilePending == s.reconcilePending
           - One(t in db.policies && !db.policies[t].settled && db.policies[t].status == Active)
           + One(!row.settled && row.status == Active)
  {
    var pending := (r: PolicyRow) => !r.paid && r.status == PendingIssuance;
    var unsettled := (r: PolicyRow) => !r.settled && r.status == Active;
    assert UnpaidPending(db) == Rows(db.policies, pending) && UnpaidPending(after) == Rows(after.policies, pending);
    CountAfter(db.policies, t, row, pending);
    assert ActiveUnsettled(db) == Rows(db.policies, unsettled) && ActiveUnsettled(after) == Rows(after.policies, unsettled);
    CountAfter(db.policies, t, row, unsettled);
  }

  /** A statement that takes effect, in any state and whatever else is running. */
  predicate Runs(w: World, l: Label, t: Txn) {
    l.BppRuns? && l.i < |w.tasks| && l.env.ok && !w.tasks[l.i].Finished? && w.tasks[l.i].txn == t && t in w.bpp.policies
  }

  /** Marking an ACTIVE unsettled policy moves exactly one from reconcile-pending to settled. */
  lemma MarkMovesOne(quote: int -> int, w: World, l: Label, t: Txn)
    requires Runs(w, l, t) && w.tasks[l.i].ReconcileSettle?
    requires w.bpp.policies[t].status == Active && !w.bpp.policies[t].settled
    ensures var s, s' := Dashboard(w.bpp), Dashboard(Next(quote, w, l).bpp);
      && s'.reconcilePending == s.reconcilePending - 1 && s'.reconcileSettled == s.reconcileSettled + 1
      && s'.active == s.active && s'.all == s.all
      && s'.paymentPending == s.paymentPending && s'.paymentReceived == s.paymentReceived
  {
    var after := Next(quote, w, l).bpp;
    CountsAfter(w.bpp, after, t, after.policies[t]);
    PendingCountsAfter(w.bpp, after, t, after.policies[t]);
  }

  /** Issuing an inactive, unsettled, paid policy raises active and reconcile-pending by one and nothing else. */
  lemma IssueRaisesOne(quote: int -> int, w: World, l: Label, t: Txn)
    requires Runs(w, l, t) && w.tasks[l.i].ConfirmIssue?
    requires w.bpp.policies[t].status != Active && !w.bpp.policies[t].settled && w.bpp.policies[t].paid
    ensures var s, s' := Dashboard(w.bpp), Dashboard(Next(quote, w, l).bpp);
      && s'.active == s.active + 1 && s'.reconcilePending == s.reconcilePending + 1
      && s'.all == s.all && s'.reconcileSettled == s.reconcileSettled
      && s'.paymentPending == s.paymentPending && s'.paymentReceived == s.paymentReceived
  {
    var after := Next(quote, w, l).bpp;
    CountsAfter(w.bpp, after, t, after.policies[t]);
    PendingCountsAfter(w.bpp, after, t, after.policies[t]);
  }

  /** The first payment marked for a pending policy moves one from payment-pending to payment-received. */
  lemma PaymentMovesOne(quote: int -> int, w: World, l: Label, t: Txn)
    requires Runs(w, l, t) && w.tasks[l.i].PayMark?
    requires w.bpp.policies[t].status == PendingIssuance && !w.bpp.policies[t].paid
    ensures var s, s' := Dashboard(w.bpp), Dashboard(Next(quote, w, l).bpp);
      && s'.paymentPending == s.paymentPending - 1 && s'.paymentReceived == s.paymentReceived + 1
      && s'.active == s.active && s'.all == s.all
      && s'.reconcileSettled == s.reconcileSettled && s'.reconcilePending == s.reconcilePending
  {
    var after := Next(quote, w, l).bpp;
    CountsAfter(w.bpp, after, t, after.policies[t]);
    PendingCountsAfter(w.bpp, after, t, after.policies[t]);
  }

  /** Cancelling an unpaid pending policy lowers payment-pending by one and nothing else. */
  lemma CancelLowersOne(quote: int -> int, w: World, l: Label, t: Txn)
    requires Runs(w, l, t) && w.tasks[l.i].CancelUpdate?
    requires w.bpp.policies[t].status == PendingIssuance && !w.bpp.policies[t].paid
    ensures var s, s' := Dashboard(w.bpp), Dashboard(Next(quote, w, l).bpp);
      s' == s.(paymentPending := s'.paymentPending) && s'.paymentPending == s.paymentPending - 1
  {
    var after := Next(quote, w, l).bpp;
    CountsAfter(w.bpp, after, t, after.policies[t]);
    PendingCountsAfter(w.bpp, after, t, after.policies[t]);
  }

  /** The init of a new transaction raises all and payment-pending by one and nothing else. */
  lemma InitRaisesOne(quote: int -> int, w: World, l: Label)
    requires l.BppRuns? && l.i < |w.tasks| && l.env.ok && w.tasks[l.i].InitInsert? && w.tasks[l.i].txn !in w.bpp.policies
    ensures var s, s' := Dashboard(w.bpp), Dashboard(Next(quote, w, l).bpp);
      && s' == s.(all := s'.all, paymentPending := s'.paymentPending)
      && s'.all == s.all + 1 && s'.paymentPending == s.paymentPending + 1
  {
    var t, after := w.tasks[l.i].txn, Next(quote, w, l).bpp;
    CountsAfter(w.bpp, after, t, after.policies[t]);
    PendingCountsAfter(w.bpp, after, t, after.policies[t]);
  }
}
