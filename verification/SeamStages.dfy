/** The reported stage over runs, and the conservation laws of the dashboard. */
module SeamStages {
  import opened SeamTypes
  import opened BppSteps
  import opened SeamRun
  import opened PolicyReports
  import SeamSafety

  /** What each reported stage says about a policy. */
  ghost predicate StageTellsState(row: PolicyRow, stage: nat) {
    && stage in {1, 2, 3, 5}
    && (stage == 1 <==> !row.paid)
    && (stage == 2 <==> row.paid && row.status != Active)
    && (stage == 3 <==> row.status == Active && !row.settled)
    && (stage == 5 <==> row.status == Active && row.settled)
  }

  lemma StageOfRow(row: PolicyRow)
    requires SeamSafety.RowOk(row)
    ensures StageTellsState(row, Stage(row))
  {
  }

  /** In every reachable table the stage is exact: 1 says unpaid, 2 paid and not issued, 3 issued and not settled,
      5 issued and settled, and 0 that there is no policy. */
  lemma StageMeaning(quote: int -> int, run: seq<Label>, t: Txn)
    ensures var db := Run(quote, run).bpp;
      && (StageAt(db, t) == 0 <==> t !in db.policies)
      && (t in db.policies ==> StageTellsState(db.policies[t], StageAt(db, t)))
  {
    SeamSafety.RunKeepsInv(quote, run);
    var db := Run(quote, run).bpp;
    if t in db.policies {
      assert SeamSafety.RowOk(db.policies[t]);
      StageOfRow(db.policies[t]);
    }
  }

  /** This step is the init statement on a row that is already ACTIVE. */
  ghost predicate ReopensIssued(w: World, l: Label) {
    l.BppRuns? && l.i < |w.tasks| && w.tasks[l.i].InitInsert? && l.env.ok &&
    w.tasks[l.i].txn in w.bpp.policies && w.bpp.policies[w.tasks[l.i].txn].status == Active
  }

  lemma StageDrop(quote: int -> int, w: World, l: Label, t: Txn)
    requires SeamSafety.Inv(w)
    ensures StageAt(Next(quote, w, l).bpp, t) < StageAt(w.bpp, t) <==>
      ReopensIssued(w, l) && w.tasks[l.i].txn == t
  {
    match l
    case BppRuns(i, env) =>
      if i < |w.tasks| {
        TaskDropsStage(quote, w.bpp, w.tasks[i], env, t);
      }
    case _ =>
  }

  lemma TaskDropsStage(quote: int -> int, db: BppDb, task: BppTask, env: Env, t: Txn)
    requires SeamSafety.RowsOk(db) && SeamSafety.TaskOk(db, task)
    ensures StageAt(BppStep(quote, db, task, env).db, t) < StageAt(db, t) <==>
      task.InitInsert? && env.ok && task.txn == t && t in db.policies && db.policies[t].status == Active
  {
    assert t in db.policies ==> SeamSafety.RowOk(db.policies[t]);
  }

  /** After any run, a step lowers the stage reported for a transaction exactly when it is the init statement
      for that transaction and its policy is ACTIVE. Payments, confirms, cancels, reconciles, their duplicates
      and their failures never lower it. */
  lemma StageDropsExactly(quote: int -> int, run: seq<Label>, l: Label, t: Txn)
    ensures var w := Run(quote, run);
      StageAt(Next(quote, w, l).bpp, t) < StageAt(w.bpp, t) <==> ReopensIssued(w, l) && w.tasks[l.i].txn == t
  {
    SeamSafety.RunKeepsInv(quote, run);
    StageDrop(quote, Run(quote, run), l, t);
  }

  /** Where no init hits an issued policy, stages only rise. */
  lemma {:induction false} StageMonotone(quote: int -> int, run: seq<Label>, more: seq<Label>, t: Txn)
    requires Along(quote, run + more, (w, l) => !ReopensIssued(w, l))
    ensures StageAt(Run(quote, run).bpp, t) <= StageAt(Run(quote, run + more).bpp, t)
  {
    if more == [] {
      assert run + more == run;
    } else {
      var all := run + more;
      assert all[..|all| - 1] == run + more[..|more| - 1];
      StageMonotone(quote, run, more[..|more| - 1], t);
      StageDropsExactly(quote, all[..|all| - 1], all[|all| - 1], t);
    }
  }

  /** An issued policy is still ACTIVE. */
  ghost predicate Live(db: BppDb) {
    forall t :: t in db.policies && db.policies[t].number.Some? ==> db.policies[t].status == Active
  }

  lemma NextKeepsLive(quote: int -> int, w: World, l: Label)
    requires SeamSafety.Inv(w) && Live(w.bpp) && !ReopensIssued(w, l)
    ensures Live(Next(quote, w, l).bpp)
  {
    match l
    case BppRuns(i, env) =>
      if i < |w.tasks| {
        assert SeamSafety.TaskOk(w.bpp, w.tasks[i]);
      }
    case _ =>
  }

  lemma {:induction false} RunKeepsLive(quote: int -> int, run: seq<Label>)
    requires Along(quote, run, (w, l) => !ReopensIssued(w, l))
    ensures Live(Run(quote, run).bpp)
  {
    if run != [] {
      RunKeepsLive(quote, run[..|run| - 1]);
      SeamSafety.RunKeepsInv(quote, run[..|run| - 1]);
      NextKeepsLive(quote, Run(quote, run[..|run| - 1]), run[|run| - 1]);
    }
  }

  lemma DisjointSizes<T>(a: set<T>, b: set<T>, all: set<T>)
    requires a !! b && a + b == all
    ensures |a| + |b| == |all|
  {
    assert |a + b| == |a| + |b|;
  }

  lemma SubsetSize<T>(a: set<T>, b: set<T>)
    requires a <= b
    ensures |a| <= |b|
  {
    DisjointSizes(a, b - a, b);
  }

  function SettledInactive(db: BppDb): set<Txn> {
    set t | t in db.policies && db.policies[t].settled && db.policies[t].status != Active
  }

  function UnpaidCancelled(db: BppDb): set<Txn> {
    set t | t in db.policies && !db.policies[t].paid && db.policies[t].status == Cancelled
  }

  /** In every reachable table: the counts of a partition add up, issued policies are paid, and active splits
      into pending and settled exactly when no settled policy has left ACTIVE. */
  lemma DashboardPartition(quote: int -> int, run: seq<Label>)
    ensures var db := Run(quote, run).bpp;
      var s := Dashboard(db);
      && CountsAddUp(db, s)
      && (s.active == s.reconcilePending + s.reconcileSettled <==> SettledInactive(db) == {})
  {
    var db := Run(quote, run).bpp;
    SeamSafety.RunKeepsInv(quote, run);
    DashboardOfTable(db);
  }

  /** The counts of a table with sound rows. */
  ghost predicate CountsAddUp(db: BppDb, s: Stats) {
    && s.all == s.paymentPending + s.paymentReceived + |UnpaidCancelled(db)|
    && s.active <= s.paymentReceived <= s.all
    && s.reconcileSettled <= s.paymentReceived
    && s.active + |SettledInactive(db)| == s.reconcilePending + s.reconcileSettled
  }

  lemma DashboardOfTable(db: BppDb)
    requires SeamSafety.RowsOk(db)
    ensures CountsAddUp(db, Dashboard(db))
  {
    PaymentPartition(db);
    SettlementPartition(db);
  }

  lemma PaymentPartition(db: BppDb)
    requires SeamSafety.RowsOk(db)
    ensures |db.policies| == |UnpaidPending(db)| + |PaidRows(db)| + |UnpaidCancelled(db)|
    ensures |ActiveRows(db)| <= |PaidRows(db)| && |SettledRows(db)| <= |PaidRows(db)|
  {
    assert forall t :: t in db.policies ==> SeamSafety.RowOk(db.policies[t]);
    var unpaid := UnpaidPending(db) + UnpaidCancelled(db);
    DisjointSizes(UnpaidPending(db), UnpaidCancelled(db), unpaid);
    DisjointSizes(unpaid, PaidRows(db), db.policies.Keys);
    SubsetSize(ActiveRows(db), PaidRows(db));
    SubsetSize(SettledRows(db), PaidRows(db));
    assert |db.policies| == |db.policies.Keys|;
  }

  lemma SettlementPartition(db: BppDb)
    ensures |ActiveRows(db)| + |SettledInactive(db)| == |ActiveUnsettled(db)| + |SettledRows(db)|
  {
    var either := ActiveRows(db) + SettledInactive(db);
    DisjointSizes(ActiveRows(db), SettledInactive(db), either);
    DisjointSizes(ActiveUnsettled(db), SettledRows(db), either);
  }

  /** Where no init hits an issued policy: active is reconcile-pending plus settled, and
      settled <= active <= payment-received <= all. */
  lemma DashboardConservation(quote: int -> int, run: seq<Label>)
    requires Along(quote, run, (w, l) => !ReopensIssued(w, l))
    ensures var s := Dashboard(Run(quote, run).bpp);
      && s.active == s.reconcilePending + s.reconcileSettled
      && s.reconcileSettled <= s.active <= s.paymentReceived <= s.all
  {
    var db := Run(quote, run).bpp;
    RunKeepsLive(quote, run);
    SeamSafety.RunKeepsInv(quote, run);
    assert forall t :: t in db.policies ==> SeamSafety.RowOk(db.policies[t]);
    assert SettledInactive(db) == {};
    DashboardPartition(quote, run);
  }
}
