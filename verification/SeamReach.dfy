/** What runs can reach: settlement stays possible from every state, and the assumptions of the safety
    results cannot be dropped. */
module SeamReach {
  import opened Calendar
  import opened SeamTypes
  import opened Wrappers
  import opened BppSteps
  import opened PolicyReports
  import opened SeamRun
  import SeamAmounts
  import SeamNumbers
  import SeamSafety
  import BapSteps
  import PolicyNumber

  /** A step in which everything succeeds and no checkout is created. */
  const GOOD := Env(true, Instant(2026, 1, 15, 0), 2026, None)

  /** A step whose statement fails. */
  const BAD := Env(false, Instant(2026, 1, 15, 0), 2026, None)

  function Outcome(ok: bool): Env {
    if ok then GOOD else BAD
  }

  ghost predicate Continues(run: seq<Label>, longer: seq<Label>) {
    |run| <= |longer| && longer[..|run|] == run
  }

  /** One more step of a run that continues `from`. */
  lemma Go(quote: int -> int, from: seq<Label>, run: seq<Label>, l: Label) returns (longer: seq<Label>, w: World)
    requires Continues(from, run)
    ensures longer == run + [l] && Continues(from, longer)
    ensures w == Run(quote, longer) == Next(quote, Run(quote, run), l)
  {
    longer := run + [l];
    assert longer[..|longer| - 1] == run;
    w := Run(quote, longer);
  }

  lemma ContinuesTransitive(a: seq<Label>, b: seq<Label>, c: seq<Label>)
    requires Continues(a, b) && Continues(b, c)
    ensures Continues(a, c)
  {
    assert c[..|a|] == c[..|b|][..|a|];
  }

  // ---- The phases of the protocol ----

  /** A frontend request can always be sent. */
  lemma CallPhase(quote: int -> int, run: seq<Label>, call: BapSteps.Call) returns (longer: seq<Label>)
    requires BapSteps.Start(call) == BapSteps.CallUpsert(call)
    ensures Continues(run, longer)
    ensures var w0, w := Run(quote, run), Run(quote, longer);
      && w.bpp == w0.bpp && w.tasks == w0.tasks && w.net == w0.net + {BapSteps.Request(call)}
      && w.bap == BapSteps.Upsert(w0.bap, call.txn, BapSteps.CallAction(call), BapSteps.SentStatus(call), true)
  {
    var j, w := |Run(quote, run).jobs|, Run(quote, run);
    longer, w := Go(quote, run, run, Frontend(call));
    longer, w := Go(quote, run, longer, BapRuns(j, GOOD));
    longer, w := Go(quote, run, longer, BapRuns(j, GOOD));
  }

  /** An init, first or repeated, takes effect at the insurer. */
  lemma InitPhase(quote: int -> int, run: seq<Label>, t: Txn, idv: int) returns (longer: seq<Label>)
    ensures Continues(run, longer)
    ensures var w0, w := Run(quote, run), Run(quote, longer);
      && w.bpp == UpsertPolicy(w0.bpp, t, BapSteps.BAP_ID, idv)
      && w.bap == BapSteps.Upsert(w0.bap, t, ActInit, InitSent, true)
  {
    var call := BapSteps.CallInit(t, "", idv);
    var sent := CallPhase(quote, run, call);
    var w := Run(quote, sent);
    var i := |w.tasks|;
    longer, w := Go(quote, run, sent, Deliver(BapSteps.Request(call)));
    assert w.tasks[i] == InitInsert(t, BapSteps.BAP_ID, idv);
    longer, w := Go(quote, run, longer, BppRuns(i, GOOD));
  }

  /** A payment notification marks the row paid unless it is ACTIVE. */
  lemma PayPhase(quote: int -> int, run: seq<Label>, t: Txn) returns (longer: seq<Label>)
    requires var db := Run(quote, run).bpp; t in db.policies && db.policies[t].status != Active
    ensures Continues(run, longer)
    ensures var w0, w := Run(quote, run), Run(quote, longer);
      w.bap == w0.bap && w.bpp == w0.bpp.(policies := w0.bpp.policies[t := w0.bpp.policies[t].(paid := true)])
  {
    var i, w := |Run(quote, run).tasks|, Run(quote, run);
    var policyId := w.bpp.policies[t].id;
    assert Invoice(t)[..4] == "ins-" && Invoice(t)[4..] == t;
    longer, w := Go(quote, run, run, Notify(Invoice(t), "", 0));
    assert w.tasks[i] == PayRead(t, "", 0);
    longer, w := Go(quote, run, longer, BppRuns(i, GOOD));
    assert w.tasks[i] == PayMark(t, policyId, "", 0);
    longer, w := Go(quote, run, longer, BppRuns(i, GOOD));
  }

  /** A cancel reaches the insurer. */
  lemma CancelPhase(quote: int -> int, run: seq<Label>, t: Txn) returns (longer: seq<Label>)
    ensures Continues(run, longer)
    ensures Run(quote, longer).bpp == CancelPending(Run(quote, run).bpp, t)
  {
    var sent := CallPhase(quote, run, BapSteps.CallCancel(t));
    var w := Run(quote, sent);
    var i := |w.tasks|;
    longer, w := Go(quote, run, sent, Deliver(Cancel(t)));
    assert w.tasks[i] == CancelUpdate(t);
    longer, w := Go(quote, run, longer, BppRuns(i, GOOD));
  }

  lemma ConfirmCalled(quote: int -> int, run: seq<Label>, t: Txn) returns (longer: seq<Label>)
    requires |t| >= 8
    ensures Continues(run, longer)
    ensures var w0, w := Run(quote, run), Run(quote, longer);
      && w.bpp == w0.bpp && w.tasks == w0.tasks && w0.net <= w.net && Confirm(t, 0) in w.net
      && w.bap == BapSteps.Upsert(w0.bap, t, ActConfirm, ConfirmSent, true)
  {
    longer := CallPhase(quote, run, BapSteps.CallConfirm(t, 0));
  }

  /** A confirm of a paid, inactive policy gets as far as its count query, which may fail. */
  lemma CountPhase(quote: int -> int, run: seq<Label>, t: Txn, ok: bool) returns (longer: seq<Label>)
    requires var db := Run(quote, run).bpp; t in db.policies && db.policies[t].paid && db.policies[t].status != Active
    requires Confirm(t, 0) in Run(quote, run).net
    ensures Continues(run, longer)
    ensures var w0, w := Run(quote, run), Run(quote, longer);
      && w.bpp == w0.bpp && w.bap == w0.bap && w.net == w0.net
      && w.tasks == w0.tasks + [ConfirmIssue(t, w0.bpp.policies[t], 0, (if ok then ActiveCount(w0.bpp) else 0) + 1)]
  {
    var i, w := |Run(quote, run).tasks|, Run(quote, run);
    ghost var before, row := w.tasks, w.bpp.policies[t];
    longer, w := Go(quote, run, run, Deliver(Confirm(t, 0)));
    assert w.tasks == before + [ConfirmRead(t, 0)];
    longer, w := Go(quote, run, longer, BppRuns(i, GOOD));
    assert w.tasks == before + [ConfirmCount(t, row, 0)];
    longer, w := Go(quote, run, longer, BppRuns(i, Outcome(ok)));
  }

  /** A handler past its count query writes the number and is then about to reply. */
  lemma IssuePhase(quote: int -> int, run: seq<Label>, t: Txn, i: nat) returns (longer: seq<Label>, c: Confirmation)
    requires var w := Run(quote, run);
      i < |w.tasks| && w.tasks[i].ConfirmIssue? && w.tasks[i].txn == t && t in w.bpp.policies
    ensures Continues(run, longer)
    ensures var w0, w := Run(quote, run), Run(quote, longer);
      && w.bpp.policies == IssuePolicy(w0.bpp, t, Number(w0.tasks[i].seqNo), Coverage(GOOD.now, AddYear(GOOD.now))).policies
      && w.bap == w0.bap && w.net == w0.net
      && c.Issued? && w.tasks == w0.tasks[i := ConfirmReply(t, c)]
  {
    var w;
    longer, w := Go(quote, run, run, BppRuns(i, GOOD));
    assert w.tasks[i].ConfirmRecord?;
    longer, w := Go(quote, run, longer, BppRuns(i, GOOD));
    c := w.tasks[i].confirmation;
  }

  function Number(seqNo: nat): PolicyNumber.PolicyNo {
    PolicyNumber.PolicyNo(2026, seqNo)
  }

  /** A whole confirm of a paid, inactive policy, with nothing in between; its count query may fail. */
  lemma SerialConfirm(quote: int -> int, run: seq<Label>, t: Txn, ok: bool) returns (longer: seq<Label>, c: Confirmation)
    requires |t| >= 8
    requires var db := Run(quote, run).bpp; t in db.policies && db.policies[t].paid && db.policies[t].status != Active
    ensures Continues(run, longer)
    ensures var w0, w := Run(quote, run), Run(quote, longer);
      var number := Number((if ok then ActiveCount(w0.bpp) else 0) + 1);
      && w.bpp.policies == IssuePolicy(w0.bpp, t, number, Coverage(GOOD.now, AddYear(GOOD.now))).policies
      && w.bap == BapSteps.Upsert(w0.bap, t, ActConfirm, ConfirmSent, true)
      && c.Issued? && OnConfirm(t, c) in w.net
  {
    var i := |Run(quote, run).tasks|;
    var sent := ConfirmCalled(quote, run, t);
    var counted := CountPhase(quote, sent, t, ok);
    var issued;
    issued, c := IssuePhase(quote, counted, t, i);
    ContinuesTransitive(run, sent, counted);
    ContinuesTransitive(run, counted, issued);
    var w;
    longer, w := Go(quote, run, issued, BppRuns(i, GOOD));
  }

  /** A confirm of an ACTIVE policy repeats the stored number. */
  lemma RepeatPhase(quote: int -> int, run: seq<Label>, t: Txn) returns (longer: seq<Label>, c: Confirmation)
    requires |t| >= 8
    requires var db := Run(quote, run).bpp; t in db.policies && db.policies[t].status == Active
    ensures Continues(run, longer)
    ensures Run(quote, longer).bpp == Run(quote, run).bpp && c.Issued? && OnConfirm(t, c) in Run(quote, longer).net
  {
    var sent := ConfirmCalled(quote, run, t);
    var i, w := |Run(quote, sent).tasks|, Run(quote, sent);
    longer, w := Go(quote, run, sent, Deliver(Confirm(t, 0)));
    assert w.tasks[i] == ConfirmRead(t, 0);
    longer, w := Go(quote, run, longer, BppRuns(i, GOOD));
    c := w.tasks[i].confirmation;
    longer, w := Go(quote, run, longer, BppRuns(i, GOOD));
  }

  /** A confirm of a paid policy, ACTIVE or not, CANCELLED or not, ends with an ACTIVE policy and a confirmation. */
  lemma ConfirmPhase(quote: int -> int, run: seq<Label>, t: Txn) returns (longer: seq<Label>, c: Confirmation)
    requires |t| >= 8
    requires var db := Run(quote, run).bpp; t in db.policies && (db.policies[t].paid || db.policies[t].status == Active)
    ensures Continues(run, longer)
    ensures var w0, w := Run(quote, run), Run(quote, longer);
      && t in w.bpp.policies && w.bpp.policies[t].status == Active
      && w.bpp.policies[t].settled == w0.bpp.policies[t].settled
      && c.Issued? && OnConfirm(t, c) in w.net
  {
    if Run(quote, run).bpp.policies[t].status == Active {
      longer, c := RepeatPhase(quote, run, t);
    } else {
      longer, c := SerialConfirm(quote, run, t, true);
    }
  }

  /** What the amount query of a reconcile finds when no amount was stored. */
  ghost predicate NoAmount(bap: BapDb, t: Txn) {
    && !SeamAmounts.HasSnapshot(bap, t)
    && (t in bap.transactions ==> bap.transactions[t].amount == 0 && bap.transactions[t].invoice == "")
  }

  lemma FallbackRead(bap: BapDb, t: Txn, ok: bool)
    requires !ok || NoAmount(bap, t)
    ensures BapSteps.BapStep(bap, BapSteps.ReconRead(t), Outcome(ok)).task == BapSteps.ReconSnapshot(t, Invoice(t))
    ensures BapSteps.SnapshotAmount(bap.snapshots, t, ok) == BapSteps.FALLBACK_AMOUNT
  {
    if ok {
      NoTotal(bap.snapshots, t);
    }
  }

  /** The reads of a reconcile goroutine, which may fail. */
  lemma ReadPhase(quote: int -> int, run: seq<Label>, t: Txn, j: nat, ok: bool)
    returns (longer: seq<Label>, invoice: string, amount: int)
    requires var w := Run(quote, run); j < |w.jobs| && w.jobs[j] == BapSteps.ReconRead(t)
    ensures Continues(run, longer)
    ensures var w0, w := Run(quote, run), Run(quote, longer);
      w.bpp == w0.bpp && j < |w.jobs| && w.jobs[j] == BapSteps.ReconUpsert(t, invoice, amount)
    ensures !ok || NoAmount(Run(quote, run).bap, t) ==> invoice == Invoice(t) && amount == BapSteps.FALLBACK_AMOUNT
  {
    var w := Run(quote, run);
    if !ok || NoAmount(w.bap, t) {
      FallbackRead(w.bap, t, ok);
    }
    var job := BapSteps.BapStep(w.bap, w.jobs[j], Outcome(ok)).task;
    longer, w := Go(quote, run, run, BapRuns(j, Outcome(ok)));
    assert w.jobs[j] == job;
    if job.ReconSnapshot? {
      longer, w := Go(quote, run, longer, BapRuns(j, Outcome(ok)));
    }
    invoice, amount := w.jobs[j].invoice, w.jobs[j].amount;
  }

  /** A reconcile goroutine ends with a reconcile message. */
  lemma SendPhase(quote: int -> int, run: seq<Label>, t: Txn, j: nat, ok: bool)
    returns (longer: seq<Label>, invoice: string, amount: int)
    requires var w := Run(quote, run); j < |w.jobs| && w.jobs[j] == BapSteps.ReconRead(t)
    ensures Continues(run, longer)
    ensures Run(quote, longer).bpp == Run(quote, run).bpp && Reconcile(t, invoice, amount) in Run(quote, longer).net
    ensures !ok || NoAmount(Run(quote, run).bap, t) ==> invoice == Invoice(t) && amount == BapSteps.FALLBACK_AMOUNT
  {
    var ready;
    ready, invoice, amount := ReadPhase(quote, run, t, j, ok);
    longer := FinishSend(quote, ready, t, j, invoice, amount);
    ContinuesTransitive(run, ready, longer);
  }

  lemma FinishSend(quote: int -> int, run: seq<Label>, t: Txn, j: nat, invoice: string, amount: int)
    returns (longer: seq<Label>)
    requires var w := Run(quote, run); j < |w.jobs| && w.jobs[j] == BapSteps.ReconUpsert(t, invoice, amount)
    ensures Continues(run, longer)
    ensures Run(quote, longer).bpp == Run(quote, run).bpp && Reconcile(t, invoice, amount) in Run(quote, longer).net
  {
    var w;
    longer, w := Go(quote, run, run, BapRuns(j, GOOD));
    assert w.jobs[j] == BapSteps.ReconSend(t, invoice, amount);
    longer, w := Go(quote, run, longer, BapRuns(j, GOOD));
  }

  /** Handling a confirmation makes the buyer app send a reconcile. */
  lemma ReconcileSent(quote: int -> int, run: seq<Label>, t: Txn, c: Confirmation, ok: bool)
    returns (longer: seq<Label>, invoice: string, amount: int)
    requires t != "" && c.Issued? && OnConfirm(t, c) in Run(quote, run).net
    ensures Continues(run, longer)
    ensures Run(quote, longer).bpp == Run(quote, run).bpp && Reconcile(t, invoice, amount) in Run(quote, longer).net
    ensures invoice == Invoice(t)
    ensures !ok || NoAmount(Run(quote, run).bap, t) ==> amount == BapSteps.FALLBACK_AMOUNT
  {
    var j, w := |Run(quote, run).jobs|, Run(quote, run);
    var m := OnConfirm(t, c);
    ghost var bap := w.bap;
    longer, w := Go(quote, run, run, Deliver(m));
    assert w.jobs[j] == BapSteps.SaveSnapshot(m);
    longer, w := Go(quote, run, longer, BapRuns(j, GOOD));
    assert w.bap == BapSteps.AddSnapshot(bap, m, true);
    longer, w := Go(quote, run, longer, BapRuns(j, GOOD));
    ghost var handled := longer;
    longer, invoice, amount := SendPhase(quote, handled, t, |w.jobs| - 1, ok);
    ContinuesTransitive(run, handled, longer);
    SeamSafety.RunKeepsInv(quote, longer);
  }

  lemma {:induction false} NoTotal(snapshots: seq<Msg>, t: Txn)
    requires forall i :: 0 <= i < |snapshots| ==> !(snapshots[i].OnInit? && snapshots[i].txn == t)
    ensures BapSteps.LatestTotal(snapshots, t) == None
  {
    if snapshots != [] {
      NoTotal(snapshots[..|snapshots| - 1], t);
    }
  }

  /** The first half of a reconcile: one release request, for the amount named or the quote. */
  lemma ReleasePhase(quote: int -> int, run: seq<Label>, t: Txn, amount: int)
    returns (longer: seq<Label>, i: nat, released: Release)
    requires Reconcile(t, Invoice(t), amount) in Run(quote, run).net
    ensures Continues(run, longer)
    ensures var w0, w := Run(quote, run), Run(quote, longer);
      && w.bpp == w0.bpp.(releases := w0.bpp.releases + [released]) && w.net == w0.net
      && i < |w.tasks| && w.tasks[i] == ReconcileSettle(t, Invoice(t))
      && released.invoice == Invoice(t) && (amount != 0 ==> released.amount == amount)
  {
    var w := Run(quote, run);
    i := |w.tasks|;
    longer, w := Go(quote, run, run, Deliver(Reconcile(t, Invoice(t), amount)));
    assert w.tasks[i] == ReconcileRead(t, Invoice(t), amount);
    longer, w := Go(quote, run, longer, BppRuns(i, GOOD));
    released := Release(Invoice(t), w.tasks[i].requestId, w.tasks[i].total);
    longer, w := Go(quote, run, longer, BppRuns(i, GOOD));
  }

  /** The second half: the marking statement and the answer. */
  lemma MarkPhase(quote: int -> int, run: seq<Label>, t: Txn, i: nat, ok: bool) returns (longer: seq<Label>)
    requires t in Run(quote, run).bpp.policies
    requires var w := Run(quote, run); i < |w.tasks| && w.tasks[i] == ReconcileSettle(t, Invoice(t))
    ensures Continues(run, longer)
    ensures var w0, w := Run(quote, run), Run(quote, longer);
      && OnReconcile(t, Invoice(t)) in w.net
      && t in w.bpp.policies
      && w.bpp.policies[t].settled == (ok || w0.bpp.policies[t].settled)
  {
    var w;
    longer, w := Go(quote, run, run, BppRuns(i, Outcome(ok)));
    assert w.tasks[i] == ReconcileReply(t, Invoice(t));
    longer, w := Go(quote, run, longer, BppRuns(i, GOOD));
  }

  /** The buyer app handles the answer. */
  lemma SettledRecorded(quote: int -> int, run: seq<Label>, t: Txn) returns (longer: seq<Label>)
    requires t != "" && OnReconcile(t, Invoice(t)) in Run(quote, run).net
    ensures Continues(run, longer)
    ensures Run(quote, longer).bpp == Run(quote, run).bpp && ShowsSettled(Run(quote, longer).bap, t)
  {
    var j, w := |Run(quote, run).jobs|, Run(quote, run);
    longer, w := Go(quote, run, run, Deliver(OnReconcile(t, Invoice(t))));
    longer, w := Go(quote, run, longer, BapRuns(j, GOOD));
    longer, w := Go(quote, run, longer, BapRuns(j, GOOD));
  }

  /** The buyer app's row shows SETTLED now. */
  predicate ShowsSettled(bap: BapDb, t: Txn) {
    t in bap.transactions && bap.transactions[t].status == Settled
  }

  // ---- Settlement stays possible ----

  /** From every reachable state in which the policy of t exists, whatever happened to it, the protocol can
      still be driven until the buyer app shows SETTLED; the insurer's row is then settled if it was before or
      if the marking statement on the way succeeded, and only then. */
  lemma SettlementReachable(quote: int -> int, run: seq<Label>, t: Txn, ok: bool) returns (longer: seq<Label>)
    requires |t| >= 8 && t in Run(quote, run).bpp.policies
    ensures Continues(run, longer)
    ensures var w0, w := Run(quote, run), Run(quote, longer);
      && ShowsSettled(w.bap, t)
      && t in w.bpp.policies
      && w.bpp.policies[t].settled == (ok || w0.bpp.policies[t].settled)
  {
    var paidRun := run;
    if Run(quote, run).bpp.policies[t].status != Active {
      paidRun := PayPhase(quote, run, t);
    }
    var confirmed, c := ConfirmPhase(quote, paidRun, t);
    var reconciling, invoice, amount := ReconcileSent(quote, confirmed, t, c, true);
    var half, i, released := ReleasePhase(quote, reconciling, t, amount);
    var settled := MarkPhase(quote, half, t, i, ok);
    longer := SettledRecorded(quote, settled, t);
    ContinuesTransitive(run, paidRun, confirmed);
    ContinuesTransitive(run, confirmed, reconciling);
    ContinuesTransitive(run, reconciling, half);
    ContinuesTransitive(run, half, settled);
    ContinuesTransitive(run, settled, longer);
  }

  /** The condition of the settlement result is needed: the buyer app shows SETTLED, the insurer does not. */
  lemma SettledOnOneSideOnly(quote: int -> int) returns (run: seq<Label>)
    ensures var w := Run(quote, run);
      && ShowsSettled(w.bap, "txn-0001")
      && "txn-0001" in w.bpp.policies && !w.bpp.policies["txn-0001"].settled
      && !SeamSafety.EverMarked(quote, run, "txn-0001")
  {
    run := InitPhase(quote, [], "txn-0001", 210000000);
    run := SettlementReachable(quote, run, "txn-0001", false);
    SeamSafety.SettledIffMarked(quote, run, "txn-0001");
  }

  // ---- Cancelled policies ----

  /** Every paid policy, a cancelled one included, becomes ACTIVE by a confirm. */
  lemma CancelledCanBeIssued(quote: int -> int, run: seq<Label>, t: Txn) returns (longer: seq<Label>)
    requires |t| >= 8
    requires var db := Run(quote, run).bpp; t in db.policies && db.policies[t].status == Cancelled && db.policies[t].paid
    ensures Continues(run, longer)
    ensures var db := Run(quote, longer).bpp; t in db.policies && db.policies[t].status == Active
  {
    var c;
    longer, c := ConfirmPhase(quote, run, t);
  }

  /** A policy becomes ACTIVE in exactly one way: by an issue statement that succeeds on a row that is not ACTIVE
      yet; and in every reachable state such a row is paid, cancelled or not. */
  lemma IssuedExactly(quote: int -> int, run: seq<Label>, l: Label, t: Txn)
    ensures var w, db := Run(quote, run), Next(quote, Run(quote, run), l).bpp;
      var was := t in w.bpp.policies && w.bpp.policies[t].status == Active;
      && (!was && t in db.policies && db.policies[t].status == Active <==>
           !was && SeamNumbers.IssueStep(w, l) && w.tasks[l.i].txn == t)
      && (SeamNumbers.IssueStep(w, l) && w.tasks[l.i].txn == t ==> t in w.bpp.policies && w.bpp.policies[t].paid)
  {
    SeamSafety.RunKeepsInv(quote, run);
    var w := Run(quote, run);
    if l.BppRuns? && l.i < |w.tasks| {
      assert SeamSafety.TaskOk(w.bpp, w.tasks[l.i]);
      if !(t in w.bpp.policies && w.bpp.policies[t].status == Active) {
        StepActivates(quote, w.bpp, w.tasks[l.i], l.env, t);
      }
    }
  }

  lemma StepActivates(quote: int -> int, db: BppDb, task: BppTask, env: Env, t: Txn)
    requires SeamSafety.TaskOk(db, task)
    requires !(t in db.policies && db.policies[t].status == Active)
    ensures var after := BppStep(quote, db, task, env).db;
      t in after.policies && after.policies[t].status == Active <==> task.ConfirmIssue? && env.ok && task.txn == t
  {
  }

  /** Two inits, two payments: two paid policies in an otherwise empty table. */
  lemma TwoPaid(quote: int -> int, t: Txn, u: Txn) returns (run: seq<Label>)
    requires t != u
    ensures var db := Run(quote, run).bpp;
      && db.policies.Keys == {t, u}
      && db.policies[t].paid && db.policies[t].status == PendingIssuance && db.policies[t].number == None
      && db.policies[u].paid && db.policies[u].status == PendingIssuance && db.policies[u].number == None
      && !db.policies[t].settled
  {
    run := InitPhase(quote, [], t, 210000000);
    run := InitPhase(quote, run, u, 210000000);
    run := PayPhase(quote, run, t);
    run := PayPhase(quote, run, u);
  }

  /** A run that pays, cancels, and then issues. */
  lemma CancelledIssuedRun(quote: int -> int) returns (cancelled: seq<Label>, issued: seq<Label>)
    ensures Continues(cancelled, issued)
    ensures var before, after := Run(quote, cancelled).bpp.policies, Run(quote, issued).bpp.policies;
      && "txn-0001" in before && before["txn-0001"].status == Cancelled && before["txn-0001"].paid
      && "txn-0001" in after && after["txn-0001"].status == Active
  {
    var paid := TwoPaid(quote, "txn-0001", "txn-0002");
    cancelled := CancelPhase(quote, paid, "txn-0001");
    issued := CancelledCanBeIssued(quote, cancelled, "txn-0001");
  }

  // ---- Policy numbers ----

  ghost predicate SameNumber(db: BppDb, t: Txn, u: Txn) {
    t in db.policies && u in db.policies && db.policies[t].number.Some? && db.policies[t].number == db.policies[u].number
  }

  /** Two overlapping confirms give two policies the same number: the count is read before the other row is written. */
  lemma OverlappingConfirmsCollide(quote: int -> int, run: seq<Label>, t: Txn, u: Txn) returns (longer: seq<Label>)
    requires |t| >= 8 && |u| >= 8 && t != u
    requires var db := Run(quote, run).bpp;
      && t in db.policies && db.policies[t].paid && db.policies[t].status != Active
      && u in db.policies && db.policies[u].paid && db.policies[u].status != Active
    ensures Continues(run, longer)
    ensures SameNumber(Run(quote, longer).bpp, t, u)
  {
    var i, c := |Run(quote, run).tasks|, Rejected;
    var sentT := ConfirmCalled(quote, run, t);
    var sent := ConfirmCalled(quote, sentT, u);
    var countedT := CountPhase(quote, sent, t, true);
    var counted := CountPhase(quote, countedT, u, true);
    var issuedT;
    issuedT, c := IssuePhase(quote, counted, t, i);
    longer, c := IssuePhase(quote, issuedT, u, i + 1);
    ContinuesTransitive(run, sentT, sent);
    ContinuesTransitive(run, sent, countedT);
    ContinuesTransitive(run, countedT, counted);
    ContinuesTransitive(run, counted, issuedT);
    ContinuesTransitive(run, issuedT, longer);
  }

  lemma OverlappingConfirmsRun(quote: int -> int) returns (run: seq<Label>)
    ensures SameNumber(Run(quote, run).bpp, "txn-0001", "txn-0002")
  {
    var paid := TwoPaid(quote, "txn-0001", "txn-0002");
    run := OverlappingConfirmsCollide(quote, paid, "txn-0001", "txn-0002");
  }

  /** The first of two paid policies is issued, with number 1. */
  lemma OneIssued(quote: int -> int, t: Txn, u: Txn) returns (run: seq<Label>)
    requires t != u && |t| >= 8
    ensures var db := Run(quote, run).bpp;
      && db.policies.Keys == {t, u}
      && db.policies[t].number == Some(Number(1)) && db.policies[t].status == Active
      && db.policies[t].paid && !db.policies[t].settled
      && db.policies[u].paid && db.policies[u].status == PendingIssuance
  {
    var paid := TwoPaid(quote, t, u);
    assert ActiveRows(Run(quote, paid).bpp) == {};
    var c;
    run, c := SerialConfirm(quote, paid, t, true);
  }

  /** Confirms one after the other collide too when a count query fails: its error is ignored and the number is 1. */
  lemma FailedCountRun(quote: int -> int) returns (run: seq<Label>)
    ensures SameNumber(Run(quote, run).bpp, "txn-0001", "txn-0002")
  {
    var first := OneIssued(quote, "txn-0001", "txn-0002");
    var c;
    run, c := SerialConfirm(quote, first, "txn-0002", false);
  }

  /** An init on the issued one of the two leaves no ACTIVE policy, but the number stays. */
  lemma OneReopened(quote: int -> int, t: Txn, u: Txn) returns (run: seq<Label>)
    requires t != u && |t| >= 8
    ensures var db := Run(quote, run).bpp;
      && t in db.policies && db.policies[t].number == Some(Number(1))
      && u in db.policies && db.policies[u].paid && db.policies[u].status == PendingIssuance
      && ActiveCount(db) == 0
  {
    var first := OneIssued(quote, t, u);
    run := InitPhase(quote, first, t, 210000000);
    ReopenClears(Run(quote, first).bpp, t, u);
  }

  lemma ReopenClears(db: BppDb, t: Txn, u: Txn)
    requires db.policies.Keys == {t, u} && db.policies[u].status == PendingIssuance
    ensures ActiveCount(UpsertPolicy(db, t, BapSteps.BAP_ID, 210000000)) == 0
  {
    assert ActiveRows(UpsertPolicy(db, t, BapSteps.BAP_ID, 210000000)) == {};
  }

  /** A run in which an init lowers the reported stage from 3 to 2. */
  lemma StageDropRun(quote: int -> int) returns (issued: seq<Label>, reopened: seq<Label>)
    ensures Continues(issued, reopened)
    ensures StageAt(Run(quote, issued).bpp, "txn-0001") == 3 && StageAt(Run(quote, reopened).bpp, "txn-0001") == 2
  {
    issued := OneIssued(quote, "txn-0001", "txn-0002");
    reopened := InitPhase(quote, issued, "txn-0001", 210000000);
  }

  /** And when an init hits an issued policy, the next count misses it. */
  lemma ReopenedRun(quote: int -> int) returns (run: seq<Label>)
    ensures SameNumber(Run(quote, run).bpp, "txn-0001", "txn-0002")
  {
    var reopened := OneReopened(quote, "txn-0001", "txn-0002");
    run := RepeatsOne(quote, reopened, "txn-0001", "txn-0002");
  }

  /** A confirm that counts no ACTIVE policy issues number 1. */
  lemma RepeatsOne(quote: int -> int, run: seq<Label>, t: Txn, u: Txn) returns (longer: seq<Label>)
    requires t != u && |u| >= 8
    requires var db := Run(quote, run).bpp;
      && t in db.policies && db.policies[t].number == Some(Number(1))
      && u in db.policies && db.policies[u].paid && db.policies[u].status == PendingIssuance
      && ActiveCount(db) == 0
    ensures SameNumber(Run(quote, longer).bpp, t, u)
  {
    var c;
    longer, c := SerialConfirm(quote, run, u, true);
  }

  // ---- Released amounts ----

  /** An issued confirmation can always lead to a release of 500,000, whatever the quote is: because no amount was
      stored and no on_init found, or, if one was, because the reads fail. */
  lemma FallbackReleased(quote: int -> int, run: seq<Label>, t: Txn, c: Confirmation, ok: bool) returns (longer: seq<Label>)
    requires t != "" && c.Issued? && OnConfirm(t, c) in Run(quote, run).net
    requires !ok || NoAmount(Run(quote, run).bap, t)
    ensures Continues(run, longer)
    ensures exists requestId :: Release(Invoice(t), requestId, 500000) in Run(quote, longer).bpp.releases
  {
    var reconciling, invoice, amount := ReconcileSent(quote, run, t, c, ok);
    var i, released;
    longer, i, released := ReleasePhase(quote, reconciling, t, amount);
    ContinuesTransitive(run, reconciling, longer);
    assert released in Run(quote, longer).bpp.releases;
    assert released == Release(Invoice(t), released.requestId, 500000);
  }

  /** A run without any failing statement in which the on_init never arrives and 500,000 is released. */
  lemma FallbackRun(quote: int -> int) returns (run: seq<Label>)
    ensures exists requestId :: Release(Invoice("txn-0001"), requestId, 500000) in Run(quote, run).bpp.releases
  {
    var init := InitPhase(quote, [], "txn-0001", 210000000);
    var paid := PayPhase(quote, init, "txn-0001");
    var confirmed, c := SerialConfirm(quote, paid, "txn-0001", true);
    assert NoAmount(Run(quote, confirmed).bap, "txn-0001");
    run := FallbackReleased(quote, confirmed, "txn-0001", c, true);
  }

  /** One reconcile message, delivered n times, requests n releases of the same invoice. */
  lemma {:induction false} ReleasesRepeat(quote: int -> int, run: seq<Label>, t: Txn, amount: int, n: nat)
    returns (longer: seq<Label>)
    requires Reconcile(t, Invoice(t), amount) in Run(quote, run).net
    ensures Continues(run, longer)
    ensures var earlier, later := Run(quote, run).bpp.releases, Run(quote, longer).bpp.releases;
      && |later| == |earlier| + n && later[..|earlier|] == earlier
      && forall k :: |earlier| <= k < |later| ==> later[k].invoice == Invoice(t)
    ensures Run(quote, longer).net == Run(quote, run).net
  {
    longer := run;
    if n > 0 {
      var before := ReleasesRepeat(quote, run, t, amount, n - 1);
      var i, released;
      longer, i, released := ReleasePhase(quote, before, t, amount);
      ContinuesTransitive(run, before, longer);
    }
  }

  /** So an issued confirmation can lead to any number of further releases of its invoice. */
  lemma ReleasedAgain(quote: int -> int, run: seq<Label>, t: Txn, c: Confirmation, n: nat) returns (longer: seq<Label>)
    requires t != "" && c.Issued? && OnConfirm(t, c) in Run(quote, run).net
    ensures Continues(run, longer)
    ensures var before, after := Run(quote, run).bpp.releases, Run(quote, longer).bpp.releases;
      && |after| == |before| + n
      && forall k :: |before| <= k < |after| ==> after[k].invoice == Invoice(t)
  {
    var reconciling, invoice, amount := ReconcileSent(quote, run, t, c, true);
    longer := ReleasesRepeat(quote, reconciling, t, amount, n);
    ContinuesTransitive(run, reconciling, longer);
  }
}
