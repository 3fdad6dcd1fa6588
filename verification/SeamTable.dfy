/** The insurer's table is its history: what each row and each count says about the statements that ran. */
module SeamTable {
  import opened SeamTypes
  import opened Wrappers
  import opened BppSteps
  import opened PolicyReports
  import opened SeamRun
  import SeamSafety
  import SeamLedger

  /** The handler step that runs here, if its statement succeeds. */
  function Ran(w: World, l: Label): BppTask {
    if l.BppRuns? && l.i < |w.tasks| && l.env.ok then w.tasks[l.i] else Finished
  }

  /** The status of t after a run: PENDING_ISSUANCE by an init, ACTIVE by an issue, CANCELLED by a cancel while
      pending; None before its first init. */
  function StatusOf(quote: int -> int, run: seq<Label>, t: Txn): Option<Status> {
    if run == [] then None
    else
      var before, task := run[..|run| - 1], Ran(Run(quote, run[..|run| - 1]), run[|run| - 1]);
      if task == Finished || task.txn != t then StatusOf(quote, before, t)
      else if task.InitInsert? then Some(PendingIssuance)
      else if task.ConfirmIssue? then Some(Active)
      else if task.CancelUpdate? && StatusOf(quote, before, t) == Some(PendingIssuance) then Some(Cancelled)
      else StatusOf(quote, before, t)
  }

  /** Some payment of t was marked. */
  function EverPaid(quote: int -> int, run: seq<Label>, t: Txn): bool {
    run != [] &&
    var task := Ran(Run(quote, run[..|run| - 1]), run[|run| - 1]);
    EverPaid(quote, run[..|run| - 1], t) || (task.PayMark? && task.txn == t)
  }

  /** The id of the last payment of t that was marked with a non-empty one. */
  function LastId(quote: int -> int, run: seq<Label>, t: Txn): string {
    if run == [] then ""
    else
      var task := Ran(Run(quote, run[..|run| - 1]), run[|run| - 1]);
      if task.PayMark? && task.txn == t && task.requestId != "" then task.requestId
      else LastId(quote, run[..|run| - 1], t)
  }

  /** The insured value of the first init of t. */
  function FirstValue(quote: int -> int, run: seq<Label>, t: Txn): int {
    if run == [] then 0
    else
      var before, task := run[..|run| - 1], Ran(Run(quote, run[..|run| - 1]), run[|run| - 1]);
      if task.InitInsert? && task.txn == t && StatusOf(quote, before, t) == None then task.idv
      else FirstValue(quote, before, t)
  }

  /** A row says what the history says. */
  ghost predicate RowTells(db: BppDb, t: Txn, status: Option<Status>, paid: bool, requestId: string, idv: int, settled: bool) {
    if t in db.policies then
      var row := db.policies[t];
      && status == Some(row.status) && row.paid == paid && row.requestId == requestId && row.idv == idv
      && row.settled == settled
    else status == None && !paid && requestId == "" && !settled
  }

  lemma StepTells(quote: int -> int, db: BppDb, task: BppTask, env: Env, t: Txn,
                  status: Option<Status>, paid: bool, requestId: string, idv: int, settled: bool)
    requires env.ok && RowTells(db, t, status, paid, requestId, idv, settled)
    requires SeamSafety.TaskOk(db, task) && SeamLedger.TaskOk(db, task)
    ensures var after := BppStep(quote, db, task, env).db;
      var own := !task.Finished? && task.txn == t;
      RowTells(after, t,
        if own && task.InitInsert? then Some(PendingIssuance)
        else if own && task.ConfirmIssue? then Some(Active)
        else if own && task.CancelUpdate? && status == Some(PendingIssuance) then Some(Cancelled) else status,
        paid || (own && task.PayMark?),
        if own && task.PayMark? && task.requestId != "" then task.requestId else requestId,
        if own && task.InitInsert? && status == None then task.idv else idv,
        settled || (own && task.ReconcileSettle?))
  {
  }

  lemma FailedStep(quote: int -> int, db: BppDb, task: BppTask, env: Env)
    requires !env.ok
    ensures BppStep(quote, db, task, env).db.policies == db.policies
  {
  }

  /** In every run a row is exactly what its history says: its status, whether it was ever paid, the id of the last
      payment that had one, the insured value of its first init, and whether it was ever marked settled. */
  lemma {:induction false} RowIsHistory(quote: int -> int, run: seq<Label>, t: Txn)
    ensures RowTells(Run(quote, run).bpp, t, StatusOf(quote, run, t), EverPaid(quote, run, t), LastId(quote, run, t),
                     FirstValue(quote, run, t), SeamSafety.EverMarked(quote, run, t))
  {
    if run != [] {
      var before, l := run[..|run| - 1], run[|run| - 1];
      var w := Run(quote, before);
      RowIsHistory(quote, before, t);
      if l.BppRuns? && l.i < |w.tasks| {
        SeamSafety.RunKeepsInv(quote, before);
        SeamLedger.RunKeepsInv(quote, before);
        assert SeamSafety.TaskOk(w.bpp, w.tasks[l.i]) && SeamLedger.TaskOk(w.bpp, w.tasks[l.i]);
        if l.env.ok {
          StepTells(quote, w.bpp, w.tasks[l.i], l.env, t, StatusOf(quote, before, t), EverPaid(quote, before, t),
                    LastId(quote, before, t), FirstValue(quote, before, t), SeamSafety.EverMarked(quote, before, t));
        } else {
          FailedStep(quote, w.bpp, w.tasks[l.i], l.env);
        }
      }
    }
  }

  // ---- The payment request id of a release ----

  /** The id that handler i read: that of the last payment of its transaction marked with one before the read, or ""
      when the read failed. */
  function IdRead(quote: int -> int, run: seq<Label>, i: nat): string {
    if run == [] then ""
    else
      var before, l := run[..|run| - 1], run[|run| - 1];
      var w := Run(quote, before);
      if l.BppRuns? && l.i == i && i < |w.tasks| && w.tasks[i].ReconcileRead? then
        (if l.env.ok then LastId(quote, before, w.tasks[i].txn) else "")
      else IdRead(quote, before, i)
  }

  /** A handler about to release holds the id it read, whatever was paid since. */
  lemma {:induction false} HandlerKeepsId(quote: int -> int, run: seq<Label>, i: nat)
    requires i < |Run(quote, run).tasks| && Run(quote, run).tasks[i].ReconcileRelease?
    ensures Run(quote, run).tasks[i].requestId == IdRead(quote, run, i)
  {
    if run != [] {
      var before, l := run[..|run| - 1], run[|run| - 1];
      var w := Run(quote, before);
      if l.BppRuns? && l.i == i && i < |w.tasks| {
        SeamSafety.RunKeepsInv(quote, before);
        assert SeamSafety.TaskOk(w.bpp, w.tasks[i]);
        NewReleases(quote, w.bpp, w.tasks[i], l.env);
        RowIsHistory(quote, before, w.tasks[i].txn);
      } else {
        OtherHandlers(quote, w, l, i);
        HandlerKeepsId(quote, before, i);
      }
    }
  }

  /** A step of another handler, or of anything else, leaves a handler about to release as it was. */
  lemma OtherHandlers(quote: int -> int, w: World, l: Label, i: nat)
    requires !(l.BppRuns? && l.i == i && i < |w.tasks|)
    requires i < |Next(quote, w, l).tasks| && Next(quote, w, l).tasks[i].ReconcileRelease?
    ensures i < |w.tasks| && w.tasks[i] == Next(quote, w, l).tasks[i]
  {
  }

  /** What one step adds to the handlers about to release and to the release requests. */
  lemma NewReleases(quote: int -> int, db: BppDb, task: BppTask, env: Env)
    ensures var e := BppStep(quote, db, task, env);
      && (e.task.ReconcileRelease? ==> task.ReconcileRead? && task.txn == e.task.txn)
      && e.db.releases ==
         db.releases + if task.ReconcileRelease? then [Release(task.invoice, task.requestId, task.total)] else []
  {
  }

  /** Some handler for t sent a release with the id it had read. */
  ghost predicate Sent(quote: int -> int, run: seq<Label>, t: Txn, id: string) {
    run != [] &&
    var before, l := run[..|run| - 1], run[|run| - 1];
    var w := Run(quote, before);
    || Sent(quote, before, t, id)
    || (l.BppRuns? && l.i < |w.tasks| && w.tasks[l.i].ReconcileRelease? && w.tasks[l.i].txn == t &&
        id == IdRead(quote, before, l.i))
  }

  /** In every run, each release request for the invoice of t was sent by a handler for t with the id it read: that of
      the last payment of t marked with one before that read, or none when the read failed. */
  lemma {:induction false} ReleaseCarriesLastId(quote: int -> int, run: seq<Label>, t: Txn, k: nat)
    requires k < |Run(quote, run).bpp.releases| && Run(quote, run).bpp.releases[k].invoice == "ins-" + t
    ensures Sent(quote, run, t, Run(quote, run).bpp.releases[k].requestId)
  {
    var before, l := run[..|run| - 1], run[|run| - 1];
    var w := Run(quote, before);
    if l.BppRuns? && l.i < |w.tasks| {
      NewReleases(quote, w.bpp, w.tasks[l.i], l.env);
    }
    if k < |w.bpp.releases| {
      ReleaseCarriesLastId(quote, before, t, k);
    } else {
      SeamSafety.RunKeepsInv(quote, before);
      assert SeamSafety.TaskOk(w.bpp, w.tasks[l.i]);
      InvoiceInjective(w.tasks[l.i].txn, t);
      HandlerKeepsId(quote, before, l.i);
    }
  }
}
