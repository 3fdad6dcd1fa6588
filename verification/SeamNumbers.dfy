/** Policy numbers: the issued policies carry 1, 2, ..., n exactly as long as every issue statement writes the
    number that is due when it runs. */
module SeamNumbers {
  import opened Calendar
  import opened SeamTypes
  import opened Wrappers
  import opened PolicyNumber
  import opened BppSteps
  import opened PolicyReports
  import opened SeamRun
  import SeamSafety
  import SeamStages

  /** The policies that were ever issued. */
  function Issued(db: BppDb): set<Txn> {
    set t | t in db.policies && db.policies[t].number.Some?
  }

  ghost predicate HasSeqNo(db: BppDb, t: Txn, k: int) {
    t in Issued(db) && db.policies[t].number.value.seqNo == k
  }

  ghost predicate Used(db: BppDb, k: int) {
    exists t :: HasSeqNo(db, t, k)
  }

  /** The issued policies carry distinct sequence numbers, all between 1 and their count, and each of those is used. */
  ghost predicate Numbered(db: BppDb) {
    && (forall t :: t in Issued(db) ==> 1 <= db.policies[t].number.value.seqNo <= |Issued(db)|)
    && (forall t, u :: t in Issued(db) && u in Issued(db) && t != u ==>
         db.policies[t].number.value.seqNo != db.policies[u].number.value.seqNo)
    && (forall k :: 1 <= k <= |Issued(db)| ==> Used(db, k))
  }

  /** The number that is due: the next one for a new policy, its own again for one already issued. */
  ghost predicate NumberFits(db: BppDb, t: Txn, seqNo: int) {
    if t in Issued(db) then HasSeqNo(db, t, seqNo) else seqNo == |Issued(db)| + 1
  }

  /** This step is an issue statement that takes effect. */
  predicate IssueStep(w: World, l: Label) {
    l.BppRuns? && l.i < |w.tasks| && w.tasks[l.i].ConfirmIssue? && l.env.ok
  }

  /** The number it carries, chosen by the count query earlier, is still the one that is due. */
  ghost predicate FreshIssue(w: World, l: Label) {
    IssueStep(w, l) ==> NumberFits(w.bpp, w.tasks[l.i].txn, w.tasks[l.i].seqNo)
  }

  // ---- One issue statement ----

  lemma AfterIssue(db: BppDb, t: Txn, number: PolicyNo, coverage: Coverage)
    requires t in db.policies
    ensures var after := IssuePolicy(db, t, number, coverage);
      && Issued(after) == Issued(db) + {t}
      && |Issued(after)| == |Issued(db)| + (if t in Issued(db) then 0 else 1)
      && after.policies[t].number == Some(number)
      && (forall u :: u in Issued(db) && u != t ==> after.policies[u].number == db.policies[u].number)
  {
    var issued, after := Issued(db), Issued(IssuePolicy(db, t, number, coverage));
    assert after == issued + {t};
    if t in issued {
      assert after == issued;
    } else {
      assert |issued + {t}| == |issued| + 1;
    }
  }

  lemma FittingKeeps(db: BppDb, t: Txn, number: PolicyNo, coverage: Coverage)
    requires Numbered(db) && t in db.policies && NumberFits(db, t, number.seqNo)
    ensures Numbered(IssuePolicy(db, t, number, coverage))
  {
    var after := IssuePolicy(db, t, number, coverage);
    AfterIssue(db, t, number, coverage);
    forall k | 1 <= k <= |Issued(after)| ensures Used(after, k) {
      FittingUses(db, t, number, coverage, k);
    }
  }

  lemma FittingUses(db: BppDb, t: Txn, number: PolicyNo, coverage: Coverage, k: int)
    requires Numbered(db) && t in db.policies && NumberFits(db, t, number.seqNo)
    requires 1 <= k <= |Issued(IssuePolicy(db, t, number, coverage))|
    ensures Used(IssuePolicy(db, t, number, coverage), k)
  {
    var after := IssuePolicy(db, t, number, coverage);
    AfterIssue(db, t, number, coverage);
    assert HasSeqNo(after, t, number.seqNo);
    if k != number.seqNo {
      assert Used(db, k);
      var u :| HasSeqNo(db, u, k);
      assert HasSeqNo(after, u, k);
    }
  }

  lemma MisfitBreaks(db: BppDb, t: Txn, number: PolicyNo, coverage: Coverage)
    requires Numbered(db) && t in db.policies && !NumberFits(db, t, number.seqNo)
    ensures !Numbered(IssuePolicy(db, t, number, coverage))
  {
    var after := IssuePolicy(db, t, number, coverage);
    AfterIssue(db, t, number, coverage);
    var k := number.seqNo;
    if 1 <= k <= |Issued(db)| {
      assert Used(db, k);
      var u :| HasSeqNo(db, u, k);
      assert u != t && u in Issued(after) && t in Issued(after);
    } else {
      assert t in Issued(after);
    }
  }

  /** An issue statement keeps the numbers exact if and only if the number it writes is the one that is due. */
  lemma IssueExtends(db: BppDb, t: Txn, number: PolicyNo, coverage: Coverage)
    requires Numbered(db) && t in db.policies
    ensures Numbered(IssuePolicy(db, t, number, coverage)) <==> NumberFits(db, t, number.seqNo)
  {
    if NumberFits(db, t, number.seqNo) {
      FittingKeeps(db, t, number, coverage);
    } else {
      MisfitBreaks(db, t, number, coverage);
    }
  }

  // ---- All runs ----

  /** The same policies are issued, with the same numbers. */
  ghost predicate SameNumbers(a: BppDb, b: BppDb) {
    Issued(a) == Issued(b) && forall t :: t in Issued(a) ==> a.policies[t].number == b.policies[t].number
  }

  lemma OtherStepsKeepNumbers(quote: int -> int, db: BppDb, task: BppTask, env: Env)
    requires task.ConfirmIssue? ==> !env.ok
    ensures SameNumbers(db, BppStep(quote, db, task, env).db)
  {
    var after := BppStep(quote, db, task, env).db;
    forall t: Txn ensures t in Issued(db) <==> t in Issued(after) {
      StepTouchesOwnRow(quote, db, task, env, t);
    }
  }

  lemma SameNumbersKeeps(a: BppDb, b: BppDb)
    requires SameNumbers(a, b) && Numbered(a)
    ensures Numbered(b)
  {
    forall k | 1 <= k <= |Issued(b)| ensures Used(b, k) {
      assert Used(a, k);
      var t :| HasSeqNo(a, t, k);
      assert HasSeqNo(b, t, k);
    }
  }

  /** One step, in any reachable state with exact numbers. */
  lemma StepNumbered(quote: int -> int, w: World, l: Label)
    requires SeamSafety.Inv(w) && Numbered(w.bpp)
    ensures Numbered(Next(quote, w, l).bpp) <==> FreshIssue(w, l)
  {
    if l.BppRuns? && l.i < |w.tasks| {
      var task, env := w.tasks[l.i], l.env;
      assert SeamSafety.TaskOk(w.bpp, task);
      if IssueStep(w, l) {
        IssueExtends(w.bpp, task.txn, PolicyNo(env.year, task.seqNo), Coverage(env.now, AddYear(env.now)));
      } else {
        OtherStepsKeepNumbers(quote, w.bpp, task, env);
        SameNumbersKeeps(w.bpp, BppStep(quote, w.bpp, task, env).db);
      }
    }
  }

  /** The numbers are exact after every step of the run. */
  ghost predicate NumberedThroughout(quote: int -> int, run: seq<Label>) {
    Numbered(Run(quote, run).bpp) && (run != [] ==> NumberedThroughout(quote, run[..|run| - 1]))
  }

  /** In every run, the numbers are exact all along if and only if every issue statement writes the number due. */
  lemma {:induction false} NumberedExactly(quote: int -> int, run: seq<Label>)
    ensures NumberedThroughout(quote, run) <==> Along(quote, run, (w, l) => FreshIssue(w, l))
  {
    if run != [] {
      var before := run[..|run| - 1];
      NumberedExactly(quote, before);
      SeamSafety.RunKeepsInv(quote, before);
      if NumberedThroughout(quote, before) {
        StepNumbered(quote, Run(quote, before), run[|run| - 1]);
      }
    }
  }

  /** Then the sequence numbers of the n issued policies are exactly 1..n, and all policy number texts are
      distinct, whatever years they carry. */
  lemma PolicyNumbersExact(quote: int -> int, run: seq<Label>)
    requires Along(quote, run, (w, l) => FreshIssue(w, l))
    ensures var db := Run(quote, run).bpp;
      && (forall t :: t in Issued(db) ==> 1 <= db.policies[t].number.value.seqNo <= |Issued(db)|)
      && (forall k :: 1 <= k <= |Issued(db)| ==> Used(db, k))
      && (forall t, u :: t in Issued(db) && u in Issued(db) && t != u ==>
           db.policies[t].number.value.Text() != db.policies[u].number.value.Text())
  {
    NumberedExactly(quote, run);
    TextsDistinct(Run(quote, run).bpp);
  }

  lemma TextsDistinct(db: BppDb)
    requires Numbered(db)
    ensures forall t, u :: t in Issued(db) && u in Issued(db) && t != u ==>
      db.policies[t].number.value.Text() != db.policies[u].number.value.Text()
  {
    forall t, u | t in Issued(db) && u in Issued(db) && t != u
      ensures db.policies[t].number.value.Text() != db.policies[u].number.value.Text()
    {
      if db.policies[t].number.value.Text() == db.policies[u].number.value.Text() {
        TextInjective(db.policies[t].number.value, db.policies[u].number.value);
      }
    }
  }

  // ---- What makes every number due ----

  /** While issued policies stay ACTIVE, the count query counts exactly them. */
  lemma LiveCounts(db: BppDb)
    requires SeamSafety.RowsOk(db) && SeamStages.Live(db)
    ensures ActiveRows(db) == Issued(db) && ActiveCount(db) == |Issued(db)|
  {
    forall t ensures t in ActiveRows(db) <==> t in Issued(db) {
      assert t in db.policies ==> SeamSafety.RowOk(db.policies[t]);
    }
  }

  /** The count query chooses the number due if and only if it succeeds or nothing was issued: its error is
      ignored, and then the number is 1. */
  lemma CountChoosesDue(quote: int -> int, db: BppDb, task: BppTask, env: Env)
    requires SeamSafety.RowsOk(db) && SeamStages.Live(db)
    requires task.ConfirmCount? && task.txn !in Issued(db)
    ensures var next := BppStep(quote, db, task, env).task;
      next.ConfirmIssue? && (NumberFits(db, task.txn, next.seqNo) <==> env.ok || Issued(db) == {})
  {
    LiveCounts(db);
    assert |Issued(db)| == 0 <==> Issued(db) == {};
  }

  /** A confirm handler between reading its row and writing the policy number. */
  predicate InConfirm(task: BppTask) {
    task.ConfirmCount? || task.ConfirmIssue?
  }

  /** Serial confirms: a handler reads its row only while no other is between read and write, the count query
      succeeds, and no init hits an issued policy. */
  ghost predicate OneAtATime(w: World, l: Label) {
    && !SeamStages.ReopensIssued(w, l)
    && (l.BppRuns? && l.i < |w.tasks| && w.tasks[l.i].ConfirmRead? ==>
         forall j :: 0 <= j < |w.tasks| ==> !InConfirm(w.tasks[j]))
    && (l.BppRuns? && l.i < |w.tasks| && w.tasks[l.i].ConfirmCount? ==> l.env.ok)
  }

  ghost predicate TaskOk(db: BppDb, task: BppTask) {
    && (InConfirm(task) ==> task.txn in db.policies && task.txn !in Issued(db))
    && (task.ConfirmIssue? ==> task.seqNo == |Issued(db)| + 1)
  }

  ghost predicate AtMostOne(tasks: seq<BppTask>) {
    forall i, j :: 0 <= i < |tasks| && 0 <= j < |tasks| && InConfirm(tasks[i]) && InConfirm(tasks[j]) ==> i == j
  }

  ghost predicate Serial(w: World) {
    && SeamSafety.Inv(w)
    && SeamStages.Live(w.bpp)
    && (forall i :: 0 <= i < |w.tasks| ==> TaskOk(w.bpp, w.tasks[i]))
    && AtMostOne(w.tasks)
  }

  lemma SerialStepIsFresh(w: World, l: Label)
    requires Serial(w)
    ensures FreshIssue(w, l)
  {
    if IssueStep(w, l) {
      assert TaskOk(w.bpp, w.tasks[l.i]);
    }
  }

  lemma TaskAfterStep(quote: int -> int, db: BppDb, task: BppTask, env: Env)
    requires SeamSafety.RowsOk(db) && SeamStages.Live(db)
    requires TaskOk(db, task) && !task.ConfirmIssue? && (task.ConfirmCount? ==> env.ok)
    ensures var e := BppStep(quote, db, task, env);
      && TaskOk(e.db, e.task)
      && (InConfirm(e.task) ==> InConfirm(task) || task.ConfirmRead?)
  {
    LiveCounts(db);
    OtherStepsKeepNumbers(quote, db, task, env);
  }

  lemma OtherKeepsSerial(quote: int -> int, w: World, i: nat, env: Env)
    requires Serial(w) && i < |w.tasks| && OneAtATime(w, BppRuns(i, env)) && !w.tasks[i].ConfirmIssue?
    ensures var w' := AfterBpp(w, i, BppStep(quote, w.bpp, w.tasks[i], env));
      AtMostOne(w'.tasks) && forall k :: 0 <= k < |w'.tasks| ==> TaskOk(w'.bpp, w'.tasks[k])
  {
    var task := w.tasks[i];
    var e := BppStep(quote, w.bpp, task, env);
    assert TaskOk(w.bpp, task);
    TaskAfterStep(quote, w.bpp, task, env);
    OtherStepsKeepNumbers(quote, w.bpp, task, env);
    forall k | 0 <= k < |w.tasks| && k != i ensures TaskOk(e.db, w.tasks[k]) {
      assert TaskOk(w.bpp, w.tasks[k]);
      if InConfirm(w.tasks[k]) {
        StepTouchesOwnRow(quote, w.bpp, task, env, w.tasks[k].txn);
      }
    }
  }

  lemma IssueKeepsSerial(quote: int -> int, w: World, i: nat, env: Env)
    requires Serial(w) && i < |w.tasks| && w.tasks[i].ConfirmIssue?
    ensures var w' := AfterBpp(w, i, BppStep(quote, w.bpp, w.tasks[i], env));
      AtMostOne(w'.tasks) && forall k :: 0 <= k < |w'.tasks| ==> TaskOk(w'.bpp, w'.tasks[k])
  {
    var tasks := AfterBpp(w, i, BppStep(quote, w.bpp, w.tasks[i], env)).tasks;
    forall k | 0 <= k < |tasks| ensures !InConfirm(tasks[k]) {
      assert k != i ==> !InConfirm(w.tasks[k]);
    }
  }

  lemma NextKeepsSerial(quote: int -> int, w: World, l: Label)
    requires Serial(w) && OneAtATime(w, l)
    ensures Serial(Next(quote, w, l))
  {
    SeamSafety.NextKeepsInv(quote, w, l);
    SeamStages.NextKeepsLive(quote, w, l);
    match l
    case BppRuns(i, env) =>
      if i < |w.tasks| {
        if w.tasks[i].ConfirmIssue? {
          IssueKeepsSerial(quote, w, i, env);
        } else {
          OtherKeepsSerial(quote, w, i, env);
        }
      }
    case Deliver(m) =>
      assert !InConfirm(Receive(m));
    case Notify(invoice, requestId, amount) =>
      assert !InConfirm(Notified(invoice, requestId, amount));
    case _ =>
  }

  /** Serial confirms with succeeding counts, and no init on an issued policy, always write the number due. */
  lemma {:induction false} SerialIsFresh(quote: int -> int, run: seq<Label>)
    requires Along(quote, run, (w, l) => OneAtATime(w, l))
    ensures Serial(Run(quote, run)) && Along(quote, run, (w, l) => FreshIssue(w, l))
  {
    if run != [] {
      var before := run[..|run| - 1];
      SerialIsFresh(quote, before);
      SerialStepIsFresh(Run(quote, before), run[|run| - 1]);
      NextKeepsSerial(quote, Run(quote, before), run[|run| - 1]);
    }
  }
}
