/** What each insurer handler leaves behind when nothing interferes, field by field. */
module BppEffects {
  import opened Calendar
  import opened PolicyNumber
  import opened SeamTypes
  import opened Wrappers
  import opened BppSteps
  import opened PolicyReports
  import BecknServiceModule

  /** An init is refused when it carries an identity number that is not sixteen digits, and lost when its statement
      fails. Otherwise it is answered with the quote; a new policy carries what the message says, and an existing
      one only becomes pending again. */
  lemma InitEffect(quote: int -> int, db: BppDb, t: Txn, bapId: string, nik: string, idv: int, env: nat -> Env)
    ensures var o := Complete(quote, db, Receive(Init(t, bapId, nik, idv)), env, 0);
      var accepted := nik == "" || (|nik| == 16 && forall i :: 0 <= i < 16 ==> nik[i] in "0123456789");
      if accepted && env(0).ok then
        && o.out == {OnInit(t, quote(idv))}
        && o.db.payments == db.payments && o.db.releases == db.releases
        && o.db.policies.Keys == db.policies.Keys + {t}
        && (forall u :: u in db.policies && u != t ==> o.db.policies[u] == db.policies[u])
        && (t !in db.policies ==>
             o.db.policies[t] ==
             PolicyRow(db.nextId, bapId, PendingIssuance, idv, None, None, false, "", "ins-" + t, false))
        && (t in db.policies ==>
             var row := db.policies[t];
             o.db.policies[t] ==
             PolicyRow(row.id, row.bapId, PendingIssuance, row.idv, row.number, row.coverage, row.paid, row.requestId,
                       "ins-" + t, row.settled))
        && o.db.nextId > db.nextId
      else o.db == db && o.out == {}
  {
    var task := Receive(Init(t, bapId, nik, idv));
    NikRule(nik);
    FirstStep(quote, db, task, env, 0);
    if task.InitInsert? && env(0).ok {
      var e := BppStep(quote, db, task, env(0));
      FirstStep(quote, e.db, e.task, env, 1);
      FirstStep(quote, e.db, Finished, env, 2);
    } else if task.InitInsert? {
      FirstStep(quote, db, Finished, env, 1);
    }
  }

  lemma NikRule(nik: string)
    ensures NikAccepted(nik) <==> nik == "" || (|nik| == 16 && forall i :: 0 <= i < 16 ==> nik[i] in "0123456789")
  {
    if |nik| == 16 {
      forall i | 0 <= i < 16 ensures '0' <= nik[i] <= '9' <==> nik[i] in "0123456789" {
        DigitChar(nik[i]);
      }
    }
  }

  lemma DigitChar(c: char)
    ensures '0' <= c <= '9' <==> c in "0123456789"
  {
    var digits := "0123456789";
    assert digits[0] == '0' && digits[1] == '1' && digits[2] == '2' && digits[3] == '3' && digits[4] == '4';
    assert digits[5] == '5' && digits[6] == '6' && digits[7] == '7' && digits[8] == '8' && digits[9] == '9';
  }

  /** A payment for the invoice of an unpaid or waiting policy marks it paid, stores the given request id when there
      is one and keeps the old id otherwise, and records the amount under the policy's id and invoice. */
  lemma PaymentEffect(quote: int -> int, db: BppDb, t: Txn, requestId: string, amount: int, env: nat -> Env)
    requires env(0).ok && env(1).ok && t in db.policies && db.policies[t].status != Active
    ensures t in Complete(quote, db, Notified("ins-" + t, requestId, amount), env, 0).db.policies
    ensures var o := Complete(quote, db, Notified("ins-" + t, requestId, amount), env, 0);
      var row, row' := db.policies[t], o.db.policies[t];
      && o.out == {} && o.db.releases == db.releases && o.db.nextId == db.nextId
      && o.db.policies.Keys == db.policies.Keys
      && (forall u :: u in db.policies && u != t ==> o.db.policies[u] == db.policies[u])
      && row'.paid
      && (requestId != "" ==> row'.requestId == requestId)
      && (requestId == "" ==> row'.requestId == row.requestId)
      && row' == row.(paid := row'.paid, requestId := row'.requestId)
      && o.db.payments == db.payments + (if env(2).ok then [PaymentRow(row.id, "ins-" + t, amount)] else [])
  {
    assert ("ins-" + t)[..4] == "ins-" && ("ins-" + t)[4..] == t;
    BecknServiceModule.PaymentCompletes(quote, db, t, requestId, amount, env);
  }

  /** A payment is ignored for a malformed invoice, an unknown policy, an ACTIVE one, or a failing statement. */
  lemma PaymentIgnored(quote: int -> int, db: BppDb, invoice: string, requestId: string, amount: int, env: nat -> Env)
    requires |invoice| < 4 || invoice[..4] != "ins-" || invoice[4..] !in db.policies ||
             db.policies[invoice[4..]].status == Active || !env(0).ok || !env(1).ok
    ensures Complete(quote, db, Notified(invoice, requestId, amount), env, 0) == BppOutcome(db, {})
  {
    if |invoice| >= 4 && invoice[..4] == "ins-" {
      BecknServiceModule.PaymentCompletes(quote, db, invoice[4..], requestId, amount, env);
    } else {
      FirstStep(quote, db, Finished, env, 0);
    }
  }

  /** A confirm of an unknown policy does nothing, one of an ACTIVE policy repeats what is stored, and one of an
      unpaid policy is rejected; none of them changes a table. */
  lemma ConfirmWithoutIssue(quote: int -> int, db: BppDb, t: Txn, paidAmount: int, env: nat -> Env)
    requires env(0).ok && (t in db.policies ==> db.policies[t].status == Active || !db.policies[t].paid)
    ensures var o := Complete(quote, db, Receive(Confirm(t, paidAmount)), env, 0);
      && o.db == db
      && (t !in db.policies ==> o.out == {})
      && (t in db.policies && db.policies[t].status == Active ==>
           o.out == {OnConfirm(t, Issued(db.policies[t].number, db.policies[t].coverage, quote(db.policies[t].idv)))})
      && (t in db.policies && db.policies[t].status != Active ==> o.out == {OnConfirm(t, Rejected)})
  {
    BecknServiceModule.ConfirmCompletes(quote, db, t, paidAmount, env);
  }

  /** A confirm that cannot read its row, or cannot issue a paid policy, does nothing and is not answered. */
  lemma ConfirmFails(quote: int -> int, db: BppDb, t: Txn, paidAmount: int, env: nat -> Env)
    requires !env(0).ok ||
             (!env(2).ok && t in db.policies && db.policies[t].status != Active && db.policies[t].paid)
    ensures Complete(quote, db, Receive(Confirm(t, paidAmount)), env, 0) == BppOutcome(db, {})
  {
    BecknServiceModule.ConfirmCompletes(quote, db, t, paidAmount, env);
  }

  /** A confirm of a paid, inactive policy makes it ACTIVE with one more than the number of ACTIVE policies, or with 1
      when they cannot be counted, the local year, and coverage from now for a year; it records the amount, and answers
      with all of it. */
  lemma ConfirmIssues(quote: int -> int, db: BppDb, t: Txn, paidAmount: int, env: nat -> Env)
    requires env(0).ok && env(2).ok
    requires t in db.policies && db.policies[t].status != Active && db.policies[t].paid
    ensures t in Complete(quote, db, Receive(Confirm(t, paidAmount)), env, 0).db.policies
    ensures var o := Complete(quote, db, Receive(Confirm(t, paidAmount)), env, 0);
      var row, row' := db.policies[t], o.db.policies[t];
      && o.db.policies.Keys == db.policies.Keys
      && (forall u :: u in db.policies && u != t ==> o.db.policies[u] == db.policies[u])
      && row' == row.(status := Active, number := row'.number, coverage := row'.coverage)
      && row'.number == Some(PolicyNo(env(2).year,
           1 + if env(1).ok then |set u | u in db.policies && db.policies[u].status == Active| else 0))
      && row'.coverage.Some? && row'.coverage.value.start == env(2).now && row'.coverage.value.end == AddYear(env(2).now)
      && o.db.releases == db.releases && o.db.nextId == db.nextId
      && o.db.payments == db.payments + (if env(3).ok then [PaymentRow(row.id, row.invoice, paidAmount)] else [])
      && o.out == {OnConfirm(t, Issued(row'.number, row'.coverage, quote(row.idv)))}
  {
    BecknServiceModule.ConfirmCompletes(quote, db, t, paidAmount, env);
    assert ActiveRows(db) == set u | u in db.policies && db.policies[u].status == Active;
  }

  /** A reconcile requests one release, for the named invoice or the transaction's own, with the stored payment
      request id and the named amount, or the quote when none is named; it settles the policy and answers. Without its
      row it asks with no id and exactly the named amount, and a failing marking leaves the policy as it is. */
  lemma ReconcileEffect(quote: int -> int, db: BppDb, t: Txn, invoice: string, total: int, env: nat -> Env)
    ensures var o := Complete(quote, db, Receive(Reconcile(t, invoice, total)), env, 0);
      var named := if invoice == "" then "ins-" + t else invoice;
      && o.out == {OnReconcile(t, named)}
      && o.db.payments == db.payments && o.db.nextId == db.nextId
      && (env(0).ok && t in db.policies ==>
           var row := db.policies[t];
           var amount := if total == 0 && row.idv > 0 then quote(row.idv) else total;
           o.db.releases == db.releases + [Release(named, row.requestId, amount)])
      && (!env(0).ok || t !in db.policies ==> o.db.releases == db.releases + [Release(named, "", total)])
      && (env(2).ok && t in db.policies ==> o.db.policies == db.policies[t := db.policies[t].(settled := true)])
      && (!env(2).ok || t !in db.policies ==> o.db.policies == db.policies)
  {
    var named := if invoice == "" then "ins-" + t else invoice;
    BecknServiceModule.ReconcileCompletes(quote, db, t, named, total, env);
  }

  /** A statement that fails changes no table. */
  lemma FailureChangesNothing(quote: int -> int, db: BppDb, task: BppTask, env: Env)
    requires !env.ok
    ensures var after := BppStep(quote, db, task, env).db;
      after.policies == db.policies && after.payments == db.payments && after.nextId == db.nextId
  {
  }

  /** A cancel closes a pending policy and no other, and is always answered. */
  lemma CancelEffect(quote: int -> int, db: BppDb, t: Txn, env: nat -> Env)
    ensures var o := Complete(quote, db, Receive(Cancel(t)), env, 0);
      && o.out == {OnCancel(t)}
      && o.db.payments == db.payments && o.db.releases == db.releases && o.db.nextId == db.nextId
      && o.db.policies ==
         if env(0).ok && t in db.policies && db.policies[t].status == PendingIssuance
         then db.policies[t := db.policies[t].(status := Cancelled)] else db.policies
  {
    BecknServiceModule.CancelCompletes(quote, db, t, env);
  }
}
