/** The callback manager as written, over Redis held in fields; each method is proved equal to its commands
    run in order with nothing in between. */
module CallbackManagerModule {
  import opened CallbackNames
  import opened CallbackBridge

  /** One publisher from arrival to end, with nothing in between. */
  function PublishSteps(s: State, route: string, txn: string, body: string): State {
    var p := |s.publishers|;
    Next(Next(Next(Next(s, Arrive(route, txn, body)), Check(p)), Label.Publish(p)), Delete(p))
  }

  lemma PublishAlone(s: State, route: string, txn: string, body: string)
    ensures var key, p := PendingKey(route, txn), |s.publishers|;
      PublishSteps(s, route, txn, body) ==
      if Alive(s, key) then
        State(s.now, s.keys - {key}, s.log + [Published(CallbackChannel(route, txn), body, s.now, p)],
              MarkDeleted(s.callers, key), s.publishers + [Publisher(route, txn, body, Finished)],
              s.registered, s.accepted + multiset{key})
      else s.(publishers := s.publishers + [Publisher(route, txn, body, Refused)])
  {
    var p := |s.publishers|;
    var s1 := Next(s, Arrive(route, txn, body));
    OnlyPublisher(s.publishers, s1, Check(p));
    var s2 := Next(s1, Check(p));
    OnlyPublisher(s.publishers, s2, Label.Publish(p));
    var s3 := Next(s2, Label.Publish(p));
    OnlyPublisher(s.publishers, s3, Delete(p));
  }

  /** A step of the last publisher changes no other. */
  lemma OnlyPublisher(others: seq<Publisher>, s: State, l: Label)
    requires |s.publishers| == |others| + 1 && s.publishers[..|others|] == others
    requires (l.Check? || l.Publish? || l.Delete?) && l.p == |others|
    ensures var from, to := s.publishers[|others|], Next(s, l).publishers;
      |to| == |others| + 1 && to == others + [from.(progress := to[|others|].progress)]
  {
  }

  class CallbackManager {
    var now: int
    var keys: map<string, int>
    var log: seq<Published>
    var callers: seq<Caller>
    var publishers: seq<Publisher>
    ghost var registered: multiset<string>
    ghost var accepted: multiset<string>

    ghost function Redis(): State
      reads this
    {
      State(now, keys, log, callers, publishers, registered, accepted)
    }

    constructor ()
      ensures Redis() == Initial()
    {
      now, keys, log, callers, publishers := 0, map[], [], [], [];
      registered, accepted := multiset{}, multiset{};
    }

    /** SET key value EX 35. The caller is then forwarding its request. */
    method Register(route: string, txn: string) returns (c: nat)
      modifies this
      ensures Redis() == Next(old(Redis()), Label.Register(route, txn)) && c == |old(callers)|
      ensures keys == old(keys)["Sync#" + route + "#" + txn := old(now) + 35000]
      ensures callers == old(callers) + [Caller(route, txn, now, Forwarding, false)] && now == old(now) && log == old(log)
    {
      var key := PendingKey(route, txn);
      keys := keys[key := now + KEY_TTL];
      c := |callers|;
      callers := callers + [Caller(route, txn, now, Forwarding, false)];
      registered := registered + multiset{key};
    }

    /** The part of Wait before it blocks: fix the deadline and subscribe. */
    method BeginWait(c: nat)
      requires c < |callers| && callers[c].phase.Forwarding?
      modifies this`callers
      ensures Redis() == Next(Next(old(Redis()), StartWait(c)), Subscribe(c))
      ensures c < |callers| && callers[c].phase == Subscribed(old(now) + 30000, |log|)
    {
      var deadline := now + WAIT_TIMEOUT;
      callers := callers[c := callers[c].(phase := Subscribed(deadline, |log|))];
    }

    /** EXISTS, PUBLISH, DEL. The result says whether the callback was accepted. */
    method Publish(route: string, txn: string, body: string) returns (ok: bool)
      modifies this
      ensures ok <==> Alive(old(Redis()), PendingKey(route, txn))
      ensures Redis() == PublishSteps(old(Redis()), route, txn, body)
      ensures ok ==>
        && keys == old(keys) - {"Sync#" + route + "#" + txn}
        && |log| == |old(log)| + 1 && log[..|old(log)|] == old(log)
        && log[|old(log)|].channel == "Callback#" + route + "#" + txn && log[|old(log)|].body == body
      ensures !ok ==> keys == old(keys) && log == old(log)
    {
      PublishAlone(Redis(), route, txn, body);
      var key, p := PendingKey(route, txn), |publishers|;
      if !(key in keys && now < keys[key]) {
        publishers := publishers + [Publisher(route, txn, body, Refused)];
        return false;
      }
      accepted := accepted + multiset{key};
      log := log + [Published(CallbackChannel(route, txn), body, now, p)];
      keys := keys - {key};
      callers := MarkDeleted(callers, key);
      publishers := publishers + [Publisher(route, txn, body, Finished)];
      return true;
    }
  }
}
