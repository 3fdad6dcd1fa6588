/** The names under which the buyer app's callback manager keeps requests in Redis. */
module CallbackNames {

  function PendingKey(route: string, txn: string): string {
    "Sync#" + route + "#" + txn
  }

  function CallbackChannel(route: string, txn: string): string {
    "Callback#" + route + "#" + txn
  }

  predicate Plain(route: string) {
    '#' !in route
  }

  lemma SplitAtHash(r1: string, t1: string, r2: string, t2: string)
    requires Plain(r1) && Plain(r2)
    requires r1 + "#" + t1 == r2 + "#" + t2
    ensures r1 == r2 && t1 == t2
  {
    var a, b := r1 + "#" + t1, r2 + "#" + t2;
    assert |r1| == |r2| by {
      assert a[|r1|] == '#' && b[|r2|] == '#';
      assert forall i :: 0 <= i < |r1| ==> a[i] == r1[i];
      assert forall i :: 0 <= i < |r2| ==> b[i] == r2[i];
    }
    assert r1 == a[..|r1|] && r2 == b[..|r1|];
    assert t1 == a[|r1| + 1..] && t2 == b[|r1| + 1..];
  }

  /** For routes without '#', a key or a channel belongs to one route and one transaction. */
  lemma NamesInjective(r1: string, t1: string, r2: string, t2: string)
    requires Plain(r1) && Plain(r2)
    requires PendingKey(r1, t1) == PendingKey(r2, t2) || CallbackChannel(r1, t1) == CallbackChannel(r2, t2)
    ensures r1 == r2 && t1 == t2
  {
    if PendingKey(r1, t1) == PendingKey(r2, t2) {
      assert PendingKey(r1, t1)[5..] == r1 + "#" + t1 && PendingKey(r2, t2)[5..] == r2 + "#" + t2;
    } else {
      assert CallbackChannel(r1, t1)[9..] == r1 + "#" + t1 && CallbackChannel(r2, t2)[9..] == r2 + "#" + t2;
    }
    SplitAtHash(r1, t1, r2, t2);
  }

  /** Keys and channels coincide for the same requests, '#' in the route or not. */
  lemma KeyIffChannel(r1: string, t1: string, r2: string, t2: string)
    ensures PendingKey(r1, t1) == PendingKey(r2, t2) <==> CallbackChannel(r1, t1) == CallbackChannel(r2, t2)
  {
    assert PendingKey(r1, t1)[5..] == r1 + "#" + t1 && PendingKey(r2, t2)[5..] == r2 + "#" + t2;
    assert CallbackChannel(r1, t1)[9..] == r1 + "#" + t1 && CallbackChannel(r2, t2)[9..] == r2 + "#" + t2;
    assert PendingKey(r1, t1) == "Sync#" + (r1 + "#" + t1) && PendingKey(r2, t2) == "Sync#" + (r2 + "#" + t2);
    assert CallbackChannel(r1, t1) == "Callback#" + (r1 + "#" + t1)
        && CallbackChannel(r2, t2) == "Callback#" + (r2 + "#" + t2);
  }

  /** Two different routes can meet on one key exactly when one of them continues the other after a '#'. */
  lemma RoutesCollideExactly(r1: string, r2: string)
    requires r1 != r2
    ensures (exists t1, t2 :: PendingKey(r1, t1) == PendingKey(r2, t2)) <==> r1 + "#" <= r2 + "#" || r2 + "#" <= r1 + "#"
  {
    if r1 + "#" <= r2 + "#" {
      CommonKey(r1, r2);
    } else if r2 + "#" <= r1 + "#" {
      CommonKey(r2, r1);
    } else {
      forall t1, t2 ensures PendingKey(r1, t1) != PendingKey(r2, t2) {
        if PendingKey(r1, t1) == PendingKey(r2, t2) {
          assert PendingKey(r1, t1) == "Sync#" + (r1 + "#") + t1 && PendingKey(r2, t2) == "Sync#" + (r2 + "#") + t2;
          PrefixesNest(r1 + "#", t1, r2 + "#", t2);
        }
      }
    }
  }

  lemma CommonKey(r1: string, r2: string)
    requires r1 + "#" <= r2 + "#"
    ensures exists t :: PendingKey(r1, t) == PendingKey(r2, "")
  {
    var rest := (r2 + "#")[|r1| + 1..];
    assert r2 + "#" == (r1 + "#") + rest;
    assert PendingKey(r2, "") == "Sync#" + (r2 + "#");
    assert PendingKey(r1, rest) == "Sync#" + ((r1 + "#") + rest);
  }

  lemma PrefixesNest(a: string, s: string, b: string, t: string)
    requires "Sync#" + a + s == "Sync#" + b + t
    ensures a <= b || b <= a
  {
    var key := "Sync#" + a + s;
    assert key[5..5 + |a|] == a;
    assert key[5..5 + |b|] == b by { assert "Sync#" + b + t == key; }
    if |a| <= |b| {
      assert b[..|a|] == a;
    } else {
      assert a[..|b|] == b;
    }
  }

  /** The condition on routes is needed. */
  lemma HashInRouteCollides()
    ensures PendingKey("init", "a#b") == PendingKey("init#a", "b")
  {
    assert PendingKey("init", "a#b") == "Sync#init#a#b" == PendingKey("init#a", "b");
  }
}
