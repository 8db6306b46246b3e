/**
 * The loops of cmd_broadcast: one delivery attempt per subscriber with the
 * sent/failed counters, then the result sent to every other admin. Delivery
 * is an oracle: `delivered(id)` says whether send_message to `id` returns
 * (true) or raises (false).
 */
module Broadcast {

  /** No id is listed twice. */
  predicate Distinct(s: seq<int>)
  {
    forall i, j :: 0 <= i < j < |s| ==> s[i] != s[j]
  }

  /** `s` lists every element of `ids` exactly once, in some order. */
  ghost predicate Enumerates(s: seq<int>, ids: set<int>)
  {
    Distinct(s) && forall x :: x in s <==> x in ids
  }

  /** How many of the attempts in `s` were delivered (the `sent` counter). */
  function CountDelivered(s: seq<int>, delivered: int -> bool): (n: nat)
    ensures n <= |s|
  {
    if s == [] then 0
    else CountDelivered(s[..|s| - 1], delivered) + (if delivered(s[|s| - 1]) then 1 else 0)
  }

  /** Whatever order the set is walked in, `sent` is the number of subscribers that were reached. */
  lemma {:induction false} CountIsOrderFree(s: seq<int>, ids: set<int>, delivered: int -> bool)
    requires Enumerates(s, ids)
    ensures CountDelivered(s, delivered) == |set x | x in ids && delivered(x)|
  {
    if s == [] {
      assert ids == {} by {
        forall x ensures x !in ids {
          assert x !in s;
        }
      }
    } else {
      var p := s[..|s| - 1];
      var y := s[|s| - 1];
      var rest := ids - {y};
      forall x | x in p ensures x in rest {
        var i :| 0 <= i < |p| && p[i] == x;
        assert s[i] == x && i < |s| - 1;
      }
      forall x | x in rest ensures x in p {
        assert x in s;
        var i :| 0 <= i < |s| && s[i] == x;
        assert i != |s| - 1;
        assert p[i] == x;
      }
      CountIsOrderFree(p, rest, delivered);
      var before := set x | x in rest && delivered(x);
      var after := set x | x in ids && delivered(x);
      assert y !in before;
      if delivered(y) {
        assert after == before + {y};
      } else {
        assert after == before;
      }
    }
  }

  /** Appending an id not yet listed keeps the list free of repeats. */
  lemma AppendFresh(s: seq<int>, x: int)
    requires Distinct(s) && x !in s
    ensures Distinct(s + [x])
  {
  }

  /** Each id is either reached or not: the two counts add up to the number of ids. */
  lemma DeliveryPartition(ids: set<int>, delivered: int -> bool)
    ensures |set id | id in ids && delivered(id)| + |set id | id in ids && !delivered(id)| == |ids|
  {
    var reached := set id | id in ids && delivered(id);
    var missed := set id | id in ids && !delivered(id);
    assert reached + missed == ids && reached !! missed;
  }

  /**
   * The `for user_id in subscribers` loop: every subscriber is attempted
   * exactly once, `sent` counts those reached, `failed` the others.
   */
  method FanOut(subscribers: set<int>, delivered: int -> bool) returns (sent: nat, failed: nat, attempts: seq<int>)
    ensures Enumerates(attempts, subscribers)
    ensures sent == |set id | id in subscribers && delivered(id)|
    ensures failed == |set id | id in subscribers && !delivered(id)|
    ensures sent + failed == |subscribers|
  {
    sent, failed, attempts := 0, 0, [];
    var pending := subscribers;
    while pending != {}
      invariant pending <= subscribers
      invariant Distinct(attempts)
      invariant forall x :: x in attempts <==> x in subscribers && x !in pending
      invariant |attempts| + |pending| == |subscribers|
      invariant sent == CountDelivered(attempts, delivered)
      invariant sent + failed == |attempts|
      decreases pending
    {
      assert (forall x :: x !in pending) ==> pending == {};  // so some id is pending
      var id :| id in pending;
      if delivered(id) {
        sent := sent + 1;
      } else {
        failed := failed + 1;
      }
      assert (attempts + [id])[..|attempts|] == attempts;
      AppendFresh(attempts, id);
      attempts := attempts + [id];
      pending := pending - {id};
    }
    CountIsOrderFree(attempts, subscribers, delivered);
    DeliveryPartition(subscribers, delivered);
  }

  /**
   * The admin-notification loop: every admin but the requester is sent the
   * result once. A failed send is swallowed and the loop goes on, so which
   * admins are tried does not depend on delivery.
   */
  method NotifyAdmins(admins: set<int>, requester: int) returns (notified: seq<int>)
    ensures Enumerates(notified, admins - {requester})
  {
    notified := [];
    var pending := admins;
    while pending != {}
      invariant pending <= admins
      invariant Distinct(notified)
      invariant forall x :: x in notified <==> x in admins && x !in pending && x != requester
      decreases pending
    {
      assert (forall x :: x !in pending) ==> pending == {};  // so some admin is pending
      var adminId :| adminId in pending;
      if adminId != requester {
        AppendFresh(notified, adminId);
        notified := notified + [adminId];
      }
      pending := pending - {adminId};
    }
  }
}
