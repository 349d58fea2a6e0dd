/** What the relay queue holds after any sequence of changes: which deliveries, and what the receipts say of them. */
module RelayQueueStories {
  import opened Outcomes
  import opened RelayQueue
  import opened RelayQueueRuns

  // ---------------------------------------------------------------- deliveries are what was enqueued

  /** `d` is the delivery `original`, but for the attempts made since. */
  predicate IsSameDelivery(d: Delivery, original: Delivery) {
    d.(attemptCount := original.attemptCount, nextAttemptAtMs := original.nextAttemptAtMs) == original
  }

  ghost predicate EnqueuesAt(changes: seq<Change>, k: nat, id: string) {
    k < |changes| && changes[k].Enqueues? && changes[k].delivery.deliveryId == id
  }

  /** Every delivery is enqueued under an id of its own. */
  ghost predicate FreshDeliveryIds(changes: seq<Change>) {
    forall j: nat, k: nat, id: string :: EnqueuesAt(changes, j, id) && EnqueuesAt(changes, k, id) ==> j == k
  }

  ghost predicate EnqueuedBefore(changes: seq<Change>, n: nat, d: Delivery) {
    exists k: nat :: k < n && EnqueuesAt(changes, k, d.deliveryId) && IsSameDelivery(d, changes[k].delivery)
  }

  /** A delivery in the queue after a change was in it before, but for its attempts, or is the one enqueued. */
  lemma ChangeBringsNothingElse(q: Queue, change: Change, d: Delivery)
    requires Possible(q, change) && d in Changed(q, change).deliveries
    ensures (change.Enqueues? && d == change.delivery) || exists c :: c in q.deliveries && IsSameDelivery(d, c)
  {
    match change
    case Prunes(now) => UnexpiredMembers(q.deliveries, now, d);
    case Delivers(i, _) => assert d in q.deliveries;
    case GivesUp(i) => assert d in q.deliveries;
    case Reschedules(i, attemptCount, next) =>
      var k :| 0 <= k < |q.deliveries| && Changed(q, change).deliveries[k] == d;
      assert IsSameDelivery(d, q.deliveries[k]);
    case Swaps(_, _) => assert d in q.deliveries;
    case Reports(_) => assert d in q.deliveries;
    case Enqueues(_, _) => assert d in q.deliveries || d == change.delivery;
  }

  lemma {:induction false} NowEnqueued(changes: seq<Change>, n: nat, next: nat, d: Delivery)
    requires n < |changes| && next == n + 1 && changes[n].Enqueues? && d == changes[n].delivery
    ensures EnqueuedBefore(changes, next, d)
  {
    assert EnqueuesAt(changes, n, d.deliveryId);
  }

  lemma {:induction false} StillEnqueued(changes: seq<Change>, n: nat, next: nat, c: Delivery, d: Delivery)
    requires n <= next && EnqueuedBefore(changes, n, c) && IsSameDelivery(d, c)
    ensures EnqueuedBefore(changes, next, d)
  {
    var k: nat :| k < n && EnqueuesAt(changes, k, c.deliveryId) && IsSameDelivery(c, changes[k].delivery);
    assert EnqueuesAt(changes, k, d.deliveryId) && IsSameDelivery(d, changes[k].delivery);
  }

  /** Every delivery in the queue was enqueued as it is: ids, parties, payload and times; only its attempts have changed. */
  lemma {:induction false} DeliveriesWereEnqueued(changes: seq<Change>, states: seq<Queue>, n: nat, d: Delivery)
    requires IsTrace(changes, states) && n <= |changes| && d in states[n].deliveries
    ensures EnqueuedBefore(changes, n, d)
    decreases n
  {
    assert n > 0;
    ChangeBringsNothingElse(states[n - 1], changes[n - 1], d);
    if changes[n - 1].Enqueues? && d == changes[n - 1].delivery {
      NowEnqueued(changes, n - 1, n, d);
    } else {
      var c :| c in states[n - 1].deliveries && IsSameDelivery(d, c);
      DeliveriesWereEnqueued(changes, states, n - 1, c);
      StillEnqueued(changes, n - 1, n, c, d);
    }
  }

  // ---------------------------------------------------------------- which deliveries are in the queue

  ghost predicate Unique(deliveries: seq<Delivery>) {
    forall i, j :: 0 <= i < j < |deliveries| ==> deliveries[i].deliveryId != deliveries[j].deliveryId
  }

  ghost predicate Has(q: Queue, id: string) {
    exists i :: 0 <= i < |q.deliveries| && q.deliveries[i].deliveryId == id
  }

  lemma {:induction false} UnexpiredIsUnique(deliveries: seq<Delivery>, now: int)
    requires Unique(deliveries)
    ensures Unique(Unexpired(deliveries, now))
  {
    if deliveries != [] {
      var n := |deliveries| - 1;
      UnexpiredIsUnique(deliveries[..n], now);
      forall i | 0 <= i < |Unexpired(deliveries[..n], now)|
        ensures Unexpired(deliveries[..n], now)[i].deliveryId != deliveries[n].deliveryId
      {
        UnexpiredMembers(deliveries[..n], now, Unexpired(deliveries[..n], now)[i]);
      }
    }
  }

  /** Enqueuing under a new id, and every other change, keeps the ids unique. */
  lemma ChangeKeepsUnique(q: Queue, change: Change)
    requires Possible(q, change) && Unique(q.deliveries)
    requires change.Enqueues? ==> !Has(q, change.delivery.deliveryId)
    ensures Unique(Changed(q, change).deliveries)
  {
    match change
    case Prunes(now) => UnexpiredIsUnique(q.deliveries, now);
    case _ =>
  }

  lemma {:induction false} NotYetEnqueued(changes: seq<Change>, states: seq<Queue>, k: nat, n: nat)
    requires IsTrace(changes, states) && FreshDeliveryIds(changes) && n <= k < |changes| && changes[k].Enqueues?
    ensures !Has(states[n], changes[k].delivery.deliveryId)
  {
    var q, id := states[n], changes[k].delivery.deliveryId;
    assert EnqueuesAt(changes, k, id);
    if Has(q, id) {
      var i :| 0 <= i < |q.deliveries| && q.deliveries[i].deliveryId == id;
      DeliveriesWereEnqueued(changes, states, n, q.deliveries[i]);
    }
  }

  lemma {:induction false} AlwaysUnique(changes: seq<Change>, states: seq<Queue>, n: nat)
    requires IsTrace(changes, states) && FreshDeliveryIds(changes) && n <= |changes|
    ensures Unique(states[n].deliveries)
  {
    if n > 0 {
      AlwaysUnique(changes, states, n - 1);
      if changes[n - 1].Enqueues? {
        NotYetEnqueued(changes, states, n - 1, n - 1);
      }
      ChangeKeepsUnique(states[n - 1], changes[n - 1]);
    }
  }

  /** The change takes the delivery out: it was made, or given up, or found expired. */
  ghost predicate Removes(q: Queue, change: Change, id: string, expiresAtMs: int) {
    match change
    case Delivers(i, _) => i < |q.deliveries| && q.deliveries[i].deliveryId == id
    case GivesUp(i) => i < |q.deliveries| && q.deliveries[i].deliveryId == id
    case Prunes(now) => expiresAtMs <= now
    case _ => false
  }

  /** All deliveries with this id expire at that time. */
  ghost predicate ExpiresAt(q: Queue, id: string, expiresAtMs: int) {
    forall d :: d in q.deliveries && d.deliveryId == id ==> d.expiresAtMs == expiresAtMs
  }

  lemma RemovingOne(deliveries: seq<Delivery>, i: nat, id: string)
    requires i < |deliveries| && Unique(deliveries)
    ensures var before, after := Queue(deliveries, map[]), Queue(Without(deliveries, i), map[]);
            Has(after, id) <==> Has(before, id) && deliveries[i].deliveryId != id
  {
    var after := Without(deliveries, i);
    if k :| 0 <= k < |deliveries| && deliveries[k].deliveryId == id && deliveries[i].deliveryId != id {
      assert after[if k < i then k else k - 1].deliveryId == id;
    }
    if k :| 0 <= k < |after| && after[k].deliveryId == id {
      assert deliveries[if k < i then k else k + 1].deliveryId == id;
    }
  }

  lemma PruningSome(q: Queue, now: int, id: string, expiresAtMs: int)
    requires ExpiresAt(q, id, expiresAtMs)
    ensures Has(Pruned(q, now), id) <==> Has(q, id) && expiresAtMs > now
  {
    forall d ensures d in Pruned(q, now).deliveries <==> d in q.deliveries && d.expiresAtMs > now {
      UnexpiredMembers(q.deliveries, now, d);
    }
    if Has(q, id) && expiresAtMs > now {
      var i :| 0 <= i < |q.deliveries| && q.deliveries[i].deliveryId == id;
      assert q.deliveries[i] in q.deliveries;
      assert q.deliveries[i] in Pruned(q, now).deliveries;
    }
  }

  lemma MovingKeepsIds(q: Queue, change: Change, id: string)
    requires Possible(q, change) && (change.Reschedules? || change.Swaps?)
    ensures Has(Changed(q, change), id) <==> Has(q, id)
  {
    var t := Changed(q, change);
    if k :| 0 <= k < |q.deliveries| && q.deliveries[k].deliveryId == id {
      var place := if change.Swaps? && k == change.i then change.j else if change.Swaps? && k == change.j then change.i else k;
      assert t.deliveries[place].deliveryId == id;
    }
    if k :| 0 <= k < |t.deliveries| && t.deliveries[k].deliveryId == id {
      var place := if change.Swaps? && k == change.i then change.j else if change.Swaps? && k == change.j then change.i else k;
      assert q.deliveries[place].deliveryId == id;
    }
  }

  lemma EnqueuingAdds(q: Queue, d: Delivery, at: string, id: string)
    ensures Has(Changed(q, Enqueues(d, at)), id) <==> Has(q, id) || d.deliveryId == id
  {
    var t := Changed(q, Enqueues(d, at));
    assert t.deliveries[|q.deliveries|] == d;
    if i :| 0 <= i < |q.deliveries| && q.deliveries[i].deliveryId == id {
      assert t.deliveries[i].deliveryId == id;
    }
  }

  lemma {:induction false} HasAfterChange(q: Queue, change: Change, id: string, expiresAtMs: int)
    requires Possible(q, change) && Unique(q.deliveries) && ExpiresAt(q, id, expiresAtMs)
    ensures Has(Changed(q, change), id) <==>
            || (change.Enqueues? && change.delivery.deliveryId == id)
            || (Has(q, id) && !Removes(q, change, id, expiresAtMs))
  {
    match change
    case Enqueues(d, at) => EnqueuingAdds(q, d, at, id);
    case Reports(_) =>
    case Delivers(i, _) => RemovingOne(q.deliveries, i, id);
    case GivesUp(i) => RemovingOne(q.deliveries, i, id);
    case Prunes(now) => PruningSome(q, now, id, expiresAtMs);
    case _ => MovingKeepsIds(q, change, id);
  }

  ghost predicate RemovesAt(changes: seq<Change>, states: seq<Queue>, m: nat, d: Delivery) {
    m < |changes| && m < |states| && Removes(states[m], changes[m], d.deliveryId, d.expiresAtMs)
  }

  lemma {:induction false} ExpiryIsAsEnqueued(changes: seq<Change>, states: seq<Queue>, k: nat, n: nat)
    requires IsTrace(changes, states) && FreshDeliveryIds(changes) && n <= |changes|
    requires k < |changes| && changes[k].Enqueues?
    ensures ExpiresAt(states[n], changes[k].delivery.deliveryId, changes[k].delivery.expiresAtMs)
  {
    var id := changes[k].delivery.deliveryId;
    assert EnqueuesAt(changes, k, id);
    forall d | d in states[n].deliveries && d.deliveryId == id ensures d.expiresAtMs == changes[k].delivery.expiresAtMs {
      DeliveriesWereEnqueued(changes, states, n, d);
    }
  }

  ghost predicate NeverRemoved(changes: seq<Change>, states: seq<Queue>, k: nat, n: nat, d: Delivery) {
    forall m: nat :: k < m < n ==> !RemovesAt(changes, states, m, d)
  }

  /**
   * If every delivery is enqueued under an id of its own, a delivery is in the queue exactly from when it is enqueued until
   * it is delivered, given up, or pruned after its expiry.
   */
  lemma {:induction false} QueuedExactlyUntilRemoved(changes: seq<Change>, states: seq<Queue>, k: nat, n: nat)
    requires IsTrace(changes, states) && FreshDeliveryIds(changes) && k < n <= |changes| && changes[k].Enqueues?
    ensures Has(states[n], changes[k].delivery.deliveryId) <==> NeverRemoved(changes, states, k, n, changes[k].delivery)
    decreases n
  {
    var d := changes[k].delivery;
    AlwaysUnique(changes, states, n - 1);
    ExpiryIsAsEnqueued(changes, states, k, n - 1);
    HasAfterChange(states[n - 1], changes[n - 1], d.deliveryId, d.expiresAtMs);
    if k < n - 1 {
      QueuedExactlyUntilRemoved(changes, states, k, n - 1);
      NotEnqueuedAgain(changes, k, n - 1);
      NeverRemovedLater(changes, states, k, n - 1, n, d);
    }
  }

  lemma {:induction false} NotEnqueuedAgain(changes: seq<Change>, k: nat, m: nat)
    requires FreshDeliveryIds(changes) && k < m < |changes| && changes[k].Enqueues?
    ensures changes[m].Enqueues? ==> changes[m].delivery.deliveryId != changes[k].delivery.deliveryId
  {
    assert EnqueuesAt(changes, k, changes[k].delivery.deliveryId);
    if changes[m].Enqueues? {
      assert EnqueuesAt(changes, m, changes[m].delivery.deliveryId);
    }
  }

  lemma {:induction false} NeverRemovedLater(changes: seq<Change>, states: seq<Queue>, k: nat, m: nat, n: nat, d: Delivery)
    requires k < m && n == m + 1 <= |changes| < |states|
    ensures NeverRemoved(changes, states, k, n, d) <==>
            NeverRemoved(changes, states, k, m, d) && !Removes(states[m], changes[m], d.deliveryId, d.expiresAtMs)
  {
    assert RemovesAt(changes, states, m, d) <==> Removes(states[m], changes[m], d.deliveryId, d.expiresAtMs);
  }

  // ---------------------------------------------------------------- receipts of queued deliveries

  /** The queued receipt names the parties and the expiry of a delivery in the queue. */
  ghost predicate Describes(deliveries: seq<Delivery>, r: Receipt) {
    exists d :: d in deliveries && d.requestId == r.requestId && d.deliveryId == r.deliveryId
                && d.senderAgentDid == r.senderAgentDid && d.recipientAgentDid == r.recipientAgentDid
                && d.expiresAtMs == r.expiresAtMs
  }

  ghost predicate ReceiptsDescribe(q: Queue) {
    forall id :: id in q.receipts && q.receipts[id].state == Queued ==> Describes(q.deliveries, q.receipts[id])
  }

  lemma OthersRemain(deliveries: seq<Delivery>, i: nat, k: nat)
    requires i < |deliveries| && k < |deliveries| && deliveries[k] != deliveries[i]
    ensures deliveries[k] in Without(deliveries, i)
  {
    assert Without(deliveries, i)[if k < i then k else k - 1] == deliveries[k];
  }

  /** Every delivery but the removed one is in the queue after the change, but for its attempts. */
  lemma OthersAreKept(q: Queue, change: Change, d: Delivery) returns (c: Delivery)
    requires Possible(q, change) && d in q.deliveries && !change.Prunes?
    requires change.Delivers? || change.GivesUp? ==> d != q.deliveries[change.i]
    ensures c in Changed(q, change).deliveries && IsSameDelivery(c, d)
  {
    var deliveries := Changed(q, change).deliveries;
    var k :| 0 <= k < |q.deliveries| && q.deliveries[k] == d;
    c := d;
    match change
    case Delivers(i, _) => OthersRemain(q.deliveries, i, k);
    case GivesUp(i) => OthersRemain(q.deliveries, i, k);
    case Swaps(i, j) => assert deliveries[if k == i then j else if k == j then i else k] == d;
    case Reschedules(_, _, _) => c := deliveries[k];
    case _ =>
  }

  lemma SameDeliveryDescribes(deliveries: seq<Delivery>, c: Delivery, d: Delivery, r: Receipt)
    requires c in deliveries && IsSameDelivery(c, d) && Describes([d], r)
    ensures Describes(deliveries, r)
  {
  }

  /** A queued receipt that a change leaves alone still describes a delivery. */
  lemma ReceiptStillDescribes(q: Queue, change: Change, r: Receipt)
    requires Possible(q, change) && Describes(q.deliveries, r) && !change.Prunes?
    requires change.Delivers? || change.GivesUp? ==>
               q.deliveries[change.i].requestId != r.requestId || q.deliveries[change.i].deliveryId != r.deliveryId
    ensures Describes(Changed(q, change).deliveries, r)
  {
    var d :| d in q.deliveries && d.requestId == r.requestId && d.deliveryId == r.deliveryId
             && d.senderAgentDid == r.senderAgentDid && d.recipientAgentDid == r.recipientAgentDid
             && d.expiresAtMs == r.expiresAtMs;
    var c := OthersAreKept(q, change, d);
    assert d in [d];
    SameDeliveryDescribes(Changed(q, change).deliveries, c, d, r);
  }

  lemma PrunedReceiptDescribes(q: Queue, now: int, r: Receipt)
    requires Describes(q.deliveries, r) && r.expiresAtMs > now
    ensures Describes(Pruned(q, now).deliveries, r)
  {
    var d :| d in q.deliveries && d.requestId == r.requestId && d.deliveryId == r.deliveryId
             && d.senderAgentDid == r.senderAgentDid && d.recipientAgentDid == r.recipientAgentDid
             && d.expiresAtMs == r.expiresAtMs;
    UnexpiredMembers(q.deliveries, now, d);
  }

  lemma EnqueuedReceiptDescribes(q: Queue, d: Delivery, at: string)
    ensures Describes(Changed(q, Enqueues(d, at)).deliveries, QueuedReceipt(d, at))
  {
    assert Changed(q, Enqueues(d, at)).deliveries[|q.deliveries|] == d;
  }

  lemma {:induction false} ChangeKeepsDescriptions(q: Queue, change: Change)
    requires Possible(q, change) && Keyed(q) && ReceiptsDescribe(q)
    ensures ReceiptsDescribe(Changed(q, change))
  {
    var t := Changed(q, change);
    forall id | id in t.receipts && t.receipts[id].state == Queued ensures Describes(t.deliveries, t.receipts[id]) {
      if change.Enqueues? && id == change.delivery.requestId {
        EnqueuedReceiptDescribes(q, change.delivery, change.statusUpdatedAt);
      } else {
        assert id in q.receipts && t.receipts[id] == q.receipts[id];
        if change.Prunes? {
          PrunedReceiptDescribes(q, change.now, q.receipts[id]);
        } else {
          ReceiptStillDescribes(q, change, q.receipts[id]);
        }
      }
    }
  }

  /**
   * In every run each receipt in the queued state names the sender, the recipient and the expiry of a delivery that is in
   * the queue.
   */
  lemma {:induction false} QueuedReceiptsDescribeDeliveries(changes: seq<Change>, states: seq<Queue>, n: nat)
    requires IsTrace(changes, states) && n <= |changes|
    ensures ReceiptsDescribe(states[n])
  {
    if n > 0 {
      QueuedReceiptsDescribeDeliveries(changes, states, n - 1);
      LinksAlwaysHold(changes, states, n - 1);
      ChangeKeepsDescriptions(states[n - 1], changes[n - 1]);
    }
  }

  /** A receipt that reports more than queueing outlives its delivery: it goes only when it has expired itself. */
  lemma {:induction false} ReportedReceiptsOutliveDeliveries(q: Queue, now: int, id: string)
    requires id in q.receipts && q.receipts[id].state != Queued
    ensures var receipts := Pruned(q, now).receipts;
            (id in receipts <==> q.receipts[id].expiresAtMs > now) && (id in receipts ==> receipts[id] == q.receipts[id])
    ensures forall i: nat :: i < |q.deliveries| ==>
              var receipts := Changed(q, GivesUp(i)).receipts; id in receipts && receipts[id] == q.receipts[id]
  {
  }
}
