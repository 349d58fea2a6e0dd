/** What the relay session does to its queue, and the links that every sequence of it keeps. */
module RelayQueueRuns {
  import opened Outcomes
  import opened RelayQueue

  /** `i` is the position of a delivery in the queue. */
  datatype Change =
    | Enqueues(delivery: Delivery, statusUpdatedAt: string)
    | Reports(receipt: Receipt)
    | Delivers(i: nat, receipt: Receipt)
    | GivesUp(i: nat)
    | Reschedules(i: nat, attemptCount: nat, nextAttemptAtMs: int)
    | Swaps(i: nat, j: nat)
    | Prunes(now: int)

  function QueuedReceipt(d: Delivery, statusUpdatedAt: string): Receipt {
    Receipt(d.requestId, d.deliveryId, d.expiresAtMs, d.senderAgentDid, d.recipientAgentDid, Queued, None,
            statusUpdatedAt)
  }

  /** Receipts reported for a request, and receipts of a delivery just made, are never in the queued state. */
  predicate Possible(q: Queue, change: Change) {
    match change
    case Enqueues(_, _) => true
    case Reports(receipt) => receipt.state != Queued
    case Delivers(i, receipt) =>
      i < |q.deliveries| && receipt.requestId == q.deliveries[i].requestId && receipt.state == Delivered
    case GivesUp(i) => i < |q.deliveries|
    case Reschedules(i, _, _) => i < |q.deliveries|
    case Swaps(i, j) => i < |q.deliveries| && j < |q.deliveries|
    case Prunes(_) => true
  }

  function Without(deliveries: seq<Delivery>, i: nat): seq<Delivery>
    requires i < |deliveries|
  {
    deliveries[..i] + deliveries[i + 1..]
  }

  ghost function Changed(q: Queue, change: Change): Queue
    requires Possible(q, change)
  {
    match change
    case Enqueues(d, at) => Queue(q.deliveries + [d], q.receipts[d.requestId := QueuedReceipt(d, at)])
    case Reports(receipt) => q.(receipts := q.receipts[receipt.requestId := receipt])
    case Delivers(i, receipt) => Queue(Without(q.deliveries, i), q.receipts[receipt.requestId := receipt])
    case GivesUp(i) =>
      var d := q.deliveries[i];
      Queue(Without(q.deliveries, i), WithoutQueuedReceipt(q.receipts, d.requestId, d.deliveryId))
    case Reschedules(i, attemptCount, next) =>
      q.(deliveries := q.deliveries[i := q.deliveries[i].(attemptCount := attemptCount, nextAttemptAtMs := next)])
    case Swaps(i, j) => q.(deliveries := q.deliveries[i := q.deliveries[j]][j := q.deliveries[i]])
    case Prunes(now) => Pruned(q, now)
  }

  /** `states[n]` is the queue after `n` changes, the first queue being empty. */
  ghost predicate IsTrace(changes: seq<Change>, states: seq<Queue>) {
    && |states| == |changes| + 1 && states[0] == Queue([], map[])
    && forall n :: 0 <= n < |changes| ==> Possible(states[n], changes[n]) && states[n + 1] == Changed(states[n], changes[n])
  }

  /** A delivery of the old queue with other ids than a removed one is still there. */
  lemma OthersStay(deliveries: seq<Delivery>, i: nat, requestId: string, deliveryId: string)
    requires i < |deliveries| && HasDelivery(deliveries, requestId, deliveryId)
    requires deliveries[i].requestId != requestId || deliveries[i].deliveryId != deliveryId
    ensures HasDelivery(Without(deliveries, i), requestId, deliveryId)
  {
    var d :| d in deliveries && d.requestId == requestId && d.deliveryId == deliveryId;
    var k :| 0 <= k < |deliveries| && deliveries[k] == d;
    assert Without(deliveries, i)[if k < i then k else k - 1] == d;
  }

  lemma RemovalKeepsLinks(q: Queue, i: nat, receipts: map<string, Receipt>)
    requires i < |q.deliveries| && Linked(q)
    requires forall id :: id in receipts && receipts[id].state == Queued ==>
      && id in q.receipts && receipts[id] == q.receipts[id]
      && (id != q.deliveries[i].requestId || receipts[id].deliveryId != q.deliveries[i].deliveryId)
    ensures Linked(Queue(Without(q.deliveries, i), receipts))
  {
    forall id | id in receipts && receipts[id].state == Queued
      ensures HasDelivery(Without(q.deliveries, i), id, receipts[id].deliveryId)
    {
      OthersStay(q.deliveries, i, id, receipts[id].deliveryId);
    }
  }

  /** Deliveries may be reordered or changed as long as every pair of ids stays. */
  lemma SameIdsKeepLinks(q: Queue, deliveries: seq<Delivery>)
    requires Linked(q)
    requires forall d :: d in q.deliveries ==> HasDelivery(deliveries, d.requestId, d.deliveryId)
    ensures Linked(q.(deliveries := deliveries))
  {
    forall id | id in q.receipts && q.receipts[id].state == Queued
      ensures HasDelivery(deliveries, id, q.receipts[id].deliveryId)
    {
      var d :| d in q.deliveries && d.requestId == id && d.deliveryId == q.receipts[id].deliveryId;
      assert HasDelivery(deliveries, d.requestId, d.deliveryId);
    }
  }

  lemma IdsStay(q: Queue, change: Change, d: Delivery)
    requires Possible(q, change) && (change.Reschedules? || change.Swaps?) && d in q.deliveries
    ensures HasDelivery(Changed(q, change).deliveries, d.requestId, d.deliveryId)
  {
    var k :| 0 <= k < |q.deliveries| && q.deliveries[k] == d;
    var deliveries := Changed(q, change).deliveries;
    var place :=
      if change.Swaps? && k == change.i then change.j
      else if change.Swaps? && k == change.j then change.i
      else k;
    assert deliveries[place].requestId == d.requestId && deliveries[place].deliveryId == d.deliveryId;
    assert deliveries[place] in deliveries;
  }

  lemma EnqueueKeepsLinks(q: Queue, d: Delivery, at: string)
    requires Linked(q)
    ensures Linked(Changed(q, Enqueues(d, at)))
  {
    var t := Changed(q, Enqueues(d, at));
    assert t.deliveries[|q.deliveries|] == d;
    forall id | id in t.receipts && t.receipts[id].state == Queued
      ensures HasDelivery(t.deliveries, id, t.receipts[id].deliveryId)
    {
      if id != d.requestId {
        var other :| other in q.deliveries && other.requestId == id && other.deliveryId == q.receipts[id].deliveryId;
        assert other in t.deliveries;
      }
    }
  }

  lemma ChangeKeepsLinks(q: Queue, change: Change)
    requires Possible(q, change) && Keyed(q) && Linked(q)
    ensures Keyed(Changed(q, change)) && Linked(Changed(q, change))
  {
    match change
    case Enqueues(d, at) => EnqueueKeepsLinks(q, d, at);
    case Reports(receipt) =>
    case Delivers(i, receipt) => RemovalKeepsLinks(q, i, q.receipts[receipt.requestId := receipt]);
    case GivesUp(i) =>
      var d := q.deliveries[i];
      RemovalKeepsLinks(q, i, WithoutQueuedReceipt(q.receipts, d.requestId, d.deliveryId));
    case Prunes(now) => PruningKeepsLinks(q, now);
    case _ =>
      forall d | d in q.deliveries ensures HasDelivery(Changed(q, change).deliveries, d.requestId, d.deliveryId) {
        IdsStay(q, change, d);
      }
      SameIdsKeepLinks(q, Changed(q, change).deliveries);
  }

  /** In every run each receipt is under its own request id, and each queued one has its delivery in the queue. */
  lemma {:induction false} LinksAlwaysHold(changes: seq<Change>, states: seq<Queue>, n: nat)
    requires IsTrace(changes, states) && n <= |changes|
    ensures Keyed(states[n]) && Linked(states[n])
  {
    if n > 0 {
      LinksAlwaysHold(changes, states, n - 1);
      ChangeKeepsLinks(states[n - 1], changes[n - 1]);
    }
  }

  /** Giving up a delivery that was just queued leaves the receipts as they were, if its request had none. */
  lemma GivingUpUndoesEnqueuing(q: Queue, d: Delivery, at: string)
    requires d.requestId !in q.receipts
    ensures Changed(Changed(q, Enqueues(d, at)), GivesUp(|q.deliveries|)) == q
  {
  }
}
