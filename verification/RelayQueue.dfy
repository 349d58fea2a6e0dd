/** The relay's durable queue: deliveries and receipts, linked by request and delivery id, pruned in place. */
module RelayQueue {
  import opened Numbers
  import opened Outcomes

  datatype Delivery = Delivery(
    deliveryId: string,
    requestId: string,
    senderAgentDid: string,
    recipientAgentDid: string,
    payload: string,
    createdAtMs: int,
    attemptCount: nat,
    expiresAtMs: int,
    nextAttemptAtMs: int)

  datatype ReceiptState = Queued | Delivered | DeliveredToWebhook | DeadLettered

  datatype Receipt = Receipt(
    requestId: string,
    deliveryId: string,
    expiresAtMs: int,
    senderAgentDid: string,
    recipientAgentDid: string,
    state: ReceiptState,
    reason: Option<string>,
    statusUpdatedAt: string)

  datatype Queue = Queue(deliveries: seq<Delivery>, receipts: map<string, Receipt>)

  // ---------------------------------------------------------------- links between the two collections

  /** Every receipt is stored under its own request id. */
  ghost predicate Keyed(q: Queue) {
    forall id :: id in q.receipts ==> q.receipts[id].requestId == id
  }

  /** Every queued receipt has its delivery in the queue. */
  ghost predicate Linked(q: Queue) {
    forall id :: id in q.receipts && q.receipts[id].state == Queued ==>
      HasDelivery(q.deliveries, id, q.receipts[id].deliveryId)
  }

  ghost predicate HasDelivery(deliveries: seq<Delivery>, requestId: string, deliveryId: string) {
    exists d :: d in deliveries && d.requestId == requestId && d.deliveryId == deliveryId
  }

  // ---------------------------------------------------------------- pruning

  function Unexpired(deliveries: seq<Delivery>, now: int): seq<Delivery> {
    if deliveries == [] then []
    else
      var n := |deliveries| - 1;
      Unexpired(deliveries[..n], now) + if deliveries[n].expiresAtMs > now then [deliveries[n]] else []
  }

  /** The receipt under `requestId` belongs to a queued delivery that has expired. */
  ghost predicate Abandoned(deliveries: seq<Delivery>, requestId: string, receipt: Receipt, now: int) {
    && receipt.state == Queued
    && exists d :: d in deliveries && d.expiresAtMs <= now && d.requestId == requestId
                   && d.deliveryId == receipt.deliveryId
  }

  ghost predicate Retained(q: Queue, requestId: string, now: int)
    requires requestId in q.receipts
  {
    q.receipts[requestId].expiresAtMs > now && !Abandoned(q.deliveries, requestId, q.receipts[requestId], now)
  }

  /** What is left of a queue at time `now`. */
  ghost function Pruned(q: Queue, now: int): Queue {
    Queue(Unexpired(q.deliveries, now), map id | id in q.receipts && Retained(q, id, now) :: q.receipts[id])
  }

  function WithoutQueuedReceipt(receipts: map<string, Receipt>, requestId: string, deliveryId: string)
    : map<string, Receipt>
  {
    if requestId in receipts && receipts[requestId].deliveryId == deliveryId && receipts[requestId].state == Queued
    then receipts - {requestId}
    else receipts
  }

  /** The receipts that no expired delivery takes with it. */
  ghost function Unabandoned(receipts: map<string, Receipt>, deliveries: seq<Delivery>, now: int): map<string, Receipt> {
    map id | id in receipts && !Abandoned(deliveries, id, receipts[id], now) :: receipts[id]
  }

  lemma UnabandonedStep(receipts: map<string, Receipt>, deliveries: seq<Delivery>, d: Delivery, now: int)
    ensures Unabandoned(receipts, deliveries + [d], now)
            == if d.expiresAtMs <= now
               then WithoutQueuedReceipt(Unabandoned(receipts, deliveries, now), d.requestId, d.deliveryId)
               else Unabandoned(receipts, deliveries, now)
  {
  }

  class RelayQueueState {
    var deliveries: seq<Delivery>
    var receipts: map<string, Receipt>

    ghost function View(): Queue
      reads this
    {
      Queue(deliveries, receipts)
    }

    constructor (deliveries: seq<Delivery>, receipts: map<string, Receipt>)
      ensures View() == Queue(deliveries, receipts)
    {
      this.deliveries, this.receipts := deliveries, receipts;
    }

    method DeleteQueuedReceipt(requestId: string, deliveryId: string)
      modifies this`receipts
      ensures receipts == WithoutQueuedReceipt(old(receipts), requestId, deliveryId)
      ensures Keyed(old(View())) ==> Keyed(View())
      ensures Linked(old(View())) ==> Linked(View())
    {
      if requestId !in receipts {
        return;
      }
      var receipt := receipts[requestId];
      if receipt.deliveryId != deliveryId || receipt.state != Queued {
        return;
      }
      receipts := receipts - {requestId};
    }

    method UpsertReceipt(receipt: Receipt)
      modifies this`receipts
      ensures receipts == old(receipts)[receipt.requestId := receipt]
      ensures Keyed(old(View())) ==> Keyed(View())
      ensures Linked(old(View())) ==>
                (Linked(View()) <==>
                   receipt.state != Queued || HasDelivery(deliveries, receipt.requestId, receipt.deliveryId))
    {
      assert receipt.requestId in receipts[receipt.requestId := receipt];
      receipts := receipts[receipt.requestId := receipt];
    }

    /** The pass over the deliveries. */
    method PruneDeliveries(now: int) returns (mutated: bool)
      modifies this
      ensures deliveries == Unexpired(old(deliveries), now)
      ensures receipts == Unabandoned(old(receipts), old(deliveries), now)
      ensures mutated <==> deliveries != old(deliveries)
      ensures !mutated ==> receipts == old(receipts)
    {
      mutated := false;
      var retained: seq<Delivery> := [];
      var i := 0;
      while i < |deliveries|
        invariant 0 <= i <= |deliveries| && deliveries == old(deliveries)
        invariant retained == Unexpired(deliveries[..i], now)
        invariant receipts == Unabandoned(old(receipts), deliveries[..i], now)
        invariant if mutated then |retained| < i else retained == deliveries[..i] && receipts == old(receipts)
      {
        var d := deliveries[i];
        UnabandonedStep(old(receipts), deliveries[..i], d, now);
        assert deliveries[..i + 1] == deliveries[..i] + [d];
        if d.expiresAtMs <= now {
          DeleteQueuedReceipt(d.requestId, d.deliveryId);
          mutated := true;
        } else {
          retained := retained + [d];
        }
        i := i + 1;
      }
      assert deliveries[..i] == deliveries;
      if |retained| != |deliveries| {
        deliveries := retained;
        mutated := true;
      }
    }

    /** The pass over the receipts. */
    method PruneReceipts(now: int) returns (mutated: bool)
      modifies this`receipts
      ensures receipts == map id | id in old(receipts) && old(receipts)[id].expiresAtMs > now :: old(receipts)[id]
      ensures mutated <==> receipts != old(receipts)
    {
      mutated := false;
      var todo := receipts.Keys;
      while todo != {}
        invariant todo <= old(receipts).Keys
        invariant receipts
                  == map id | id in old(receipts) && (id in todo || old(receipts)[id].expiresAtMs > now)
                       :: old(receipts)[id]
        invariant mutated <==> receipts != old(receipts)
        decreases todo
      {
        var id :| id in todo;
        todo := todo - {id};
        if receipts[id].expiresAtMs <= now {
          receipts := receipts - {id};
          mutated := true;
        }
      }
    }

    /** Drops expired deliveries with their queued receipts, then expired receipts; tells whether anything changed. */
    method PruneExpiredQueueState(now: int) returns (mutated: bool)
      modifies this
      ensures View() == Pruned(old(View()), now)
      ensures mutated <==> View() != old(View())
    {
      var dropped := PruneDeliveries(now);
      var expired := PruneReceipts(now);
      assert receipts == Pruned(old(View()), now).receipts;
      mutated := dropped || expired;
    }
  }

  lemma {:induction false} UnexpiredMembers(deliveries: seq<Delivery>, now: int, d: Delivery)
    ensures d in Unexpired(deliveries, now) <==> d in deliveries && d.expiresAtMs > now
  {
    if deliveries != [] {
      var n := |deliveries| - 1;
      UnexpiredMembers(deliveries[..n], now, d);
      assert deliveries == deliveries[..n] + [deliveries[n]];
    }
  }

  /** Filtering keeps the order: it distributes over concatenation. */
  lemma {:induction false} UnexpiredKeepsOrder(a: seq<Delivery>, b: seq<Delivery>, now: int)
    ensures Unexpired(a + b, now) == Unexpired(a, now) + Unexpired(b, now)
  {
    if b == [] {
      assert a + b == a;
    } else {
      var n := |b| - 1;
      UnexpiredKeepsOrder(a, b[..n], now);
      assert (a + b)[..|a + b| - 1] == a + b[..n];
    }
  }

  lemma {:induction false} UnexpiredTwice(deliveries: seq<Delivery>, t1: int, t2: int)
    requires t1 <= t2
    ensures Unexpired(Unexpired(deliveries, t1), t2) == Unexpired(deliveries, t2)
  {
    if deliveries != [] {
      var n := |deliveries| - 1;
      UnexpiredTwice(deliveries[..n], t1, t2);
      var last := if deliveries[n].expiresAtMs > t1 then [deliveries[n]] else [];
      UnexpiredKeepsOrder(Unexpired(deliveries[..n], t1), last, t2);
      if last != [] {
        assert last[..0] == [] && Unexpired(last[..0], t2) == [];
      }
    }
  }

  /** Pruning early and again later leaves what pruning once at the later time leaves. */
  lemma PruningTwiceIsPruningOnce(q: Queue, t1: int, t2: int)
    requires t1 <= t2
    ensures Pruned(Pruned(q, t1), t2) == Pruned(q, t2)
  {
    UnexpiredTwice(q.deliveries, t1, t2);
    var p := Pruned(q, t1);
    forall id | id in q.receipts
      ensures id in p.receipts && Retained(p, id, t2) <==> Retained(q, id, t2)
    {
      RetainedTwice(q, id, t1, t2);
    }
    assert Pruned(p, t2).receipts == Pruned(q, t2).receipts;
  }

  lemma RetainedTwice(q: Queue, id: string, t1: int, t2: int)
    requires t1 <= t2 && id in q.receipts
    ensures id in Pruned(q, t1).receipts && Retained(Pruned(q, t1), id, t2) <==> Retained(q, id, t2)
  {
    var p := Pruned(q, t1);
    forall d ensures d in p.deliveries <==> d in q.deliveries && d.expiresAtMs > t1 {
      UnexpiredMembers(q.deliveries, t1, d);
    }
    if id in p.receipts && Abandoned(q.deliveries, id, q.receipts[id], t2) {
      var d :| d in q.deliveries && d.expiresAtMs <= t2 && d.requestId == id && d.deliveryId == q.receipts[id].deliveryId;
      assert d.expiresAtMs > t1;
      assert d in p.deliveries;
    }
  }

  /** Pruning keeps both links, and leaves nothing that has expired. */
  lemma PruningKeepsLinks(q: Queue, now: int)
    ensures Keyed(q) ==> Keyed(Pruned(q, now))
    ensures Linked(q) ==> Linked(Pruned(q, now))
    ensures forall d :: d in Pruned(q, now).deliveries <==> d in q.deliveries && d.expiresAtMs > now
    ensures forall id :: id in Pruned(q, now).receipts ==> Pruned(q, now).receipts[id].expiresAtMs > now
  {
    var p := Pruned(q, now);
    forall d ensures d in p.deliveries <==> d in q.deliveries && d.expiresAtMs > now {
      UnexpiredMembers(q.deliveries, now, d);
    }
    if Linked(q) {
      forall id | id in p.receipts && p.receipts[id].state == Queued
        ensures HasDelivery(p.deliveries, id, p.receipts[id].deliveryId)
      {
        var d :| d in q.deliveries && d.requestId == id && d.deliveryId == q.receipts[id].deliveryId;
        assert d in p.deliveries;
      }
    }
  }

  // ---------------------------------------------------------------- loading receipts

  /** A stored value: an object with possibly missing or mistyped fields, or something else. */
  datatype Raw =
    | NotAnObject
    | Object(
        requestId: Option<string>,
        deliveryId: Option<string>,
        expiresAtMs: Option<int>,
        senderAgentDid: Option<string>,
        recipientAgentDid: Option<string>,
        state: Option<ReceiptState>,
        reason: Option<string>,
        statusUpdatedAt: Option<string>)

  function ReadReceipt(key: string, raw: Raw): Option<Receipt> {
    if raw.NotAnObject? then None
    else if raw.requestId != Some(key) || raw.deliveryId.None? || raw.senderAgentDid.None? then None
    else if raw.recipientAgentDid.None? || raw.expiresAtMs.None? || raw.statusUpdatedAt.None? || raw.state.None? then None
    else
      Some(Receipt(raw.requestId.value, raw.deliveryId.value, raw.expiresAtMs.value, raw.senderAgentDid.value,
                   raw.recipientAgentDid.value, raw.state.value, raw.reason, raw.statusUpdatedAt.value))
  }

  function WriteReceipt(r: Receipt): Raw {
    Object(Some(r.requestId), Some(r.deliveryId), Some(r.expiresAtMs), Some(r.senderAgentDid), Some(r.recipientAgentDid),
           Some(r.state), r.reason, Some(r.statusUpdatedAt))
  }

  /** Keeps exactly the well-formed receipts that are stored under their own request id. */
  method NormalizeReceipts(input: Option<map<string, Raw>>) returns (receipts: map<string, Receipt>)
    ensures input.None? ==> receipts == map[]
    ensures input.Some? ==>
              receipts == map key | key in input.value && ReadReceipt(key, input.value[key]).Some?
                            :: ReadReceipt(key, input.value[key]).value
    ensures Keyed(Queue([], receipts))
    ensures forall q: Queue :: Keyed(q) && input == Some(map id | id in q.receipts :: WriteReceipt(q.receipts[id])) ==>
              receipts == q.receipts
  {
    receipts := map[];
    if input.None? {
      return;
    }
    var raws := input.value;
    var todo := raws.Keys;
    while todo != {}
      invariant todo <= raws.Keys
      invariant receipts == map key | key in raws && key !in todo && ReadReceipt(key, raws[key]).Some?
                              :: ReadReceipt(key, raws[key]).value
      decreases todo
    {
      var key :| key in todo;
      todo := todo - {key};
      var receipt := ReadReceipt(key, raws[key]);
      if receipt.Some? {
        receipts := receipts[key := receipt.value];
      }
    }
  }

  // ---------------------------------------------------------------- waking up

  /** The earliest time at which some delivery may be attempted again, never earlier than the next millisecond. */
  ghost predicate IsNextWake(deliveries: seq<Delivery>, now: int, wake: Option<int>) {
    && (wake.None? <==> deliveries == [])
    && (wake.Some? ==>
          && (exists i :: 0 <= i < |deliveries| && wake.value == Max(now + 1, deliveries[i].nextAttemptAtMs))
          && (forall i :: 0 <= i < |deliveries| ==> wake.value <= Max(now + 1, deliveries[i].nextAttemptAtMs)))
  }

  method FindNextQueueWakeMs(deliveries: seq<Delivery>, now: int) returns (earliest: Option<int>)
    ensures IsNextWake(deliveries, now, earliest)
  {
    earliest := None;
    for i := 0 to |deliveries|
      invariant earliest.None? <==> i == 0
      invariant earliest.Some? ==>
                  exists j :: 0 <= j < i && earliest.value == Max(now + 1, deliveries[j].nextAttemptAtMs)
      invariant earliest.Some? ==>
                  forall j :: 0 <= j < i ==> earliest.value <= Max(now + 1, deliveries[j].nextAttemptAtMs)
    {
      var candidate := Max(now + 1, deliveries[i].nextAttemptAtMs);
      if earliest.None? || candidate < earliest.value {
        earliest := Some(candidate);
      }
    }
  }
}
