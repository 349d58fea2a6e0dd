/** The registry's per-client limiter: the same counting, with a cap on the number of buckets. */
module RegistryRateLimit {
  import opened Outcomes
  import opened FixedWindow
  import Totals
  import opened Text
  import AgentRateLimit

  function ClientIp(header: Option<string>): string {
    if header.Some? && Trim(header.value) != "" then Trim(header.value) else "unknown"
  }

  function BucketKey(bucketKey: string, header: Option<string>): string {
    bucketKey + ":" + ClientIp(header)
  }

  predicate NamesClient(header: Option<string>) {
    header.Some? && Trim(header.value) != "" && Trim(header.value) != "unknown"
  }

  /** Two requests share a bucket exactly when their headers name the same client, spaces aside, or neither names one. */
  lemma ClientsShareABucketExactly(bucketKey: string, a: Option<string>, b: Option<string>)
    ensures BucketKey(bucketKey, a) == BucketKey(bucketKey, b) <==>
            if NamesClient(a) && NamesClient(b) then Trim(a.value) == Trim(b.value)
            else !NamesClient(a) && !NamesClient(b)
  {
    var prefix := bucketKey + ":";
    assert BucketKey(bucketKey, a)[|prefix|..] == ClientIp(a);
    assert BucketKey(bucketKey, b)[|prefix|..] == ClientIp(b);
  }

  ghost predicate IsOldest(buckets: map<string, Bucket>, key: string) {
    key in buckets && forall other :: other in buckets ==> buckets[key].startedAt <= buckets[other].startedAt
  }

  /** Room is made for one more bucket by dropping one with the earliest window, if the cap is reached. */
  ghost predicate MakesRoom(buckets: map<string, Bucket>, maxBuckets: int, room: map<string, Bucket>) {
    if |buckets| >= maxBuckets && buckets != map[] then
      exists key :: IsOldest(buckets, key) && room == buckets - {key}
    else room == buckets
  }

  /** One request: `after` follows `before`, and `admitted` is the decision. */
  ghost predicate Handles(
    limits: Limits, maxBuckets: int, before: map<string, Bucket>, r: Request, after: map<string, Bucket>, admitted: bool)
  {
    var swept := Sweep(before, r.now, limits.windowMs);
    && (r.key in swept ==> admitted == Admits(swept, r, limits) && after == Counted(swept, r, limits))
    && (r.key !in swept ==>
          admitted && exists room :: MakesRoom(swept, maxBuckets, room) && after == room[r.key := Bucket(r.now, 1)])
  }

  // ---------------------------------------------------------------- the table with the order of its entries

  /** A map remembers the order in which its keys were inserted. */
  datatype Table = Table(order: seq<string>, buckets: map<string, Bucket>)

  ghost predicate Ordered(t: Table) {
    && (forall key :: key in t.order <==> key in t.buckets)
    && (forall i, j :: 0 <= i < j < |t.order| ==> t.order[i] != t.order[j])
  }

  /** The keys that still have a bucket, in their order. */
  function Present(order: seq<string>, buckets: map<string, Bucket>): seq<string> {
    if order == [] then []
    else
      var n := |order| - 1;
      Present(order[..n], buckets) + if order[n] in buckets then [order[n]] else []
  }

  /** The first inserted of the keys with the earliest window. */
  ghost predicate IsFirstOldest(t: Table, i: nat) {
    && i < |t.order| && IsOldest(t.buckets, t.order[i])
    && forall j :: 0 <= j < i && t.order[j] in t.buckets ==>
         t.buckets[t.order[j]].startedAt > t.buckets[t.order[i]].startedAt
  }

  function WithoutEntry(t: Table, i: nat): Table
    requires i < |t.order|
  {
    Table(t.order[..i] + t.order[i + 1..], t.buckets - {t.order[i]})
  }

  ghost predicate Evicts(t: Table, maxBuckets: int, room: Table) {
    if |t.buckets| >= maxBuckets && t.buckets != map[] then
      exists i :: IsFirstOldest(t, i) && room == WithoutEntry(t, i)
    else room == t
  }

  function Appended(t: Table, key: string, b: Bucket): Table {
    Table(t.order + [key], t.buckets[key := b])
  }

  function SweptTable(t: Table, now: int, windowMs: int): Table {
    var swept := Sweep(t.buckets, now, windowMs);
    Table(Present(t.order, swept), swept)
  }

  /** One request, with the order of the entries. */
  ghost predicate HandlesTable(limits: Limits, maxBuckets: int, before: Table, r: Request, after: Table, admitted: bool) {
    var swept := SweptTable(before, r.now, limits.windowMs);
    if r.key in swept.buckets then
      admitted == Admits(swept.buckets, r, limits) && after == swept.(buckets := Counted(swept.buckets, r, limits))
    else
      admitted && exists room :: Evicts(swept, maxBuckets, room) && after == Appended(room, r.key, Bucket(r.now, 1))
  }

  lemma {:induction false} PresentKeepsOrder(order: seq<string>, buckets: map<string, Bucket>)
    requires forall i, j :: 0 <= i < j < |order| ==> order[i] != order[j]
    ensures var present := Present(order, buckets);
            && (forall key :: key in present <==> key in order && key in buckets)
            && (forall i, j :: 0 <= i < j < |present| ==> present[i] != present[j])
  {
    if order != [] {
      var n := |order| - 1;
      PresentKeepsOrder(order[..n], buckets);
      assert order == order[..n] + [order[n]];
      assert order[n] !in order[..n];
    }
  }

  lemma SweptIsOrdered(t: Table, now: int, windowMs: int)
    requires Ordered(t)
    ensures Ordered(SweptTable(t, now, windowMs))
  {
    PresentKeepsOrder(t.order, Sweep(t.buckets, now, windowMs));
  }

  lemma EvictingIsOrdered(t: Table, i: nat)
    requires Ordered(t) && i < |t.order|
    ensures Ordered(WithoutEntry(t, i))
  {
    var u := WithoutEntry(t, i);
    forall key ensures key in u.order <==> key in t.order && key != t.order[i] {
      if key in t.order && key != t.order[i] {
        var k :| 0 <= k < |t.order| && t.order[k] == key;
        assert u.order[if k < i then k else k - 1] == key;
      }
    }
  }

  lemma RoomIsOrdered(t: Table, maxBuckets: int, room: Table)
    requires Ordered(t) && Evicts(t, maxBuckets, room)
    ensures Ordered(room) && MakesRoom(t.buckets, maxBuckets, room.buckets)
    ensures forall key :: key in room.buckets ==> key in t.buckets
  {
    if |t.buckets| >= maxBuckets && t.buckets != map[] {
      var i: nat :| IsFirstOldest(t, i) && room == WithoutEntry(t, i);
      EvictingIsOrdered(t, i);
      assert IsOldest(t.buckets, t.order[i]) && room.buckets == t.buckets - {t.order[i]};
    }
  }

  lemma AppendingIsOrdered(t: Table, key: string, b: Bucket)
    requires Ordered(t) && key !in t.buckets
    ensures Ordered(Appended(t, key, b))
  {
  }

  lemma CountingIsOrdered(t: Table, r: Request, limits: Limits)
    requires Ordered(t) && r.key in t.buckets
    ensures Ordered(t.(buckets := Counted(t.buckets, r, limits)))
  {
    assert Counted(t.buckets, r, limits).Keys == t.buckets.Keys;
  }

  lemma HandlingIsOrdered(limits: Limits, maxBuckets: int, before: Table, r: Request, after: Table, admitted: bool)
    requires Ordered(before) && HandlesTable(limits, maxBuckets, before, r, after, admitted)
    ensures Ordered(after)
    ensures Handles(limits, maxBuckets, before.buckets, r, after.buckets, admitted)
  {
    var swept := SweptTable(before, r.now, limits.windowMs);
    SweptIsOrdered(before, r.now, limits.windowMs);
    if r.key in swept.buckets {
      CountingIsOrdered(swept, r, limits);
    } else {
      var room :| Evicts(swept, maxBuckets, room) && after == Appended(room, r.key, Bucket(r.now, 1));
      RoomIsOrdered(swept, maxBuckets, room);
      AppendingIsOrdered(room, r.key, Bucket(r.now, 1));
    }
  }

  class RegistryRateLimiter {
    const limits: Limits
    const maxBuckets: int
    const bucketKey: string
    var buckets: map<string, Bucket>
    var order: seq<string>

    ghost function View(): Table
      reads this
    {
      Table(order, buckets)
    }

    constructor (limits: Limits, maxBuckets: int, bucketKey: string)
      ensures this.limits == limits && this.maxBuckets == maxBuckets && this.bucketKey == bucketKey
      ensures View() == Table([], map[])
    {
      this.limits, this.maxBuckets, this.bucketKey := limits, maxBuckets, bucketKey;
      buckets, order := map[], [];
    }

    method EvictOldest()
      requires Ordered(View())
      modifies this
      ensures Ordered(View())
      ensures old(buckets) == map[] ==> View() == old(View())
      ensures old(buckets) != map[] ==> exists i :: IsFirstOldest(old(View()), i) && View() == WithoutEntry(old(View()), i)
    {
      if |order| == 0 {
        return;
      }
      var oldest := 0;
      for i := 1 to |order|
        invariant 0 <= oldest < i
        invariant forall j :: 0 <= j < i ==> buckets[order[oldest]].startedAt <= buckets[order[j]].startedAt
        invariant forall j :: 0 <= j < oldest ==> buckets[order[oldest]].startedAt < buckets[order[j]].startedAt
      {
        if buckets[order[i]].startedAt < buckets[order[oldest]].startedAt {
          oldest := i;
        }
      }
      EvictingIsOrdered(View(), oldest);
      assert IsFirstOldest(View(), oldest);
      var key := order[oldest];
      order := order[..oldest] + order[oldest + 1..];
      buckets := buckets - {key};
    }

    /** The pass over all entries. */
    method SweepEntries(now: int)
      requires Ordered(View())
      modifies this
      ensures View() == SweptTable(old(View()), now, limits.windowMs) && Ordered(View())
    {
      SweptIsOrdered(View(), now, limits.windowMs);
      buckets := AgentRateLimit.SweepBuckets(buckets, now, limits.windowMs);
      order := Present(order, buckets);
    }

    method EvictIfFull()
      requires Ordered(View())
      modifies this
      ensures Evicts(old(View()), maxBuckets, View()) && Ordered(View())
    {
      if |buckets| >= maxBuckets {
        EvictOldest();
      }
    }

    method Handle(header: Option<string>, now: int) returns (admitted: bool)
      requires Ordered(View())
      modifies this
      ensures Ordered(View())
      ensures HandlesTable(limits, maxBuckets, old(View()), Request(BucketKey(bucketKey, header), now), View(), admitted)
    {
      SweepEntries(now);
      ghost var swept := View();
      var key := BucketKey(bucketKey, header);
      ghost var r := Request(key, now);
      if key !in buckets || now - buckets[key].startedAt >= limits.windowMs {
        if key !in buckets {
          EvictIfFull();
          order := order + [key];
        }
        buckets := buckets[key := Bucket(now, 1)];
        admitted := true;
      } else if buckets[key].count >= limits.maxRequests {
        admitted := false;
      } else {
        buckets := buckets[key := buckets[key].(count := buckets[key].count + 1)];
        admitted := true;
      }
      if r.key in swept.buckets {
        assert View() == swept.(buckets := Counted(swept.buckets, r, limits));
      }
      HandlingIsOrdered(limits, maxBuckets, old(View()), r, View(), admitted);
    }
  }

  // ---------------------------------------------------------------- whole runs

  /** `states[i]` are the buckets before request `i`, and `admitted[i]` is the decision about it. */
  ghost predicate IsTrace(
    limits: Limits, maxBuckets: int, requests: seq<Request>, states: seq<map<string, Bucket>>, admitted: seq<bool>)
  {
    && |states| == |requests| + 1 && |admitted| == |requests| && states[0] == map[]
    && forall i :: 0 <= i < |requests| ==>
         Handles(limits, maxBuckets, states[i], requests[i], states[i + 1], admitted[i])
  }

  lemma SweepShrinks(buckets: map<string, Bucket>, now: int, windowMs: int)
    ensures |Sweep(buckets, now, windowMs)| <= |buckets|
  {
    var swept := Sweep(buckets, now, windowMs);
    assert swept.Keys <= buckets.Keys;
    Totals.SubsetSize(swept.Keys, buckets.Keys);
    assert |swept| == |swept.Keys| && |buckets| == |buckets.Keys|;
  }

  lemma InsertSize(m: map<string, Bucket>, key: string, b: Bucket)
    ensures |m[key := b]| == |m| + if key in m then 0 else 1
  {
  }

  lemma HandlesSize(
    limits: Limits, maxBuckets: int, before: map<string, Bucket>, r: Request, after: map<string, Bucket>, admitted: bool)
    requires Handles(limits, maxBuckets, before, r, after, admitted)
    requires |before| <= if maxBuckets > 1 then maxBuckets else 1
    ensures 1 <= |after| <= if maxBuckets > 1 then maxBuckets else 1
  {
    var swept := Sweep(before, r.now, limits.windowMs);
    SweepShrinks(before, r.now, limits.windowMs);
    if r.key in swept {
      InsertSize(swept, r.key, Bucket(r.now, 1));
      InsertSize(swept, r.key, swept[r.key].(count := swept[r.key].count + 1));
      assert swept != map[];
    } else {
      var room :| MakesRoom(swept, maxBuckets, room) && after == room[r.key := Bucket(r.now, 1)];
      InsertSize(room, r.key, Bucket(r.now, 1));
      if |swept| >= maxBuckets && swept != map[] {
        var key :| IsOldest(swept, key) && room == swept - {key};
        assert room.Keys == swept.Keys - {key};
        assert |room| == |room.Keys| && |swept| == |swept.Keys|;
      }
    }
  }

  /** After every request the table is non-empty and holds at most the cap, or one bucket if the cap is below one. */
  lemma {:induction false} TableSize(
    limits: Limits, maxBuckets: int, requests: seq<Request>, states: seq<map<string, Bucket>>, admitted: seq<bool>, n: nat)
    requires IsTrace(limits, maxBuckets, requests, states, admitted) && n <= |requests|
    ensures |states[n]| <= if maxBuckets > 1 then maxBuckets else 1
    ensures n > 0 ==> |states[n]| >= 1
  {
    if n > 0 {
      TableSize(limits, maxBuckets, requests, states, admitted, n - 1);
      assert Handles(limits, maxBuckets, states[n - 1], requests[n - 1], states[n], admitted[n - 1]);
      HandlesSize(limits, maxBuckets, states[n - 1], requests[n - 1], states[n], admitted[n - 1]);
    }
  }

  /** After a request the table holds open windows only. */
  lemma {:induction false} OnlyOpenWindowsAreInTable(
    limits: Limits, maxBuckets: int, requests: seq<Request>, states: seq<map<string, Bucket>>, admitted: seq<bool>,
    n: nat, key: string)
    requires IsTrace(limits, maxBuckets, requests, states, admitted) && 0 < n <= |requests| && limits.windowMs > 0
    requires key in states[n]
    ensures requests[n - 1].now - states[n][key].startedAt < limits.windowMs
  {
    assert Handles(limits, maxBuckets, states[n - 1], requests[n - 1], states[n], admitted[n - 1]);
  }

  /** A run with at least one request stays within the cap throughout exactly when the cap is at least one. */
  lemma CapHoldsExactlyWhenPositive(
    limits: Limits, maxBuckets: int, requests: seq<Request>, states: seq<map<string, Bucket>>, admitted: seq<bool>)
    requires IsTrace(limits, maxBuckets, requests, states, admitted) && requests != []
    ensures (forall n :: 0 <= n < |states| ==> |states[n]| <= maxBuckets) <==> maxBuckets >= 1
  {
    TableSize(limits, maxBuckets, requests, states, admitted, 1);
    forall n | 0 <= n < |states| ensures |states[n]| <= if maxBuckets > 1 then maxBuckets else 1 {
      TableSize(limits, maxBuckets, requests, states, admitted, n);
    }
    assert |states[1]| >= 1;
  }

  /** Request `i` and the open windows before it fit the cap, in the limiter that never evicts. */
  ghost predicate FitsCap(limits: Limits, maxBuckets: int, requests: seq<Request>, i: nat)
    requires i < |requests|
  {
    var live := Sweep(After(true, limits, requests, i), requests[i].now, limits.windowMs);
    requests[i].key in live || |live| < maxBuckets
  }

  /** While the open windows fit the cap, the table and the decisions are those of the limiter that never evicts. */
  lemma {:induction false} NoEvictionWhileKeysFit(
    limits: Limits, maxBuckets: int, requests: seq<Request>, states: seq<map<string, Bucket>>, admitted: seq<bool>, n: nat)
    requires IsTrace(limits, maxBuckets, requests, states, admitted) && n <= |requests|
    requires forall i :: 0 <= i < n ==> FitsCap(limits, maxBuckets, requests, i)
    ensures states[n] == After(true, limits, requests, n)
    ensures n > 0 ==> admitted[n - 1] == Admitted(true, limits, requests, n - 1)
  {
    if n > 0 {
      NoEvictionWhileKeysFit(limits, maxBuckets, requests, states, admitted, n - 1);
      assert Handles(limits, maxBuckets, states[n - 1], requests[n - 1], states[n], admitted[n - 1]);
      assert FitsCap(limits, maxBuckets, requests, n - 1);
    }
  }

  // ---------------------------------------------------------------- which bucket goes

  /** The keys stand in the order of their windows. */
  ghost predicate InOrder(order: seq<string>, buckets: map<string, Bucket>) {
    && (forall i :: 0 <= i < |order| ==> order[i] in buckets)
    && (forall i, j :: 0 <= i < j < |order| ==> buckets[order[i]].startedAt <= buckets[order[j]].startedAt)
  }

  ghost predicate SortedByStart(t: Table, now: int) {
    InOrder(t.order, t.buckets) && forall key :: key in t.buckets ==> t.buckets[key].startedAt <= now
  }

  lemma SortedFirstIsOldest(t: Table, now: int, i: nat)
    requires SortedByStart(t, now) && IsFirstOldest(t, i)
    ensures i == 0
  {
    assert t.order[0] in t.buckets;
  }

  lemma {:induction false} PresentIsSorted(order: seq<string>, buckets: map<string, Bucket>, swept: map<string, Bucket>)
    requires InOrder(order, buckets) && forall key :: key in swept ==> key in buckets && swept[key] == buckets[key]
    ensures InOrder(Present(order, swept), swept)
    ensures forall key :: key in Present(order, swept) ==> key in order
  {
    if order != [] {
      var n := |order| - 1;
      PresentIsSorted(order[..n], buckets, swept);
      var present := Present(order[..n], swept);
      forall k | 0 <= k < |present|
        ensures present[k] in buckets && buckets[present[k]].startedAt <= buckets[order[n]].startedAt
      {
        assert present[k] in order[..n];
        var m :| 0 <= m < n && order[m] == present[k];
      }
    }
  }

  lemma SweptIsSorted(t: Table, before: int, now: int, windowMs: int)
    requires SortedByStart(t, before) && before <= now
    ensures SortedByStart(SweptTable(t, now, windowMs), now)
  {
    PresentIsSorted(t.order, t.buckets, Sweep(t.buckets, now, windowMs));
  }

  lemma EvictingIsSorted(t: Table, now: int, i: nat)
    requires Ordered(t) && SortedByStart(t, now) && i < |t.order|
    ensures SortedByStart(WithoutEntry(t, i), now)
  {
    var u := WithoutEntry(t, i);
    forall k | 0 <= k < |u.order| ensures u.order[k] == t.order[if k < i then k else k + 1] && u.order[k] in u.buckets {
    }
  }

  lemma AppendingIsSorted(t: Table, now: int, key: string)
    requires SortedByStart(t, now) && key !in t.buckets
    ensures SortedByStart(Appended(t, key, Bucket(now, 1)), now)
  {
  }

  lemma CountingIsSorted(t: Table, r: Request, limits: Limits)
    requires SortedByStart(t, r.now) && r.key in t.buckets && !IsOver(t.buckets[r.key], r.now, limits.windowMs)
    ensures SortedByStart(t.(buckets := Counted(t.buckets, r, limits)), r.now)
  {
  }

  lemma HandlingIsSorted(
    limits: Limits, maxBuckets: int, before: Table, time: int, r: Request, after: Table, admitted: bool)
    requires Ordered(before) && SortedByStart(before, time) && time <= r.now
    requires HandlesTable(limits, maxBuckets, before, r, after, admitted)
    ensures SortedByStart(after, r.now)
  {
    var swept := SweptTable(before, r.now, limits.windowMs);
    SweptIsOrdered(before, r.now, limits.windowMs);
    SweptIsSorted(before, time, r.now, limits.windowMs);
    if r.key in swept.buckets {
      CountingIsSorted(swept, r, limits);
    } else {
      var room :| Evicts(swept, maxBuckets, room) && after == Appended(room, r.key, Bucket(r.now, 1));
      RoomIsSorted(swept, maxBuckets, r.now, room);
      AppendingIsSorted(room, r.now, r.key);
    }
  }

  lemma RoomIsSorted(t: Table, maxBuckets: int, now: int, room: Table)
    requires Ordered(t) && SortedByStart(t, now) && Evicts(t, maxBuckets, room)
    ensures SortedByStart(room, now) && forall key :: key in room.buckets ==> key in t.buckets
  {
    if |t.buckets| >= maxBuckets && t.buckets != map[] {
      var i: nat :| IsFirstOldest(t, i) && room == WithoutEntry(t, i);
      EvictingIsSorted(t, now, i);
    }
  }

  lemma RoomIsMadeInFront(t: Table, maxBuckets: int, now: int, room: Table)
    requires SortedByStart(t, now) && Evicts(t, maxBuckets, room)
    requires |t.buckets| >= maxBuckets && t.buckets != map[]
    ensures t.order != [] && room == WithoutEntry(t, 0)
  {
    var i: nat :| IsFirstOldest(t, i) && room == WithoutEntry(t, i);
    SortedFirstIsOldest(t, now, i);
  }

  /** `states[i]` is the table before request `i`. */
  ghost predicate IsTableTrace(
    limits: Limits, maxBuckets: int, requests: seq<Request>, states: seq<Table>, admitted: seq<bool>)
  {
    && |states| == |requests| + 1 && |admitted| == |requests| && states[0] == Table([], map[])
    && forall i :: 0 <= i < |requests| ==>
         HandlesTable(limits, maxBuckets, states[i], requests[i], states[i + 1], admitted[i])
  }

  lemma {:induction false} TablesAreSorted(
    limits: Limits, maxBuckets: int, requests: seq<Request>, states: seq<Table>, admitted: seq<bool>, n: nat)
    requires IsTableTrace(limits, maxBuckets, requests, states, admitted) && Monotone(requests) && n < |requests|
    ensures Ordered(states[n]) && SortedByStart(states[n], requests[n].now)
  {
    if n > 0 {
      TablesAreSorted(limits, maxBuckets, requests, states, admitted, n - 1);
      HandlingIsOrdered(limits, maxBuckets, states[n - 1], requests[n - 1], states[n], admitted[n - 1]);
      HandlingIsSorted(limits, maxBuckets, states[n - 1], requests[n - 1].now, requests[n - 1], states[n], admitted[n - 1]);
      assert requests[n - 1].now <= requests[n].now;
    }
  }

  /** Under a monotone clock eviction is first in, first out: a new key's bucket replaces the one inserted longest ago. */
  lemma {:induction false} EvictionIsFirstInFirstOut(
    limits: Limits, maxBuckets: int, requests: seq<Request>, states: seq<Table>, admitted: seq<bool>, n: nat)
    requires IsTableTrace(limits, maxBuckets, requests, states, admitted) && Monotone(requests) && n < |requests|
    ensures var swept, r := SweptTable(states[n], requests[n].now, limits.windowMs), requests[n];
            r.key !in swept.buckets && |swept.buckets| >= maxBuckets && swept.buckets != map[] ==>
              swept.order != [] && states[n + 1] == Appended(WithoutEntry(swept, 0), r.key, Bucket(r.now, 1))
  {
    TablesAreSorted(limits, maxBuckets, requests, states, admitted, n);
    assert HandlesTable(limits, maxBuckets, states[n], requests[n], states[n + 1], admitted[n]);
    NewKeyReplacesFirst(limits, maxBuckets, states[n], requests[n], states[n + 1], admitted[n]);
  }

  lemma NewKeyReplacesFirst(limits: Limits, maxBuckets: int, before: Table, r: Request, after: Table, admitted: bool)
    requires Ordered(before) && SortedByStart(before, r.now)
    requires HandlesTable(limits, maxBuckets, before, r, after, admitted)
    ensures var swept := SweptTable(before, r.now, limits.windowMs);
            r.key !in swept.buckets && |swept.buckets| >= maxBuckets && swept.buckets != map[] ==>
              swept.order != [] && after == Appended(WithoutEntry(swept, 0), r.key, Bucket(r.now, 1))
  {
    var swept := SweptTable(before, r.now, limits.windowMs);
    SweptIsSorted(before, r.now, r.now, limits.windowMs);
    if r.key !in swept.buckets && |swept.buckets| >= maxBuckets && swept.buckets != map[] {
      var room :| Evicts(swept, maxBuckets, room) && after == Appended(room, r.key, Bucket(r.now, 1));
      RoomIsMadeInFront(swept, maxBuckets, r.now, room);
    }
  }

  /** Tables with their order make the runs that the properties above are about. */
  lemma {:induction false} TableTraceIsTrace(
    limits: Limits, maxBuckets: int, requests: seq<Request>, states: seq<Table>, admitted: seq<bool>)
    requires IsTableTrace(limits, maxBuckets, requests, states, admitted)
    ensures IsTrace(limits, maxBuckets, requests, seq(|states|, i requires 0 <= i < |states| => states[i].buckets), admitted)
  {
    forall i: nat | i < |requests|
      ensures Handles(limits, maxBuckets, states[i].buckets, requests[i], states[i + 1].buckets, admitted[i])
    {
      TablesAreOrdered(limits, maxBuckets, requests, states, admitted, i);
      HandlingIsOrdered(limits, maxBuckets, states[i], requests[i], states[i + 1], admitted[i]);
    }
  }

  lemma {:induction false} TablesAreOrdered(
    limits: Limits, maxBuckets: int, requests: seq<Request>, states: seq<Table>, admitted: seq<bool>, n: nat)
    requires IsTableTrace(limits, maxBuckets, requests, states, admitted) && n < |states|
    ensures Ordered(states[n])
  {
    if n > 0 {
      TablesAreOrdered(limits, maxBuckets, requests, states, admitted, n - 1);
      HandlingIsOrdered(limits, maxBuckets, states[n - 1], requests[n - 1], states[n], admitted[n - 1]);
    }
  }
}
