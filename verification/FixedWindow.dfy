/** Counting requests in fixed windows, as both rate limiters do, and what that counting admits over whole runs. */
module FixedWindow {

  /** A window opens with its first request, which it counts. */
  datatype Bucket = Bucket(startedAt: int, count: nat)

  datatype Limits = Limits(windowMs: int, maxRequests: int)

  datatype Request = Request(key: string, now: int)

  predicate IsOver(b: Bucket, now: int, windowMs: int) {
    now - b.startedAt >= windowMs
  }

  function Sweep(buckets: map<string, Bucket>, now: int, windowMs: int): map<string, Bucket> {
    map key | key in buckets && !IsOver(buckets[key], now, windowMs) :: buckets[key]
  }

  predicate Opens(buckets: map<string, Bucket>, r: Request, limits: Limits) {
    r.key !in buckets || IsOver(buckets[r.key], r.now, limits.windowMs)
  }

  predicate Admits(buckets: map<string, Bucket>, r: Request, limits: Limits) {
    Opens(buckets, r, limits) || buckets[r.key].count < limits.maxRequests
  }

  function Counted(buckets: map<string, Bucket>, r: Request, limits: Limits): map<string, Bucket> {
    if Opens(buckets, r, limits) then buckets[r.key := Bucket(r.now, 1)]
    else if buckets[r.key].count < limits.maxRequests then
      buckets[r.key := buckets[r.key].(count := buckets[r.key].count + 1)]
    else buckets
  }

  function MaybeSweep(sweeps: bool, buckets: map<string, Bucket>, now: int, windowMs: int): map<string, Bucket> {
    if sweeps then Sweep(buckets, now, windowMs) else buckets
  }

  /** The buckets after the first `n` requests, with or without sweeping closed windows at each request. */
  function After(sweeps: bool, limits: Limits, requests: seq<Request>, n: nat): map<string, Bucket>
    requires n <= |requests|
  {
    if n == 0 then map[]
    else
      var r := requests[n - 1];
      Counted(MaybeSweep(sweeps, After(sweeps, limits, requests, n - 1), r.now, limits.windowMs), r, limits)
  }

  predicate Admitted(sweeps: bool, limits: Limits, requests: seq<Request>, i: nat)
    requires i < |requests|
  {
    Admits(MaybeSweep(sweeps, After(sweeps, limits, requests, i), requests[i].now, limits.windowMs), requests[i], limits)
  }

  ghost predicate Monotone(requests: seq<Request>) {
    forall i, j :: 0 <= i < j < |requests| ==> requests[i].now <= requests[j].now
  }

  // ---------------------------------------------------------------- sweeping changes no decision

  ghost predicate Trails(swept: map<string, Bucket>, unswept: map<string, Bucket>, now: int, windowMs: int) {
    && (forall key :: key in swept ==> key in unswept && swept[key] == unswept[key])
    && (forall key :: key in unswept && key !in swept ==> IsOver(unswept[key], now, windowMs))
  }

  lemma CountedTrails(swept: map<string, Bucket>, unswept: map<string, Bucket>, before: int, r: Request, limits: Limits)
    requires Trails(swept, unswept, before, limits.windowMs) && before <= r.now
    ensures var s := Sweep(swept, r.now, limits.windowMs);
            && (Admits(s, r, limits) <==> Admits(unswept, r, limits))
            && Trails(Counted(s, r, limits), Counted(unswept, r, limits), r.now, limits.windowMs)
  {
  }

  lemma {:induction false} SweptTrailsUnswept(limits: Limits, requests: seq<Request>, n: nat)
    requires Monotone(requests) && n <= |requests|
    ensures Trails(After(true, limits, requests, n), After(false, limits, requests, n),
                   if n == 0 then 0 else requests[n - 1].now, limits.windowMs)
  {
    if n > 0 {
      var swept, unswept := After(true, limits, requests, n - 1), After(false, limits, requests, n - 1);
      SweptTrailsUnswept(limits, requests, n - 1);
      var before := if n == 1 then requests[0].now else requests[n - 2].now;
      assert Trails(swept, unswept, before, limits.windowMs);
      CountedTrails(swept, unswept, before, requests[n - 1], limits);
    }
  }

  /** Under a monotone clock a limiter that sweeps closed windows decides every request like one that never does. */
  lemma SweepChangesNoDecision(limits: Limits, requests: seq<Request>, i: nat)
    requires Monotone(requests) && i < |requests|
    ensures Admitted(true, limits, requests, i) <==> Admitted(false, limits, requests, i)
  {
    SweptTrailsUnswept(limits, requests, i);
    var swept, unswept := After(true, limits, requests, i), After(false, limits, requests, i);
    var before := if i == 0 then requests[0].now else requests[i - 1].now;
    assert Trails(swept, unswept, before, limits.windowMs);
    CountedTrails(swept, unswept, before, requests[i], limits);
  }

  /** After a request the swept table holds open windows only. */
  lemma {:induction false} OnlyOpenWindowsAreKept(limits: Limits, requests: seq<Request>, n: nat, key: string)
    requires 0 < n <= |requests| && limits.windowMs > 0 && key in After(true, limits, requests, n)
    ensures requests[n - 1].now - After(true, limits, requests, n)[key].startedAt < limits.windowMs
  {
    var r := requests[n - 1];
    assert After(true, limits, requests, n)
           == Counted(Sweep(After(true, limits, requests, n - 1), r.now, limits.windowMs), r, limits);
  }

  // ---------------------------------------------------------------- how many requests get through

  function Ceiling(limits: Limits): nat {
    if limits.maxRequests > 1 then limits.maxRequests else 1
  }

  /** What an older window can add: its first request came before the interval, and a window of 1 is over at once. */
  function Carried(limits: Limits): nat {
    if limits.windowMs > 1 then Ceiling(limits) - 1 else 0
  }

  /** How many of the first `n` requests of `key` were admitted at a time in [from, from + window). */
  function AdmittedIn(limits: Limits, requests: seq<Request>, key: string, from: int, n: nat): nat
    requires n <= |requests|
  {
    if n == 0 then 0
    else
      var r := requests[n - 1];
      AdmittedIn(limits, requests, key, from, n - 1) +
      if r.key == key && from <= r.now < from + limits.windowMs && Admitted(true, limits, requests, n - 1) then 1 else 0
  }

  /** How the current window of `key` bounds what was admitted since `from`. */
  ghost predicate Bounded(limits: Limits, requests: seq<Request>, key: string, from: int, n: nat)
    requires n <= |requests|
  {
    var buckets, admitted := After(false, limits, requests, n), AdmittedIn(limits, requests, key, from, n);
    && (n > 0 && requests[n - 1].now < from ==> admitted == 0)
    && (key !in buckets ==> admitted == 0)
    && (key in buckets ==>
          var w, c := buckets[key].startedAt, buckets[key].count;
          && n > 0 && w <= requests[n - 1].now && 1 <= c <= Ceiling(limits)
          && (w < from ==> admitted <= c - 1)
          && (from <= w < from + limits.windowMs ==> admitted <= Carried(limits) + c)
          && (from + limits.windowMs <= w ==> admitted <= Carried(limits) + Ceiling(limits))
          && (from >= w + limits.windowMs ==> admitted == 0)
          && (from == w ==> admitted == c))
  }

  lemma {:induction false} WindowsBoundAdmissions(limits: Limits, requests: seq<Request>, key: string, from: int, n: nat)
    requires Monotone(requests) && n <= |requests| && limits.windowMs > 0
    ensures Bounded(limits, requests, key, from, n)
  {
    if n > 0 {
      WindowsBoundAdmissions(limits, requests, key, from, n - 1);
      SweepChangesNoDecision(limits, requests, n - 1);
      assert n > 1 ==> requests[n - 2].now <= requests[n - 1].now;
    }
  }

  /** In any half-open interval of one window's length fewer than twice the limit are admitted per key. */
  lemma LessThanTwiceTheLimitPerWindow(limits: Limits, requests: seq<Request>, key: string, from: int)
    requires Monotone(requests) && limits.windowMs > 0
    ensures AdmittedIn(limits, requests, key, from, |requests|) <= Carried(limits) + Ceiling(limits)
    ensures Carried(limits) + Ceiling(limits) == if limits.windowMs > 1 then 2 * Ceiling(limits) - 1 else Ceiling(limits)
  {
    WindowsBoundAdmissions(limits, requests, key, from, |requests|);
  }

  /** One request at 0, the rest of the limit at the end of its window, and the whole limit at the start of the next. */
  function Burst(limits: Limits, key: string): seq<Request> {
    var c := Ceiling(limits);
    seq(2 * c, i => Request(key, if i == 0 then 0 else if i < c then limits.windowMs - 1 else limits.windowMs))
  }

  lemma {:induction false} BurstCounts(limits: Limits, key: string, n: nat)
    requires limits.windowMs > 1 && 1 <= n <= 2 * Ceiling(limits)
    ensures var c := Ceiling(limits);
            After(true, limits, Burst(limits, key), n)
            == map[key := if n <= c then Bucket(0, n) else Bucket(limits.windowMs, n - c)]
    ensures AdmittedIn(limits, Burst(limits, key), key, 1, n) == n - 1
  {
    var requests, c := Burst(limits, key), Ceiling(limits);
    if n == 1 {
      assert After(true, limits, requests, 0) == map[] && Sweep(map[], 0, limits.windowMs) == map[];
    } else {
      BurstCounts(limits, key, n - 1);
      BurstStep(limits, key, n - 1);
    }
  }

  lemma BurstStep(limits: Limits, key: string, n: nat)
    requires limits.windowMs > 1 && 1 <= n < 2 * Ceiling(limits)
    ensures var c, r := Ceiling(limits), Burst(limits, key)[n];
            var swept := Sweep(map[key := if n <= c then Bucket(0, n) else Bucket(limits.windowMs, n - c)], r.now,
                               limits.windowMs);
            && Admits(swept, r, limits)
            && Counted(swept, r, limits)
               == map[key := if n < c then Bucket(0, n + 1) else Bucket(limits.windowMs, n + 1 - c)]
  {
  }

  /** For windows longer than 1 the bound is attained, by a burst around the change of windows. */
  lemma {:induction false} MostIsAdmitted(limits: Limits, key: string) returns (requests: seq<Request>, from: int)
    requires limits.windowMs > 1
    ensures Monotone(requests)
    ensures AdmittedIn(limits, requests, key, from, |requests|) == 2 * Ceiling(limits) - 1
  {
    requests, from := Burst(limits, key), 1;
    BurstCounts(limits, key, 2 * Ceiling(limits));
  }

  /** A request is turned away only after the limit was used up less than one window before it. */
  lemma RejectedOnlyWhenUsedUp(limits: Limits, requests: seq<Request>, i: nat) returns (from: int)
    requires Monotone(requests) && limits.windowMs > 0
    requires i < |requests| && !Admitted(true, limits, requests, i)
    ensures requests[i].now - limits.windowMs < from <= requests[i].now
    ensures AdmittedIn(limits, requests, requests[i].key, from, i) >= Ceiling(limits)
  {
    SweepChangesNoDecision(limits, requests, i);
    from := After(false, limits, requests, i)[requests[i].key].startedAt;
    WindowsBoundAdmissions(limits, requests, requests[i].key, from, i);
    assert i > 0 && requests[i - 1].now <= requests[i].now;
  }
}
