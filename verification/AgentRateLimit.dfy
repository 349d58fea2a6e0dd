/** The proxy's per-agent limiter. */
module AgentRateLimit {
  import opened Outcomes
  import opened FixedWindow

  /** One pass over the buckets that deletes those whose window is over. */
  method SweepBuckets(buckets: map<string, Bucket>, now: int, windowMs: int) returns (kept: map<string, Bucket>)
    ensures kept == Sweep(buckets, now, windowMs)
  {
    kept := buckets;
    var todo := buckets.Keys;
    while todo != {}
      invariant todo <= buckets.Keys
      invariant kept == map key | key in buckets && (key in todo || !IsOver(buckets[key], now, windowMs)) :: buckets[key]
      decreases todo
    {
      var key :| key in todo;
      todo := todo - {key};
      if now - buckets[key].startedAt >= windowMs {
        kept := kept - {key};
      }
    }
  }

  class AgentRateLimiter {
    const limits: Limits
    var buckets: map<string, Bucket>

    constructor (limits: Limits)
      ensures this.limits == limits && buckets == map[]
    {
      this.limits := limits;
      buckets := map[];
    }

    /** Health checks and requests without an authenticated agent pass uncounted. */
    method Handle(path: string, agentDid: Option<string>, now: int) returns (admitted: bool)
      modifies this
      ensures path == "/health" || agentDid.None? ==> admitted && buckets == old(buckets)
      ensures path != "/health" && agentDid.Some? ==>
                var r := Request(agentDid.value, now);
                var swept := Sweep(old(buckets), now, limits.windowMs);
                admitted == Admits(swept, r, limits) && buckets == Counted(swept, r, limits)
    {
      if path == "/health" || agentDid.None? {
        return true;
      }
      buckets := SweepBuckets(buckets, now, limits.windowMs);
      var key := agentDid.value;
      if key !in buckets || now - buckets[key].startedAt >= limits.windowMs {
        buckets := buckets[key := Bucket(now, 1)];
        return true;
      }
      var existing := buckets[key];
      if existing.count >= limits.maxRequests {
        return false;
      }
      buckets := buckets[key := existing.(count := existing.count + 1)];
      admitted := true;
    }
  }
}
