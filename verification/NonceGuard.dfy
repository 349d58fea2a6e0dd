/** The nonce replay guard: one record per agent and nonce until it expires, and an alarm that clears old records. */
module NonceGuard {
  import opened Outcomes
  import opened Text
  import PercentEncoding

  /** A malformed value is known only by which times its expiry compares as later than. */
  datatype Stored = Record(seenAt: int, expiresAt: int) | Malformed(isAfter: int -> bool)

  /** What the guard keeps in storage, and the alarm it has set. */
  datatype Guard = Guard(records: map<string, Stored>, alarm: Option<int>)

  const EMPTY := Guard(map[], None)

  /** A request body: four fields of the right types, or anything else. */
  datatype Body = Fields(agentDid: string, nonce: string, ttlMs: int, nowMs: Option<int>) | Unreadable

  datatype Request = Request(agentDid: string, nonce: string, ttlMs: int, nowMs: Option<int>)

  datatype Answer = Accepted(seenAt: int, expiresAt: int) | Replay(seenAt: int, expiresAt: int)
                  | ReplayOfMalformed | InvalidInput

  function ParseTryAcceptBody(body: Body): Option<Request> {
    match body
    case Unreadable => None
    case Fields(agentDid, nonce, ttlMs, nowMs) =>
      if Trim(agentDid) == "" || Trim(nonce) == "" || ttlMs <= 0 then None
      else if nowMs.Some? && nowMs.value < 0 then None
      else Some(Request(Trim(agentDid), Trim(nonce), ttlMs, nowMs))
  }

  function KeyText(agentPart: string, noncePart: string): string {
    "nonce:" + agentPart + "|" + noncePart
  }

  function StorageKey(agentDid: string, nonce: string): string {
    KeyText(PercentEncoding.EncodeURIComponent(agentDid), PercentEncoding.EncodeURIComponent(nonce))
  }

  function TimeOf(request: Request, clock: int): int {
    if request.nowMs.Some? then request.nowMs.value else clock
  }

  predicate ExpiresAfter(stored: Stored, now: int) {
    if stored.Record? then stored.expiresAt > now else stored.isAfter(now)
  }

  predicate Blocks(g: Guard, key: string, now: int) {
    key in g.records && ExpiresAfter(g.records[key], now)
  }

  function ReplayAnswer(stored: Stored): Answer {
    if stored.Record? then Replay(stored.seenAt, stored.expiresAt) else ReplayOfMalformed
  }

  function TryAccept(g: Guard, body: Body, clock: int): (Guard, Answer) {
    match ParseTryAcceptBody(body)
    case None => (g, InvalidInput)
    case Some(request) =>
      var now := TimeOf(request, clock);
      var key := StorageKey(request.agentDid, request.nonce);
      if Blocks(g, key, now) then (g, ReplayAnswer(g.records[key]))
      else
        var expiresAt := now + request.ttlMs;
        (Guard(g.records[key := Record(now, expiresAt)],
               if g.alarm.None? || expiresAt < g.alarm.value then Some(expiresAt) else g.alarm),
         Accepted(now, expiresAt))
  }

  predicate IsLive(stored: Stored, now: int) {
    stored.Record? && stored.expiresAt > now
  }

  function LiveRecords(records: map<string, Stored>, now: int): map<string, Stored> {
    map key | key in records && IsLive(records[key], now) :: records[key]
  }

  /** The earliest expiry of the well-formed records in `keys`, if there is any. */
  ghost predicate IsEarliest(records: map<string, Stored>, earliest: Option<int>) {
    && (earliest.None? <==> forall key :: key in records ==> records[key].Malformed?)
    && (earliest.Some? ==>
          && (exists key :: key in records && records[key].Record? && records[key].expiresAt == earliest.value)
          && (forall key :: key in records && records[key].Record? ==> earliest.value <= records[key].expiresAt))
  }

  /** The records visited and not found expired. */
  ghost function Surviving(records: map<string, Stored>, todo: set<string>, expired: set<string>): map<string, Stored> {
    map key | key in records && key !in todo && key !in expired :: records[key]
  }

  lemma EarliestOfOneMore(records: map<string, Stored>, earliest: Option<int>, key: string, stored: Stored)
    requires IsEarliest(records, earliest) && key !in records && stored.Record?
    ensures var e := if earliest.None? || stored.expiresAt < earliest.value then Some(stored.expiresAt) else earliest;
            IsEarliest(records[key := stored], e)
  {
    var more := records[key := stored];
    assert key in more && more[key].Record?;
    if earliest.Some? && stored.expiresAt >= earliest.value {
      var least :| least in records && records[least].Record? && records[least].expiresAt == earliest.value;
      assert least in more;
    }
  }

  /** The alarm handler drops every record that is malformed or expired and aims the alarm at the earliest expiry left. */
  ghost predicate AlarmHandled(g: Guard, now: int, h: Guard) {
    h.records == LiveRecords(g.records, now) && IsEarliest(h.records, h.alarm)
  }

  class NonceReplayGuard {
    var records: map<string, Stored>
    var alarm: Option<int>

    ghost function View(): Guard
      reads this
    {
      Guard(records, alarm)
    }

    constructor ()
      ensures View() == EMPTY
    {
      records, alarm := map[], None;
    }

    method HandleTryAccept(body: Body, clock: int) returns (answer: Answer)
      modifies this
      ensures (View(), answer) == TryAccept(old(View()), body, clock)
    {
      var parsed := ParseTryAcceptBody(body);
      if parsed.None? {
        return InvalidInput;
      }
      var request := parsed.value;
      var now := if request.nowMs.Some? then request.nowMs.value else clock;
      var key := StorageKey(request.agentDid, request.nonce);
      if key in records && ExpiresAfter(records[key], now) {
        return ReplayAnswer(records[key]);
      }
      var expiresAt := now + request.ttlMs;
      records := records[key := Record(now, expiresAt)];
      if alarm.None? || expiresAt < alarm.value {
        alarm := Some(expiresAt);
      }
      answer := Accepted(now, expiresAt);
    }

    method Alarm(now: int)
      modifies this
      ensures AlarmHandled(old(View()), now, View())
    {
      var expired: set<string> := {};
      var nextExpiry: Option<int> := None;
      var todo := records.Keys;
      while todo != {}
        invariant records == old(records)
        invariant todo <= records.Keys && expired <= records.Keys - todo
        invariant forall key :: key in records && key !in todo ==> (key in expired <==> !IsLive(records[key], now))
        invariant IsEarliest(Surviving(records, todo, expired), nextExpiry)
        decreases todo
      {
        ghost var before := Surviving(records, todo, expired);
        var key :| key in todo;
        todo := todo - {key};
        if records[key].Malformed? {
          expired := expired + {key};
        } else if records[key].expiresAt <= now {
          expired := expired + {key};
        } else {
          ghost var after := before[key := records[key]];
          EarliestOfOneMore(before, nextExpiry, key, records[key]);
          if nextExpiry.None? || records[key].expiresAt < nextExpiry.value {
            nextExpiry := Some(records[key].expiresAt);
          }
          assert after == Surviving(records, todo, expired);
        }
        if key in expired {
          assert before == Surviving(records, todo, expired);
        }
      }
      ghost var live := LiveRecords(records, now);
      assert live == Surviving(records, todo, expired);
      assert live == LiveRecords(old(View()).records, now);
      var left := map key | key in records && key !in expired :: records[key];
      assert left == live;
      records, alarm := left, nextExpiry;
    }
  }
}
