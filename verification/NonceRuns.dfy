/** What the nonce guard guarantees over every interleaving of accept requests and alarms, under a monotone clock. */
module NonceRuns {
  import opened Outcomes
  import opened Text
  import opened NonceGuard
  import PercentEncoding

  lemma KeyTextIsInjective(a: string, b: string, x: string, y: string)
    requires Free(a, '|') && Free(b, '|') && Free(x, '|') && Free(y, '|')
    requires KeyText(a, b) == KeyText(x, y)
    ensures a == x && b == y
  {
    assert KeyText(a, b) == "nonce:" + (a + "|" + b) && KeyText(x, y) == "nonce:" + (x + "|" + y);
    SamePrefix("nonce:", a + "|" + b, x + "|" + y);
    OneSeparatorSplitsOnce(a, b, x, y, '|');
  }

  /** Different pairs of agent and nonce never share a storage key, and every key has the prefix of the guard's records. */
  lemma StorageKeyIsInjective(d: string, m: string, e: string, n: string)
    requires StorageKey(d, m) == StorageKey(e, n)
    ensures d == e && m == n
    ensures "nonce:" <= StorageKey(d, m)
  {
    PercentEncoding.EncodingIsInjectiveAndBarFree(d, e);
    PercentEncoding.EncodingIsInjectiveAndBarFree(m, n);
    PercentEncoding.EncodingIsInjectiveAndBarFree(e, d);
    PercentEncoding.EncodingIsInjectiveAndBarFree(n, m);
    KeyTextIsInjective(PercentEncoding.EncodeURIComponent(d), PercentEncoding.EncodeURIComponent(m),
                       PercentEncoding.EncodeURIComponent(e), PercentEncoding.EncodeURIComponent(n));
  }

  lemma SamePrefix(prefix: string, s: string, t: string)
    requires prefix + s == prefix + t
    ensures s == t
  {
    assert s == (prefix + s)[|prefix|..] == t;
  }

  datatype Event = Try(body: Body, clock: int) | AlarmFires(now: int)

  ghost predicate Steps(g: Guard, e: Event, h: Guard) {
    match e
    case Try(body, clock) => h == TryAccept(g, body, clock).0
    case AlarmFires(now) => AlarmHandled(g, now, h)
  }

  /** A body with the fields a request needs: two ids that are not blank, a positive lifetime, no negative time. */
  predicate IsRequest(body: Body) {
    && body.Fields? && Trim(body.agentDid) != "" && Trim(body.nonce) != "" && body.ttlMs > 0
    && (body.nowMs.Some? ==> body.nowMs.value >= 0)
  }

  /** The time an event reads: the request's own time if it carries one, and the clock otherwise. */
  function TimeAt(e: Event): int {
    match e
    case AlarmFires(now) => now
    case Try(body, clock) => if IsRequest(body) && body.nowMs.Some? then body.nowMs.value else clock
  }

  /** `states[i]` is the guard before event `i`. */
  ghost predicate IsTrace(events: seq<Event>, states: seq<Guard>) {
    && |states| == |events| + 1 && states[0] == EMPTY
    && (forall i :: 0 <= i < |events| ==> Steps(states[i], events[i], states[i + 1]))
    && (forall i, j :: 0 <= i < j < |events| ==> TimeAt(events[i]) <= TimeAt(events[j]))
  }

  ghost predicate AcceptsKey(events: seq<Event>, states: seq<Guard>, i: nat, key: string) {
    && i < |events| && i < |states| && events[i].Try? && IsRequest(events[i].body)
    && TryAccept(states[i], events[i].body, events[i].clock).1.Accepted?
    && key == StorageKey(Trim(events[i].body.agentDid), Trim(events[i].body.nonce))
  }

  /** When the record written by an accepted request expires. */
  function ExpiryAt(e: Event): int {
    if e.Try? && IsRequest(e.body) then TimeAt(e) + e.body.ttlMs else 0
  }

  // ---------------------------------------------------------------- the records remember what was accepted

  ghost predicate Remembers(events: seq<Event>, states: seq<Guard>, n: nat, i: nat, key: string)
    requires i < n < |states| && n <= |events|
  {
    || ExpiryAt(events[i]) <= TimeAt(events[n - 1])
    || (key in states[n].records && states[n].records[key].Record?
        && states[n].records[key].expiresAt == ExpiryAt(events[i]))
  }

  lemma StepKeepsUnexpired(g: Guard, e: Event, h: Guard, key: string, expiresAt: int)
    requires Steps(g, e, h) && expiresAt > TimeAt(e)
    requires key in g.records && g.records[key].Record? && g.records[key].expiresAt == expiresAt
    ensures key in h.records && h.records[key] == g.records[key]
  {
  }

  lemma {:induction false} RememberedNow(events: seq<Event>, states: seq<Guard>, i: nat, key: string)
    requires IsTrace(events, states) && AcceptsKey(events, states, i, key)
    ensures Remembers(events, states, i + 1, i, key)
  {
    assert Steps(states[i], events[i], states[i + 1]);
  }

  lemma {:induction false} RememberedLater(events: seq<Event>, states: seq<Guard>, n: nat, last: nat, i: nat, key: string)
    requires i < last && last + 1 == n <= |events| && n < |states| && Remembers(events, states, last, i, key)
    requires Steps(states[last], events[last], states[n]) && TimeAt(events[last - 1]) <= TimeAt(events[last])
    ensures Remembers(events, states, n, i, key)
  {
    if ExpiryAt(events[i]) > TimeAt(events[last]) {
      StepKeepsUnexpired(states[last], events[last], states[n], key, ExpiryAt(events[i]));
    }
  }

  /** Until it expires, the record of an accepted request stays in storage unchanged. */
  lemma {:induction false} AcceptedIsRemembered(events: seq<Event>, states: seq<Guard>, n: nat, i: nat, key: string)
    requires IsTrace(events, states) && i < n <= |events| && AcceptsKey(events, states, i, key)
    ensures Remembers(events, states, n, i, key)
    decreases n
  {
    if i < n - 1 {
      AcceptedIsRemembered(events, states, n - 1, i, key);
      assert Steps(states[n - 1], events[n - 1], states[n]) && TimeAt(events[n - 2]) <= TimeAt(events[n - 1]);
      RememberedLater(events, states, n, n - 1, i, key);
    } else {
      RememberedNow(events, states, i, key);
    }
  }

  lemma {:induction false} NothingAtFirst(events: seq<Event>, states: seq<Guard>, n: nat, key: string)
    requires IsTrace(events, states) && n <= |events| && key in states[n].records
    ensures n > 0
  {
  }

  /** The record under `key` is the one that the acceptance of event `i` wrote. */
  ghost predicate WrittenBy(events: seq<Event>, states: seq<Guard>, n: nat, i: nat, key: string) {
    && i < n < |states| && AcceptsKey(events, states, i, key)
    && key in states[n].records && states[n].records[key] == Record(TimeAt(events[i]), ExpiryAt(events[i]))
  }

  lemma {:induction false} WrittenNow(events: seq<Event>, states: seq<Guard>, n: nat, last: nat, key: string)
    requires IsTrace(events, states) && last + 1 == n <= |events| && key in states[n].records
    requires AcceptsKey(events, states, last, key)
    ensures WrittenBy(events, states, n, last, key)
  {
    RecordAfterStep(events, states, n, key);
  }

  lemma {:induction false} WrittenEarlier(events: seq<Event>, states: seq<Guard>, n: nat, last: nat, i: nat, key: string)
    requires IsTrace(events, states) && last + 1 == n <= |events| && key in states[n].records
    requires !AcceptsKey(events, states, last, key) && WrittenBy(events, states, last, i, key)
    ensures WrittenBy(events, states, n, i, key)
  {
    RecordAfterStep(events, states, n, key);
  }

  lemma {:induction false} ThereBefore(events: seq<Event>, states: seq<Guard>, n: nat, last: nat, key: string)
    requires IsTrace(events, states) && last + 1 == n <= |events| && key in states[n].records
    requires !AcceptsKey(events, states, last, key)
    ensures key in states[last].records
  {
    RecordAfterStep(events, states, n, key);
  }

  /** Every record in storage was written by an accepted request, and holds its time and its expiry. */
  lemma {:induction false} RecordsComeFromAcceptance(events: seq<Event>, states: seq<Guard>, n: nat, key: string)
    returns (i: nat)
    requires IsTrace(events, states) && n <= |events| && key in states[n].records
    ensures WrittenBy(events, states, n, i, key)
    decreases n
  {
    NothingAtFirst(events, states, n, key);
    i := n - 1;
    if AcceptsKey(events, states, i, key) {
      WrittenNow(events, states, n, i, key);
    } else {
      var last := i;
      ThereBefore(events, states, n, last, key);
      i := RecordsComeFromAcceptance(events, states, last, key);
      WrittenEarlier(events, states, n, last, i, key);
    }
  }

  /** A record in storage after an event was written by it, or was there before. */
  lemma {:induction false} RecordAfterStep(events: seq<Event>, states: seq<Guard>, n: nat, key: string)
    requires IsTrace(events, states) && 0 < n <= |events| && key in states[n].records
    ensures AcceptsKey(events, states, n - 1, key) ==>
              states[n].records[key] == Record(TimeAt(events[n - 1]), ExpiryAt(events[n - 1]))
    ensures !AcceptsKey(events, states, n - 1, key) ==>
              key in states[n - 1].records && states[n].records[key] == states[n - 1].records[key]
  {
    assert Steps(states[n - 1], events[n - 1], states[n]);
  }

  /** The event asks to accept this pair; spaces around either id do not count. */
  ghost predicate Presents(e: Event, agentDid: string, nonce: string) {
    e.Try? && IsRequest(e.body) && Trim(e.body.agentDid) == agentDid && Trim(e.body.nonce) == nonce
  }

  function AnswerAt(events: seq<Event>, states: seq<Guard>, i: nat): Answer
    requires i < |events| && i < |states| && events[i].Try?
  {
    TryAccept(states[i], events[i].body, events[i].clock).1
  }

  ghost predicate AcceptedAt(events: seq<Event>, states: seq<Guard>, i: nat)
    requires i < |events| && i < |states|
  {
    events[i].Try? && AnswerAt(events, states, i).Accepted?
  }

  lemma {:induction false} WriterPresents(events: seq<Event>, states: seq<Guard>, i: nat, agentDid: string, nonce: string)
    requires AcceptsKey(events, states, i, StorageKey(agentDid, nonce))
    ensures Presents(events[i], agentDid, nonce) && AcceptedAt(events, states, i)
  {
    StorageKeyIsInjective(Trim(events[i].body.agentDid), Trim(events[i].body.nonce), agentDid, nonce);
  }

  lemma {:induction false} RefusalReplays(g: Guard, body: Body, clock: int, key: string)
    requires IsRequest(body) && key == StorageKey(Trim(body.agentDid), Trim(body.nonce))
    requires !TryAccept(g, body, clock).1.Accepted?
    ensures key in g.records && (g.records[key].Record? ==>
              && g.records[key].expiresAt > TimeAt(Try(body, clock))
              && TryAccept(g, body, clock).1 == Replay(g.records[key].seenAt, g.records[key].expiresAt))
  {
  }

  /** What blocks a request is the record of an unexpired acceptance of its pair. */
  lemma {:induction false} BlockedByAcceptance(
    events: seq<Event>, states: seq<Guard>, j: nat, agentDid: string, nonce: string)
    returns (i: nat)
    requires IsTrace(events, states) && j < |events| && Presents(events[j], agentDid, nonce)
    requires !AcceptedAt(events, states, j)
    ensures i < j && Presents(events[i], agentDid, nonce) && AcceptedAt(events, states, i)
    ensures ExpiryAt(events[i]) > TimeAt(events[j])
    ensures AnswerAt(events, states, j) == Replay(TimeAt(events[i]), ExpiryAt(events[i]))
  {
    var key := StorageKey(agentDid, nonce);
    RefusalReplays(states[j], events[j].body, events[j].clock, key);
    i := RecordsComeFromAcceptance(events, states, j, key);
    WriterPresents(events, states, i, agentDid, nonce);
  }

  /** An unexpired acceptance of a pair blocks it. */
  lemma {:induction false} AcceptanceBlocks(
    events: seq<Event>, states: seq<Guard>, i: nat, j: nat, agentDid: string, nonce: string)
    requires IsTrace(events, states) && i < j < |events| && Presents(events[j], agentDid, nonce)
    requires Presents(events[i], agentDid, nonce) && AcceptedAt(events, states, i) && TimeAt(events[j]) < ExpiryAt(events[i])
    ensures !AcceptedAt(events, states, j)
  {
    var key := StorageKey(agentDid, nonce);
    assert TimeAt(events[j - 1]) <= TimeAt(events[j]);
    AcceptedIsRemembered(events, states, j, i, key);
    RecordBlocks(states[j], events[j].body, events[j].clock, key);
  }

  lemma {:induction false} RecordBlocks(g: Guard, body: Body, clock: int, key: string)
    requires IsRequest(body) && key == StorageKey(Trim(body.agentDid), Trim(body.nonce))
    requires key in g.records && g.records[key].Record? && g.records[key].expiresAt > TimeAt(Try(body, clock))
    ensures !TryAccept(g, body, clock).1.Accepted?
  {
  }

  /**
   * A pair of agent and nonce is accepted exactly when every earlier acceptance of the same pair has expired: its
   * own time to live has passed.
   */
  lemma {:induction false} AcceptedExactlyWhenUnseen(
    events: seq<Event>, states: seq<Guard>, j: nat, agentDid: string, nonce: string)
    requires IsTrace(events, states) && j < |events| && Presents(events[j], agentDid, nonce)
    ensures AcceptedAt(events, states, j) <==>
            forall i :: 0 <= i < j && Presents(events[i], agentDid, nonce) && AcceptedAt(events, states, i) ==>
              TimeAt(events[j]) >= ExpiryAt(events[i])
  {
    if AcceptedAt(events, states, j) {
      forall i | 0 <= i < j && Presents(events[i], agentDid, nonce) && AcceptedAt(events, states, i)
        ensures TimeAt(events[j]) >= ExpiryAt(events[i])
      {
        if TimeAt(events[j]) < ExpiryAt(events[i]) {
          AcceptanceBlocks(events, states, i, j, agentDid, nonce);
        }
      }
    } else {
      var i := BlockedByAcceptance(events, states, j, agentDid, nonce);
    }
  }

  /** The answer to a refused request gives the times of an unexpired acceptance of the same pair. */
  ghost predicate ReplaysAcceptance(
    events: seq<Event>, states: seq<Guard>, i: nat, j: nat, agentDid: string, nonce: string)
  {
    && i < j < |events| && j < |states| && events[j].Try?
    && Presents(events[i], agentDid, nonce) && AcceptedAt(events, states, i) && ExpiryAt(events[i]) > TimeAt(events[j])
    && AnswerAt(events, states, j) == Replay(TimeAt(events[i]), ExpiryAt(events[i]))
  }

  /**
   * A body that is no request is answered as invalid; a request is answered with its own time, or the clock's if it has
   * none, and with its expiry, or with the times of the acceptance that it replays.
   */
  lemma AnswersTellTimes(events: seq<Event>, states: seq<Guard>, j: nat)
    requires IsTrace(events, states) && j < |events| && events[j].Try?
    ensures var body, answer := events[j].body, AnswerAt(events, states, j);
            && (answer == InvalidInput <==> !IsRequest(body))
            && (answer.Accepted? ==>
                  && answer.seenAt == (if body.nowMs.Some? then body.nowMs.value else events[j].clock)
                  && answer.expiresAt == answer.seenAt + body.ttlMs)
            && (IsRequest(body) && !answer.Accepted? ==>
                  exists i :: ReplaysAcceptance(events, states, i, j, Trim(body.agentDid), Trim(body.nonce)))
  {
    var body := events[j].body;
    if IsRequest(body) && !AcceptedAt(events, states, j) {
      var i := BlockedByAcceptance(events, states, j, Trim(body.agentDid), Trim(body.nonce));
      assert ReplaysAcceptance(events, states, i, j, Trim(body.agentDid), Trim(body.nonce));
    }
  }

  /** Two acceptances of one pair, spaces around its ids aside, are at least the first one's time to live apart. */
  lemma AcceptancesAreATtlApart(events: seq<Event>, states: seq<Guard>, i: nat, j: nat, agentDid: string, nonce: string)
    requires IsTrace(events, states) && i < j < |events|
    requires Presents(events[i], agentDid, nonce) && AcceptedAt(events, states, i)
    requires Presents(events[j], agentDid, nonce) && AcceptedAt(events, states, j)
    ensures TimeAt(events[j]) - TimeAt(events[i]) >= events[i].body.ttlMs > 0
  {
    AcceptedExactlyWhenUnseen(events, states, j, agentDid, nonce);
  }

  // ---------------------------------------------------------------- the alarm

  ghost predicate AlarmInTime(g: Guard) {
    && (g.records != map[] ==> g.alarm.Some?)
    && (forall key :: key in g.records ==>
          g.records[key].Record? && g.alarm.Some? && g.alarm.value <= g.records[key].expiresAt)
  }

  /** Whenever records exist an alarm is set, no later than the earliest expiry among them. */
  lemma {:induction false} AlarmIsNeverLate(events: seq<Event>, states: seq<Guard>, n: nat)
    requires IsTrace(events, states) && n <= |events|
    ensures AlarmInTime(states[n])
    decreases n
  {
    if n > 0 {
      AlarmIsNeverLate(events, states, n - 1);
      assert Steps(states[n - 1], events[n - 1], states[n]);
    }
  }

  ghost predicate ExpiresAt(events: seq<Event>, states: seq<Guard>, i: nat, time: int) {
    i < |events| && i < |states| && AcceptedAt(events, states, i) && ExpiryAt(events[i]) == time
  }

  /** A step sets the alarm to the expiry of a record that it leaves, or leaves it alone. */
  lemma {:induction false} AlarmAfterStep(g: Guard, e: Event, h: Guard) returns (key: string)
    requires Steps(g, e, h) && h.alarm.Some?
    ensures h.alarm == g.alarm
            || (key in h.records && h.records[key].Record? && h.records[key].expiresAt == h.alarm.value)
  {
    key := "";
    if e.AlarmFires? {
      key :| key in h.records && h.records[key].Record? && h.records[key].expiresAt == h.alarm.value;
    } else if h.alarm != g.alarm {
      key := StorageKey(Trim(e.body.agentDid), Trim(e.body.nonce));
    }
  }

  /** The alarm is never set for nothing: it is aimed at the expiry of an accepted request. */
  lemma {:induction false} AlarmIsAnExpiry(events: seq<Event>, states: seq<Guard>, n: nat) returns (i: nat)
    requires IsTrace(events, states) && n <= |events| && states[n].alarm.Some?
    ensures i < n && ExpiresAt(events, states, i, states[n].alarm.value)
    decreases n
  {
    assert n > 0;
    var last: nat := n - 1;
    assert Steps(states[last], events[last], states[n]);
    var key := AlarmAfterStep(states[last], events[last], states[n]);
    if states[n].alarm == states[last].alarm {
      i := AlarmIsAnExpiry(events, states, last);
    } else {
      i := RecordsComeFromAcceptance(events, states, n, key);
    }
  }

  /** When the alarm has been handled, exactly the records that had not expired are left, and the next alarm is later. */
  lemma AlarmClearsExpired(events: seq<Event>, states: seq<Guard>, n: nat)
    requires IsTrace(events, states) && n < |events| && events[n].AlarmFires?
    ensures var g, h, now := states[n], states[n + 1], events[n].now;
            && (forall key :: key in h.records <==>
                  key in g.records && g.records[key].Record? && g.records[key].expiresAt > now)
            && (forall key :: key in h.records ==> h.records[key] == g.records[key])
            && (h.alarm.Some? <==> h.records != map[])
            && (h.alarm.Some? ==> h.alarm.value > now)
  {
    assert Steps(states[n], events[n], states[n + 1]);
  }
}
