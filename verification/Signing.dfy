/** The text that agents sign for every HTTP request. */
module Signing {
  import opened Text

  datatype Request = Request(httpMethod: string, pathWithQuery: string, timestamp: string, nonce: string, bodyHash: string)

  const CLAW_PROOF_CANONICAL_VERSION := "CLAW-PROOF-V1"

  function RequestLines(upper: string -> string, r: Request): seq<string> {
    [CLAW_PROOF_CANONICAL_VERSION, upper(r.httpMethod), r.pathWithQuery, r.timestamp, r.nonce, r.bodyHash]
  }

  /** `upper` is the library's upper-casing of a string. */
  function CanonicalizeRequest(upper: string -> string, r: Request): string {
    Join(RequestLines(upper, r), NEWLINE)
  }

  ghost predicate SameUpToMethodCase(upper: string -> string, r: Request, q: Request) {
    upper(r.httpMethod) == upper(q.httpMethod) && r.(httpMethod := q.httpMethod) == q
  }

  ghost predicate NewlineFree(r: Request) {
    Free(r.pathWithQuery, NEWLINE) && Free(r.timestamp, NEWLINE) && Free(r.nonce, NEWLINE) && Free(r.bodyHash, NEWLINE)
  }

  /** No other request, whatever its fields hold, has the same text to sign. */
  ghost predicate SignedUnambiguously(upper: string -> string, r: Request) {
    forall q: Request :: CanonicalizeRequest(upper, q) == CanonicalizeRequest(upper, r) ==> SameUpToMethodCase(upper, r, q)
  }

  lemma RequestLinesAreFree(upper: string -> string, r: Request)
    requires Free(upper(r.httpMethod), NEWLINE) && NewlineFree(r)
    ensures AllFree(RequestLines(upper, r), NEWLINE)
  {
  }

  /** A request without newlines signs the same text as another exactly when they differ at most in the method's case. */
  lemma CanonicalTextIdentifiesRequest(upper: string -> string, r: Request, q: Request)
    requires Free(upper(r.httpMethod), NEWLINE) && NewlineFree(r)
    ensures CanonicalizeRequest(upper, r) == CanonicalizeRequest(upper, q) <==> SameUpToMethodCase(upper, r, q)
  {
    if CanonicalizeRequest(upper, r) == CanonicalizeRequest(upper, q) {
      RequestLinesAreFree(upper, r);
      JoinIsInjectiveOnFreeParts(RequestLines(upper, r), RequestLines(upper, q), NEWLINE);
      var a, b := RequestLines(upper, r), RequestLines(upper, q);
      assert a[1] == b[1] && a[2] == b[2] && a[3] == b[3] && a[4] == b[4] && a[5] == b[5];
    }
  }

  /** Splitting the text of such a request at its newlines gives the version and then its fields, in this order. */
  lemma TextReadsBack(upper: string -> string, r: Request)
    requires Free(upper(r.httpMethod), NEWLINE) && NewlineFree(r)
    ensures Split(CanonicalizeRequest(upper, r), '\n')
            == ["CLAW-PROOF-V1", upper(r.httpMethod), r.pathWithQuery, r.timestamp, r.nonce, r.bodyHash]
  {
    RequestLinesAreFree(upper, r);
    SplitJoin(RequestLines(upper, r), NEWLINE);
  }

  function Before(s: string, c: char): string
    requires c in s
  {
    if s[0] == c then "" else [s[0]] + Before(s[1..], c)
  }

  function Behind(s: string, c: char): string
    requires c in s
  {
    if s[0] == c then s[1..] else Behind(s[1..], c)
  }

  lemma {:induction false} BeforeBehind(s: string, c: char)
    requires c in s
    ensures s == Before(s, c) + [c] + Behind(s, c)
  {
    if s[0] != c {
      BeforeBehind(s[1..], c);
    }
  }

  /** Another request with the same text: a newline field boundary moves into the neighbouring field. */
  function Shifted(r: Request): Request
    requires NEWLINE in r.pathWithQuery || NEWLINE in r.timestamp || NEWLINE in r.nonce || NEWLINE in r.bodyHash
  {
    if NEWLINE in r.pathWithQuery then
      r.(pathWithQuery := Before(r.pathWithQuery, NEWLINE),
         timestamp := Behind(r.pathWithQuery, NEWLINE) + "\n" + r.timestamp)
    else if NEWLINE in r.timestamp then
      r.(pathWithQuery := r.pathWithQuery + "\n" + Before(r.timestamp, NEWLINE), timestamp := Behind(r.timestamp, NEWLINE))
    else if NEWLINE in r.nonce then
      r.(timestamp := r.timestamp + "\n" + Before(r.nonce, NEWLINE), nonce := Behind(r.nonce, NEWLINE))
    else
      r.(nonce := r.nonce + "\n" + Before(r.bodyHash, NEWLINE), bodyHash := Behind(r.bodyHash, NEWLINE))
  }

  lemma ShiftedCollides(upper: string -> string, r: Request)
    requires !NewlineFree(r)
    ensures CanonicalizeRequest(upper, Shifted(r)) == CanonicalizeRequest(upper, r)
    ensures !SameUpToMethodCase(upper, r, Shifted(r))
  {
    var lines, other, q := RequestLines(upper, r), RequestLines(upper, Shifted(r)), Shifted(r);
    if NEWLINE in r.pathWithQuery {
      var a, b := Before(r.pathWithQuery, NEWLINE), Behind(r.pathWithQuery, NEWLINE);
      BeforeBehind(r.pathWithQuery, NEWLINE);
      BoundaryMoves(lines[..2], a, b, r.timestamp, lines[4..], NEWLINE);
      assert lines == lines[..2] + [a + [NEWLINE] + b, r.timestamp] + lines[4..];
      assert other == lines[..2] + [a, b + [NEWLINE] + r.timestamp] + lines[4..];
      assert |q.pathWithQuery| < |r.pathWithQuery|;
    } else if NEWLINE in r.timestamp {
      var a, b := Before(r.timestamp, NEWLINE), Behind(r.timestamp, NEWLINE);
      BeforeBehind(r.timestamp, NEWLINE);
      BoundaryMoves(lines[..2], r.pathWithQuery, a, b, lines[4..], NEWLINE);
      assert lines == lines[..2] + [r.pathWithQuery, a + [NEWLINE] + b] + lines[4..];
      assert other == lines[..2] + [r.pathWithQuery + [NEWLINE] + a, b] + lines[4..];
      assert |q.pathWithQuery| > |r.pathWithQuery|;
    } else if NEWLINE in r.nonce {
      var a, b := Before(r.nonce, NEWLINE), Behind(r.nonce, NEWLINE);
      BeforeBehind(r.nonce, NEWLINE);
      BoundaryMoves(lines[..3], r.timestamp, a, b, lines[5..], NEWLINE);
      assert lines == lines[..3] + [r.timestamp, a + [NEWLINE] + b] + lines[5..];
      assert other == lines[..3] + [r.timestamp + [NEWLINE] + a, b] + lines[5..];
      assert |q.timestamp| > |r.timestamp|;
    } else {
      var a, b := Before(r.bodyHash, NEWLINE), Behind(r.bodyHash, NEWLINE);
      BeforeBehind(r.bodyHash, NEWLINE);
      BoundaryMoves(lines[..4], r.nonce, a, b, [], NEWLINE);
      assert lines == lines[..4] + [r.nonce, a + [NEWLINE] + b] + [];
      assert other == lines[..4] + [r.nonce + [NEWLINE] + a, b] + [];
      assert |q.nonce| > |r.nonce|;
    }
  }

  /** A request with a newline-free method is signed unambiguously exactly when its other four fields hold no newline. */
  lemma UnambiguousExactlyWhenNewlineFree(upper: string -> string, r: Request)
    requires Free(upper(r.httpMethod), NEWLINE)
    ensures SignedUnambiguously(upper, r) <==> NewlineFree(r)
  {
    if NewlineFree(r) {
      forall q: Request | CanonicalizeRequest(upper, q) == CanonicalizeRequest(upper, r)
        ensures SameUpToMethodCase(upper, r, q)
      {
        CanonicalTextIdentifiesRequest(upper, r, q);
      }
    } else {
      ShiftedCollides(upper, r);
    }
  }
}
