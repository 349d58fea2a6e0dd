/** The text an agent signs to register, and exactly when another registration shares it. */
module RegistrationProof {
  import opened Outcomes
  import opened Text
  import opened LabelledText

  // ---------------------------------------------------------------- decimal numbers

  function Digits(n: nat): string {
    if n < 10 then [('0' as int + n) as char] else Digits(n / 10) + [('0' as int + n % 10) as char]
  }

  function Decimal(n: int): string {
    if n < 0 then "-" + Digits(-n) else Digits(n)
  }

  function ValueOf(digits: string): int {
    if digits == "" then 0 else 10 * ValueOf(digits[..|digits| - 1]) + (digits[|digits| - 1] as int - '0' as int)
  }

  predicate IsDigit(c: char) {
    '0' <= c <= '9'
  }

  lemma {:induction false} DigitsReadBack(n: nat)
    ensures ValueOf(Digits(n)) == n && Digits(n) != "" && forall c :: c in Digits(n) ==> IsDigit(c)
  {
    if n >= 10 {
      DigitsReadBack(n / 10);
      assert Digits(n)[..|Digits(n)| - 1] == Digits(n / 10);
    } else {
      assert Digits(n)[..0] == "";
    }
  }

  /** Different numbers have different decimal texts, none of which is empty or holds a newline. */
  lemma DecimalIsInjective(m: int, n: int)
    ensures Decimal(m) == Decimal(n) <==> m == n
    ensures Decimal(n) != "" && Free(Decimal(n), NEWLINE)
  {
    var a, b := if m < 0 then -m else m, if n < 0 then -n else n;
    DigitsReadBack(a);
    DigitsReadBack(b);
    assert Digits(a)[0] in Digits(a) && Digits(b)[0] in Digits(b);
    if Decimal(m) == Decimal(n) {
      assert m < 0 <==> Decimal(m)[0] == '-';
      assert n < 0 <==> Decimal(n)[0] == '-';
      assert m < 0 ==> Decimal(m)[1..] == Digits(a);
      assert n < 0 ==> Decimal(n)[1..] == Digits(b);
    }
  }

  // ---------------------------------------------------------------- the text

  datatype Registration = Registration(
    challengeId: string,
    nonce: string,
    ownerDid: string,
    publicKey: string,
    name: string,
    framework: Option<string>,
    ttlDays: Option<int>)

  const AGENT_REGISTRATION_PROOF_VERSION := "clawdentity.register.v1"

  const LABELS: seq<string> :=
    ["challengeId:", "nonce:", "ownerDid:", "publicKey:", "name:", "framework:", "ttlDays:"]

  function FrameworkText(framework: Option<string>): string {
    if framework.None? then "" else framework.value
  }

  function TtlText(ttlDays: Option<int>): string {
    if ttlDays.None? then "" else Decimal(ttlDays.value)
  }

  function Fields(r: Registration): seq<string> {
    [r.challengeId, r.nonce, r.ownerDid, r.publicKey, r.name, FrameworkText(r.framework), TtlText(r.ttlDays)]
  }

  function CanonicalizeAgentRegistrationProof(r: Registration): string {
    Join([AGENT_REGISTRATION_PROOF_VERSION] + Labelled(LABELS, Fields(r)), NEWLINE)
  }

  /** Equal in every field, an absent framework counting as an empty one. */
  ghost predicate SameRegistration(r: Registration, q: Registration) {
    FrameworkText(r.framework) == FrameworkText(q.framework) && r.(framework := q.framework) == q
  }

  /**
   * Some field from the challenge id to the name holds a newline followed by the next field's label, or some field from
   * the nonce to the framework holds a newline followed by its own label.
   */
  ghost predicate HidesLine(r: Registration) {
    exists i :: 0 < i < 6 && HidesAt(LABELS, Fields(r), i)
  }

  lemma LabelsAreFree()
    ensures AllFree(LABELS, NEWLINE)
  {
    forall i | 0 <= i < |LABELS| ensures Free(LABELS[i], NEWLINE) {
      assert Free("challengeId:", NEWLINE) && Free("nonce:", NEWLINE) && Free("ownerDid:", NEWLINE);
      assert Free("publicKey:", NEWLINE) && Free("name:", NEWLINE);
      assert Free("framework:", NEWLINE) && Free("ttlDays:", NEWLINE);
    }
  }

  lemma VersionDropsOff(r: Registration, q: Registration)
    ensures CanonicalizeAgentRegistrationProof(r) == CanonicalizeAgentRegistrationProof(q)
            <==> Join(Labelled(LABELS, Fields(r)), NEWLINE) == Join(Labelled(LABELS, Fields(q)), NEWLINE)
  {
    var a, b := Labelled(LABELS, Fields(r)), Labelled(LABELS, Fields(q));
    var head := AGENT_REGISTRATION_PROOF_VERSION + [NEWLINE];
    assert ([AGENT_REGISTRATION_PROOF_VERSION] + a)[1..] == a && ([AGENT_REGISTRATION_PROOF_VERSION] + b)[1..] == b;
    assert (head + Join(a, NEWLINE))[|head|..] == Join(a, NEWLINE);
    assert (head + Join(b, NEWLINE))[|head|..] == Join(b, NEWLINE);
  }

  lemma TtlTextIsInjective(a: Option<int>, b: Option<int>)
    ensures TtlText(a) == TtlText(b) <==> a == b
    ensures Free(TtlText(a), NEWLINE)
  {
    if a.Some? {
      DecimalIsInjective(if b.Some? then b.value else a.value, a.value);
    }
    if b.Some? {
      DecimalIsInjective(b.value, b.value);
    }
  }

  lemma SameFieldsSameRegistration(r: Registration, q: Registration)
    ensures Fields(r) == Fields(q) <==> SameRegistration(r, q)
  {
    TtlTextIsInjective(r.ttlDays, q.ttlDays);
    var a, b := Fields(r), Fields(q);
    if a == b {
      assert a[0] == b[0] && a[1] == b[1] && a[2] == b[2] && a[3] == b[3] && a[4] == b[4] && a[5] == b[5] && a[6] == b[6];
    }
  }

  /** A registration that hides no line shares its text exactly with the registrations that agree with it. */
  lemma ProofTextIdentifiesRegistration(r: Registration, q: Registration)
    requires !HidesLine(r)
    ensures CanonicalizeAgentRegistrationProof(r) == CanonicalizeAgentRegistrationProof(q) <==> SameRegistration(r, q)
  {
    VersionDropsOff(r, q);
    SameFieldsSameRegistration(r, q);
    if CanonicalizeAgentRegistrationProof(r) == CanonicalizeAgentRegistrationProof(q) && Fields(r) != Fields(q) {
      LabelsAreFree();
      TtlTextIsInjective(r.ttlDays, r.ttlDays);
      TtlTextIsInjective(q.ttlDays, q.ttlDays);
      var i := CollisionHidesLabel(LABELS, Fields(r), Fields(q));
    }
  }

  function WithFields(r: Registration, fields: seq<string>): Registration
    requires |fields| == 7
  {
    Registration(fields[0], fields[1], fields[2], fields[3], fields[4], Some(fields[5]), r.ttlDays)
  }

  lemma HiddenLineCollides(r: Registration) returns (q: Registration)
    requires HidesLine(r)
    ensures CanonicalizeAgentRegistrationProof(r) == CanonicalizeAgentRegistrationProof(q) && !SameRegistration(r, q)
  {
    var f := Fields(r);
    var i: nat :| 0 < i < 6 && HidesAt(LABELS, f, i);
    var u, w := HiddenLabelCollides(LABELS, f, i);
    var g := WithPair(f, i, u, w);
    assert g[i - 1] == u && g[6] == f[6];
    q := WithFields(r, g);
    assert Fields(q) == g;
    VersionDropsOff(r, q);
    SameFieldsSameRegistration(r, q);
  }

  /** No different registration has the text of `r`. */
  ghost predicate ProvenUnambiguously(r: Registration) {
    forall q: Registration :: CanonicalizeAgentRegistrationProof(q) == CanonicalizeAgentRegistrationProof(r) ==>
      SameRegistration(r, q)
  }

  /** A registration's proof text is its own exactly when no field hides a line that begins like a neighbouring one. */
  lemma UnambiguousExactlyWithoutHiddenLines(r: Registration)
    ensures ProvenUnambiguously(r) <==> !HidesLine(r)
  {
    if HidesLine(r) {
      var q := HiddenLineCollides(r);
    } else {
      forall q: Registration | CanonicalizeAgentRegistrationProof(q) == CanonicalizeAgentRegistrationProof(r)
        ensures SameRegistration(r, q)
      {
        ProofTextIdentifiesRegistration(r, q);
      }
    }
  }

  /** Fields without newlines hide nothing. */
  lemma NewlineFreeHidesNothing(r: Registration)
    requires AllFree(Fields(r), NEWLINE)
    ensures !HidesLine(r)
  {
    forall i | 0 < i < 6 ensures !HidesAt(LABELS, Fields(r), i) {
      assert Free(Fields(r)[i - 1], NEWLINE) && Free(Fields(r)[i], NEWLINE);
      FreeHidesNothing(Fields(r)[i - 1], LABELS[i]);
      FreeHidesNothing(Fields(r)[i], LABELS[i]);
    }
  }

  /** Splitting the text of a registration without newlines gives the version and then its labelled fields, in this order. */
  lemma ProofTextReadsBack(r: Registration)
    requires AllFree(Fields(r), NEWLINE)
    ensures Split(CanonicalizeAgentRegistrationProof(r), '\n')
            == ["clawdentity.register.v1", "challengeId:" + r.challengeId, "nonce:" + r.nonce, "ownerDid:" + r.ownerDid,
                "publicKey:" + r.publicKey, "name:" + r.name,
                "framework:" + (if r.framework.None? then "" else r.framework.value),
                "ttlDays:" + (if r.ttlDays.None? then "" else Decimal(r.ttlDays.value))]
  {
    var lines := [AGENT_REGISTRATION_PROOF_VERSION] + Labelled(LABELS, Fields(r));
    LabelsAreFree();
    forall i | 0 <= i < |lines| ensures Free(lines[i], NEWLINE) {
      if i > 0 {
        assert lines[i] == LABELS[i - 1] + Fields(r)[i - 1];
      }
    }
    SplitJoin(lines, NEWLINE);
  }
}
