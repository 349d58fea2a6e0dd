/** Clean-up of pairing tickets that users paste with surrounding spaces, backtick fences and line breaks. */
module TicketText {
  import opened Text

  const TICK := '`'

  function StripLeadingTicks(s: string): string {
    if s != [] && s[0] == TICK then StripLeadingTicks(s[1..]) else s
  }

  function StripTrailingTicks(s: string): string {
    if s != [] && s[|s| - 1] == TICK then StripTrailingTicks(s[..|s| - 1]) else s
  }

  /** `s.replace(/\s+/gu, "")`. */
  function RemoveSpace(s: string): string {
    if s == [] then []
    else if IsSpace(s[0]) then RemoveSpace(s[1..])
    else [s[0]] + RemoveSpace(s[1..])
  }

  function Normalize(value: string): string {
    RemoveSpace(Trim(StripTrailingTicks(StripLeadingTicks(Trim(value)))))
  }

  method NormalizePairingTicketText(value: string) returns (text: string)
    ensures text == Normalize(value)
  {
    var normalized := Trim(value);
    while normalized != [] && normalized[0] == TICK
      invariant StripLeadingTicks(normalized) == StripLeadingTicks(Trim(value))
      decreases |normalized|
    {
      normalized := normalized[1..];
    }
    while normalized != [] && normalized[|normalized| - 1] == TICK
      invariant StripTrailingTicks(normalized) == StripTrailingTicks(StripLeadingTicks(Trim(value)))
      decreases |normalized|
    {
      normalized := normalized[..|normalized| - 1];
    }
    text := RemoveSpace(Trim(normalized));
  }

  ghost predicate AllSpace(s: string) {
    forall i :: 0 <= i < |s| ==> IsSpace(s[i])
  }

  ghost predicate AllTicks(s: string) {
    forall i :: 0 <= i < |s| ==> s[i] == TICK
  }

  ghost predicate SpaceFree(s: string) {
    forall i :: 0 <= i < |s| ==> !IsSpace(s[i])
  }

  lemma {:induction false} RemoveSpaceConcat(a: string, b: string)
    ensures RemoveSpace(a + b) == RemoveSpace(a) + RemoveSpace(b)
  {
    if a == [] {
      assert a + b == b;
    } else {
      assert (a + b)[1..] == a[1..] + b;
      RemoveSpaceConcat(a[1..], b);
    }
  }

  lemma {:induction false} RemoveSpaceIsSpaceFree(s: string)
    ensures SpaceFree(RemoveSpace(s))
  {
    if s != [] {
      RemoveSpaceIsSpaceFree(s[1..]);
    }
  }

  lemma {:induction false} RemoveSpaceKeepsSpaceFree(s: string)
    requires SpaceFree(s)
    ensures RemoveSpace(s) == s
  {
    if s != [] {
      RemoveSpaceKeepsSpaceFree(s[1..]);
    }
  }

  /** Trimming on the left removes a run of spaces and leaves the rest to be trimmed. */
  lemma {:induction false} TrimStartDropsSpaces(w: string, s: string)
    requires AllSpace(w)
    ensures TrimStart(w + s) == TrimStart(s)
  {
    if w == [] {
      assert w + s == s;
    } else {
      assert (w + s)[1..] == w[1..] + s;
      TrimStartDropsSpaces(w[1..], s);
    }
  }

  lemma {:induction false} TrimEndDropsSpaces(s: string, w: string)
    requires AllSpace(w)
    ensures TrimEnd(s + w) == TrimEnd(s)
  {
    if w == [] {
      assert s + w == s;
    } else {
      assert (s + w)[..|s + w| - 1] == s + w[..|w| - 1];
      TrimEndDropsSpaces(s, w[..|w| - 1]);
    }
  }

  lemma {:induction false} StripLeadingDropsTicks(b: string, s: string)
    requires AllTicks(b) && s != [] && s[0] != TICK
    ensures StripLeadingTicks(b + s) == s
  {
    if b == [] {
      assert b + s == s;
    } else {
      assert (b + s)[1..] == b[1..] + s;
      StripLeadingDropsTicks(b[1..], s);
    }
  }

  lemma {:induction false} StripTrailingDropsTicks(s: string, b: string)
    requires AllTicks(b) && s != [] && s[|s| - 1] != TICK
    ensures StripTrailingTicks(s + b) == s
  {
    if b == [] {
      assert s + b == s;
    } else {
      assert (s + b)[..|s + b| - 1] == s + b[..|b| - 1];
      StripTrailingDropsTicks(s, b[..|b| - 1]);
    }
  }

  /** Trimming a text on the left, with anything after it, changes neither its visible characters nor what follows. */
  lemma {:induction false} TrimStartKeepsText(x: string, rest: string) returns (trimmed: string)
    requires RemoveSpace(x) != [] && Free(x, TICK)
    ensures TrimStart(x + rest) == trimmed + rest
    ensures RemoveSpace(trimmed) == RemoveSpace(x) && Free(trimmed, TICK)
  {
    if IsSpace(x[0]) {
      assert (x + rest)[1..] == x[1..] + rest;
      trimmed := TrimStartKeepsText(x[1..], rest);
    } else {
      trimmed := x;
    }
  }

  lemma {:induction false} TrimEndKeepsText(before: string, x: string) returns (trimmed: string)
    requires RemoveSpace(x) != [] && Free(x, TICK)
    ensures TrimEnd(before + x) == before + trimmed
    ensures RemoveSpace(trimmed) == RemoveSpace(x) && Free(trimmed, TICK)
    decreases |x|
  {
    var n := |x| - 1;
    if IsSpace(x[n]) {
      assert x == x[..n] + [x[n]];
      RemoveSpaceConcat(x[..n], [x[n]]);
      assert (before + x)[..|before + x| - 1] == before + x[..n];
      trimmed := TrimEndKeepsText(before, x[..n]);
    } else {
      trimmed := x;
    }
  }

  lemma {:induction false} TrimKeepsVisible(s: string)
    ensures RemoveSpace(Trim(s)) == RemoveSpace(s)
  {
    TrimStartKeepsVisible(s);
    TrimEndKeepsVisible(TrimStart(s));
  }

  lemma {:induction false} TrimStartKeepsVisible(s: string)
    ensures RemoveSpace(TrimStart(s)) == RemoveSpace(s)
  {
    if s != [] && IsSpace(s[0]) {
      TrimStartKeepsVisible(s[1..]);
    }
  }

  lemma {:induction false} TrimEndKeepsVisible(s: string)
    ensures RemoveSpace(TrimEnd(s)) == RemoveSpace(s)
    decreases |s|
  {
    if s != [] && IsSpace(s[|s| - 1]) {
      TrimEndKeepsVisible(s[..|s| - 1]);
      assert s == s[..|s| - 1] + [s[|s| - 1]];
      RemoveSpaceConcat(s[..|s| - 1], [s[|s| - 1]]);
    }
  }

  lemma TrimStartFenced(w1: string, b1: string, x: string, rest: string) returns (left: string)
    requires AllSpace(w1) && AllTicks(b1) && RemoveSpace(x) != [] && Free(x, TICK)
    ensures TrimStart(w1 + b1 + x + rest) == b1 + left + rest
    ensures RemoveSpace(left) == RemoveSpace(x) && Free(left, TICK)
  {
    left := x;
    assert w1 + b1 + x + rest == w1 + (b1 + x + rest);
    TrimStartDropsSpaces(w1, b1 + x + rest);
    if b1 == [] {
      assert b1 + x + rest == x + rest;
      left := TrimStartKeepsText(x, rest);
      assert left + rest == b1 + left + rest;
    }
  }

  /** Trimming a fenced text on both sides leaves the fences, and the text with its visible characters. */
  lemma TrimFenced(w1: string, b1: string, x: string, b2: string, w2: string) returns (text: string)
    requires AllSpace(w1) && AllSpace(w2) && AllTicks(b1) && AllTicks(b2)
    requires RemoveSpace(x) != [] && Free(x, TICK)
    ensures Trim(w1 + b1 + x + b2 + w2) == b1 + text + b2
    ensures RemoveSpace(text) == RemoveSpace(x) && Free(text, TICK)
  {
    var left := TrimStartFenced(w1, b1, x, b2 + w2);
    assert w1 + b1 + x + b2 + w2 == w1 + b1 + x + (b2 + w2);
    assert b1 + left + (b2 + w2) == (b1 + left + b2) + w2;
    TrimEndDropsSpaces(b1 + left + b2, w2);
    text := left;
    if b2 == [] {
      assert b1 + left + b2 == b1 + left;
      text := TrimEndKeepsText(b1, left);
      assert b1 + text == b1 + text + b2;
    }
  }

  /** A ticket free of spaces and backticks survives outer spaces, backtick fences and inner spaces. */
  lemma NormalizeRecoversTicket(w1: string, b1: string, x: string, b2: string, w2: string, ticket: string)
    requires AllSpace(w1) && AllSpace(w2) && AllTicks(b1) && AllTicks(b2)
    requires RemoveSpace(x) == ticket != [] && Free(x, TICK)
    ensures Normalize(w1 + b1 + x + b2 + w2) == ticket
  {
    var text := TrimFenced(w1, b1, x, b2, w2);
    assert text != [] && text[0] in text && text[|text| - 1] in text;
    assert b1 + text + b2 == b1 + (text + b2);
    StripLeadingDropsTicks(b1, text + b2);
    StripTrailingDropsTicks(text, b2);
    TrimKeepsVisible(text);
  }

  lemma OneLetterTicket(c: char)
    requires !IsSpace(c) && c != TICK
    ensures Normalize([c]) == [c] && Trim([c]) == [c]
  {
    assert RemoveSpace([c]) == [c];
    NormalizeRecoversTicket("", "", [c], "", "", [c]);
    assert "" + "" + [c] + "" + "" == [c];
  }

  lemma TrimOfSpaceFree(s: string)
    requires SpaceFree(s)
    ensures Trim(s) == s
  {
  }

  lemma {:induction false} StripLeadingLength(s: string)
    ensures |StripLeadingTicks(s)| <= |s|
    ensures SpaceFree(s) ==> SpaceFree(StripLeadingTicks(s))
  {
    if s != [] && s[0] == TICK {
      StripLeadingLength(s[1..]);
    }
  }

  lemma {:induction false} StripTrailingLength(s: string)
    ensures |StripTrailingTicks(s)| <= |s|
    ensures SpaceFree(s) ==> SpaceFree(StripTrailingTicks(s))
    decreases |s|
  {
    if s != [] && s[|s| - 1] == TICK {
      StripTrailingLength(s[..|s| - 1]);
    }
  }

  ghost predicate Fenced(s: string) {
    s != [] && (s[0] == TICK || s[|s| - 1] == TICK)
  }

  /** The text between the outer spaces and backticks, before its inner spaces go. */
  function Core(value: string): string {
    Trim(StripTrailingTicks(StripLeadingTicks(Trim(value))))
  }

  lemma {:induction false} TrimmedEnds(s: string)
    ensures var t := Trim(s); t != [] ==> !IsSpace(t[0]) && !IsSpace(t[|t| - 1])
  {
    TrimStartEnds(s);
    TrimEndEnds(TrimStart(s));
  }

  lemma {:induction false} TrimStartEnds(s: string)
    ensures var t := TrimStart(s); t != [] ==> !IsSpace(t[0])
  {
    if s != [] && IsSpace(s[0]) {
      TrimStartEnds(s[1..]);
    }
  }

  lemma {:induction false} TrimEndEnds(s: string)
    ensures var t := TrimEnd(s); t <= s && (t != [] ==> !IsSpace(t[|t| - 1]))
    decreases |s|
  {
    if s != [] && IsSpace(s[|s| - 1]) {
      TrimEndEnds(s[..|s| - 1]);
    }
  }

  lemma {:induction false} RemoveSpaceKeepsEnds(s: string)
    requires s != [] && !IsSpace(s[|s| - 1])
    ensures RemoveSpace(s) != [] && RemoveSpace(s)[|RemoveSpace(s)| - 1] == s[|s| - 1]
    ensures !IsSpace(s[0]) ==> RemoveSpace(s)[0] == s[0]
  {
    if |s| > 1 {
      RemoveSpaceKeepsEnds(s[1..]);
    } else {
      assert RemoveSpace(s[1..]) == [];
    }
  }

  /** The result has a backtick at an end exactly when the text inside the outer spaces and backticks has. */
  lemma FencedExactlyWhenCoreIs(value: string)
    ensures Fenced(Normalize(value)) <==> Fenced(Core(value))
  {
    var core := Core(value);
    TrimmedEnds(StripTrailingTicks(StripLeadingTicks(Trim(value))));
    if core != [] {
      RemoveSpaceKeepsEnds(core);
    }
  }

  /** Normalizing twice changes nothing exactly when the first result has no backtick at either end. */
  lemma IdempotentExactlyWhenUnfenced(value: string)
    ensures Normalize(Normalize(value)) == Normalize(value) <==> !Fenced(Normalize(value))
    ensures Normalize(Normalize(value)) == Normalize(value) <==> !Fenced(Core(value))
  {
    FencedExactlyWhenCoreIs(value);
    var r := Normalize(value);
    RemoveSpaceIsSpaceFree(Trim(StripTrailingTicks(StripLeadingTicks(Trim(value)))));
    TrimOfSpaceFree(r);
    var stripped := StripLeadingTicks(r);
    StripLeadingLength(r);
    StripTrailingLength(stripped);
    var core := StripTrailingTicks(stripped);
    TrimOfSpaceFree(core);
    RemoveSpaceKeepsSpaceFree(core);
    if r != [] && r[0] == TICK {
      StripLeadingLength(r[1..]);
    } else if Fenced(r) {
      StripTrailingLength(r[..|r| - 1]);
    }
  }

  /** Some pasted text keeps a backtick after one pass. */
  lemma SomeResultStaysFenced()
    ensures Fenced(Normalize("` `x"))
  {
  }
}
