/** The string operations of the source language that the other modules rely on. */
module Text {

  const NEWLINE := '\n'

  /** The characters that `trim` strips and that the pattern `\s` matches. */
  predicate IsSpace(c: char) {
    || '\U{0009}' <= c <= '\U{000D}'
    || c == ' '
    || c == '\U{00A0}'
    || c == '\U{1680}'
    || '\U{2000}' <= c <= '\U{200A}'
    || c == '\U{2028}'
    || c == '\U{2029}'
    || c == '\U{202F}'
    || c == '\U{205F}'
    || c == '\U{3000}'
    || c == '\U{FEFF}'
  }

  function TrimStart(s: string): string {
    if s != [] && IsSpace(s[0]) then TrimStart(s[1..]) else s
  }

  function TrimEnd(s: string): string {
    if s != [] && IsSpace(s[|s| - 1]) then TrimEnd(s[..|s| - 1]) else s
  }

  function Trim(s: string): string {
    TrimEnd(TrimStart(s))
  }

  /** `s.split(sep)` for a one-character separator. */
  function Split(s: string, sep: char): (parts: seq<string>)
    ensures |parts| >= 1
  {
    if s == [] then [""]
    else
      var rest := Split(s[1..], sep);
      if s[0] == sep then [""] + rest else [[s[0]] + rest[0]] + rest[1..]
  }

  /** `parts.join(sep)`. */
  function Join(parts: seq<string>, sep: char): string {
    if |parts| == 0 then ""
    else if |parts| == 1 then parts[0]
    else parts[0] + [sep] + Join(parts[1..], sep)
  }

  ghost predicate Free(s: string, c: char) {
    c !in s
  }

  ghost predicate AllFree(parts: seq<string>, c: char) {
    forall i :: 0 <= i < |parts| ==> Free(parts[i], c)
  }

  lemma {:induction false} SplitPartsAreFree(s: string, sep: char)
    ensures AllFree(Split(s, sep), sep)
  {
    if s != [] {
      SplitPartsAreFree(s[1..], sep);
      var rest := Split(s[1..], sep);
      assert Free(rest[0], sep);
    }
  }

  lemma {:induction false} JoinSplit(s: string, sep: char)
    ensures Join(Split(s, sep), sep) == s
  {
    if s != [] {
      JoinSplit(s[1..], sep);
      var rest := Split(s[1..], sep);
      var parts := Split(s, sep);
      if s[0] == sep {
        assert parts[1..] == rest;
      } else if |rest| > 1 {
        assert parts[1..] == rest[1..];
      }
    }
  }

  lemma {:induction false} SplitFree(s: string, sep: char)
    requires Free(s, sep)
    ensures Split(s, sep) == [s]
  {
    if s != [] {
      assert s[0] in s;
      assert Free(s[1..], sep);
      SplitFree(s[1..], sep);
      assert [s[0]] + s[1..] == s;
    }
  }

  /** Splitting around one separator splits both sides separately. */
  lemma {:induction false} SplitConcat(s: string, t: string, sep: char)
    ensures Split(s + [sep] + t, sep) == Split(s, sep) + Split(t, sep)
  {
    var whole := s + [sep] + t;
    if s == [] {
      assert whole[1..] == t;
    } else {
      var rest, after := Split(s[1..], sep), Split(t, sep);
      assert whole[0] == s[0];
      assert Split(whole[1..], sep) == rest + after by {
        assert whole[1..] == s[1..] + [sep] + t;
        SplitConcat(s[1..], t, sep);
      }
      if s[0] == sep {
        assert Split(whole, sep) == [""] + (rest + after);
        assert [""] + (rest + after) == ([""] + rest) + after;
      } else {
        assert Split(whole, sep) == [[s[0]] + rest[0]] + (rest + after)[1..];
        assert (rest + after)[1..] == rest[1..] + after;
      }
    }
  }

  /** A text that contains one separator splits in only one way. */
  lemma OneSeparatorSplitsOnce(a: string, b: string, x: string, y: string, sep: char)
    requires Free(a, sep) && Free(b, sep) && Free(x, sep) && Free(y, sep)
    requires a + [sep] + b == x + [sep] + y
    ensures a == x && b == y
  {
    SplitConcat(a, b, sep);
    SplitConcat(x, y, sep);
    SplitFree(a, sep);
    SplitFree(b, sep);
    SplitFree(x, sep);
    SplitFree(y, sep);
    assert ([a] + [b])[0] == ([x] + [y])[0] && ([a] + [b])[1] == ([x] + [y])[1];
  }

  lemma {:induction false} SplitJoin(parts: seq<string>, sep: char)
    requires |parts| >= 1 && AllFree(parts, sep)
    ensures Split(Join(parts, sep), sep) == parts
  {
    assert Free(parts[0], sep);
    SplitFree(parts[0], sep);
    if |parts| > 1 {
      assert AllFree(parts[1..], sep) by {
        forall i | 0 <= i < |parts[1..]| ensures Free(parts[1..][i], sep) {
          assert Free(parts[i + 1], sep);
        }
      }
      SplitJoin(parts[1..], sep);
      SplitConcat(parts[0], Join(parts[1..], sep), sep);
      assert parts == [parts[0]] + parts[1..];
    }
  }

  /** Joined texts split into at least as many parts, and into exactly as many only when none holds a separator. */
  lemma {:induction false} JoinedPartsCanOnlySplitFurther(parts: seq<string>, sep: char)
    requires |parts| >= 1
    ensures |Split(Join(parts, sep), sep)| >= |parts|
    ensures |Split(Join(parts, sep), sep)| == |parts| ==> AllFree(parts, sep)
  {
    if |parts| > 1 {
      SplitConcat(parts[0], Join(parts[1..], sep), sep);
      JoinedPartsCanOnlySplitFurther(parts[1..], sep);
    }
    if |Split(Join(parts, sep), sep)| == |parts| {
      JoinSplit(parts[0], sep);
      SplitPartsAreFree(parts[0], sep);
      forall i | 0 <= i < |parts| ensures Free(parts[i], sep) {
        if i > 0 {
          assert Free(parts[1..][i - 1], sep);
        } else {
          assert Free(Split(parts[0], sep)[0], sep);
        }
      }
    }
  }

  /** Parts without separators are recovered from the joined text, whatever characters the other parts may have. */
  lemma JoinIsInjectiveOnFreeParts(a: seq<string>, b: seq<string>, sep: char)
    requires |a| == |b| >= 1 && AllFree(a, sep)
    requires Join(a, sep) == Join(b, sep)
    ensures a == b
  {
    SplitJoin(a, sep);
    JoinedPartsCanOnlySplitFurther(b, sep);
    SplitJoin(b, sep);
  }

  /** A separator inside a part reads like the boundary of two parts. */
  lemma {:induction false} SeparatorInsidePart(before: seq<string>, a: string, b: string, after: seq<string>, sep: char)
    ensures Join(before + [a + [sep] + b] + after, sep) == Join(before + [a, b] + after, sep)
  {
    var one, two := before + [a + [sep] + b] + after, before + [a, b] + after;
    if before == [] {
      assert two[1..] == [b] + after && one[1..] == after;
      assert ([b] + after)[1..] == after;
      if after != [] {
        assert Join(two, sep) == a + [sep] + (b + [sep] + Join(after, sep));
      }
    } else {
      assert one[1..] == before[1..] + [a + [sep] + b] + after && two[1..] == before[1..] + [a, b] + after;
      SeparatorInsidePart(before[1..], a, b, after, sep);
    }
  }

  /** So joining cannot tell to which of two neighbours the text between two separators belongs. */
  lemma BoundaryMoves(before: seq<string>, a: string, b: string, c: string, after: seq<string>, sep: char)
    ensures Join(before + [a + [sep] + b, c] + after, sep) == Join(before + [a, b + [sep] + c] + after, sep)
  {
    assert before + [a + [sep] + b, c] + after == before + [a + [sep] + b] + ([c] + after);
    assert before + [a, b] + ([c] + after) == (before + [a]) + [b, c] + after;
    assert (before + [a]) + [b + [sep] + c] + after == before + [a, b + [sep] + c] + after;
    SeparatorInsidePart(before, a, b, [c] + after, sep);
    SeparatorInsidePart(before + [a], b, c, after, sep);
  }

  lemma {:induction false} JoinStarts(parts: seq<string>, sep: char)
    requires |parts| >= 1
    ensures parts[0] <= Join(parts, sep)
  {
  }

  lemma {:induction false} JoinAt(parts: seq<string>, k: nat, sep: char)
    requires 1 <= k < |parts|
    ensures Join(parts, sep) == Join(parts[..k], sep) + [sep] + Join(parts[k..], sep)
  {
    if k > 1 {
      JoinAt(parts[1..], k - 1, sep);
      assert parts[1..][..k - 1] == parts[..k][1..] && parts[1..][k - 1..] == parts[k..];
    } else {
      assert parts[..1] == [parts[0]];
    }
  }

  /** The lines of all parts, in order. */
  function SplitAll(parts: seq<string>, sep: char): seq<string> {
    if parts == [] then [] else SplitAll(parts[..|parts| - 1], sep) + Split(parts[|parts| - 1], sep)
  }

  lemma {:induction false} JoinLast(parts: seq<string>, last: string, sep: char)
    requires |parts| >= 1
    ensures Join(parts + [last], sep) == Join(parts, sep) + [sep] + last
  {
    JoinAt(parts + [last], |parts|, sep);
    assert (parts + [last])[..|parts|] == parts && (parts + [last])[|parts|..] == [last];
  }

  /** Splitting joined parts splits every part. */
  lemma {:induction false} SplitOfJoin(parts: seq<string>, sep: char)
    requires |parts| >= 1
    ensures Split(Join(parts, sep), sep) == SplitAll(parts, sep)
  {
    var n := |parts| - 1;
    if n == 0 {
      assert SplitAll(parts[..0], sep) == [];
    } else {
      SplitOfJoin(parts[..n], sep);
      JoinLast(parts[..n], parts[n], sep);
      assert parts == parts[..n] + [parts[n]];
      SplitConcat(Join(parts[..n], sep), parts[n], sep);
    }
  }

  /** The lines of part `i` stand where the lines of the parts before it end. */
  lemma {:induction false} LinesOfPart(parts: seq<string>, i: nat, sep: char)
    requires i < |parts|
    ensures var from, to := |SplitAll(parts[..i], sep)|, |SplitAll(parts[..i + 1], sep)|;
            from < to <= |SplitAll(parts, sep)| && SplitAll(parts, sep)[from..to] == Split(parts[i], sep)
  {
    assert parts[..i + 1][..i] == parts[..i];
    if i + 1 < |parts| {
      var n := |parts| - 1;
      LinesOfPart(parts[..n], i, sep);
      assert parts[..n][..i] == parts[..i] && parts[..n][..i + 1] == parts[..i + 1];
    } else {
      assert parts[..i + 1] == parts;
    }
  }

  lemma {:induction false} JoinCharacters(parts: seq<string>, sep: char, c: char)
    requires c in Join(parts, sep)
    ensures c == sep || exists i :: 0 <= i < |parts| && c in parts[i]
  {
    if |parts| > 1 && c !in parts[0] && c != sep {
      JoinCharacters(parts[1..], sep, c);
      var i :| 0 <= i < |parts[1..]| && c in parts[1..][i];
      assert c in parts[i + 1];
    } else if |parts| >= 1 && c in parts[0] {
    }
  }
}
