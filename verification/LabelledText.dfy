/** Texts made of lines "label + field": when another choice of fields gives the same text. */
module LabelledText {
  import opened Text

  function Labelled(labels: seq<string>, fields: seq<string>): seq<string>
    requires |labels| == |fields|
  {
    seq(|labels|, i requires 0 <= i < |labels| => labels[i] + fields[i])
  }

  /** A line of the field, other than its first, begins with the label. */
  ghost predicate Hides(field: string, name: string) {
    exists a, b :: field == a + [NEWLINE] + name + b
  }

  /** Field `i` hides its own label, or the field before it does. */
  ghost predicate HidesAt(labels: seq<string>, fields: seq<string>, i: nat) {
    0 < i < |labels| == |fields| && (Hides(fields[i - 1], labels[i]) || Hides(fields[i], labels[i]))
  }

  lemma FreeHidesNothing(field: string, name: string)
    requires Free(field, NEWLINE)
    ensures !Hides(field, name)
  {
    forall a, b ensures field != a + [NEWLINE] + name + b {
      assert (a + [NEWLINE] + name + b)[|a|] == NEWLINE;
    }
  }

  // ---------------------------------------------------------------- two ways of cutting one list of lines

  /** The labelled lines stand at increasing positions. */
  ghost predicate Cuts(lines: seq<string>, labels: seq<string>, cuts: seq<nat>) {
    && |cuts| == |labels|
    && (forall i :: 0 <= i < |cuts| ==> cuts[i] < |lines| && labels[i] <= lines[cuts[i]])
    && (forall i, j :: 0 <= i < j < |cuts| ==> cuts[i] < cuts[j])
  }

  /** Next to the line cut `i` marks, but before the neighbouring cuts, another line begins with its label. */
  ghost predicate OtherLine(lines: seq<string>, labels: seq<string>, cuts: seq<nat>, i: nat, x: nat) {
    && 0 < i < |cuts| - 1 && |cuts| == |labels|
    && cuts[i - 1] < x < cuts[i + 1] && x != cuts[i] && x < |lines| && labels[i] <= lines[x]
  }

  ghost predicate SameEnds(a: seq<nat>, b: seq<nat>) {
    |a| == |b| > 0 && a[0] == b[0] && a[|a| - 1] == b[|b| - 1]
  }

  lemma {:induction false} LaterCut(lines: seq<string>, labels: seq<string>, a: seq<nat>, b: seq<nat>, i: nat)
    returns (j: nat, x: nat)
    requires Cuts(lines, labels, a) && Cuts(lines, labels, b) && SameEnds(a, b) && i < |a| && a[i] < b[i]
    ensures j < |a| - 1 && OtherLine(lines, labels, a, j, x)
    decreases |a| - i
  {
    if b[i + 1] <= a[i + 1] {
      j, x := i, b[i];
    } else {
      j, x := LaterCut(lines, labels, a, b, i + 1);
    }
  }

  lemma {:induction false} EarlierCut(lines: seq<string>, labels: seq<string>, a: seq<nat>, b: seq<nat>, i: nat)
    returns (j: nat, x: nat)
    requires Cuts(lines, labels, a) && Cuts(lines, labels, b) && SameEnds(a, b) && i < |a| && b[i] < a[i]
    ensures j < |a| - 1 && OtherLine(lines, labels, a, j, x)
    decreases i
  {
    if a[i - 1] <= b[i - 1] {
      j, x := i, b[i];
    } else {
      j, x := EarlierCut(lines, labels, a, b, i - 1);
    }
  }

  /** Two different cuts of one list of lines with the same ends show a further line that begins with a label. */
  lemma DifferentCuts(lines: seq<string>, labels: seq<string>, a: seq<nat>, b: seq<nat>) returns (j: nat, x: nat)
    requires Cuts(lines, labels, a) && Cuts(lines, labels, b) && SameEnds(a, b) && a != b
    ensures OtherLine(lines, labels, a, j, x)
  {
    var i: nat :| i < |a| && a[i] != b[i];
    if a[i] < b[i] {
      j, x := LaterCut(lines, labels, a, b, i);
    } else {
      j, x := EarlierCut(lines, labels, a, b, i);
    }
  }

  // ---------------------------------------------------------------- from fields to lines and back

  function LinesBefore(parts: seq<string>, i: nat): nat
    requires i <= |parts|
  {
    |SplitAll(parts[..i], NEWLINE)|
  }

  function CutsOf(parts: seq<string>): seq<nat> {
    seq(|parts|, i requires 0 <= i < |parts| => LinesBefore(parts, i))
  }

  lemma SplitAfter(c: char, s: string)
    requires c != NEWLINE
    ensures Split([c] + s, NEWLINE) == [[c] + Split(s, NEWLINE)[0]] + Split(s, NEWLINE)[1..]
  {
    assert ([c] + s)[1..] == s;
  }

  lemma {:induction false} LabelledLines(name: string, field: string)
    requires Free(name, NEWLINE)
    ensures Split(name + field, NEWLINE) == [name + Split(field, NEWLINE)[0]] + Split(field, NEWLINE)[1..]
    decreases |name|
  {
    if name == [] {
      assert name + field == field && name + Split(field, NEWLINE)[0] == Split(field, NEWLINE)[0];
    } else {
      var rest := name[1..];
      assert Free(rest, NEWLINE) && name[0] in name;
      LabelledLines(rest, field);
      SplitAfter(name[0], rest + field);
      assert name + field == [name[0]] + (rest + field);
      assert [name[0]] + (rest + Split(field, NEWLINE)[0]) == name + Split(field, NEWLINE)[0];
    }
  }

  lemma {:induction false} CutsIncrease(parts: seq<string>, i: nat, j: nat)
    requires i < j <= |parts|
    ensures LinesBefore(parts, i) < LinesBefore(parts, j) <= |SplitAll(parts, NEWLINE)|
    decreases j
  {
    LinesOfPart(parts, j - 1, NEWLINE);
    if i < j - 1 {
      CutsIncrease(parts, i, j - 1);
    }
  }

  lemma LabelStandsAtCut(labels: seq<string>, fields: seq<string>, i: nat)
    requires |labels| == |fields| && AllFree(labels, NEWLINE) && i < |labels|
    ensures var parts := Labelled(labels, fields);
            var lines := SplitAll(parts, NEWLINE);
            LinesBefore(parts, i) < |lines| && labels[i] <= lines[LinesBefore(parts, i)]
  {
    var parts := Labelled(labels, fields);
    LinesOfPart(parts, i, NEWLINE);
    assert Free(labels[i], NEWLINE);
    LabelledLines(labels[i], fields[i]);
    var from, to := LinesBefore(parts, i), LinesBefore(parts, i + 1);
    assert SplitAll(parts, NEWLINE)[from..to][0] == SplitAll(parts, NEWLINE)[from];
  }

  lemma LabelsCutLines(labels: seq<string>, fields: seq<string>)
    requires |labels| == |fields| && AllFree(labels, NEWLINE)
    ensures var parts := Labelled(labels, fields); Cuts(SplitAll(parts, NEWLINE), labels, CutsOf(parts))
  {
    var parts := Labelled(labels, fields);
    forall i | 0 <= i < |parts|
      ensures CutsOf(parts)[i] < |SplitAll(parts, NEWLINE)| && labels[i] <= SplitAll(parts, NEWLINE)[CutsOf(parts)[i]]
    {
      LabelStandsAtCut(labels, fields, i);
    }
    forall i, j | 0 <= i < j < |parts| ensures CutsOf(parts)[i] < CutsOf(parts)[j] {
      CutsIncrease(parts, i, j);
    }
  }

  lemma LineIsHidden(field: string, name: string, y: nat)
    requires 1 <= y < |Split(field, NEWLINE)| && name <= Split(field, NEWLINE)[y]
    ensures Hides(field, name)
  {
    var lines := Split(field, NEWLINE);
    JoinSplit(field, NEWLINE);
    JoinAt(lines, y, NEWLINE);
    var a, tail := Join(lines[..y], NEWLINE), Join(lines[y..], NEWLINE);
    JoinStarts(lines[y..], NEWLINE);
    assert name <= tail;
    assert field == a + [NEWLINE] + name + tail[|name|..];
  }

  /** A line inside the block of part `k` lies in its field, after the field's first line. */
  lemma LineInBlock(labels: seq<string>, fields: seq<string>, k: nat, x: nat, name: string)
    requires |labels| == |fields| && AllFree(labels, NEWLINE) && k < |labels|
    requires var parts := Labelled(labels, fields);
             LinesBefore(parts, k) < x < LinesBefore(parts, k + 1) && x < |SplitAll(parts, NEWLINE)|
             && name <= SplitAll(parts, NEWLINE)[x]
    ensures Hides(fields[k], name)
  {
    var parts := Labelled(labels, fields);
    var lines, from, to := SplitAll(parts, NEWLINE), LinesBefore(parts, k), LinesBefore(parts, k + 1);
    LinesOfPart(parts, k, NEWLINE);
    assert Free(labels[k], NEWLINE);
    LabelledLines(labels[k], fields[k]);
    var y := x - from;
    assert lines[from..to][y] == lines[x];
    assert Split(parts[k], NEWLINE)[1..][y - 1] == Split(fields[k], NEWLINE)[1..][y - 1];
    LineIsHidden(fields[k], name, y);
  }

  lemma SameCutsSameParts(a: seq<string>, b: seq<string>)
    requires |a| == |b| && SplitAll(a, NEWLINE) == SplitAll(b, NEWLINE) && CutsOf(a) == CutsOf(b)
    ensures a == b
  {
    forall i | 0 <= i < |a| ensures a[i] == b[i] {
      LinesOfPart(a, i, NEWLINE);
      LinesOfPart(b, i, NEWLINE);
      assert CutsOf(a)[i] == CutsOf(b)[i];
      assert a[..|a|] == a && b[..|b|] == b;
      assert LinesBefore(a, i + 1) == LinesBefore(b, i + 1) by {
        if i + 1 < |a| {
          assert CutsOf(a)[i + 1] == CutsOf(b)[i + 1];
        }
      }
      JoinSplit(a[i], NEWLINE);
      JoinSplit(b[i], NEWLINE);
    }
  }

  lemma LastCut(labels: seq<string>, fields: seq<string>)
    requires |labels| == |fields| > 0 && AllFree(labels, NEWLINE) && Free(fields[|fields| - 1], NEWLINE)
    ensures var parts := Labelled(labels, fields);
            CutsOf(parts)[|parts| - 1] == |SplitAll(parts, NEWLINE)| - 1
  {
    var parts, n := Labelled(labels, fields), |labels| - 1;
    assert Free(labels[n], NEWLINE);
    SplitFree(fields[n], NEWLINE);
    LabelledLines(labels[n], fields[n]);
    assert parts[..n] + [parts[n]] == parts;
  }

  lemma LabelledIsInjective(labels: seq<string>, f: seq<string>, g: seq<string>)
    requires |labels| == |f| == |g| && Labelled(labels, f) == Labelled(labels, g)
    ensures f == g
  {
    forall i | 0 <= i < |f| ensures f[i] == g[i] {
      assert Labelled(labels, f)[i] == Labelled(labels, g)[i];
      assert (labels[i] + f[i])[|labels[i]|..] == f[i] && (labels[i] + g[i])[|labels[i]|..] == g[i];
    }
  }

  lemma {:induction false} CollisionCutsDiffer(labels: seq<string>, f: seq<string>, g: seq<string>)
    requires |labels| == |f| == |g| > 0 && AllFree(labels, NEWLINE)
    requires f != g && Join(Labelled(labels, f), NEWLINE) == Join(Labelled(labels, g), NEWLINE)
    ensures SplitAll(Labelled(labels, f), NEWLINE) == SplitAll(Labelled(labels, g), NEWLINE)
    ensures CutsOf(Labelled(labels, f)) != CutsOf(Labelled(labels, g))
  {
    var a, b := Labelled(labels, f), Labelled(labels, g);
    SplitOfJoin(a, NEWLINE);
    SplitOfJoin(b, NEWLINE);
    if CutsOf(a) == CutsOf(b) {
      SameCutsSameParts(a, b);
      LabelledIsInjective(labels, f, g);
    }
  }

  lemma {:induction false} SameEndsOf(labels: seq<string>, f: seq<string>, g: seq<string>)
    requires |labels| == |f| == |g| > 0 && AllFree(labels, NEWLINE)
    requires Free(f[|f| - 1], NEWLINE) && Free(g[|g| - 1], NEWLINE)
    requires SplitAll(Labelled(labels, f), NEWLINE) == SplitAll(Labelled(labels, g), NEWLINE)
    ensures SameEnds(CutsOf(Labelled(labels, f)), CutsOf(Labelled(labels, g)))
  {
    LastCut(labels, f);
    LastCut(labels, g);
    assert Labelled(labels, f)[..0] == [] && Labelled(labels, g)[..0] == [];
  }

  lemma {:induction false} OtherLineIsHidden(labels: seq<string>, f: seq<string>, i: nat, x: nat)
    requires |labels| == |f| && AllFree(labels, NEWLINE)
    requires var parts := Labelled(labels, f); OtherLine(SplitAll(parts, NEWLINE), labels, CutsOf(parts), i, x)
    ensures HidesAt(labels, f, i)
  {
    if x < CutsOf(Labelled(labels, f))[i] {
      LineInBlock(labels, f, i - 1, x, labels[i]);
    } else {
      LineInBlock(labels, f, i, x, labels[i]);
    }
  }

  /** If two choices of fields, each with a last field of one line, give one text, the first hides a label. */
  lemma {:induction false} CollisionHidesLabel(labels: seq<string>, f: seq<string>, g: seq<string>) returns (i: nat)
    requires |labels| == |f| == |g| > 0 && AllFree(labels, NEWLINE)
    requires Free(f[|f| - 1], NEWLINE) && Free(g[|g| - 1], NEWLINE)
    requires f != g && Join(Labelled(labels, f), NEWLINE) == Join(Labelled(labels, g), NEWLINE)
    ensures i < |labels| - 1 && HidesAt(labels, f, i)
  {
    CollisionCutsDiffer(labels, f, g);
    SameEndsOf(labels, f, g);
    LabelsCutLines(labels, f);
    LabelsCutLines(labels, g);
    var a, b := Labelled(labels, f), Labelled(labels, g);
    var x: nat;
    i, x := DifferentCuts(SplitAll(a, NEWLINE), labels, CutsOf(a), CutsOf(b));
    OtherLineIsHidden(labels, f, i, x);
  }

  /** The fields with `u` and `w` in places i - 1 and i. */
  function WithPair(f: seq<string>, i: nat, u: string, w: string): seq<string>
    requires 0 < i < |f|
  {
    f[..i - 1] + [u, w] + f[i + 1..]
  }

  lemma LabelledPair(labels: seq<string>, f: seq<string>, i: nat, u: string, w: string)
    requires 0 < i < |labels| == |f|
    ensures Labelled(labels, WithPair(f, i, u, w))
            == Labelled(labels, f)[..i - 1] + [labels[i - 1] + u, labels[i] + w] + Labelled(labels, f)[i + 1..]
  {
  }

  lemma {:induction false} HiddenBefore(labels: seq<string>, f: seq<string>, i: nat, a: string, b: string)
    requires 0 < i < |labels| == |f| && f[i - 1] == a + [NEWLINE] + labels[i] + b
    ensures Join(Labelled(labels, WithPair(f, i, a, b + [NEWLINE] + labels[i] + f[i])), NEWLINE)
            == Join(Labelled(labels, f), NEWLINE)
  {
    var parts, left, middle, right := Labelled(labels, f), labels[i - 1] + a, labels[i] + b, labels[i] + f[i];
    LabelledPair(labels, f, i, f[i - 1], f[i]);
    assert WithPair(f, i, f[i - 1], f[i]) == f;
    LabelledPair(labels, f, i, a, b + [NEWLINE] + labels[i] + f[i]);
    assert labels[i - 1] + f[i - 1] == left + [NEWLINE] + middle;
    assert labels[i] + (b + [NEWLINE] + labels[i] + f[i]) == middle + [NEWLINE] + right;
    BoundaryMoves(parts[..i - 1], left, middle, right, parts[i + 1..], NEWLINE);
  }

  lemma {:induction false} HiddenWithin(labels: seq<string>, f: seq<string>, i: nat, a: string, b: string)
    requires 0 < i < |labels| == |f| && f[i] == a + [NEWLINE] + labels[i] + b
    ensures Join(Labelled(labels, WithPair(f, i, f[i - 1] + [NEWLINE] + labels[i] + a, b)), NEWLINE)
            == Join(Labelled(labels, f), NEWLINE)
  {
    var parts, left, middle, right := Labelled(labels, f), labels[i - 1] + f[i - 1], labels[i] + a, labels[i] + b;
    LabelledPair(labels, f, i, f[i - 1], f[i]);
    assert WithPair(f, i, f[i - 1], f[i]) == f;
    LabelledPair(labels, f, i, f[i - 1] + [NEWLINE] + labels[i] + a, b);
    assert labels[i] + f[i] == middle + [NEWLINE] + right;
    assert labels[i - 1] + (f[i - 1] + [NEWLINE] + labels[i] + a) == left + [NEWLINE] + middle;
    BoundaryMoves(parts[..i - 1], left, middle, right, parts[i + 1..], NEWLINE);
  }

  /** A hidden label lets the text between two of its occurrences change fields. */
  lemma {:induction false} HiddenLabelCollides(labels: seq<string>, f: seq<string>, i: nat) returns (u: string, w: string)
    requires |labels| == |f| && HidesAt(labels, f, i)
    ensures u != f[i - 1]
    ensures Join(Labelled(labels, WithPair(f, i, u, w)), NEWLINE) == Join(Labelled(labels, f), NEWLINE)
  {
    if Hides(f[i - 1], labels[i]) {
      var a, b :| f[i - 1] == a + [NEWLINE] + labels[i] + b;
      HiddenBefore(labels, f, i, a, b);
      u, w := a, b + [NEWLINE] + labels[i] + f[i];
      assert |u| < |f[i - 1]|;
    } else {
      var a, b :| f[i] == a + [NEWLINE] + labels[i] + b;
      HiddenWithin(labels, f, i, a, b);
      u, w := f[i - 1] + [NEWLINE] + labels[i] + a, b;
      assert |u| > |f[i - 1]|;
    }
  }
}
