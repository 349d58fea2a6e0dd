/** The grammar of identifiers, character by character, without splitting them into parts. */
module DidGrammar {
  import opened Outcomes
  import opened Text
  import opened Did

  lemma LettersAndDigits(c: char)
    ensures IsLowerAlphanumeric(c) <==> c in "abcdefghijklmnopqrstuvwxyz0123456789"
  {
  }

  /** Lower-case letters, digits, dots and hyphens; letters or digits at both ends and on both sides of every dot. */
  ghost predicate IsHostName(s: string) {
    && s != ""
    && (forall i :: 0 <= i < |s| ==> IsLowerAlphanumeric(s[i]) || s[i] == '-' || s[i] == '.')
    && IsLowerAlphanumeric(s[0]) && IsLowerAlphanumeric(s[|s| - 1])
    && (forall i :: 0 < i < |s| - 1 && s[i] == '.' ==> IsLowerAlphanumeric(s[i - 1]) && IsLowerAlphanumeric(s[i + 1]))
  }

  ghost predicate AreLabels(labels: seq<string>) {
    forall i :: 0 <= i < |labels| ==> IsDnsLabel(labels[i])
  }

  lemma LabelIsHostName(s: string)
    requires Free(s, '.')
    ensures IsDnsLabel(s) <==> IsHostName(s)
  {
  }

  lemma PartsOfHostName(p: string, q: string, s: string)
    requires s == p + "." + q && Free(p, '.') && IsHostName(s)
    ensures IsHostName(p) && IsHostName(q)
  {
    var n := |p|;
    assert s[n] == '.' && 0 < n < |s| - 1;
    assert forall i :: 0 <= i < n ==> s[i] == p[i];
    assert forall i :: 0 <= i < |q| ==> s[n + 1 + i] == q[i];
    forall i | 0 < i < |q| - 1 && q[i] == '.' ensures IsLowerAlphanumeric(q[i - 1]) && IsLowerAlphanumeric(q[i + 1]) {
      assert s[n + 1 + i] == '.';
      assert s[n + 1 + i - 1] == q[i - 1] && s[n + 1 + i + 1] == q[i + 1];
    }
  }

  lemma HostNameOfParts(p: string, q: string, s: string)
    requires s == p + "." + q && IsHostName(p) && IsHostName(q) && Free(p, '.')
    ensures IsHostName(s)
  {
    var n := |p|;
    assert forall i :: 0 <= i < n ==> s[i] == p[i];
    assert s[n] == '.';
    assert forall i :: n < i < |s| ==> s[i] == q[i - n - 1];
  }

  /** A host name with a dot is a label, the dot, and a host name. */
  lemma HostNameSplits(p: string, q: string)
    requires Free(p, '.')
    ensures IsHostName(p + "." + q) <==> IsHostName(p) && IsHostName(q)
  {
    if IsHostName(p + "." + q) {
      PartsOfHostName(p, q, p + "." + q);
    }
    if IsHostName(p) && IsHostName(q) {
      HostNameOfParts(p, q, p + "." + q);
    }
  }

  function BeforeDot(s: string): string
    requires '.' in s
  {
    if s[0] == '.' then "" else [s[0]] + BeforeDot(s[1..])
  }

  lemma {:induction false} BeforeDotIsFree(s: string)
    requires '.' in s
    ensures var p := BeforeDot(s); Free(p, '.') && |p| < |s| && s == p + "." + s[|p| + 1..]
  {
    if s[0] != '.' {
      BeforeDotIsFree(s[1..]);
    }
  }

  lemma {:induction false} LabelsAreHostName(s: string)
    ensures AreLabels(Split(s, '.')) <==> IsHostName(s)
    ensures |Split(s, '.')| >= 2 <==> '.' in s
    decreases |s|
  {
    if '.' in s {
      var p := BeforeDot(s);
      BeforeDotIsFree(s);
      var q := s[|p| + 1..];
      LabelsAreHostName(q);
      SplitConcat(p, q, '.');
      SplitFree(p, '.');
      assert s == p + ['.'] + q && Split(s, '.') == [p] + Split(q, '.');
      LabelIsHostName(p);
      HostNameSplits(p, q);
      FirstAndRest(p, Split(q, '.'));
    } else {
      SplitFree(s, '.');
      LabelIsHostName(s);
      assert [s][0] == s;
    }
  }

  lemma FirstAndRest(p: string, rest: seq<string>)
    ensures AreLabels([p] + rest) <==> IsDnsLabel(p) && AreLabels(rest)
  {
    var all := [p] + rest;
    assert all[0] == p;
    if AreLabels(all) {
      forall i | 0 <= i < |rest| ensures IsDnsLabel(rest[i]) {
        assert all[i + 1] == rest[i];
      }
    }
  }

  /** An authority is a host name with a dot, of at most 253 characters. */
  lemma AuthorityIsHostName(authority: string)
    ensures IsAuthority(authority) <==> IsHostName(authority) && '.' in authority && |authority| <= 253
  {
    LabelsAreHostName(authority);
    var labels := Split(authority, '.');
    assert AreLabels(labels) <==> forall i :: 0 <= i < |labels| ==> IsDnsLabel(labels[i]);
  }

  /** Twenty-six digits and capital letters other than I, L, O and U, which the library decodes. */
  ghost predicate IsUlidText(decodes: string -> bool, id: string) {
    |id| == 26 && (forall i :: 0 <= i < |id| ==> id[i] in "0123456789ABCDEFGHJKMNPQRSTVWXYZ") && decodes(id)
  }

  lemma UlidIsUlidText(decodes: string -> bool, id: string)
    ensures IsUlid(decodes, id) <==> IsUlidText(decodes, id)
  {
  }

  /** A string is an agent's identifier exactly when it has this form. */
  lemma AgentIdentifiersExactly(decodes: string -> bool, value: string)
    ensures IsAgentDid(decodes, value) <==>
            exists authority: string, id: string ::
              && value == "did:cdi:" + authority + ":agent:" + id
              && IsHostName(authority) && '.' in authority && |authority| <= 253 && IsUlidText(decodes, id)
  {
    ParseAcceptsExactlyMade(decodes, value, Agent);
    if authority, id :| MakeDid(decodes, authority, Agent, id) == Ok(value) {
      AuthorityIsHostName(authority);
      UlidIsUlidText(decodes, id);
      SameForm(authority, id);
    }
    if authority: string, id: string :|
      && value == "did:cdi:" + authority + ":agent:" + id
      && IsHostName(authority) && '.' in authority && |authority| <= 253 && IsUlidText(decodes, id)
    {
      AuthorityIsHostName(authority);
      UlidIsUlidText(decodes, id);
      SameForm(authority, id);
      assert MakeDid(decodes, authority, Agent, id) == Ok(value);
    }
  }

  lemma SameForm(authority: string, id: string)
    ensures DidText(authority, Agent, id) == "did:cdi:" + authority + ":agent:" + id
  {
    assert ":" + "agent" + ":" == ":agent:";
  }
}
