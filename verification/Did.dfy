/** Decentralized identifiers `did:cdi:<authority>:<entity>:<ulid>`: printing, parsing and their grammar. */
module Did {
  import opened Outcomes
  import opened Text

  const MAX_AUTHORITY_LENGTH := 253
  const ULID_LENGTH := 26

  datatype Entity = Human | Agent

  /** The method is always "cdi", so it is not stored. */
  datatype ParsedDid = ParsedDid(authority: string, entity: Entity, ulid: string)

  datatype DidError = InvalidDid(value: string)

  predicate IsLowerAlphanumeric(c: char) {
    'a' <= c <= 'z' || '0' <= c <= '9'
  }

  predicate IsDnsLabel(part: string) {
    && part != []
    && IsLowerAlphanumeric(part[0])
    && IsLowerAlphanumeric(part[|part| - 1])
    && forall i :: 0 <= i < |part| ==> IsLowerAlphanumeric(part[i]) || part[i] == '-'
  }

  predicate IsAuthority(authority: string) {
    && 0 < |authority| <= MAX_AUTHORITY_LENGTH
    && var labels := Split(authority, '.');
       |labels| >= 2 && forall i :: 0 <= i < |labels| ==> IsDnsLabel(labels[i])
  }

  predicate IsUlidCharacter(c: char) {
    || '0' <= c <= '9'
    || 'A' <= c <= 'H'
    || c == 'J' || c == 'K' || c == 'M' || c == 'N'
    || 'P' <= c <= 'T'
    || 'V' <= c <= 'Z'
  }

  /** `decodes` stands for the identifier library accepting a string that has the right shape. */
  predicate IsUlid(decodes: string -> bool, value: string) {
    && |value| == ULID_LENGTH
    && (forall i :: 0 <= i < |value| ==> IsUlidCharacter(value[i]))
    && decodes(value)
  }

  function EntityText(entity: Entity): string {
    match entity
    case Human => "human"
    case Agent => "agent"
  }

  function DidText(authority: string, entity: Entity, id: string): string {
    "did:cdi:" + authority + ":" + EntityText(entity) + ":" + id
  }

  function MakeDid(decodes: string -> bool, authority: string, entity: Entity, id: string): Result<string, DidError> {
    var value := DidText(authority, entity, id);
    if !IsAuthority(authority) then Err(InvalidDid(value))
    else if !IsUlid(decodes, id) then Err(InvalidDid(value))
    else Ok(value)
  }

  function ParseDid(decodes: string -> bool, value: string): Result<ParsedDid, DidError> {
    var parts := Split(value, ':');
    if |parts| != 5 then Err(InvalidDid(value))
    else if parts[0] != "did" || parts[1] != "cdi" then Err(InvalidDid(value))
    else if !IsAuthority(parts[2]) then Err(InvalidDid(value))
    else if parts[3] != "human" && parts[3] != "agent" then Err(InvalidDid(value))
    else if !IsUlid(decodes, parts[4]) then Err(InvalidDid(value))
    else Ok(ParsedDid(parts[2], if parts[3] == "agent" then Agent else Human, parts[4]))
  }

  /** The parsers of agents' and of humans' identifiers, which differ only in the entity they expect. */
  function ParseEntityDid(decodes: string -> bool, value: string, entity: Entity): Result<ParsedDid, DidError> {
    var parsed := ParseDid(decodes, value);
    if parsed.Ok? && parsed.value.entity != entity then Err(InvalidDid(value)) else parsed
  }

  function ParseAgentDid(decodes: string -> bool, value: string): Result<ParsedDid, DidError> {
    ParseEntityDid(decodes, value, Agent)
  }

  predicate IsAgentDid(decodes: string -> bool, value: string) {
    ParseAgentDid(decodes, value).Ok?
  }

  // ---------------------------------------------------------------- grammar

  ghost predicate IsDidCharacter(c: char) {
    IsLowerAlphanumeric(c) || c == '-' || c == '.' || c == ':' || IsUlidCharacter(c)
  }

  lemma AuthorityCharacters(authority: string, c: char)
    requires IsAuthority(authority) && c in authority
    ensures IsLowerAlphanumeric(c) || c == '-' || c == '.'
  {
    var labels := Split(authority, '.');
    JoinSplit(authority, '.');
    JoinCharacters(labels, '.', c);
    if c != '.' {
      var i :| 0 <= i < |labels| && c in labels[i];
      assert IsDnsLabel(labels[i]);
    }
  }

  lemma DidTextIsJoin(authority: string, entity: Entity, id: string)
    ensures DidText(authority, entity, id) == Join(["did", "cdi", authority, EntityText(entity), id], ':')
  {
    var parts := ["did", "cdi", authority, EntityText(entity), id];
    assert Join(parts[4..], ':') == id;
    assert parts[3..][1..] == parts[4..];
    assert Join(parts[3..], ':') == EntityText(entity) + ":" + id;
    assert parts[2..][1..] == parts[3..];
    assert Join(parts[2..], ':') == authority + ":" + (EntityText(entity) + ":" + id);
    assert parts[1..][1..] == parts[2..];
    assert Join(parts[1..], ':') == "cdi" + ":" + (authority + ":" + (EntityText(entity) + ":" + id));
    assert Join(parts, ':') == "did" + ":" + Join(parts[1..], ':');
  }

  /** What is printed parses back to the same fields, and printing succeeds exactly on valid fields. */
  lemma ParseUndoesMake(decodes: string -> bool, authority: string, entity: Entity, id: string)
    ensures MakeDid(decodes, authority, entity, id).Ok? <==> IsAuthority(authority) && IsUlid(decodes, id)
    ensures MakeDid(decodes, authority, entity, id).Ok? ==>
              ParseDid(decodes, MakeDid(decodes, authority, entity, id).value) == Ok(ParsedDid(authority, entity, id))
  {
    if MakeDid(decodes, authority, entity, id).Ok? {
      var parts := ["did", "cdi", authority, EntityText(entity), id];
      DidTextIsJoin(authority, entity, id);
      assert Free(authority, ':') by {
        if ':' in authority {
          AuthorityCharacters(authority, ':');
        }
      }
      assert AllFree(parts, ':');
      SplitJoin(parts, ':');
    }
  }

  /** Every accepted identifier is the printed form of its parsed fields. */
  lemma MakeUndoesParse(decodes: string -> bool, value: string)
    requires ParseDid(decodes, value).Ok?
    ensures var p := ParseDid(decodes, value).value;
            MakeDid(decodes, p.authority, p.entity, p.ulid) == Ok(value)
  {
    var p := ParseDid(decodes, value).value;
    var parts := Split(value, ':');
    DidTextIsJoin(p.authority, p.entity, p.ulid);
    assert parts == ["did", "cdi", p.authority, EntityText(p.entity), p.ulid];
    JoinSplit(value, ':');
  }

  /** A string parses as an agent's (a human's) identifier exactly when printing some valid fields yields it. */
  lemma ParseAcceptsExactlyMade(decodes: string -> bool, value: string, entity: Entity)
    ensures ParseEntityDid(decodes, value, entity).Ok? <==>
            exists authority, id :: MakeDid(decodes, authority, entity, id) == Ok(value)
  {
    if ParseEntityDid(decodes, value, entity).Ok? {
      MakeUndoesParse(decodes, value);
      var p := ParseDid(decodes, value).value;
      assert MakeDid(decodes, p.authority, entity, p.ulid) == Ok(value);
    }
    if authority, id :| MakeDid(decodes, authority, entity, id) == Ok(value) {
      ParseUndoesMake(decodes, authority, entity, id);
    }
  }

  /** A parsed identifier is free of every character outside the grammar, '|' among them. */
  lemma DidCharacters(decodes: string -> bool, value: string, c: char)
    requires ParseDid(decodes, value).Ok? && c in value
    ensures IsDidCharacter(c) && c != '|'
  {
    var p := ParseDid(decodes, value).value;
    MakeUndoesParse(decodes, value);
    DidTextIsJoin(p.authority, p.entity, p.ulid);
    var parts := ["did", "cdi", p.authority, EntityText(p.entity), p.ulid];
    JoinCharacters(parts, ':', c);
    if c in p.authority {
      AuthorityCharacters(p.authority, c);
    }
  }

  lemma AgentDidIsBarFree(decodes: string -> bool, value: string)
    requires IsAgentDid(decodes, value)
    ensures Free(value, '|')
  {
    if '|' in value {
      DidCharacters(decodes, value, '|');
    }
  }
}
