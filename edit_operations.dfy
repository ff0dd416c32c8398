/** The operator suffix of an edit value (ModManagerFix.ParseOperation). */
module EditOperations {
  import opened Strings

  datatype EditOperation = Overwrite | Insert | Remove | DefaultValue

  const InsertToken: string := "!+"
  const RemoveToken: string := "!-"
  const DefaultValueToken: string := "!d"

  /** operationMap, in the order a freshly built Dictionary enumerates it. */
  const OperationMap: seq<(string, EditOperation)> :=
    [(InsertToken, Insert), (RemoveToken, Remove), (DefaultValueToken, DefaultValue)]

  /** The suffix that selects `op`. */
  function Token(op: EditOperation): (t: string)
    requires op != Overwrite
    ensures |t| == 2 && t[0] == '!'
  {
    match op
    case Insert => InsertToken
    case Remove => RemoveToken
    case DefaultValue => DefaultValueToken
  }

  /** What remains of `raw` once the operator token is dealt with: every occurrence of the token
      is removed (not just the suffix), then trailing spaces are trimmed. */
  function Cleaned(raw: string, token: string): string
    requires token != []
  {
    TrimEnd(RemoveAll(raw, token), ' ')
  }

  /** The first entry of `table` whose token ends `raw` decides the operation. */
  function MatchOperator(raw: string, table: seq<(string, EditOperation)>): (EditOperation, string)
    requires forall k :: 0 <= k < |table| ==> table[k].0 != []
  {
    if table == [] then (Overwrite, raw)
    else if EndsWith(raw, table[0].0) then (table[0].1, Cleaned(raw, table[0].0))
    else MatchOperator(raw, table[1..])
  }

  /** A value ends with at most one of the operator tokens. */
  lemma TokensExclusive(raw: string)
    ensures EndsWith(raw, InsertToken) ==> !EndsWith(raw, RemoveToken) && !EndsWith(raw, DefaultValueToken)
    ensures EndsWith(raw, RemoveToken) ==> !EndsWith(raw, DefaultValueToken)
  {
    if |raw| >= 2 {
      var last := raw[|raw| - 1];
      assert EndsWith(raw, InsertToken) ==> last == raw[|raw| - 2..][1] == '+';
      assert EndsWith(raw, RemoveToken) ==> last == raw[|raw| - 2..][1] == '-';
      assert EndsWith(raw, DefaultValueToken) ==> last == raw[|raw| - 2..][1] == 'd';
    }
  }

  function ParseOperation(raw: string): (r: (EditOperation, string))
    ensures EndsWith(raw, InsertToken) ==> r == (Insert, Cleaned(raw, InsertToken))
    ensures EndsWith(raw, RemoveToken) ==> r == (Remove, Cleaned(raw, RemoveToken))
    ensures EndsWith(raw, DefaultValueToken) ==> r == (DefaultValue, Cleaned(raw, DefaultValueToken))
    ensures r.0 == Overwrite <==>
      !EndsWith(raw, InsertToken) && !EndsWith(raw, RemoveToken) && !EndsWith(raw, DefaultValueToken)
    ensures r.0 == Overwrite ==> r.1 == raw
    ensures r.0 != Overwrite ==> |r.1| <= |raw| && (r.1 == [] || r.1[|r.1| - 1] != ' ')
  {
    TokensExclusive(raw);
    assert OperationMap[1..] == [(RemoveToken, Remove), (DefaultValueToken, DefaultValue)];
    assert OperationMap[1..][1..] == [(DefaultValueToken, DefaultValue)];
    assert OperationMap[1..][1..][1..] == [];
    assert MatchOperator(raw, OperationMap[1..][1..][1..]) == (Overwrite, raw);
    assert MatchOperator(raw, OperationMap[1..][1..]) ==
      if EndsWith(raw, DefaultValueToken) then (DefaultValue, Cleaned(raw, DefaultValueToken))
      else (Overwrite, raw);
    assert MatchOperator(raw, OperationMap[1..]) ==
      if EndsWith(raw, RemoveToken) then (Remove, Cleaned(raw, RemoveToken))
      else MatchOperator(raw, OperationMap[1..][1..]);
    assert MatchOperator(raw, OperationMap) ==
      if EndsWith(raw, InsertToken) then (Insert, Cleaned(raw, InsertToken))
      else MatchOperator(raw, OperationMap[1..]);
    MatchOperator(raw, OperationMap)
  }

  /** Writing a value followed by an operator token and parsing it back gives the operation and
      the value, provided the value has no '!' and no trailing space. */
  lemma ParseOperationRoundTrip(v: string, op: EditOperation)
    requires op != Overwrite
    requires '!' !in v && (v == [] || v[|v| - 1] != ' ')
    ensures ParseOperation(v + Token(op)) == (op, v)
  {
    var raw := v + Token(op);
    assert raw[|raw| - 2..] == Token(op);
    RemoveAllAppended(v, Token(op));
    TrimEndAppended(v, ' ', 0);
    assert v + Repeat(' ', 0) == v;
  }
}
