/** Record assembly in `run_ai_extraction`: each cleaned row is merged with the JSON object
    found in the language model's reply, or kept as it is when anything fails. The model
    call and `json.loads` are parameters: `respond(i, text)` is the reply for row `i`, or
    None when the call raises; `parse(t)` is the decoded object, or None when it raises. */
module Extractor {
  import opened Values
  import opened Columns

  /** `clean_value`: NaN, NaT and None become None; every other value is kept. */
  function CleanValue(v: Value): (r: Value)
    ensures IsMissing(v) ==> r == Null
    ensures !IsMissing(v) ==> r == v
    ensures !r.NaN? && !r.NaT?
  {
    if v.NaN? then Null
    else if IsMissing(v) then Null
    else v
  }

  /** `{k: clean_value(v) for k, v in row.to_dict().items()}`. */
  function CleanRow(row: Record): (r: Record)
    ensures r.Keys == row.Keys
    ensures forall k :: k in row ==> r[k] == CleanValue(row[k])
  {
    map k | k in row :: CleanValue(row[k])
  }

  /** `re.search(r'\{.*\}', text, re.DOTALL)`: the leftmost `{` from which a `}` follows,
      and the greedy `.*` runs to the last `}`. */
  function JsonSpan(text: string): (r: Option<string>)
    ensures r.None? <==> !exists i, j :: 0 <= i < j < |text| && text[i] == '{' && text[j] == '}'
    ensures r.Some? ==> |r.value| >= 2 && r.value[0] == '{' && r.value[|r.value| - 1] == '}'
  {
    var i := Find(text, '{');
    var j := RFind(text, '}');
    if 0 <= i < j then Some(text[i..j + 1]) else None
  }

  /** The span runs from the first `{` to the last `}` of the reply. */
  lemma JsonSpanFirstToLast(text: string, i: nat, j: nat)
    requires i < j < |text|
    requires text[i] == '{' && forall k :: 0 <= k < i ==> text[k] != '{'
    requires text[j] == '}' && forall k :: j < k < |text| ==> text[k] != '}'
    ensures JsonSpan(text) == Some(text[i..j + 1])
  {
    assert Find(text, '{') == i;
    assert RFind(text, '}') == j;
  }

  /** The `ai_data` of the try block: the decoded span, `{}` when there is no span, None
      when the description lookup, the model call or the decoding raises. */
  function AiData(row: Record, index: nat, respond: (nat, Value) -> Option<string>,
                  parse: string -> Option<Record>): Option<Record>
  {
    if DescriptionColumn !in row then None
    else match respond(index, row[DescriptionColumn])
      case None => None
      case Some(reply) =>
        match JsonSpan(reply)
        case None => Some(map[])
        case Some(candidate) => parse(candidate)
  }

  /** The record appended for row `index`: the cleaned row updated with the AI fields, or
      the cleaned row alone after an exception. */
  function AssembleRecord(row: Record, index: nat, respond: (nat, Value) -> Option<string>,
                          parse: string -> Option<Record>): Record
  {
    match AiData(row, index, respond, parse)
    case None => CleanRow(row)
    case Some(ai) => CleanRow(row) + ai
  }

  /** On success the record has the row's keys and the AI keys; an AI value overwrites the
      row's, and every other key keeps the row's cleaned value. */
  lemma AssembleOnSuccess(row: Record, index: nat, respond: (nat, Value) -> Option<string>,
                          parse: string -> Option<Record>, ai: Record)
    requires AiData(row, index, respond, parse) == Some(ai)
    ensures var r := AssembleRecord(row, index, respond, parse);
      && r.Keys == row.Keys + ai.Keys
      && (forall k :: k in ai ==> r[k] == ai[k])
      && (forall k :: k in row && k !in ai ==> r[k] == CleanValue(row[k]))
  {
  }

  /** A reply without a `{`-to-`}` span gives `{}`, and the record is the cleaned row. */
  lemma AssembleWithoutSpan(row: Record, index: nat, respond: (nat, Value) -> Option<string>,
                            parse: string -> Option<Record>)
    requires DescriptionColumn in row
    requires var reply := respond(index, row[DescriptionColumn]);
      reply.Some? && forall i, j :: 0 <= i < j < |reply.value| && reply.value[i] == '{' ==> reply.value[j] != '}'
    ensures AssembleRecord(row, index, respond, parse) == CleanRow(row)
  {
    var reply := respond(index, row[DescriptionColumn]).value;
    assert JsonSpan(reply).None?;
    assert CleanRow(row) + map[] == CleanRow(row);
  }

  /** A missing description, a failed call or a failed decoding gives the cleaned row. */
  lemma AssembleOnFailure(row: Record, index: nat, respond: (nat, Value) -> Option<string>,
                          parse: string -> Option<Record>)
    requires || DescriptionColumn !in row
             || respond(index, row[DescriptionColumn]).None?
             || (var reply := respond(index, row[DescriptionColumn]).value;
                 JsonSpan(reply).Some? && parse(JsonSpan(reply).value).None?)
    ensures AssembleRecord(row, index, respond, parse) == CleanRow(row)
  {
  }

  /** No value that comes from the row is NaN or NaT: a NaN in a record can only be a
      value the decoder produced. */
  lemma RowValuesNeverNaN(row: Record, index: nat, respond: (nat, Value) -> Option<string>,
                          parse: string -> Option<Record>)
    ensures var r := AssembleRecord(row, index, respond, parse);
      forall k :: k in r && (r[k].NaN? || r[k].NaT?) ==>
        var ai := AiData(row, index, respond, parse);
        ai.Some? && k in ai.value && r[k] == ai.value[k]
  {
  }

  /** The extraction loop: one record per row, in row order, whichever branch ran. */
  method RunAiExtraction(rows: seq<Record>, respond: (nat, Value) -> Option<string>,
                         parse: string -> Option<Record>) returns (results: seq<Record>)
    ensures |results| == |rows|
    ensures forall i :: 0 <= i < |rows| ==> results[i] == AssembleRecord(rows[i], i, respond, parse)
  {
    results := [];
    var i := 0;
    while i < |rows|
      invariant 0 <= i <= |rows|
      invariant |results| == i
      invariant forall k :: 0 <= k < i ==> results[k] == AssembleRecord(rows[k], k, respond, parse)
    {
      var row := rows[i];
      var cleaned := CleanRow(row);
      var aiData := AiData(row, i, respond, parse);
      if aiData.Some? {
        results := results + [cleaned + aiData.value];
      } else {
        results := results + [cleaned];
      }
      i := i + 1;
    }
  }
}
