/** The edit `modify_product_json` makes to the decoded product.json: it
    sets `tokenLimit` to the configured limit and `premiumModels` to a fixed
    list of three model names, in place, and leaves every other key alone. */
module Product {
  import opened Optional
  import opened Json

  const TokenLimitKey: string := "tokenLimit"
  const PremiumModelsKey: string := "premiumModels"
  const PremiumModels: seq<string> := ["gpt-4o-mini", "gpt-4", "claude-3.5-sonnet"]

  /** The JSON array written under `premiumModels`. */
  function ModelList(): Value {
    Arr([Str(PremiumModels[0]), Str(PremiumModels[1]), Str(PremiumModels[2])])
  }

  /** The two item assignments on the decoded object, in order. */
  function SetFields(fields: map<string, Value>, limit: Value): map<string, Value> {
    fields[TokenLimitKey := limit][PremiumModelsKey := ModelList()]
  }

  /** The edit on a whole document. Item assignment on a decoded value that is
      not an object raises a `TypeError`, which the step treats as a failure:
      the result is then None. */
  function Apply(doc: Value, limit: Value): Option<Value> {
    match doc
    case Obj(fields) => Some(Obj(SetFields(fields, limit)))
    case _ => None
  }

  /** After the edit the object has the old keys plus the two, `tokenLimit`
      holds the limit, `premiumModels` the model list whatever it held
      before, and every other key keeps its value. */
  lemma SetFieldsSpec(fields: map<string, Value>, limit: Value)
    ensures SetFields(fields, limit).Keys == fields.Keys + {TokenLimitKey, PremiumModelsKey}
    ensures SetFields(fields, limit)[TokenLimitKey] == limit
    ensures SetFields(fields, limit)[PremiumModelsKey] ==
      Arr([Str("gpt-4o-mini"), Str("gpt-4"), Str("claude-3.5-sonnet")])
    ensures forall k :: k in fields && k != TokenLimitKey && k != PremiumModelsKey ==>
      SetFields(fields, limit)[k] == fields[k]
  {
    assert TokenLimitKey != PremiumModelsKey;
  }

  /** Setting the two keys again changes nothing. */
  lemma SetFieldsIdempotent(fields: map<string, Value>, limit: Value)
    ensures SetFields(SetFields(fields, limit), limit) == SetFields(fields, limit)
  {
    SetFieldsSpec(fields, limit);
    var once := SetFields(fields, limit);
    SetFieldsSpec(once, limit);
    var twice := SetFields(once, limit);
    assert twice.Keys == once.Keys;
    forall k | k in once ensures twice[k] == once[k] {
      if k != TokenLimitKey && k != PremiumModelsKey {
        assert k in fields;
      }
    }
  }

  /** Applying the edit to its own output gives the same document. */
  lemma ApplyIdempotent(doc: Value, limit: Value)
    requires Apply(doc, limit).Some?
    ensures Apply(Apply(doc, limit).value, limit) == Apply(doc, limit)
  {
    SetFieldsIdempotent(doc.fields, limit);
  }
}
