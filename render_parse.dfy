/** Parsing what `json_value_to_string` writes. */
module RenderParse {
  import opened Wrappers
  import opened Numbers
  import opened Json
  import JsonFacts
  import JsonExamples
  import opened JsonDiff

  /** Text that the renderer copies into a string value unchanged and that
      the tokenizer, which reads no escapes, takes back in one String token. */
  predicate PlainText(s: string) {
    forall k | 0 <= k < |s| :: s[k] != '"' && s[k] != '\\' && s[k] != '\n'
  }

  /** `parse_json` undoes `json_value_to_string` on a scalar: a string of
      plain text, a number in canonical form, a boolean or null comes back
      as itself. */
  lemma RenderParseScalar(v: JsonValue)
    requires !v.Array? && !v.Object?
    requires v.String? ==> PlainText(v.s)
    requires v.Number? ==> Normal(v.n)
    ensures Parse(Render(v)) == Ok(v)
  {
    match v
    case String(s) =>
      EscapePlain(s);
      JsonFacts.ParseQuoted(s);
    case Number(n) =>
      RenderNumShape(n);
      JsonFacts.ParseNumberText(RenderNum(n));
      ParseRenderRoundTrip(n);
    case Boolean(b) =>
      if b {
        JsonExamples.ParseTrue();
      } else {
        JsonExamples.ParseFalse();
      }
    case Null =>
      JsonExamples.ParseNull();
  }
}
