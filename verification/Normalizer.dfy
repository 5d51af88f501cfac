/** Result normalisation (`unwrap_mcp_result`): a raw tool result, with an
    optional structured payload and an optional list of content parts, becomes
    one plain JSON value. JSON text parsing is a parameter `parse`, `None`
    standing for a `json.loads` that raises. */
module Normalizer {
  import opened Wrappers
  import opened Json
  import opened PyText
  import Seqs

  /** One content part; `text` is `None` when the part has no `text`
      attribute (or it is `None`). */
  datatype Part = Part(text: Option<string>)

  /** A raw tool result: `structuredContent` and `content`, each possibly absent. */
  datatype RawResult = RawResult(structured: Option<Json>, content: Option<seq<Part>>)

  /** The `{"result": X}` unwrap: the value under "result" when `j` is a dict
      CONTAINING that key (other keys are ignored), `j` itself otherwise. */
  function UnwrapResultKey(j: Json): (r: Json)
    ensures j.JObject? && "result" in Keys(j.fields) ==> ("result", r) in j.fields
    ensures !(j.JObject? && "result" in Keys(j.fields)) ==> r == j
  {
    if j.JObject? && "result" in Keys(j.fields) then Lookup(j.fields, "result").value else j
  }

  /** A part is kept when its text is truthy (present and non-empty). */
  predicate HasText(p: Part) {
    p.text.Some? && p.text.value != ""
  }

  /** The value of a kept part: its stripped text, parsed as JSON (and
      unwrapped) when it starts with `{` or `[` and parses. */
  function TextValue(text: string, parse: string -> Option<Json>): Json {
    var t := Strip(text);
    if (StartsWith(t, "{") || StartsWith(t, "[")) && parse(t).Some? then UnwrapResultKey(parse(t).value)
    else JString(t)
  }

  /** The `parts` list the loop collects from a content list. */
  function Collect(cs: seq<Part>, parse: string -> Option<Json>): seq<Json>
    decreases |cs|
  {
    if cs == [] then []
    else
      var n := |cs| - 1;
      Collect(cs[..n], parse) + (if HasText(cs[n]) then [TextValue(cs[n].text.value, parse)] else [])
  }

  /** `unwrap_mcp_result(result)` as a value. */
  function Normalize(raw: RawResult, parse: string -> Option<Json>): Json {
    if raw.structured.Some? && raw.structured.value != JNull then UnwrapResultKey(raw.structured.value)
    else if raw.content.Some? && raw.content.value != [] then
      var parts := Collect(raw.content.value, parse);
      if |parts| == 1 then parts[0] else JArray(parts)
    else JNull
  }

  /** `unwrap_mcp_result`: the loop over the content parts that appends to
      `parts`. Never fails: malformed JSON text degrades to the text. */
  method UnwrapMcpResult(raw: RawResult, parse: string -> Option<Json>) returns (r: Json)
    ensures r == Normalize(raw, parse)
  {
    if raw.structured.Some? && raw.structured.value != JNull {
      return UnwrapResultKey(raw.structured.value);
    }
    if raw.content.None? || raw.content.value == [] {
      return JNull;
    }
    var content := raw.content.value;
    var parts: seq<Json> := [];
    var j := 0;
    while j < |content|
      invariant 0 <= j <= |content|
      invariant parts == Collect(content[..j], parse)
    {
      var c := content[j];
      assert content[..j + 1][..j] == content[..j];
      if HasText(c) {
        var textStr := Strip(c.text.value);
        if StartsWith(textStr, "{") || StartsWith(textStr, "[") {
          var parsed := parse(textStr);
          if parsed.Some? {
            parts := parts + [UnwrapResultKey(parsed.value)];
            j := j + 1;
            continue;
          }
        }
        parts := parts + [JString(textStr)];
      }
      j := j + 1;
    }
    assert content[..j] == content;
    if |parts| == 1 {
      r := parts[0];
    } else {
      r := JArray(parts);
    }
  }

  /** Part order is preserved: collecting distributes over concatenation. */
  lemma {:induction false} CollectAppend(a: seq<Part>, b: seq<Part>, parse: string -> Option<Json>)
    ensures Collect(a + b, parse) == Collect(a, parse) + Collect(b, parse)
    decreases |b|
  {
    if b == [] {
      assert a + b == a;
    } else {
      var n := |b| - 1;
      assert (a + b)[..|a| + n] == a + b[..n];
      CollectAppend(a, b[..n], parse);
    }
  }

  /** Reference reading of the loop: drop the parts without text, then
      convert each remaining part, in order. */
  lemma {:induction false} CollectIsConvertedTextParts(cs: seq<Part>, parse: string -> Option<Json>)
    ensures var kept := Seqs.Filter(cs, HasText);
      && |Collect(cs, parse)| == |kept|
      && forall i :: 0 <= i < |kept| ==> Collect(cs, parse)[i] == TextValue(kept[i].text.value, parse)
    decreases |cs|
  {
    if cs != [] {
      var n := |cs| - 1;
      CollectIsConvertedTextParts(cs[..n], parse);
    }
  }

  /** A non-null structured payload always wins over the content parts. */
  lemma StructuredWins(sc: Json, content: Option<seq<Part>>, parse: string -> Option<Json>)
    requires sc != JNull
    ensures Normalize(RawResult(Some(sc), content), parse) == UnwrapResultKey(sc)
  {
  }

  /** A kept text part: stripped, parsed only when it starts with `{` or `[`,
      unwrapped when the parse is a dict containing "result", and kept as the
      stripped text when the parse fails. */
  lemma TextPartCases(text: string, parse: string -> Option<Json>)
    ensures var t := Strip(text);
      && (!StartsWith(t, "{") && !StartsWith(t, "[") ==> TextValue(text, parse) == JString(t))
      && (parse(t).None? ==> TextValue(text, parse) == JString(t))
      && ((StartsWith(t, "{") || StartsWith(t, "[")) && parse(t).Some? ==>
            TextValue(text, parse) == UnwrapResultKey(parse(t).value))
  {
  }

  /** Without a structured payload: exactly one kept part is returned by
      itself, otherwise the kept parts come back as a list (empty when no part
      has text); an absent or empty content list gives null. */
  lemma {:induction false} ContentShape(content: Option<seq<Part>>, parse: string -> Option<Json>)
    ensures var r := Normalize(RawResult(None, content), parse);
      && (content.None? || content.value == [] ==> r == JNull)
      && (content.Some? && content.value != [] ==>
            var kept := Seqs.Filter(content.value, HasText);
            && (|kept| == 1 ==> r == TextValue(kept[0].text.value, parse))
            && (|kept| != 1 ==>
                  && r.JArray? && |r.items| == |kept|
                  && forall i :: 0 <= i < |kept| ==> r.items[i] == TextValue(kept[i].text.value, parse)))
  {
    if content.Some? && content.value != [] {
      CollectIsConvertedTextParts(content.value, parse);
    }
  }

  /** A non-empty content list whose parts all lack text gives the empty
      list, not null. */
  lemma {:induction false} AllPartsEmpty(content: seq<Part>, parse: string -> Option<Json>)
    requires content != []
    requires forall i :: 0 <= i < |content| ==> !HasText(content[i])
    ensures Normalize(RawResult(None, Some(content)), parse) == JArray([])
  {
    CollectIsConvertedTextParts(content, parse);
    Seqs.FilterNonePass(content, HasText);
  }

  /** Documented example: a structured `{"result": {"a": 1}}` gives `{"a": 1}`. */
  lemma StructuredExample(parse: string -> Option<Json>)
    ensures Normalize(RawResult(Some(JObject([("result", JObject([("a", JNumber(1.0))]))])), None), parse)
              == JObject([("a", JNumber(1.0))])
  {
  }

  /** Documented example: one text part `{"result": [1,2,3]}` gives `[1,2,3]`. */
  lemma JsonTextExample(parse: string -> Option<Json>)
    requires parse("{\"result\": [1,2,3]}") == Some(JObject([("result", JArray([JNumber(1.0), JNumber(2.0), JNumber(3.0)]))]))
    ensures Normalize(RawResult(None, Some([Part(Some("{\"result\": [1,2,3]}"))])), parse)
              == JArray([JNumber(1.0), JNumber(2.0), JNumber(3.0)])
  {
    var t := "{\"result\": [1,2,3]}";
    assert !IsSpace(t[0]) && !IsSpace(t[|t| - 1]);
    assert Strip(t) == t;
    assert StartsWith(t, "{");
    var fields := [("result", JArray([JNumber(1.0), JNumber(2.0), JNumber(3.0)]))];
    assert fields[0].0 in Keys(fields);
    assert TextValue(t, parse) == JArray([JNumber(1.0), JNumber(2.0), JNumber(3.0)]);
    var cs := [Part(Some(t))];
    assert cs[..0] == [];
    assert Collect(cs, parse) == [TextValue(t, parse)];
  }

  /** A text that is already stripped and does not open a JSON object or
      list: a part holding it stands for the text itself. */
  predicate PlainWord(t: string) {
    t != "" && Strip(t) == t && !StartsWith(t, "{") && !StartsWith(t, "[")
  }

  /** As documented for one plain text part ("hello" gives "hello"): the
      result is the text itself, not a one-element list. */
  lemma OnePlainPart(t: string, parse: string -> Option<Json>)
    requires PlainWord(t)
    ensures Normalize(RawResult(None, Some([Part(Some(t))])), parse) == JString(t)
  {
    var cs := [Part(Some(t))];
    assert cs[..0] == [];
    assert Collect(cs, parse) == [JString(t)];
  }

  /** As documented for two plain text parts ("a" and "b" give ["a", "b"]):
      the texts come back as a list, in order. */
  lemma TwoPlainParts(a: string, b: string, parse: string -> Option<Json>)
    requires PlainWord(a) && PlainWord(b)
    ensures Normalize(RawResult(None, Some([Part(Some(a)), Part(Some(b))])), parse) == JArray([JString(a), JString(b)])
  {
    var ab := [Part(Some(a)), Part(Some(b))];
    assert ab[..1] == [Part(Some(a))] && ab[..1][..0] == [];
    assert Collect(ab[..1], parse) == [JString(a)];
    assert Collect(ab, parse) == [JString(a), JString(b)];
  }
}
