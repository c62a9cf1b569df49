// `extractResponsesText`: the reply text of a Responses-API payload. The
// convenience field `output_text` wins when it holds non-blank text; otherwise
// the texts of every content part of every output item are concatenated in
// order; the result is trimmed, and "" means that nothing was found.
module Responses {
  import opened Wrappers
  import opened Strings
  import opened Json

  /** What one content part contributes: `c.text` when it is a string, else
      `c.text.value` when that is a string, else nothing. */
  function PartText(c: Json): (r: string)
    ensures r != "" ==> Get(Some(c), "text").Some?
    ensures AsString(Get(Some(c), "text")).Some? ==> r == AsString(Get(Some(c), "text")).value
    ensures AsString(Get(Some(c), "text")).None? ==> r == AsString(Get(Get(Some(c), "text"), "value")).GetOr("")
  {
    var text := Get(Some(c), "text");
    match AsString(text)
    case Some(s) => s
    case None => AsString(Get(text, "value")).GetOr("")
  }

  /** The texts `f` gives for `xs`, concatenated in order (the accumulator
      `out` of the source's loops). */
  function ConcatMap<T>(f: T -> string, xs: seq<T>): string
  {
    if xs == [] then "" else ConcatMap(f, xs[..|xs| - 1]) + f(xs[|xs| - 1])
  }

  /** What one output item contributes: its `content` parts when `content` is an array. */
  function ItemText(item: Json): (r: string)
    ensures r != "" ==> Get(Some(item), "content").Some? && Get(Some(item), "content").value.JArr?
  {
    match Get(Some(item), "content")
    case Some(JArr(parts)) => ConcatMap(PartText, parts)
    case _ => ""
  }

  /** The items' texts, concatenated in order. */
  function OutputText(items: seq<Json>): string
  {
    ConcatMap(ItemText, items)
  }

  /** The trimmed `output_text`, when it is a string with non-blank text. */
  function DirectText(data: Json): (r: Option<string>)
    ensures r.Some? ==> r.value != "" && IsTrimmed(r.value)
    ensures r.Some? ==> AsString(Get(Some(data), "output_text")).Some?
  {
    match AsString(Get(Some(data), "output_text"))
    case Some(s) => if Trim(s) != "" then Some(Trim(s)) else None
    case None => None
  }

  /** The reply text `extractResponsesText(data)` returns. */
  function ResponsesText(data: Json): (r: string)
    ensures IsTrimmed(r)
  {
    match DirectText(data)
    case Some(t) => t
    case None =>
      match Get(Some(data), "output")
      case Some(JArr(items)) => Trim(OutputText(items))
      case _ => ""
  }

  /** `extractResponsesText(data)`: the `output_text` shortcut, then the loops
      over `output`, then the trim. */
  method ExtractResponsesText(data: Json) returns (text: string)
    ensures text == ResponsesText(data)
  {
    var direct := AsString(Get(Some(data), "output_text"));
    if direct.Some? && Trim(direct.value) != "" {
      assert DirectText(data) == Some(Trim(direct.value));
      return Trim(direct.value);
    }
    assert DirectText(data).None?;
    var output := Get(Some(data), "output");
    if output.Some? && output.value.JArr? {
      var out := CollectOutputText(output.value.elems);
      UsesOutputArray(data, output.value.elems);
      if Trim(out) != "" {
        return Trim(out);
      }
    } else {
      NoShapeGivesEmpty(data);
    }
    return "";
  }

  /** The source's nested loops: for each item whose `content` is an array,
      for each part, append the part's `text` string, or else its
      `text.value` string, to `out`. */
  method CollectOutputText(items: seq<Json>) returns (out: string)
    ensures out == OutputText(items)
  {
    out := "";
    for i := 0 to |items|
      invariant out == OutputText(items[..i])
    {
      var content := Get(Some(items[i]), "content");
      if content.Some? && content.value.JArr? {
        var parts := content.value.elems;
        ghost var before := out;
        for j := 0 to |parts|
          invariant out == before + ConcatMap(PartText, parts[..j])
        {
          var piece := "";
          var t := Get(Some(parts[j]), "text");
          if t.Some? && t.value.JStr? {
            piece := t.value.str;
          } else {
            var v := Get(t, "value");
            if v.Some? && v.value.JStr? {
              piece := v.value.str;
            }
          }
          assert piece == PartText(parts[j]);
          assert parts[..j + 1][..j] == parts[..j];
          out := out + piece;
        }
        assert parts[..|parts|] == parts;
        assert ItemText(items[i]) == ConcatMap(PartText, parts);
      } else {
        assert ItemText(items[i]) == "";
      }
      assert items[..i + 1][..i] == items[..i];
    }
    assert items[..|items|] == items;
  }

  /** Ordered concatenation distributes over splitting the sequence. */
  lemma {:induction false} ConcatMapAppend<T>(f: T -> string, a: seq<T>, b: seq<T>)
    ensures ConcatMap(f, a + b) == ConcatMap(f, a) + ConcatMap(f, b)
    decreases |b|
  {
    if b == [] {
      assert a + b == a;
    } else {
      var n := |b| - 1;
      var ab := a + b;
      assert ab[..|ab| - 1] == a + b[..n];
      ConcatMapAppend(f, a, b[..n]);
    }
  }

  lemma ConcatMapSingle<T>(f: T -> string, x: T)
    ensures ConcatMap(f, [x]) == f(x)
  {
    assert [x][..0] == [];
  }

  lemma ConcatMapPair<T>(f: T -> string, x: T, y: T)
    ensures ConcatMap(f, [x, y]) == f(x) + f(y)
  {
    assert [x, y][..1] == [x];
    ConcatMapSingle(f, x);
  }

  /** The concatenation is empty exactly when every element contributes nothing. */
  lemma {:induction false} ConcatMapEmptyIff<T>(f: T -> string, xs: seq<T>)
    ensures ConcatMap(f, xs) == "" <==> forall i :: 0 <= i < |xs| ==> f(xs[i]) == ""
    decreases |xs|
  {
    if xs != [] {
      var n := |xs| - 1;
      ConcatMapEmptyIff(f, xs[..n]);
      assert forall i :: 0 <= i < n ==> xs[..n][i] == xs[i];
    }
  }

  /** The `output` items give no text exactly when no item has any. */
  lemma OutputTextEmptyIff(items: seq<Json>)
    ensures OutputText(items) == "" <==> forall i :: 0 <= i < |items| ==> ItemText(items[i]) == ""
  {
    ConcatMapEmptyIff(ItemText, items);
  }

  /** A part `{"text": {"value": v}}` contributes `v`. */
  lemma PartTextOfValue(v: string)
    ensures PartText(JObj(map["text" := JObj(map["value" := JStr(v)])])) == v
  {
  }

  /** A part with neither a string `text` nor a string `text.value` contributes nothing. */
  lemma PartWithoutTextIsSilent(c: Json)
    requires AsString(Get(Some(c), "text")).None?
    requires AsString(Get(Get(Some(c), "text"), "value")).None?
    ensures ConcatMap(PartText, [c]) == ""
  {
    assert [c][..0] == [];
  }

  /** Non-blank `output_text` wins, whatever `output` holds. */
  lemma PrefersOutputText(fields: map<string, Json>, s: string, output: Json)
    requires "output_text" in fields && fields["output_text"] == JStr(s)
    requires Trim(s) != ""
    ensures ResponsesText(JObj(fields)) == Trim(s)
    ensures ResponsesText(JObj(fields["output" := output])) == Trim(s)
  {
    DirectTextWins(JObj(fields), s);
    var updated := fields["output" := output];
    assert updated["output_text"] == JStr(s) by {
      assert |"output"| != |"output_text"|;
    }
    DirectTextWins(JObj(updated), s);
  }

  lemma DirectTextWins(data: Json, s: string)
    requires data.JObj? && "output_text" in data.fields && data.fields["output_text"] == JStr(s)
    requires Trim(s) != ""
    ensures ResponsesText(data) == Trim(s)
  {
    assert AsString(Get(Some(data), "output_text")) == Some(s);
    assert DirectText(data) == Some(Trim(s));
  }

  /** Without usable `output_text`, an `output` array yields its texts, trimmed. */
  lemma UsesOutputArray(data: Json, items: seq<Json>)
    requires DirectText(data).None?
    requires Get(Some(data), "output") == Some(JArr(items))
    ensures ResponsesText(data) == Trim(OutputText(items))
  {
  }

  /** No object, or an object with neither shape, yields "". */
  lemma NoShapeGivesEmpty(data: Json)
    requires DirectText(data).None?
    requires !(Get(Some(data), "output").Some? && Get(Some(data), "output").value.JArr?)
    ensures ResponsesText(data) == ""
  {
  }

  /** A payload carrying only the convenience field, already trimmed text:
      `{"output_text": "hello"}` gives "hello". */
  lemma ExampleOutputText(hello: string)
    requires hello != "" && IsTrimmed(hello)
    ensures ResponsesText(JObj(map["output_text" := JStr(hello)])) == hello
  {
    TrimOfTrimmed(hello);
    PrefersOutputText(map["output_text" := JStr(hello)], hello, JNull);
  }

  /** A payload with one message item of two parts, one of each shape:
      `{"output": [{"content": [{"text": "a"}, {"text": {"value": "b"}}]}]}` gives "ab". */
  lemma ExampleOutputArray(a: string, b: string)
    ensures ResponsesText(JObj(map["output" := JArr([
              JObj(map["content" := JArr([JObj(map["text" := JStr(a)]),
                                          JObj(map["text" := JObj(map["value" := JStr(b)])])])])])])) == Trim(a + b)
  {
    var p0, p1 := JObj(map["text" := JStr(a)]), JObj(map["text" := JObj(map["value" := JStr(b)])]);
    var item := JObj(map["content" := JArr([p0, p1])]);
    assert ItemText(item) == a + b by {
      ConcatMapPair(PartText, p0, p1);
      assert PartText(p0) == a;
      PartTextOfValue(b);
    }
    assert OutputText([item]) == a + b by {
      ConcatMapSingle(ItemText, item);
    }
    var data := JObj(map["output" := JArr([item])]);
    assert DirectText(data).None? by {
      assert "output_text" !in data.fields by { assert |"output_text"| != |"output"|; }
    }
    UsesOutputArray(data, [item]);
  }

  /** Payloads without either shape: an empty object, `null`, and a
      chat-completions envelope, whose `choices` this extractor never reads. */
  lemma ExampleNothing(reply: string)
    ensures ResponsesText(JObj(map[])) == ""
    ensures ResponsesText(JNull) == ""
    ensures ResponsesText(JObj(map["choices" := JArr([
              JObj(map["message" := JObj(map["content" := JStr(reply)])])])])) == ""
  {
    assert |"choices"| != |"output"| && |"choices"| != |"output_text"|;
  }
}
