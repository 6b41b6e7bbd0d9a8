/**
 * The encoder: folds the editor's delta into a persisted document
 * (convertDeltaToStructuredFormat). Text inserts accumulate in a pending
 * paragraph that a lone line break closes; an image embed is emitted at once
 * as a paragraph of its own, leaving the pending paragraph alone.
 */
module Encoder {
  import opened DocumentModel

  /** The fold's state: the blocks emitted so far and the pending paragraph's children, if one is open. */
  datatype State = State(out: Document, current: Option<seq<Inline>>)

  const Start: State := State([], None)

  /** The attribute keys the encoder reads. */
  const FlagKeys: set<string> := {"bold", "italic", "underline", "strike", "code"}

  predicate AttrOn(attrs: Option<Attributes>, key: string) {
    attrs.Some? && key in attrs.value && AttrTruthy(attrs.value[key])
  }

  function FlagOf(attrs: Option<Attributes>, key: string): Option<bool> {
    if AttrOn(attrs, key) then Some(true) else None
  }

  /** The text node for a string insert: each flag is set exactly when its attribute is truthy, `strike` becoming `strikethrough`. */
  function TextNodeOf(s: string, attrs: Option<Attributes>): (n: Inline)
    ensures n.Text? && n.text == s
    ensures n.bold == Some(true) <==> AttrOn(attrs, "bold")
    ensures n.italic == Some(true) <==> AttrOn(attrs, "italic")
    ensures n.underline == Some(true) <==> AttrOn(attrs, "underline")
    ensures n.strikethrough == Some(true) <==> AttrOn(attrs, "strike")
    ensures n.code == Some(true) <==> AttrOn(attrs, "code")
    ensures s != "\n" ==> CanonicalText(n)
  {
    Text(s, FlagOf(attrs, "bold"), FlagOf(attrs, "italic"), FlagOf(attrs, "underline"),
         FlagOf(attrs, "strike"), FlagOf(attrs, "code"))
  }

  /** One iteration of the fold. */
  function Step(st: State, op: Op): State
    requires op.insert != NullInsert
  {
    match op.insert
    case TextInsert(s) =>
      if s == "\n" then
        if st.current.Some? then State(st.out + [Paragraph(st.current.value)], None) else st
      else
        var children := if st.current.Some? then st.current.value else [];
        State(st.out, Some(children + [TextNodeOf(s, op.attributes)]))
    case EmbedInsert(image) =>
      if image.Some? && image.value != "" then State(st.out + [Paragraph([Image(image.value, "")])], st.current)
      else st
    case _ => st
  }

  /** The fold over a sequence of operations, from a given state. */
  function RunFrom(st: State, ops: seq<Op>): State
    requires NoNullInsert(ops)
  {
    if ops == [] then st
    else
      PrefixNoNull(ops, |ops| - 1);
      Step(RunFrom(st, ops[..|ops| - 1]), ops[|ops| - 1])
  }

  lemma PrefixNoNull(ops: seq<Op>, n: nat)
    requires NoNullInsert(ops) && n <= |ops|
    ensures NoNullInsert(ops[..n])
  {
    forall i | 0 <= i < n ensures ops[..n][i].insert != NullInsert {
      assert ops[..n][i] == ops[i];
    }
  }

  /** After the last operation, a pending paragraph is emitted too. */
  function Flush(st: State): Document {
    if st.current.Some? then st.out + [Paragraph(st.current.value)] else st.out
  }

  /** The encoder; `None` stands for a missing delta or a delta without `ops`. */
  function Encode(delta: Option<seq<Op>>): Document
    requires delta.Some? ==> NoNullInsert(delta.value)
  {
    if delta.None? then [] else Flush(RunFrom(Start, delta.value))
  }

  /** The text node of a string insert, built flag by flag from the truthy attributes. */
  method BuildTextNode(s: string, attributes: Option<Attributes>) returns (node: Inline)
    ensures node == TextNodeOf(s, attributes)
  {
    node := PlainText(s);
    if attributes.Some? {
      var a := attributes.value;
      if "bold" in a && AttrTruthy(a["bold"]) { node := node.(bold := Some(true)); }
      if "italic" in a && AttrTruthy(a["italic"]) { node := node.(italic := Some(true)); }
      if "underline" in a && AttrTruthy(a["underline"]) { node := node.(underline := Some(true)); }
      if "strike" in a && AttrTruthy(a["strike"]) { node := node.(strikethrough := Some(true)); }
      if "code" in a && AttrTruthy(a["code"]) { node := node.(code := Some(true)); }
    }
  }

  /** `convertDeltaToStructuredFormat` of QuillEditor.tsx: one pass that pushes into the output and the pending block. */
  method ConvertDeltaToStructured(delta: Option<seq<Op>>) returns (doc: Document)
    requires delta.Some? ==> NoNullInsert(delta.value)
    ensures doc == Encode(delta)
    ensures delta.None? ==> doc == []
  {
    if delta.None? {
      return [];
    }
    var ops := delta.value;
    var structured: Document := [];
    var current: Option<seq<Inline>> := None;
    for i := 0 to |ops|
      invariant NoNullInsert(ops[..i])
      invariant State(structured, current) == RunFrom(Start, ops[..i])
    {
      assert ops[..i + 1][..i] == ops[..i];
      var op := ops[i];
      if op.insert.TextInsert? {
        if op.insert.s == "\n" {
          if current.Some? {
            structured := structured + [Paragraph(current.value)];
            current := None;
          }
        } else {
          if current.None? {
            current := Some([]);
          }
          var node := BuildTextNode(op.insert.s, op.attributes);
          current := Some(current.value + [node]);
        }
      } else if op.insert.EmbedInsert? {
        var image := op.insert.image;
        if image.Some? && image.value != "" {
          structured := structured + [Paragraph([Image(image.value, "")])];
        }
      }
    }
    assert ops[..|ops|] == ops;
    if current.Some? {
      structured := structured + [Paragraph(current.value)];
    }
    doc := structured;
  }

  // ---------------------------------------------------------------------------
  // Properties of the fold
  // ---------------------------------------------------------------------------

  lemma {:induction false} RunAppend(st: State, a: seq<Op>, b: seq<Op>)
    requires NoNullInsert(a) && NoNullInsert(b)
    ensures NoNullInsert(a + b)
    ensures RunFrom(st, a + b) == RunFrom(RunFrom(st, a), b)
  {
    assert forall i | 0 <= i < |a + b| :: (a + b)[i] == if i < |a| then a[i] else b[i - |a|];
    if b == [] {
      assert a + b == a;
    } else {
      var b' := b[..|b| - 1];
      PrefixNoNull(b, |b| - 1);
      RunAppend(st, a, b');
      assert (a + b)[..|a + b| - 1] == a + b';
      assert (a + b)[|a + b| - 1] == b[|b| - 1];
    }
  }

  /** The state invariant behind the encoder's output shape. */
  predicate StateCanonical(st: State) {
    Canonical(st.out) &&
    (st.current.Some? ==>
      |st.current.value| > 0 &&
      forall k :: 0 <= k < |st.current.value| ==> CanonicalText(st.current.value[k]))
  }

  lemma {:induction false} RunCanonical(st: State, ops: seq<Op>)
    requires NoNullInsert(ops) && StateCanonical(st)
    ensures StateCanonical(RunFrom(st, ops))
  {
    if ops != [] {
      var ops' := ops[..|ops| - 1];
      PrefixNoNull(ops, |ops| - 1);
      RunCanonical(st, ops');
    }
  }

  /** Every block the encoder emits is a paragraph with at least one child: a run of flagged texts or one image with empty alt. */
  lemma EncodeCanonical(delta: Option<seq<Op>>)
    requires delta.Some? ==> NoNullInsert(delta.value)
    ensures Canonical(Encode(delta))
    ensures forall i :: 0 <= i < |Encode(delta)| ==> Encode(delta)[i].Paragraph? && |Encode(delta)[i].children| > 0
  {
    if delta.Some? {
      RunCanonical(Start, delta.value);
    }
  }

  /** The text an operation contributes: its string when that is not a lone line break. */
  function OpText(op: Op): seq<string> {
    if op.insert.TextInsert? && op.insert.s != "\n" then [op.insert.s] else []
  }

  /** The image an operation contributes: the reference of an embed that carries a truthy one. */
  function OpImage(op: Op): seq<string> {
    if op.insert.EmbedInsert? && op.insert.image.Some? && op.insert.image.value != "" then [op.insert.image.value] else []
  }

  /** The string inserts other than a lone line break, in order. */
  function StringInserts(ops: seq<Op>): seq<string> {
    if ops == [] then [] else StringInserts(ops[..|ops| - 1]) + OpText(ops[|ops| - 1])
  }

  /** The image references of the embeds that carry a truthy one, in order. */
  function EmbeddedImages(ops: seq<Op>): seq<string> {
    if ops == [] then [] else EmbeddedImages(ops[..|ops| - 1]) + OpImage(ops[|ops| - 1])
  }

  function StateTexts(st: State): seq<string> {
    DocTexts(st.out) + (if st.current.Some? then InlineTexts(st.current.value) else [])
  }

  lemma TextsOfAppendedBlock(d: Document, b: Block)
    ensures DocTexts(d + [b]) == DocTexts(d) + BlockTexts(b)
  {
    assert (d + [b])[..|d|] == d;
  }

  lemma TextsOfAppendedInline(cs: seq<Inline>, n: Inline)
    ensures InlineTexts(cs + [n]) == InlineTexts(cs) + (if n.Text? then [n.text] else [])
  {
    assert (cs + [n])[..|cs|] == cs;
  }

  lemma ImageParagraphTexts(src: string)
    ensures InlineTexts([Image(src, "")]) == []
    ensures InlineImages([Image(src, "")]) == [src]
  {
    assert [Image(src, "")][..0] == [];
  }

  lemma StepTexts(st: State, op: Op)
    requires op.insert != NullInsert
    ensures StateTexts(Step(st, op)) == StateTexts(st) + OpText(op)
  {
    var pending := if st.current.Some? then InlineTexts(st.current.value) else [];
    assert StateTexts(st) == DocTexts(st.out) + pending;
    AppendEmpty(StateTexts(st));
    match op.insert
    case TextInsert(s) =>
      if s == "\n" {
        if st.current.Some? {
          TextsOfAppendedBlock(st.out, Paragraph(st.current.value));
          AppendEmpty(DocTexts(st.out + [Paragraph(st.current.value)]));
        }
      } else {
        var children := if st.current.Some? then st.current.value else [];
        TextsOfAppendedInline(children, TextNodeOf(s, op.attributes));
        assert InlineTexts(children) == pending;
        AssocOf(DocTexts(st.out), pending, [s]);
      }
    case EmbedInsert(image) =>
      if image.Some? && image.value != "" {
        TextsOfAppendedBlock(st.out, Paragraph([Image(image.value, "")]));
        ImageParagraphTexts(image.value);
        AppendEmpty(DocTexts(st.out));
      }
    case OtherInsert =>
  }

  lemma {:induction false} RunTexts(st: State, ops: seq<Op>)
    requires NoNullInsert(ops)
    ensures StateTexts(RunFrom(st, ops)) == StateTexts(st) + StringInserts(ops)
  {
    if ops == [] {
      AppendEmpty(StateTexts(st));
    } else {
      var ops', op := ops[..|ops| - 1], ops[|ops| - 1];
      PrefixNoNull(ops, |ops| - 1);
      RunTexts(st, ops');
      StepTexts(RunFrom(st, ops'), op);
      AssocOf(StateTexts(st), StringInserts(ops'), OpText(op));
    }
  }

  /** The text of the document, node by node, is the sequence of non-line-break string inserts. */
  lemma {:induction false} EncodeKeepsTexts(ops: seq<Op>)
    requires NoNullInsert(ops)
    ensures DocTexts(Encode(Some(ops))) == StringInserts(ops)
  {
    RunTexts(Start, ops);
    var st := RunFrom(Start, ops);
    assert StateTexts(Start) == [];
    if st.current.Some? {
      TextsOfAppendedBlock(st.out, Paragraph(st.current.value));
    } else {
      assert StateTexts(st) == DocTexts(st.out);
    }
  }

  lemma ImagesOfAppendedBlock(d: Document, b: Block)
    ensures DocImages(d + [b]) == DocImages(d) + BlockImages(b)
  {
    assert (d + [b])[..|d|] == d;
  }

  lemma {:induction false} TextsHaveNoImages(cs: seq<Inline>)
    requires forall k :: 0 <= k < |cs| ==> cs[k].Text?
    ensures InlineImages(cs) == []
  {
    if cs != [] {
      TextsHaveNoImages(cs[..|cs| - 1]);
    }
  }

  lemma StepImages(st: State, op: Op)
    requires op.insert != NullInsert && StateCanonical(st)
    ensures DocImages(Step(st, op).out) == DocImages(st.out) + OpImage(op)
  {
    AppendEmpty(DocImages(st.out));
    match op.insert
    case TextInsert(s) =>
      if s == "\n" && st.current.Some? {
        ImagesOfAppendedBlock(st.out, Paragraph(st.current.value));
        TextsHaveNoImages(st.current.value);
      }
    case EmbedInsert(image) =>
      if image.Some? && image.value != "" {
        ImagesOfAppendedBlock(st.out, Paragraph([Image(image.value, "")]));
        ImageParagraphTexts(image.value);
      }
    case OtherInsert =>
  }

  lemma {:induction false} RunImages(st: State, ops: seq<Op>)
    requires NoNullInsert(ops) && StateCanonical(st)
    ensures DocImages(RunFrom(st, ops).out) == DocImages(st.out) + EmbeddedImages(ops)
  {
    if ops == [] {
      AppendEmpty(DocImages(st.out));
    } else {
      var ops', op := ops[..|ops| - 1], ops[|ops| - 1];
      PrefixNoNull(ops, |ops| - 1);
      RunImages(st, ops');
      RunCanonical(st, ops');
      StepImages(RunFrom(st, ops'), op);
      AssocOf(DocImages(st.out), EmbeddedImages(ops'), OpImage(op));
    }
  }

  /**
   * The images of the document are the image embeds, in order; with
   * EncodeCanonical each sits alone in its own paragraph with an empty alt.
   */
  lemma {:induction false} EncodeKeepsImages(ops: seq<Op>)
    requires NoNullInsert(ops)
    ensures DocImages(Encode(Some(ops))) == EmbeddedImages(ops)
  {
    RunImages(Start, ops);
    RunCanonical(Start, ops);
    var st := RunFrom(Start, ops);
    if st.current.Some? {
      ImagesOfAppendedBlock(st.out, Paragraph(st.current.value));
      TextsHaveNoImages(st.current.value);
    }
  }

  /** Line breaks with nothing pending emit nothing: a leading one changes nothing. */
  lemma LeadingNewlineIgnored(ops: seq<Op>)
    requires NoNullInsert(ops)
    ensures NoNullInsert([Newline] + ops)
    ensures Encode(Some([Newline] + ops)) == Encode(Some(ops))
  {
    RunAppend(Start, [Newline], ops);
    assert [Newline][..0] == [];
  }

  /** ... and two consecutive ones act as one. */
  lemma RepeatedNewlineCollapses(a: seq<Op>, b: seq<Op>)
    requires NoNullInsert(a) && NoNullInsert(b)
    ensures NoNullInsert(a + [Newline, Newline] + b) && NoNullInsert(a + [Newline] + b)
    ensures Encode(Some(a + [Newline, Newline] + b)) == Encode(Some(a + [Newline] + b))
  {
    RunAppend(Start, a, [Newline, Newline]);
    RunAppend(Start, a, [Newline]);
    RunAppend(Start, a + [Newline, Newline], b);
    RunAppend(Start, a + [Newline], b);
    var mid := RunFrom(Start, a);
    assert [Newline, Newline][..1] == [Newline];
    assert [Newline][..0] == [];
    assert RunFrom(mid, [Newline, Newline]) == Step(Step(mid, Newline), Newline);
    assert RunFrom(mid, [Newline]) == Step(mid, Newline);
  }

  /** A trailing paragraph is emitted whether or not a final line break closes it. */
  lemma TrailingNewlineOptional(ops: seq<Op>)
    requires NoNullInsert(ops)
    ensures NoNullInsert(ops + [Newline])
    ensures Encode(Some(ops + [Newline])) == Encode(Some(ops))
  {
    assert forall i | 0 <= i < |ops| :: (ops + [Newline])[i] == ops[i];
    assert (ops + [Newline])[..|ops|] == ops;
  }

  lemma RunSnoc(st: State, ops: seq<Op>, op: Op)
    requires NoNullInsert(ops) && op.insert != NullInsert
    ensures NoNullInsert(ops + [op])
    ensures RunFrom(st, ops + [op]) == Step(RunFrom(st, ops), op)
  {
    assert forall i | 0 <= i < |ops| :: (ops + [op])[i] == ops[i];
    assert (ops + [op])[..|ops|] == ops;
  }

  /** An image met while a paragraph is pending comes out before that paragraph. */
  lemma ImageBeforePendingParagraph(s: string, t: string, src: string)
    requires s != "\n" && t != "\n" && src != ""
    ensures var ops := [Op(TextInsert(s), None), Op(EmbedInsert(Some(src)), None), Op(TextInsert(t), None)];
            NoNullInsert(ops) &&
            Encode(Some(ops)) == [Paragraph([Image(src, "")]), Paragraph([PlainText(s), PlainText(t)])]
  {
    var o0, o1, o2 := Op(TextInsert(s), None), Op(EmbedInsert(Some(src)), None), Op(TextInsert(t), None);
    RunSnoc(Start, [], o0);
    RunSnoc(Start, [o0], o1);
    RunSnoc(Start, [o0, o1], o2);
    assert [] + [o0] == [o0];
    assert [o0] + [o1] == [o0, o1];
    assert [o0, o1] + [o2] == [o0, o1, o2];
    assert RunFrom(Start, []) == Start;
    assert TextNodeOf(s, None) == PlainText(s) && TextNodeOf(t, None) == PlainText(t);
    assert [] + [PlainText(s)] == [PlainText(s)];
    assert [PlainText(s)] + [PlainText(t)] == [PlainText(s), PlainText(t)];
    assert RunFrom(Start, [o0]) == State([], Some([PlainText(s)]));
    assert RunFrom(Start, [o0, o1]) == State([Paragraph([Image(src, "")])], Some([PlainText(s)]));
    assert RunFrom(Start, [o0, o1, o2]) == State([Paragraph([Image(src, "")])], Some([PlainText(s), PlainText(t)]));
  }

  /** Two text runs, the second bold, a line break, then an image: two paragraphs, the texts one and the image the other. */
  lemma ExampleDelta()
    ensures var ops := [Op(TextInsert("Hi "), None),
                        Op(TextInsert("there"), Some(map["bold" := BoolAttr(true)])),
                        Newline,
                        Op(EmbedInsert(Some("http://x/y.png")), None)];
            NoNullInsert(ops) &&
            Encode(Some(ops)) ==
              [Paragraph([PlainText("Hi "), Text("there", Some(true), None, None, None, None)]),
               Paragraph([Image("http://x/y.png", "")])]
  {
    var o0, o1, o3 := Op(TextInsert("Hi "), None),
                      Op(TextInsert("there"), Some(map["bold" := BoolAttr(true)])),
                      Op(EmbedInsert(Some("http://x/y.png")), None);
    RunSnoc(Start, [], o0);
    RunSnoc(Start, [o0], o1);
    RunSnoc(Start, [o0, o1], Newline);
    RunSnoc(Start, [o0, o1, Newline], o3);
    assert [] + [o0] == [o0];
    assert [o0] + [o1] == [o0, o1];
    assert [o0, o1] + [Newline] == [o0, o1, Newline];
    assert [o0, o1, Newline] + [o3] == [o0, o1, Newline, o3];
    var hi, there := PlainText("Hi "), Text("there", Some(true), None, None, None, None);
    assert TextNodeOf("Hi ", None) == hi;
    assert TextNodeOf("there", o1.attributes) == there;
    assert [] + [hi] == [hi];
    assert [hi] + [there] == [hi, there];
    assert RunFrom(Start, []) == Start;
    assert RunFrom(Start, [o0]) == State([], Some([hi]));
    assert RunFrom(Start, [o0, o1]) == State([], Some([hi, there]));
    assert RunFrom(Start, [o0, o1, Newline]) == State([Paragraph([hi, there])], None);
  }

  /** Leading and repeated line breaks produce no empty paragraph. */
  lemma ExampleBlankLines()
    ensures var ops := [Newline, Newline, Op(TextInsert("hello"), None), Newline];
            NoNullInsert(ops) && Encode(Some(ops)) == [Paragraph([PlainText("hello")])]
  {
    var o2 := Op(TextInsert("hello"), None);
    RunSnoc(Start, [], Newline);
    RunSnoc(Start, [Newline], Newline);
    RunSnoc(Start, [Newline, Newline], o2);
    RunSnoc(Start, [Newline, Newline, o2], Newline);
    assert [] + [Newline] == [Newline];
    assert [Newline] + [Newline] == [Newline, Newline];
    assert [Newline, Newline] + [o2] == [Newline, Newline, o2];
    assert [Newline, Newline, o2] + [Newline] == [Newline, Newline, o2, Newline];
    assert TextNodeOf("hello", None) == PlainText("hello");
    assert [] + [PlainText("hello")] == [PlainText("hello")];
    assert RunFrom(Start, []) == Start;
    assert RunFrom(Start, [Newline, Newline]) == Start;
    assert RunFrom(Start, [Newline, Newline, o2]) == State([], Some([PlainText("hello")]));
  }
}
