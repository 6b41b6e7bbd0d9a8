/**
 * Decoding a document and encoding the result again. The reference definition
 * `Normalise` says block by block what comes back: the images of a paragraph,
 * each as a paragraph of its own with an empty alt, then one paragraph of its
 * text nodes with their flags reduced to true-or-absent; the text nodes of a
 * heading as an unflagged paragraph; nothing for a block with neither. The
 * main lemma is Encode(Decode(D)) == Normalise(D), from which the exact round
 * trip on canonical documents and the stability of encoded output follow.
 */
module RoundTrip {
  import opened DocumentModel
  import opened Encoder
  import opened Decoder

  // ---------------------------------------------------------------------------
  // The reference definition
  // ---------------------------------------------------------------------------

  /** A stored flag as it comes back: true stays true, anything else becomes absent. */
  function CanonFlag(f: Option<bool>): Option<bool> {
    if f == Some(true) then Some(true) else None
  }

  function CanonNode(n: Inline): Inline
    requires n.Text?
  {
    Text(n.text, CanonFlag(n.bold), CanonFlag(n.italic), CanonFlag(n.underline),
         CanonFlag(n.strikethrough), CanonFlag(n.code))
  }

  /** What a paragraph child leaves in the pending paragraph. */
  function ChildText(c: Inline): seq<Inline> {
    if c.Text? then [CanonNode(c)] else []
  }

  /** What a paragraph child emits at once: an image with a non-empty source becomes its own paragraph. */
  function ChildImage(c: Inline): Document {
    if c.Image? && c.src != "" then [Paragraph([Image(c.src, "")])] else []
  }

  /** What a heading child leaves in the pending paragraph: its text, without any flag. */
  function HeadingText(c: Inline): seq<Inline> {
    if c.Text? then [PlainText(c.text)] else []
  }

  function ParagraphTexts(cs: seq<Inline>): seq<Inline> {
    if cs == [] then [] else ParagraphTexts(cs[..|cs| - 1]) + ChildText(cs[|cs| - 1])
  }

  function ParagraphImages(cs: seq<Inline>): Document {
    if cs == [] then [] else ParagraphImages(cs[..|cs| - 1]) + ChildImage(cs[|cs| - 1])
  }

  function HeadingTexts(cs: seq<Inline>): seq<Inline> {
    if cs == [] then [] else HeadingTexts(cs[..|cs| - 1]) + HeadingText(cs[|cs| - 1])
  }

  function TextsOut(b: Block): seq<Inline> {
    match b
    case Paragraph(cs) => ParagraphTexts(cs)
    case Heading(_, cs) => HeadingTexts(cs)
    case OtherBlock(_) => []
  }

  function ImagesOut(b: Block): Document {
    if b.Paragraph? then ParagraphImages(b.children) else []
  }

  /** The paragraph a block leaves pending once its operations are encoded. */
  function Pending(b: Block): Option<seq<Inline>> {
    if TextsOut(b) == [] then None else Some(TextsOut(b))
  }

  /** What one block comes back as. */
  function NormBlock(b: Block): Document {
    ImagesOut(b) + (if TextsOut(b) == [] then [] else [Paragraph(TextsOut(b))])
  }

  function Normalise(d: Document): Document {
    if d == [] then [] else Normalise(d[..|d| - 1]) + NormBlock(d[|d| - 1])
  }

  // ---------------------------------------------------------------------------
  // Small algebra, kept away from the fold's terms
  // ---------------------------------------------------------------------------

  /** A pending paragraph after more text nodes are appended to it. */
  function Extend(cur: Option<seq<Inline>>, ts: seq<Inline>): Option<seq<Inline>> {
    if ts == [] then cur else Some((if cur.Some? then cur.value else []) + ts)
  }

  lemma ExtendTwice(cur: Option<seq<Inline>>, ts: seq<Inline>, us: seq<Inline>)
    ensures Extend(Extend(cur, ts), us) == Extend(cur, ts + us)
  {
    if ts == [] {
      assert ts + us == us;
    } else if us == [] {
      assert ts + us == ts;
    } else {
      AssocOf(if cur.Some? then cur.value else [], ts, us);
    }
  }

  lemma ExtendNone(ts: seq<Inline>)
    ensures Extend(None, ts) == if ts == [] then None else Some(ts)
  {
    assert [] + ts == ts;
  }

  /** A one-operation fold is one step. */
  lemma RunOne(st: State, op: Op)
    requires op.insert != NullInsert
    ensures NoNullInsert([op])
    ensures RunFrom(st, [op]) == Step(st, op)
  {
    assert [op][..0] == [];
  }

  /** A bare line break closes the pending paragraph, if any. */
  lemma NewlineFlushes(st: State)
    ensures Step(st, Newline) == State(Flush(st), None)
  {
  }

  // ---------------------------------------------------------------------------
  // One child, one block
  // ---------------------------------------------------------------------------

  /** The encoder reads back exactly the true flags the decoder wrote. */
  lemma ChildTextNode(c: Inline)
    requires c.Text?
    ensures TextNodeOf(c.text, TextAttributes(c)) == CanonNode(c)
  {
    FlagEntriesKeys(c);
    var r := TextAttributes(c);
    if r.Some? {
      assert AttrOn(r, "bold") <==> FlagOn(c.bold);
      assert AttrOn(r, "italic") <==> FlagOn(c.italic);
      assert AttrOn(r, "underline") <==> FlagOn(c.underline);
      assert AttrOn(r, "strike") <==> FlagOn(c.strikethrough);
      assert AttrOn(r, "code") <==> FlagOn(c.code);
    }
  }

  /** The header attribute carries none of the keys the encoder reads. */
  lemma HeaderTextNode(t: string, level: Option<int>)
    ensures TextNodeOf(t, HeaderAttributes(level)) == PlainText(t)
  {
    var m := HeaderAttributes(level).value;
    assert "header"[0] == 'h';
    assert "bold"[0] == 'b' && "italic"[0] == 'i' && "underline"[0] == 'u' && "strike"[0] == 's' && "code"[0] == 'c';
    assert forall k :: k in m ==> k == "header";
  }

  lemma ChildRun(st: State, c: Inline)
    requires c.Text? ==> c.text != "\n"
    ensures NoNullInsert(ChildOps(c))
    ensures RunFrom(st, ChildOps(c)) == State(st.out + ChildImage(c), Extend(st.current, ChildText(c)))
  {
    match c
    case Text(text, _, _, _, _, _) =>
      RunOne(st, ChildOps(c)[0]);
      ChildTextNode(c);
      AppendEmpty(st.out);
    case Image(src, _) =>
      RunOne(st, ChildOps(c)[0]);
      if src == "" { AppendEmpty(st.out); }
    case OtherInline(_) =>
      AppendEmpty(st.out);
  }

  lemma HeadingChildRun(st: State, level: Option<int>, c: Inline)
    requires c.Text? ==> c.text != "\n"
    ensures var ops := if c.Text? then [Op(TextInsert(c.text), HeaderAttributes(level))] else [];
      NoNullInsert(ops) && RunFrom(st, ops) == State(st.out, Extend(st.current, HeadingText(c)))
  {
    if c.Text? {
      RunOne(st, Op(TextInsert(c.text), HeaderAttributes(level)));
      HeaderTextNode(c.text, level);
    }
  }

  /** Encoding a paragraph's operations emits its images and extends the pending paragraph by its texts. */
  lemma {:induction false} ParagraphRun(st: State, cs: seq<Inline>)
    requires forall k :: 0 <= k < |cs| ==> (cs[k].Text? ==> cs[k].text != "\n")
    ensures NoNullInsert(ParagraphOps(cs))
    ensures RunFrom(st, ParagraphOps(cs)) == State(st.out + ParagraphImages(cs), Extend(st.current, ParagraphTexts(cs)))
  {
    ParagraphOpsNoNull(cs);
    if cs == [] {
      AppendEmpty(st.out);
    } else {
      var cs', c := cs[..|cs| - 1], cs[|cs| - 1];
      ParagraphOpsNoNull(cs');
      ParagraphRun(st, cs');
      ChildRun(State(st.out + ParagraphImages(cs'), Extend(st.current, ParagraphTexts(cs'))), c);
      RunAppend(st, ParagraphOps(cs'), ChildOps(c));
      AssocOf(st.out, ParagraphImages(cs'), ChildImage(c));
      ExtendTwice(st.current, ParagraphTexts(cs'), ChildText(c));
    }
  }

  /** Encoding a heading's operations extends the pending paragraph by its unflagged texts. */
  lemma {:induction false} HeadingRun(st: State, level: Option<int>, cs: seq<Inline>)
    requires forall k :: 0 <= k < |cs| ==> (cs[k].Text? ==> cs[k].text != "\n")
    ensures NoNullInsert(HeadingOps(level, cs))
    ensures RunFrom(st, HeadingOps(level, cs)) == State(st.out, Extend(st.current, HeadingTexts(cs)))
  {
    HeadingOpsNoNull(level, cs);
    if cs != [] {
      var cs', c := cs[..|cs| - 1], cs[|cs| - 1];
      var tail := if c.Text? then [Op(TextInsert(c.text), HeaderAttributes(level))] else [];
      HeadingOpsNoNull(level, cs');
      HeadingRun(st, level, cs');
      HeadingChildRun(State(st.out, Extend(st.current, HeadingTexts(cs'))), level, c);
      RunAppend(st, HeadingOps(level, cs'), tail);
      ExtendTwice(st.current, HeadingTexts(cs'), HeadingText(c));
    }
  }

  /** From a state with nothing pending, a block emits its images and leaves its texts pending. */
  lemma BlockRun(out: Document, b: Block)
    requires NoBreakText(b)
    ensures NoNullInsert(BlockOps(b))
    ensures RunFrom(State(out, None), BlockOps(b)) == State(out + ImagesOut(b), Pending(b))
  {
    ExtendNone(TextsOut(b));
    match b
    case Paragraph(cs) => ParagraphRun(State(out, None), cs);
    case Heading(level, cs) => HeadingRun(State(out, None), level, cs); AppendEmpty(out);
    case OtherBlock(_) => AppendEmpty(out);
  }

  // ---------------------------------------------------------------------------
  // Whole documents
  // ---------------------------------------------------------------------------

  /** The encoder's state after the decoded operations of a document. */
  function AfterBlocks(d: Document): State {
    if d == [] then Start
    else State(Normalise(d[..|d| - 1]) + ImagesOut(d[|d| - 1]), Pending(d[|d| - 1]))
  }

  lemma FlushAfter(d: Document)
    requires d != []
    ensures Flush(AfterBlocks(d)) == Normalise(d)
  {
    var b := d[|d| - 1];
    if TextsOut(b) == [] {
      AppendEmpty(ImagesOut(b));
    } else {
      AssocOf(Normalise(d[..|d| - 1]), ImagesOut(b), [Paragraph(TextsOut(b))]);
    }
  }

  lemma NoBreakPrefix(d: Document, n: nat)
    requires NoBreakTexts(d) && n <= |d|
    ensures NoBreakTexts(d[..n])
  {
    forall i | 0 <= i < n ensures NoBreakText(d[..n][i]) {
      assert d[..n][i] == d[i];
    }
  }

  lemma {:induction false} DecodeRun(d: Document)
    requires NoBreakTexts(d)
    ensures NoNullInsert(DecodeBlocks(d))
    ensures RunFrom(Start, DecodeBlocks(d)) == AfterBlocks(d)
  {
    DecodeBlocksNoNull(d);
    if d != [] {
      NoBreakPrefix(d, |d| - 1);
      DecodeRun(d[..|d| - 1]);
      DecodeRunLast(d);
    }
  }

  /** The last block: the separator flushes what the earlier blocks left pending, then the block runs. */
  lemma DecodeRunLast(d: Document)
    requires d != [] && NoBreakText(d[|d| - 1])
    requires NoNullInsert(DecodeBlocks(d[..|d| - 1]))
    requires RunFrom(Start, DecodeBlocks(d[..|d| - 1])) == AfterBlocks(d[..|d| - 1])
    ensures NoNullInsert(DecodeBlocks(d))
    ensures RunFrom(Start, DecodeBlocks(d)) == AfterBlocks(d)
  {
    var d', b := d[..|d| - 1], d[|d| - 1];
    var x := DecodeBlocks(d') + (if |d'| > 0 then [Newline] else []);
    SeparatorRun(d');
    BlockRun(Normalise(d'), b);
    RunAppend(Start, x, BlockOps(b));
  }

  lemma SeparatorRun(d': Document)
    requires NoNullInsert(DecodeBlocks(d')) && RunFrom(Start, DecodeBlocks(d')) == AfterBlocks(d')
    ensures NoNullInsert(DecodeBlocks(d') + (if |d'| > 0 then [Newline] else []))
    ensures RunFrom(Start, DecodeBlocks(d') + (if |d'| > 0 then [Newline] else [])) == State(Normalise(d'), None)
  {
    var sep := if |d'| > 0 then [Newline] else [];
    RunOne(AfterBlocks(d'), Newline);
    RunAppend(Start, DecodeBlocks(d'), sep);
    if d' == [] {
      AppendEmpty(DecodeBlocks(d'));
    } else {
      NewlineFlushes(AfterBlocks(d'));
      FlushAfter(d');
    }
  }

  /** Decoding then encoding yields the reference normal form, for any document without a text node that is a lone line break. */
  lemma RoundTripNormalises(d: Document)
    requires NoBreakTexts(d)
    ensures NoNullInsert(Decode(Array(d)))
    ensures Encode(Some(Decode(Array(d)))) == Normalise(d)
  {
    DecodeRun(d);
    if d != [] {
      FlushAfter(d);
    }
  }

  // ---------------------------------------------------------------------------
  // Canonical documents come back unchanged
  // ---------------------------------------------------------------------------

  lemma CanonNodeFixed(c: Inline)
    requires CanonicalText(c)
    ensures ChildText(c) == [c] && ChildImage(c) == []
  {
  }

  lemma CanonicalTextsPrefix(cs: seq<Inline>, cs': seq<Inline>)
    requires cs != [] && cs' == cs[..|cs| - 1] && forall k :: 0 <= k < |cs| ==> CanonicalText(cs[k])
    ensures forall k :: 0 <= k < |cs'| ==> CanonicalText(cs'[k])
  {
  }

  lemma {:induction false} CanonicalTexts(cs: seq<Inline>)
    requires forall k :: 0 <= k < |cs| ==> CanonicalText(cs[k])
    ensures ParagraphTexts(cs) == cs && ParagraphImages(cs) == []
  {
    if cs != [] {
      var cs', c := cs[..|cs| - 1], cs[|cs| - 1];
      CanonicalTextsPrefix(cs, cs');
      CanonicalTexts(cs');
      CanonNodeFixed(c);
      SplitLast(cs);
      SnocEqual(ParagraphTexts(cs), ParagraphTexts(cs'), ChildText(c), cs', c, cs);
      AppendEmpty(ParagraphImages(cs'));
    }
  }

  lemma NormaliseOne(b: Block)
    ensures Normalise([b]) == NormBlock(b)
  {
    assert [b][..0] == [];
    assert [] + NormBlock(b) == NormBlock(b);
  }

  lemma CanonicalBlockFixed(b: Block)
    requires CanonicalBlock(b)
    ensures NoBreakText(b)
    ensures NormBlock(b) == [b]
  {
    var cs := b.children;
    if |cs| == 1 && cs[0].Image? && cs[0].src != "" && cs[0].alt == "" {
      assert cs[..0] == [];
      assert ParagraphImages(cs) == [Paragraph([Image(cs[0].src, "")])];
      assert ParagraphTexts(cs) == [];
      assert [cs[0]] == cs;
    } else {
      CanonicalTexts(cs);
      assert [] + [Paragraph(cs)] == [b];
    }
  }

  lemma CanonicalNoBreak(d: Document)
    requires Canonical(d)
    ensures NoBreakTexts(d)
  {
    forall i | 0 <= i < |d| ensures NoBreakText(d[i]) {
      CanonicalBlockFixed(d[i]);
    }
  }

  /** A document whose every block comes back as itself comes back as itself. */
  lemma {:induction false} BlocksFixed(d: Document)
    requires forall i :: 0 <= i < |d| ==> NormBlock(d[i]) == [d[i]]
    ensures Normalise(d) == d
  {
    if d != [] {
      var d', b := d[..|d| - 1], d[|d| - 1];
      assert forall i :: 0 <= i < |d'| ==> NormBlock(d'[i]) == [d'[i]] by {
        forall i | 0 <= i < |d'| ensures NormBlock(d'[i]) == [d'[i]] { assert d'[i] == d[i]; }
      }
      BlocksFixed(d');
      SplitLast(d);
      SnocEqual(Normalise(d), Normalise(d'), NormBlock(b), d', b, d);
    }
  }

  lemma CanonicalFixed(d: Document)
    requires Canonical(d)
    ensures Normalise(d) == d
  {
    forall i | 0 <= i < |d| ensures NormBlock(d[i]) == [d[i]] {
      CanonicalBlockFixed(d[i]);
    }
    BlocksFixed(d);
  }

  /** The exact round trip: every canonical document survives decoding and re-encoding unchanged. */
  lemma RoundTripCanonical(d: Document)
    requires Canonical(d)
    ensures NoNullInsert(Decode(Array(d)))
    ensures Encode(Some(Decode(Array(d)))) == d
  {
    CanonicalNoBreak(d);
    CanonicalFixed(d);
    RoundTripNormalises(d);
  }

  /** Whatever the encoder produced survives a further decode and encode unchanged. */
  lemma EncodeDecodeEncode(delta: Option<seq<Op>>)
    requires delta.Some? ==> NoNullInsert(delta.value)
    ensures NoNullInsert(Decode(Array(Encode(delta))))
    ensures Encode(Some(Decode(Array(Encode(delta))))) == Encode(delta)
  {
    EncodeCanonical(delta);
    RoundTripCanonical(Encode(delta));
  }

  /** The normal form is canonical, so normalising twice changes nothing more. */
  lemma NormaliseIdempotent(d: Document)
    requires NoBreakTexts(d)
    ensures Canonical(Normalise(d))
    ensures Normalise(Normalise(d)) == Normalise(d)
  {
    RoundTripNormalises(d);
    EncodeCanonical(Some(Decode(Array(d))));
    CanonicalFixed(Normalise(d));
  }

  // ---------------------------------------------------------------------------
  // The losses, on single blocks
  // ---------------------------------------------------------------------------

  /** A paragraph with no children comes back as nothing at all. */
  lemma EmptyParagraphVanishes(d: Document, e: Document)
    ensures Normalise(d + [Paragraph([])] + e) == Normalise(d + e)
  {
    NormaliseAppend(d, [Paragraph([])]);
    NormaliseAppend(d + [Paragraph([])], e);
    NormaliseAppend(d, e);
    assert Normalise([Paragraph([])]) == [] by {
      assert [Paragraph([])][..0] == [];
    }
    AppendEmpty(Normalise(d));
  }

  lemma {:induction false} NormaliseAppend(a: Document, b: Document)
    ensures Normalise(a + b) == Normalise(a) + Normalise(b)
  {
    if b == [] {
      assert a + b == a;
      AppendEmpty(Normalise(a));
    } else {
      var b' := b[..|b| - 1];
      NormaliseAppend(a, b');
      assert (a + b)[..|a + b| - 1] == a + b';
      assert (a + b)[|a + b| - 1] == b[|b| - 1];
      AssocOf(Normalise(a), Normalise(b'), NormBlock(b[|b| - 1]));
    }
  }

  /** A heading comes back as a plain paragraph: same texts, every flag absent. */
  lemma HeadingBecomesParagraph(level: Option<int>, t: string, bold: Option<bool>, italic: Option<bool>,
                                underline: Option<bool>, strikethrough: Option<bool>, code: Option<bool>)
    requires t != "\n"
    ensures var d := [Heading(level, [Text(t, bold, italic, underline, strikethrough, code)])];
      NoNullInsert(Decode(Array(d))) && Encode(Some(Decode(Array(d)))) == [Paragraph([PlainText(t)])]
  {
    var c := Text(t, bold, italic, underline, strikethrough, code);
    var d := [Heading(level, [c])];
    RoundTripNormalises(d);
    NormaliseOne(d[0]);
    assert [c][..0] == [];
    assert HeadingTexts([c]) == [PlainText(t)];
  }

  /** An image comes back with its source and an empty alt, whatever the alt was. */
  lemma ImageAltResets(src: string, alt: string)
    requires src != ""
    ensures var d := [Paragraph([Image(src, alt)])];
      NoNullInsert(Decode(Array(d))) && Encode(Some(Decode(Array(d)))) == [Paragraph([Image(src, "")])]
  {
    var c := Image(src, alt);
    var d := [Paragraph([c])];
    RoundTripNormalises(d);
    NormaliseOne(d[0]);
    assert [c][..0] == [];
    assert ParagraphImages([c]) == [Paragraph([Image(src, "")])];
    assert ParagraphTexts([c]) == [];
  }

  /** An image in the middle of a paragraph comes back first, before the paragraph of the texts around it. */
  lemma ImageHoistedBeforeText(a: string, src: string, b: string)
    requires a != "\n" && b != "\n" && src != ""
    ensures var d := [Paragraph([PlainText(a), Image(src, ""), PlainText(b)])];
      NoNullInsert(Decode(Array(d))) &&
      Encode(Some(Decode(Array(d)))) == [Paragraph([Image(src, "")]), Paragraph([PlainText(a), PlainText(b)])]
  {
    var cs := [PlainText(a), Image(src, ""), PlainText(b)];
    var d := [Paragraph(cs)];
    assert Normalise(d) == [Paragraph([Image(src, "")]), Paragraph([PlainText(a), PlainText(b)])] by {
      NormaliseOne(Paragraph(cs));
      MixedParagraphParts(a, src, b);
    }
    RoundTripNormalises(d);
  }

  lemma MixedParagraphParts(a: string, src: string, b: string)
    requires src != ""
    ensures var cs := [PlainText(a), Image(src, ""), PlainText(b)];
      ParagraphImages(cs) == [Paragraph([Image(src, "")])] && ParagraphTexts(cs) == [PlainText(a), PlainText(b)]
  {
    var cs := [PlainText(a), Image(src, ""), PlainText(b)];
    var c1, c2 := cs[..1], cs[..2];
    assert c1[..0] == [] && c2[..1] == c1 && cs[..2] == c2;
    assert c1 == [PlainText(a)] && c2 == [PlainText(a), Image(src, "")];
    assert ParagraphImages(c1) == [] + ChildImage(PlainText(a)) == [];
    assert ParagraphImages(c2) == [] + ChildImage(Image(src, "")) == [Paragraph([Image(src, "")])];
    assert ParagraphImages(cs) == [Paragraph([Image(src, "")])] + ChildImage(PlainText(b));
    assert CanonNode(PlainText(a)) == PlainText(a) && CanonNode(PlainText(b)) == PlainText(b);
    assert ParagraphTexts(c1) == [] + ChildText(PlainText(a)) == [PlainText(a)];
    assert ParagraphTexts(c2) == [PlainText(a)] + ChildText(Image(src, "")) == [PlainText(a)];
    assert ParagraphTexts(cs) == [PlainText(a)] + ChildText(PlainText(b));
  }

  /** Bold and code together come back as exactly those two flags. */
  lemma FlagIndependence(t: string)
    requires t != "\n"
    ensures var d := [Paragraph([Text(t, Some(true), None, None, None, Some(true))])];
      NoNullInsert(Decode(Array(d))) && Encode(Some(Decode(Array(d)))) == d
  {
    var d := [Paragraph([Text(t, Some(true), None, None, None, Some(true))])];
    assert CanonicalBlock(d[0]);
    RoundTripCanonical(d);
  }
}
