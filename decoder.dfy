/**
 * The decoder: turns a persisted document back into a delta
 * (convertStructuredToDelta). Blocks are separated by one bare line break;
 * paragraph children become text inserts with their true flags as attributes
 * or image embeds; heading text children become inserts carrying only the
 * heading level; any other block contributes nothing but its separator.
 */
module Decoder {
  import opened DocumentModel

  /** A stored flag is truthy only when it is present and true. */
  predicate FlagOn(f: Option<bool>) {
    f == Some(true)
  }

  predicate AnyFlagOn(n: Inline)
    requires n.Text?
  {
    FlagOn(n.bold) || FlagOn(n.italic) || FlagOn(n.underline) || FlagOn(n.strikethrough) || FlagOn(n.code)
  }

  /**
   * The attribute entries of a text node: one `true` entry per true flag, added
   * in the order bold, italic, underline, strike, code (`strikethrough` is
   * written as `strike`).
   */
  function FlagEntries(n: Inline): Attributes
    requires n.Text?
  {
    var m0: Attributes := map[];
    var m1 := if FlagOn(n.bold) then m0["bold" := BoolAttr(true)] else m0;
    var m2 := if FlagOn(n.italic) then m1["italic" := BoolAttr(true)] else m1;
    var m3 := if FlagOn(n.underline) then m2["underline" := BoolAttr(true)] else m2;
    var m4 := if FlagOn(n.strikethrough) then m3["strike" := BoolAttr(true)] else m3;
    if FlagOn(n.code) then m4["code" := BoolAttr(true)] else m4
  }

  /** The attribute map of a text node's insert, left out altogether when no flag is true. */
  function TextAttributes(n: Inline): Option<Attributes>
    requires n.Text?
  {
    var m := FlagEntries(n);
    if m == map[] then None else Some(m)
  }

  /** The entries present are exactly the true flags, each with the value `true`. */
  lemma FlagEntriesKeys(n: Inline)
    requires n.Text?
    ensures "bold" in FlagEntries(n) <==> FlagOn(n.bold)
    ensures "italic" in FlagEntries(n) <==> FlagOn(n.italic)
    ensures "underline" in FlagEntries(n) <==> FlagOn(n.underline)
    ensures "strike" in FlagEntries(n) <==> FlagOn(n.strikethrough)
    ensures "code" in FlagEntries(n) <==> FlagOn(n.code)
    ensures forall k :: k in FlagEntries(n) ==> FlagEntries(n)[k] == BoolAttr(true)
    ensures forall k :: k in FlagEntries(n) ==> k in {"bold", "italic", "underline", "strike", "code"}
  {
    assert "bold"[0] == 'b' && "italic"[0] == 'i' && "underline"[0] == 'u' && "strike"[0] == 's' && "code"[0] == 'c';
  }

  /** No attribute map at all exactly when no flag is true. */
  lemma TextAttributesNone(n: Inline)
    requires n.Text?
    ensures TextAttributes(n).None? <==> !AnyFlagOn(n)
  {
    FlagEntriesKeys(n);
  }

  /** The operations of one paragraph child: a text insert, an image embed, or nothing for any other node. */
  function ChildOps(c: Inline): (r: seq<Op>)
    ensures NoNullInsert(r)
  {
    match c
    case Text(text, _, _, _, _, _) => [Op(TextInsert(text), TextAttributes(c))]
    case Image(src, _) => [Op(EmbedInsert(Some(src)), None)]
    case OtherInline(_) => []
  }

  lemma NoNullAppend(a: seq<Op>, b: seq<Op>)
    requires NoNullInsert(a) && NoNullInsert(b)
    ensures NoNullInsert(a + b)
  {
    assert forall i | 0 <= i < |a + b| :: (a + b)[i] == if i < |a| then a[i] else b[i - |a|];
  }

  function ParagraphOps(cs: seq<Inline>): seq<Op> {
    if cs == [] then [] else ParagraphOps(cs[..|cs| - 1]) + ChildOps(cs[|cs| - 1])
  }

  lemma {:induction false} ParagraphOpsNoNull(cs: seq<Inline>)
    ensures NoNullInsert(ParagraphOps(cs))
  {
    if cs != [] {
      ParagraphOpsNoNull(cs[..|cs| - 1]);
      NoNullAppend(ParagraphOps(cs[..|cs| - 1]), ChildOps(cs[|cs| - 1]));
    }
  }

  /** `block.level || 1`: an absent or zero level counts as 1. */
  function HeaderLevel(level: Option<int>): (l: int)
    ensures l != 0
  {
    if level.Some? && level.value != 0 then level.value else 1
  }

  function HeaderAttributes(level: Option<int>): Option<Attributes> {
    Some(map["header" := IntAttr(HeaderLevel(level))])
  }

  /**
   * The operations of a heading: one insert per text child, in order, each with
   * exactly the header attribute; formatting flags and other children are dropped.
   */
  function HeadingOps(level: Option<int>, cs: seq<Inline>): (r: seq<Op>)
    ensures |r| == |InlineTexts(cs)|
    ensures forall i :: 0 <= i < |r| ==> r[i] == Op(TextInsert(InlineTexts(cs)[i]), HeaderAttributes(level))
  {
    if cs == [] then []
    else
      var last := cs[|cs| - 1];
      HeadingOps(level, cs[..|cs| - 1]) +
        (if last.Text? then [Op(TextInsert(last.text), HeaderAttributes(level))] else [])
  }

  lemma HeadingOpsNoNull(level: Option<int>, cs: seq<Inline>)
    ensures NoNullInsert(HeadingOps(level, cs))
  {
  }

  function BlockOps(b: Block): seq<Op> {
    match b
    case Paragraph(children) => ParagraphOps(children)
    case Heading(level, children) => HeadingOps(level, children)
    case OtherBlock(_) => []
  }

  /** The operations of a block sequence: each block's operations, a bare line break between neighbours. */
  function DecodeBlocks(d: Document): seq<Op> {
    if d == [] then []
    else DecodeBlocks(d[..|d| - 1]) + (if |d| > 1 then [Newline] else []) + BlockOps(d[|d| - 1])
  }

  lemma {:induction false} DecodeBlocksNoNull(d: Document)
    ensures NoNullInsert(DecodeBlocks(d))
  {
    if d != [] {
      var b := d[|d| - 1];
      DecodeBlocksNoNull(d[..|d| - 1]);
      match b {
        case Paragraph(children) => ParagraphOpsNoNull(children);
        case Heading(level, children) => HeadingOpsNoNull(level, children);
        case OtherBlock(_) =>
      }
      var sep := if |d| > 1 then [Newline] else [];
      NoNullAppend(DecodeBlocks(d[..|d| - 1]), sep);
      NoNullAppend(DecodeBlocks(d[..|d| - 1]) + sep, BlockOps(b));
    }
  }

  /** The decoder: anything but an array decodes to no operations; no produced insert is null. */
  function Decode(v: Value): (r: seq<Op>)
    ensures NoNullInsert(r)
  {
    if v.Array? then DecodeBlocksNoNull(v.blocks); DecodeBlocks(v.blocks) else []
  }

  /** The insert of one text child: its string, with the attribute map built flag by flag unless it stays empty. */
  method TextChildOp(child: Inline) returns (op: Op)
    requires child.Text?
    ensures [op] == ChildOps(child)
  {
    var attributes: Attributes := map[];
    if child.bold == Some(true) { attributes := attributes["bold" := BoolAttr(true)]; }
    if child.italic == Some(true) { attributes := attributes["italic" := BoolAttr(true)]; }
    if child.underline == Some(true) { attributes := attributes["underline" := BoolAttr(true)]; }
    if child.strikethrough == Some(true) { attributes := attributes["strike" := BoolAttr(true)]; }
    if child.code == Some(true) { attributes := attributes["code" := BoolAttr(true)]; }
    op := Op(TextInsert(child.text), if attributes != map[] then Some(attributes) else None);
  }

  /** The paragraph branch: one push per text or image child. */
  method PushParagraph(deltaOps: seq<Op>, children: seq<Inline>) returns (r: seq<Op>)
    ensures r == deltaOps + ParagraphOps(children)
  {
    r := deltaOps;
    for j := 0 to |children|
      invariant r == deltaOps + ParagraphOps(children[..j])
    {
      assert children[..j + 1][..j] == children[..j];
      var child := children[j];
      if child.Text? {
        var op := TextChildOp(child);
        r := r + [op];
      } else if child.Image? {
        r := r + [Op(EmbedInsert(Some(child.src)), None)];
      }
      assert ParagraphOps(children[..j + 1]) == ParagraphOps(children[..j]) + ChildOps(child);
    }
    assert children[..|children|] == children;
  }

  /** The heading branch: one push per text child, all sharing the header attribute. */
  method PushHeading(deltaOps: seq<Op>, level: Option<int>, children: seq<Inline>) returns (r: seq<Op>)
    ensures r == deltaOps + HeadingOps(level, children)
  {
    var attributes := HeaderAttributes(level);
    r := deltaOps;
    for j := 0 to |children|
      invariant r == deltaOps + HeadingOps(level, children[..j])
    {
      assert children[..j + 1][..j] == children[..j];
      var child := children[j];
      if child.Text? {
        r := r + [Op(TextInsert(child.text), attributes)];
      }
    }
    assert children[..|children|] == children;
  }

  /** `convertStructuredToDelta` of QuillEditor.tsx: one pass over the blocks pushing into one operation list. */
  method ConvertStructuredToDelta(content: Value) returns (ops: seq<Op>)
    ensures ops == Decode(content)
    ensures !content.Array? ==> ops == []
  {
    if !content.Array? {
      return [];
    }
    var blocks := content.blocks;
    var deltaOps: seq<Op> := [];
    for index := 0 to |blocks|
      invariant deltaOps == DecodeBlocks(blocks[..index])
    {
      assert blocks[..index + 1][..index] == blocks[..index];
      if index > 0 {
        deltaOps := deltaOps + [Newline];
      }
      var block := blocks[index];
      if block.Paragraph? {
        deltaOps := PushParagraph(deltaOps, block.children);
      } else if block.Heading? {
        deltaOps := PushHeading(deltaOps, block.level, block.children);
      }
    }
    assert blocks[..|blocks|] == blocks;
    ops := deltaOps;
  }

  // ---------------------------------------------------------------------------
  // Separators
  // ---------------------------------------------------------------------------

  /** The number of operations inserting a lone line break. */
  function CountBreaks(ops: seq<Op>): nat {
    if ops == [] then 0
    else CountBreaks(ops[..|ops| - 1]) + (if ops[|ops| - 1].insert == TextInsert("\n") then 1 else 0)
  }

  lemma {:induction false} CountBreaksAppend(a: seq<Op>, b: seq<Op>)
    ensures CountBreaks(a + b) == CountBreaks(a) + CountBreaks(b)
  {
    if b == [] {
      assert a + b == a;
    } else {
      CountBreaksAppend(a, b[..|b| - 1]);
      assert (a + b)[..|a + b| - 1] == a + b[..|b| - 1];
      assert (a + b)[|a + b| - 1] == b[|b| - 1];
    }
  }

  lemma {:induction false} ParagraphOpsNoBreak(cs: seq<Inline>)
    requires forall k :: 0 <= k < |cs| ==> (cs[k].Text? ==> cs[k].text != "\n")
    ensures CountBreaks(ParagraphOps(cs)) == 0
  {
    if cs != [] {
      ParagraphOpsNoBreak(cs[..|cs| - 1]);
      CountBreaksAppend(ParagraphOps(cs[..|cs| - 1]), ChildOps(cs[|cs| - 1]));
      assert ChildOps(cs[|cs| - 1])[..0] == [];
    }
  }

  lemma {:induction false} HeadingOpsNoBreak(level: Option<int>, cs: seq<Inline>)
    requires forall k :: 0 <= k < |cs| ==> (cs[k].Text? ==> cs[k].text != "\n")
    ensures CountBreaks(HeadingOps(level, cs)) == 0
  {
    if cs != [] {
      var last := cs[|cs| - 1];
      var tail := if last.Text? then [Op(TextInsert(last.text), HeaderAttributes(level))] else [];
      HeadingOpsNoBreak(level, cs[..|cs| - 1]);
      CountBreaksAppend(HeadingOps(level, cs[..|cs| - 1]), tail);
      assert tail == [] || tail[..0] == [];
    }
  }

  lemma BlockOpsNoBreak(b: Block)
    requires NoBreakText(b)
    ensures CountBreaks(BlockOps(b)) == 0
  {
    match b
    case Paragraph(children) => ParagraphOpsNoBreak(children);
    case Heading(level, children) => HeadingOpsNoBreak(level, children);
    case OtherBlock(_) =>
  }

  /** With no text node that is itself a line break, n blocks decode with exactly n - 1 line breaks. */
  lemma {:induction false} DecodeSeparators(d: Document)
    requires NoBreakTexts(d)
    ensures CountBreaks(Decode(Array(d))) == if d == [] then 0 else |d| - 1
  {
    if d != [] {
      var d' := d[..|d| - 1];
      var sep := if |d| > 1 then [Newline] else [];
      assert NoBreakTexts(d') by {
        forall i | 0 <= i < |d'| ensures NoBreakText(d'[i]) { assert d'[i] == d[i]; }
      }
      DecodeSeparators(d');
      BlockOpsNoBreak(d[|d| - 1]);
      CountBreaksAppend(DecodeBlocks(d'), sep);
      CountBreaksAppend(DecodeBlocks(d') + sep, BlockOps(d[|d| - 1]));
      assert sep == [] || sep[..0] == [];
    }
  }

  /**
   * Read from the front: the first block's operations come first, and a line
   * break precedes every later block. So no separator precedes the first block
   * or follows the last one.
   */
  lemma DecodeSnoc(d: Document, b: Block)
    ensures DecodeBlocks(d + [b]) == DecodeBlocks(d) + (if |d| > 0 then [Newline] else []) + BlockOps(b)
  {
    assert (d + [b])[..|d|] == d;
  }

  /** Decoding a concatenation puts one line break between the two halves' operations. */
  lemma {:induction false} DecodeAppend(a: Document, b: Document)
    requires a != [] && b != []
    ensures DecodeBlocks(a + b) == DecodeBlocks(a) + [Newline] + DecodeBlocks(b)
  {
    var b', x := b[..|b| - 1], b[|b| - 1];
    assert b == b' + [x];
    if b' == [] {
      DecodeAppendOne(a, x);
    } else {
      DecodeAppend(a, b');
      DecodeAppendStep(a, b', x);
    }
  }

  lemma DecodeAppendOne(a: Document, x: Block)
    requires a != []
    ensures DecodeBlocks(a + [x]) == DecodeBlocks(a) + [Newline] + DecodeBlocks([x])
  {
    DecodeSnoc(a, x);
    DecodeSnoc([], x);
    assert [] + [x] == [x];
  }

  lemma DecodeAppendStep(a: Document, b': Document, x: Block)
    requires a != [] && b' != []
    requires DecodeBlocks(a + b') == DecodeBlocks(a) + [Newline] + DecodeBlocks(b')
    ensures DecodeBlocks(a + (b' + [x])) == DecodeBlocks(a) + [Newline] + DecodeBlocks(b' + [x])
  {
    AssocOf(a, b', [x]);
    DecodeSnoc(a + b', x);
    DecodeSnoc(b', x);
    Glue(DecodeBlocks(a + (b' + [x])), DecodeBlocks(a + b'), DecodeBlocks(a), DecodeBlocks(b'), BlockOps(x),
         DecodeBlocks(b' + [x]));
  }

  lemma Glue(l: seq<Op>, ab: seq<Op>, da: seq<Op>, db: seq<Op>, bx: seq<Op>, r: seq<Op>)
    requires l == ab + [Newline] + bx && ab == da + [Newline] + db && r == db + [Newline] + bx
    ensures l == da + [Newline] + r
  {
  }

  lemma DecodeFront(d: Document)
    requires |d| > 0
    ensures DecodeBlocks(d) == BlockOps(d[0]) + (if |d| > 1 then [Newline] + DecodeBlocks(d[1..]) else [])
  {
    DecodeSingle(d[0]);
    if |d| > 1 {
      assert d == [d[0]] + d[1..];
      DecodeAppend([d[0]], d[1..]);
      AssocOf(BlockOps(d[0]), [Newline], DecodeBlocks(d[1..]));
    } else {
      assert d == [d[0]];
    }
  }

  lemma DecodeSingle(b: Block)
    ensures DecodeBlocks([b]) == BlockOps(b)
  {
    assert [b][..0] == [];
  }
}
