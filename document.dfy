/**
 * The two content representations of the post editor:
 *  - the persisted document: a sequence of blocks, each holding inline text or image nodes;
 *  - the editor's native delta: a sequence of insert operations with optional attribute maps.
 * Both come from untyped JSON in QuillEditor.tsx, so every variant the
 * converters test for (and the "anything else" case they skip) is a constructor here.
 */
module DocumentModel {

  datatype Option<+T> = None | Some(value: T)

  /** A scalar value in a delta attribute map. */
  datatype Attr = BoolAttr(b: bool) | IntAttr(i: int) | StrAttr(s: string) | NullAttr

  /** JavaScript truthiness of an attribute value. */
  predicate AttrTruthy(a: Attr) {
    match a
    case BoolAttr(b) => b
    case IntAttr(i) => i != 0
    case StrAttr(s) => s != ""
    case NullAttr => false
  }

  type Attributes = map<string, Attr>

  /**
   * What an operation inserts: a string, an embed object (with the value of its
   * `image` key, if it has one), `null`, or anything else (a number, a boolean,
   * no `insert` key at all).
   */
  datatype Insert = TextInsert(s: string) | EmbedInsert(image: Option<string>) | NullInsert | OtherInsert

  datatype Op = Op(insert: Insert, attributes: Option<Attributes>)

  /** The bare line break: a block terminator for the encoder, a block separator for the decoder. */
  const Newline: Op := Op(TextInsert("\n"), None)

  /** The encoder reads `op.insert.image` on every object insert, which throws on `null`. */
  predicate NoNullInsert(ops: seq<Op>) {
    forall i :: 0 <= i < |ops| ==> ops[i].insert != NullInsert
  }

  /**
   * An inline node. A stored formatting flag is absent (None), or present with a
   * value; only a present `true` is truthy.
   */
  datatype Inline =
    | Text(text: string, bold: Option<bool>, italic: Option<bool>, underline: Option<bool>,
           strikethrough: Option<bool>, code: Option<bool>)
    | Image(src: string, alt: string)
    | OtherInline(kind: string)

  /** A text node carrying no flag at all. */
  function PlainText(s: string): Inline {
    Text(s, None, None, None, None, None)
  }

  /** A block; `OtherBlock` stands for any element whose `type` is neither paragraph nor heading. */
  datatype Block =
    | Paragraph(children: seq<Inline>)
    | Heading(level: Option<int>, children: seq<Inline>)
    | OtherBlock(kind: string)

  type Document = seq<Block>

  /** A JSON value where a document is expected. `Other` is a number, boolean or plain object, with its truthiness. */
  datatype Value = Null | Array(blocks: seq<Block>) | Str(s: string) | Other(truthy: bool)

  /** JavaScript truthiness of such a value; every array, even an empty one, is truthy. */
  predicate Truthy(v: Value) {
    match v
    case Null => false
    case Array(_) => true
    case Str(s) => s != ""
    case Other(t) => t
  }

  /** A flag as the encoder writes it: true, or absent. */
  predicate CanonicalFlag(f: Option<bool>) {
    f == None || f == Some(true)
  }

  /** A text node the encoder can produce: canonical flags and not a lone line break. */
  predicate CanonicalText(n: Inline) {
    n.Text? && n.text != "\n" &&
    CanonicalFlag(n.bold) && CanonicalFlag(n.italic) && CanonicalFlag(n.underline) &&
    CanonicalFlag(n.strikethrough) && CanonicalFlag(n.code)
  }

  /**
   * A block the encoder can produce: a paragraph that is either a non-empty run
   * of canonical text nodes or a single image with a non-empty source and an empty alt.
   */
  predicate CanonicalBlock(b: Block) {
    b.Paragraph? && |b.children| > 0 &&
    ((|b.children| == 1 && b.children[0].Image? && b.children[0].src != "" && b.children[0].alt == "") ||
     (forall k :: 0 <= k < |b.children| ==> CanonicalText(b.children[k])))
  }

  predicate Canonical(d: Document) {
    forall i :: 0 <= i < |d| ==> CanonicalBlock(d[i])
  }

  /** No text node of the block is a lone line break. */
  predicate NoBreakText(b: Block) {
    (b.Paragraph? || b.Heading?) ==>
      forall k :: 0 <= k < |b.children| ==> (b.children[k].Text? ==> b.children[k].text != "\n")
  }

  predicate NoBreakTexts(d: Document) {
    forall i :: 0 <= i < |d| ==> NoBreakText(d[i])
  }

  /** The texts of the text nodes, in order. */
  function InlineTexts(cs: seq<Inline>): seq<string> {
    if cs == [] then []
    else InlineTexts(cs[..|cs| - 1]) + (if cs[|cs| - 1].Text? then [cs[|cs| - 1].text] else [])
  }

  /** The sources of the image nodes, in order. */
  function InlineImages(cs: seq<Inline>): seq<string> {
    if cs == [] then []
    else InlineImages(cs[..|cs| - 1]) + (if cs[|cs| - 1].Image? then [cs[|cs| - 1].src] else [])
  }

  function BlockTexts(b: Block): seq<string> {
    if b.OtherBlock? then [] else InlineTexts(b.children)
  }

  function BlockImages(b: Block): seq<string> {
    if b.OtherBlock? then [] else InlineImages(b.children)
  }

  /** The texts of all text nodes of a document, block after block. */
  function DocTexts(d: Document): seq<string> {
    if d == [] then [] else DocTexts(d[..|d| - 1]) + BlockTexts(d[|d| - 1])
  }

  /** The sources of all image nodes of a document, block after block. */
  function DocImages(d: Document): seq<string> {
    if d == [] then [] else DocImages(d[..|d| - 1]) + BlockImages(d[|d| - 1])
  }

  /** Concatenation regroups. */
  lemma AssocOf<T>(a: seq<T>, b: seq<T>, c: seq<T>)
    ensures a + (b + c) == (a + b) + c
  {
  }

  lemma AppendEmpty<T>(a: seq<T>)
    ensures a + [] == a
  {
  }

  /** A non-empty sequence is its front followed by its last element. */
  lemma SplitLast<T>(s: seq<T>)
    requires s != []
    ensures s == s[..|s| - 1] + [s[|s| - 1]]
  {
  }

  /** Two ways of building the same sequence from its front and its last element. */
  lemma SnocEqual<T>(n: seq<T>, n': seq<T>, nb: seq<T>, d': seq<T>, b: T, d: seq<T>)
    requires n == n' + nb && n' == d' && nb == [b] && d == d' + [b]
    ensures n == d
  {
  }
}
