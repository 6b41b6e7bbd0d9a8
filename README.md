# Post content editor of the multiblog admin dashboard, in Dafny

The dashboard's post dialog edits a post's body with a rich-text editor
(Quill). Posts store their body as a **document**: a list of blocks
(paragraphs, headings, anything else), each holding inline nodes. A text node
carries a string and optional formatting flags (bold, italic, underline,
strikethrough, code). An image node carries a source and an alt text. The
editor works on a **delta**: a list of insert operations, each with an
optional attribute map. This project models:

- the **encoder** (delta to document) and the **decoder** (document to delta)
  of `src/components/QuillEditor.tsx`. Each is written as the loop the component
  runs, and each is proved equal to a fold or recursion that specifies it;
- the round trip through both, against a reference normal form;
- the component's **adapter state**: the editor instance, the initialised flag
  and the ignore-next-change flag. The model covers the change handler, the
  mount effect, the external-update effect, the unmount cleanup and
  `getContent`; a class holds the state;
- the **post page** of `src/app/dashboard/post/page.tsx`: the form schema as
  a predicate, and the page's state cells as a class. The class covers loading
  a fetched post (including the normalisation of stored content), closing the
  dialog, and choosing the content and request on submit.

Modules:

- `DocumentModel` holds the data of both representations.
- `Encoder` and `Decoder` hold the converters.
- `RoundTrip` holds the reference definition `Normalise` and the round-trip lemmas.
- `Editor` holds the adapter class and scenarios of the mount sequence.
- `PostPage` holds the form, the page state and one end-to-end scenario.

Behaviour of the code that the model keeps as written:

- Only an insert that is exactly one line break ends a block. An insert such
  as `"a\nb"` becomes one text node.
- An image embed becomes its own paragraph at once, while the paragraph
  pending around it is still being built. An image inside a paragraph
  therefore comes back before that paragraph's text.
- Only the listed flags are read. Any other attribute, `header` included, is
  ignored by the encoder, so a heading comes back as a plain paragraph.
- A blank editor (one bare line break) encodes to the empty document. It does
  not encode to one empty paragraph.
- The round trip is exact on **canonical** documents. Such a document has only
  paragraphs, and each paragraph is either a non-empty run of text nodes whose
  flags are true or absent, or a single image with a non-empty source and an
  empty alt. Beyond those, more is lost than empty blocks:
  - headings are flattened;
  - alts are reset;
  - images are hoisted out of paragraphs;
  - a text node that is exactly one line break turns into a block break.

## Model

| member | source | states |
|---|---|---|
| `Encoder.ConvertDeltaToStructured` | src/components/QuillEditor.tsx:32-96 | The loop over the operations returns exactly the fold `Encode` of the delta; a missing delta gives the empty document |
| `Encoder.BuildTextNode` | src/components/QuillEditor.tsx:56-68 | The text node built flag by flag is the node `TextNodeOf` describes |
| `Encoder.TextNodeOf` | src/components/QuillEditor.tsx:56-68 | The node keeps the insert's string; each flag is true exactly when its attribute is truthy, with `strike` becoming `strikethrough`; any other attribute is ignored; the node is canonical unless the string is a lone line break |
| `Encoder.EncodeCanonical` | src/components/QuillEditor.tsx:38-93 | Every emitted block is a paragraph with at least one child: a run of true-or-absent flagged texts, or one image with a non-empty source and an empty alt |
| `Encoder.EncodeKeepsTexts` | src/components/QuillEditor.tsx:47-71 | The texts of the output's text nodes, block after block, are the string inserts other than a lone line break, in order |
| `Encoder.EncodeKeepsImages` | src/components/QuillEditor.tsx:72-86 | The images of the output are the embeds carrying a truthy image reference, in order |
| `Encoder.RunAppend` | src/components/QuillEditor.tsx:38-88 | Encoding a concatenation folds the second part from the state the first part leaves |
| `Encoder.LeadingNewlineIgnored` | src/components/QuillEditor.tsx:41-46 | A line break with no pending block emits nothing, so a leading one changes nothing |
| `Encoder.RepeatedNewlineCollapses` | src/components/QuillEditor.tsx:41-46 | Two consecutive line breaks encode like one, so they never produce an empty block |
| `Encoder.TrailingNewlineOptional` | src/components/QuillEditor.tsx:90-93 | A pending block is emitted at the end whether or not a final line break closes it |
| `Encoder.ImageBeforePendingParagraph` | src/components/QuillEditor.tsx:72-86 | An image met while a paragraph is pending is emitted first, and the pending paragraph is left untouched |
| `Encoder.ExampleDelta` | src/components/QuillEditor.tsx:32-96 | The delta "Hi ", bold "there", a line break and an image embed encodes to two paragraphs: the two texts (the second bold), then the image with an empty alt |
| `Encoder.ExampleBlankLines` | src/components/QuillEditor.tsx:41-54 | The inserts line break, line break, "hello", line break encode to one paragraph holding "hello" |
| `Decoder.ConvertStructuredToDelta` | src/components/QuillEditor.tsx:99-146 | The loop over the blocks returns exactly `Decode` of the content; anything but an array gives no operations |
| `Decoder.TextChildOp` | src/components/QuillEditor.tsx:112-123 | The operation pushed for a text child is the one `ChildOps` describes |
| `Decoder.PushParagraph` | src/components/QuillEditor.tsx:110-129 | The paragraph branch appends the paragraph's operations to what was pushed before, and changes nothing else |
| `Decoder.PushHeading` | src/components/QuillEditor.tsx:130-141 | The heading branch appends the heading's operations to what was pushed before, and changes nothing else |
| `Decoder.FlagEntriesKeys` | src/components/QuillEditor.tsx:113-118 | The attribute map holds bold, italic, underline, strike and code exactly for the flags that are true, `strikethrough` written as `strike`, each with the value true, and no other key |
| `Decoder.TextAttributesNone` | src/components/QuillEditor.tsx:122 | The attribute map is left out exactly when no flag is true |
| `Decoder.HeaderLevel` | src/components/QuillEditor.tsx:132 | An absent or zero level falls back to 1, so the header attribute is never 0 |
| `Decoder.HeadingOps` | src/components/QuillEditor.tsx:130-141 | A heading gives one insert per text child, in order, each carrying exactly the header attribute; flags and other children are dropped |
| `Decoder.DecodeSeparators` | src/components/QuillEditor.tsx:104-108 | Without text nodes that are themselves line breaks, n blocks decode with exactly n - 1 lone line breaks (none for no blocks) |
| `Decoder.DecodeFront` | src/components/QuillEditor.tsx:104-108 | The first block's operations come first with no separator before them, and one line break precedes the rest |
| `Decoder.DecodeAppend` | src/components/QuillEditor.tsx:104-108 | Decoding two non-empty halves puts exactly one line break between their operations |
| `RoundTrip.ParagraphRun` | src/components/QuillEditor.tsx:110-129 | Encoding a decoded paragraph emits its images as paragraphs of their own and extends the pending paragraph by its texts with true-or-absent flags |
| `RoundTrip.HeadingRun` | src/components/QuillEditor.tsx:130-141 | Encoding a decoded heading extends the pending paragraph by its texts, all flags absent |
| `RoundTrip.ChildTextNode` | src/components/QuillEditor.tsx:113-123 | The encoder reads back exactly the true flags the decoder wrote for a text child |
| `RoundTrip.HeaderTextNode` | src/components/QuillEditor.tsx:132-139 | The header attribute carries none of the keys the encoder reads, so a heading's text comes back unflagged |
| `RoundTrip.BlockRun` | src/components/QuillEditor.tsx:110-142 | From a state with nothing pending, a decoded block emits its images and leaves exactly its texts pending (nothing for any other block type) |
| `RoundTrip.DecodeRun` | src/components/QuillEditor.tsx:104-143 | After the decoded operations of a document, the encoder holds the normal form of all blocks but the last, plus the last block's images, with its texts pending |
| `RoundTrip.RoundTripNormalises` | src/components/QuillEditor.tsx:32-146 | For every document without a text node that is a lone line break, encoding the decoded document gives the reference normal form |
| `RoundTrip.RoundTripCanonical` | src/components/QuillEditor.tsx:32-146 | Every canonical document survives decoding and re-encoding unchanged |
| `RoundTrip.EncodeDecodeEncode` | src/components/QuillEditor.tsx:32-146 | Whatever the encoder produced survives a further decode and encode unchanged |
| `RoundTrip.NormaliseIdempotent` | src/components/QuillEditor.tsx:32-146 | The normal form is canonical, and normalising it again changes nothing |
| `RoundTrip.NormaliseAppend` | src/components/QuillEditor.tsx:104-108 | Blocks are normalised independently: the normal form of a concatenation is the concatenation of the normal forms |
| `RoundTrip.EmptyParagraphVanishes` | src/components/QuillEditor.tsx:110-129 | A paragraph without children, anywhere in a document, comes back as nothing |
| `RoundTrip.HeadingBecomesParagraph` | src/components/QuillEditor.tsx:130-141 | A heading comes back as a plain paragraph with the same text and every flag absent, whatever its level and flags |
| `RoundTrip.ImageAltResets` | src/components/QuillEditor.tsx:124-127 | An image comes back with its source and an empty alt, whatever its alt was |
| `RoundTrip.ImageHoistedBeforeText` | src/components/QuillEditor.tsx:72-86 | An image between two texts of one paragraph comes back as its own paragraph before the paragraph of the two texts |
| `RoundTrip.FlagIndependence` | src/components/QuillEditor.tsx:113-123 | A text node with bold and code comes back with exactly those two flags |
| `Editor.Adapter.constructor` | src/components/QuillEditor.tsx:21-23 | Before the mount effect there is no instance, and both flags are clear |
| `Editor.Adapter.HandleTextChange` | src/components/QuillEditor.tsx:180-192 | A set ignore flag swallows this one change and clears the flag; otherwise the encoded contents go to the callback, if there is one |
| `Editor.Adapter.ApplyChange` | src/components/QuillEditor.tsx:180-192 | Setting the contents replaces them; the one change event it fires is handled only once the handler is registered, and otherwise leaves the flag as it was |
| `Editor.Adapter.Setup` | src/components/QuillEditor.tsx:149-193 | The mount effect as written creates the instance once, loads a truthy initial content decoded, and leaves the ignore flag set, because the load's change reaches no handler |
| `Editor.Adapter.SetupListenerFirst` | src/components/QuillEditor.tsx:168-192 | With the handler registered before the load, the load's own change consumes the ignore flag |
| `Editor.Adapter.Teardown` | src/components/QuillEditor.tsx:195-200 | The cleanup drops the instance and its handler and clears the initialised flag, leaving the ignore flag as it was |
| `Editor.Adapter.ExternalUpdate` | src/components/QuillEditor.tsx:204-231 | With an instance, an initialised adapter and a truthy content that differs from the encoded contents, the contents become the decoded content and the flag is consumed; otherwise nothing changes; nothing ever reaches the callback |
| `Editor.Adapter.GetContent` | src/components/QuillEditor.tsx:235-241 | Returns the encoded contents, always canonical, while an instance exists, and null otherwise |
| `Editor.FirstEditDroppedAfterLoad` | src/components/QuillEditor.tsx:168-192 | As written: after mounting with content already in canonical form, the user's first edit reaches no callback |
| `Editor.SavedLineIsCanonical` | src/components/QuillEditor.tsx:56-70 | One paragraph holding the text "hi\n", as the encoder saves a typed line, is in encoded form, so the dropped first edit applies to it |
| `Editor.FirstEditReportedAfterCorrectedLoad` | src/components/QuillEditor.tsx:168-192 | With the handler registered first, the same first edit reaches the callback, encoded |
| `Editor.LoadThenRead` | src/components/QuillEditor.tsx:204-241 | Canonical content loaded at mount reads back unchanged through `getContent` |
| `Editor.UpdateThenRead` | src/components/QuillEditor.tsx:204-241 | After an outside update to canonical content, `getContent` returns that content, whatever was loaded at mount |
| `Editor.ReadAfterTeardown` | src/components/QuillEditor.tsx:195-241 | After the cleanup, `getContent` returns null |
| `PostPage.EmptyImageUrlAccepted` | src/app/dashboard/post/page.tsx:74-83 | The empty string passes as image URL, whatever the URL check says |
| `PostPage.StatusRule` | src/app/dashboard/post/page.tsx:82 | With the other fields acceptable (any accepted image URL included), the status passes exactly when it is publish, save or draft |
| `PostPage.EmptyRequiredRejected` | src/app/dashboard/post/page.tsx:75-76 | An empty title or description is rejected |
| `PostPage.DefaultFormRejected` | src/app/dashboard/post/page.tsx:98-105 | The default values fail only on the empty title and description |
| `PostPage.FallbackDocument` | src/app/dashboard/post/page.tsx:129-137 | A stored string that is not JSON becomes one paragraph whose one text node is the raw string |
| `PostPage.StoredContent` | src/app/dashboard/post/page.tsx:120-141 | An array passes as it is, a string as what it parses to or else as the fallback document, and anything else becomes null |
| `PostPage.FallbackRoundTrips` | src/app/dashboard/post/page.tsx:129-137 | The fallback document is canonical, so the editor hands it back unchanged |
| `PostPage.FinalContent` | src/app/dashboard/post/page.tsx:193 | The content sent is what the editor reports (an empty document included, being truthy), and otherwise the last content the page holds |
| `PostPage.Page.constructor` | src/app/dashboard/post/page.tsx:86-105 | The page starts with no editor content, no edited post, the dialog closed and the default form |
| `PostPage.Page.LoadPostData` | src/app/dashboard/post/page.tsx:110-155 | A fetched post resets the form to its fields, and its truthy stored content, normalised, becomes the editor content (null when falsy); with no post the form is reset to the defaults and the content is null |
| `PostPage.Page.DialogEffect` | src/app/dashboard/post/page.tsx:157-162 | A closed dialog forgets the edited post and the editor content; an open one changes nothing |
| `PostPage.Page.HandleEdit` | src/app/dashboard/post/page.tsx:186-189 | Editing a post records it and opens the dialog |
| `PostPage.Page.OpenCreate` | src/app/dashboard/post/page.tsx:351-354 | The create button clears the edited post and opens the dialog |
| `PostPage.Page.Cancel` | src/app/dashboard/post/page.tsx:450-455 | Cancel closes the dialog and clears the edited post |
| `PostPage.Page.ContentChanged` | src/app/dashboard/post/page.tsx:444-445 | The editor's callback stores the reported document as the editor content |
| `PostPage.Page.Submit` | src/app/dashboard/post/page.tsx:191-233 | Rejected values send nothing; accepted values send the final content with the form fields, as an update of the edited post's document id or else as a create |
| `PostPage.Page.RequestSucceeded` | src/app/dashboard/post/page.tsx:207-224 | A successful request closes the dialog, and an update also clears the edited post |
| `PostPage.ResubmitUnchanged` | src/app/dashboard/post/page.tsx:110-233 | Opening a post whose content is canonical and submitting without touching the editor (mounted with its handler registered first) sends that same content back, in an update of that post |
| `PostPage.SubmitWithoutEditor` | src/app/dashboard/post/page.tsx:191-201 | When the editor reports nothing, the content sent is the last one its callback stored |

## Left out

- The editor library itself is not modelled: toolbar, theme and placeholder are absent. Its instance is reduced to the delta it holds. Setting the contents fires one change event synchronously, and getting them returns the delta unchanged. The library's own normalisation of deltas (merging inserts, keeping a final line break, putting `header` on the line break) is not modelled.
- Restoring the selection with `setTimeout` after an outside update (src/components/QuillEditor.tsx:216-224) is left out: it is a DOM and timer concern and does not touch the modelled state.
- `getHTML` (src/components/QuillEditor.tsx:242-247) is left out: it returns the editor's rendered HTML, which is outside the model.
- The `try`/`catch` blocks around loading content are left out: the modelled converters cannot throw on the values of this model.
- Malformed stored JSON is left out: a paragraph without `children`, a text node without `text`, or a flag that is a truthy non-boolean (such as `1`) cannot be represented.
- Encoder.ConvertDeltaToStructured: requires that no insert is `null`. The source reads `op.insert.image` on it and throws (src/components/QuillEditor.tsx:74).
- Editor.Adapter.ApplyChange: requires that no insert in the new contents is `null`, for the same reason.
- Editor.Adapter.ExternalUpdate: the comparison of the serialised current and incoming content is modelled as equality of values. The serialisation's sensitivity to key order and its dropping of keys whose value is undefined are not captured.
- The JSON parser is a parameter `parse` that returns None for a parse error.
- The URL check of the schema library is a parameter `isUrl`.
- String lengths are counted in characters, not in UTF-16 code units.
- React mechanics are left out: effects, callbacks, refs, `forwardRef` and `useImperativeHandle` become explicit method calls in the order React runs them. Keeping the callback ref in sync is the constant `hasCallback`.
- The HTTP layer is left out: the services, mutations, queries, toasts and query invalidation of `src/services` are not modelled, and a submit returns the request it would send. The fetched post arrives as a parameter, and the error callbacks change no modelled state.
- The delete flow, the tables, the view page, the category, domain and tag pages, the layout and the build configuration are left out: they are user interface and plumbing.

## Findings

| source | as written | input that shows it | evidently intended | confidence | as-written member | corrected member |
|---|---|---|---|---|---|---|
| src/components/QuillEditor.tsx:168-192 | The mount effect sets the ignore flag and loads the initial content before it registers the change handler. The change fired by the load reaches no handler, so the flag stays set. The update effect that runs next re-loads, and so clears the flag, only when the encoded contents differ from the initial content. | Mount with content this editor saved itself, such as one paragraph holding the text node "hi\n" (what a typed "hi" is saved as), then make any edit | The flag suppresses only the change caused by loading the initial content, so the user's first edit reaches `onContentChange` | not executed; relies on the editor firing its change event synchronously while contents are set, and on `getContents` handing back the loaded delta without merging its inserts (content such as a plain "hi" without the line break is merged into "hi\n", differs, is loaded again and clears the flag) | `Editor.FirstEditDroppedAfterLoad` | `Editor.FirstEditReportedAfterCorrectedLoad` |
