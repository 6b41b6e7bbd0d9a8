/**
 * The post dialog of the dashboard: the form validator, the state cells the
 * page keeps (the editor content, the post being edited, whether the dialog is
 * open, the form values), the effect that loads a fetched post into them, the
 * effect of closing the dialog, and the submit handler that picks the content
 * to send and builds the create or update request.
 */
module PostPage {
  import opened DocumentModel
  import opened Encoder
  import opened Decoder
  import opened RoundTrip
  import opened Editor

  // ---------------------------------------------------------------------------
  // The form
  // ---------------------------------------------------------------------------

  /** The form's fields; an absent image URL is None. */
  datatype FormValues = FormValues(title: string, description: string, imageUrl: Option<string>, status: string)

  const DefaultForm: FormValues := FormValues("", "", Some(""), "save")

  const Statuses: set<string> := {"publish", "save", "draft"}

  /** The image URL rule: absent, a URL, or the empty string. `isUrl` stands for the schema library's URL check. */
  predicate ImageUrlOk(u: Option<string>, isUrl: string -> bool) {
    u.None? || isUrl(u.value) || u.value == ""
  }

  /** The form schema: a non-empty title and description, an acceptable image URL, and one of the three statuses. */
  predicate FormValid(v: FormValues, isUrl: string -> bool) {
    |v.title| >= 1 && |v.description| >= 1 && ImageUrlOk(v.imageUrl, isUrl) && v.status in Statuses
  }

  /** The empty string passes as an image URL whatever the URL check says of it. */
  lemma EmptyImageUrlAccepted(v: FormValues, isUrl: string -> bool)
    requires v.title != "" && v.description != "" && v.status in Statuses && v.imageUrl == Some("")
    ensures FormValid(v, isUrl)
  {
  }

  /** Only the three statuses pass, and every one of them does. */
  lemma StatusRule(v: FormValues, isUrl: string -> bool)
    requires v.title != "" && v.description != "" && ImageUrlOk(v.imageUrl, isUrl)
    ensures FormValid(v, isUrl) <==> (v.status == "publish" || v.status == "save" || v.status == "draft")
  {
  }

  /** An empty title or description is rejected, whatever the other fields hold. */
  lemma EmptyRequiredRejected(v: FormValues, isUrl: string -> bool)
    requires v.title == "" || v.description == ""
    ensures !FormValid(v, isUrl)
  {
  }

  /** The default values do not pass: a title and a description must be typed first. */
  lemma DefaultFormRejected(isUrl: string -> bool)
    ensures !FormValid(DefaultForm, isUrl)
    ensures DefaultForm.status in Statuses && ImageUrlOk(DefaultForm.imageUrl, isUrl)
  {
  }

  // ---------------------------------------------------------------------------
  // Posts and requests
  // ---------------------------------------------------------------------------

  /** A stored post, with the fields this page reads. */
  datatype Post = Post(documentId: string, title: string, description: string, content: Value, imageUrl: string, status: string)

  datatype Payload = Payload(title: string, description: string, content: Value, imageUrl: Option<string>, status: string)

  datatype Request = Create(payload: Payload) | Update(id: string, data: Payload)

  function FormOf(p: Post): FormValues {
    FormValues(p.title, p.description, Some(p.imageUrl), p.status)
  }

  /** The request body: the form's fields with the chosen content. */
  function PayloadOf(v: FormValues, content: Value): Payload {
    Payload(v.title, v.description, content, v.imageUrl, v.status)
  }

  /** The document made of a stored string that is not JSON: one paragraph holding the raw text. */
  function FallbackDocument(raw: string): (d: Document)
    ensures |d| == 1 && d[0] == Paragraph([PlainText(raw)])
    ensures DocTexts(d) == [raw]
  {
    var cs, d := [PlainText(raw)], [Paragraph([PlainText(raw)])];
    assert cs[..0] == [] && d[..0] == [];
    assert InlineTexts(cs) == [] + [raw];
    assert DocTexts(d) == [] + InlineTexts(cs);
    [Paragraph([PlainText(raw)])]
  }

  /**
   * The editor content for a stored content: an array as it is, a string as
   * what it parses to, or else as the fallback document; anything else as
   * null. `parse` stands for the JSON parser, None for a parse error.
   */
  function StoredContent(c: Value, parse: string -> Option<Value>): (r: Value)
    ensures c.Array? ==> r == c
    ensures c.Str? && parse(c.s).Some? ==> r == parse(c.s).value
    ensures c.Str? && parse(c.s).None? ==> r == Array(FallbackDocument(c.s))
    ensures (c.Null? || c.Other?) ==> r == Null
  {
    match c
    case Array(blocks) => Array(blocks)
    case Str(s) => if parse(s).Some? then parse(s).value else Array(FallbackDocument(s))
    case _ => Null
  }

  /** A stored text that is not JSON comes back out of the editor exactly as the fallback document. */
  lemma FallbackRoundTrips(raw: string)
    requires raw != "\n"
    ensures Canonical(FallbackDocument(raw))
    ensures NoNullInsert(Decode(Array(FallbackDocument(raw))))
    ensures Encode(Some(Decode(Array(FallbackDocument(raw))))) == FallbackDocument(raw)
  {
    var d := FallbackDocument(raw);
    assert CanonicalBlock(d[0]);
    RoundTripCanonical(d);
  }

  /** The content sent: what the editor reports when it reports anything (an empty document included), else the last content seen. */
  function FinalContent(live: Option<Document>, editorContent: Value): (r: Value)
    ensures live.Some? ==> r == Array(live.value) && Truthy(r)
    ensures live.None? ==> r == editorContent
  {
    var reported := if live.Some? then Array(live.value) else Null;
    if Truthy(reported) then reported else editorContent
  }

  // ---------------------------------------------------------------------------
  // The page state
  // ---------------------------------------------------------------------------

  class Page {
    var editorContent: Value
    var editingPost: Option<Post>
    var isDialogOpen: bool
    var form: FormValues

    constructor()
      ensures editorContent == Null && editingPost == None && !isDialogOpen && form == DefaultForm
    {
      editorContent := Null;
      editingPost := None;
      isDialogOpen := false;
      form := DefaultForm;
    }

    /** The effect on the fetched post: reset the form to it and hand its stored content to the editor, or clear both. */
    method LoadPostData(postData: Option<Post>, parse: string -> Option<Value>)
      modifies this`form, this`editorContent
      ensures postData.Some? ==> form == FormOf(postData.value)
      ensures postData.Some? && Truthy(postData.value.content) ==>
        editorContent == StoredContent(postData.value.content, parse)
      ensures postData.Some? && !Truthy(postData.value.content) ==> editorContent == Null
      ensures postData.None? ==> form == DefaultForm && editorContent == Null
    {
      if postData.Some? {
        var post := postData.value;
        form := FormOf(post);
        if Truthy(post.content) {
          var contentToSet: Value;
          if post.content.Array? {
            contentToSet := Array(post.content.blocks);
          } else if post.content.Str? {
            var parsed := parse(post.content.s);
            if parsed.Some? {
              contentToSet := parsed.value;
            } else {
              contentToSet := Array(FallbackDocument(post.content.s));
            }
          } else {
            contentToSet := Null;
          }
          editorContent := contentToSet;
        } else {
          editorContent := Null;
        }
      } else {
        form := DefaultForm;
        editorContent := Null;
      }
    }

    /** The effect on the dialog flag: a closed dialog forgets the edited post and the editor content. */
    method DialogEffect()
      modifies this`editingPost, this`editorContent
      ensures !isDialogOpen ==> editingPost == None && editorContent == Null
      ensures isDialogOpen ==> editingPost == old(editingPost) && editorContent == old(editorContent)
    {
      if !isDialogOpen {
        editingPost := None;
        editorContent := Null;
      }
    }

    method HandleEdit(post: Post)
      modifies this`editingPost, this`isDialogOpen
      ensures editingPost == Some(post) && isDialogOpen
    {
      editingPost := Some(post);
      isDialogOpen := true;
    }

    method OpenCreate()
      modifies this`editingPost, this`isDialogOpen
      ensures editingPost == None && isDialogOpen
    {
      editingPost := None;
      isDialogOpen := true;
    }

    method Cancel()
      modifies this`editingPost, this`isDialogOpen
      ensures editingPost == None && !isDialogOpen
    {
      isDialogOpen := false;
      editingPost := None;
    }

    /** The editor's change callback. */
    method ContentChanged(doc: Document)
      modifies this`editorContent
      ensures editorContent == Array(doc)
    {
      editorContent := Array(doc);
    }

    /**
     * Submitting the form: values the schema rejects never reach the handler;
     * accepted values go out with the final content, as an update of the
     * edited post or as a new post.
     */
    method Submit(values: FormValues, isUrl: string -> bool, editor: Adapter?) returns (r: Option<Request>)
      requires editor != null ==> editor.Valid()
      ensures !FormValid(values, isUrl) ==> r == None
      ensures FormValid(values, isUrl) ==> r.Some?
      ensures FormValid(values, isUrl) ==>
        var live := if editor != null then editor.Content() else None;
        var payload := PayloadOf(values, FinalContent(live, editorContent));
        r.value == if editingPost.Some? then Update(editingPost.value.documentId, payload) else Create(payload)
    {
      if !FormValid(values, isUrl) {
        return None;
      }
      var live: Option<Document> := None;
      if editor != null {
        live := editor.GetContent();
      }
      var finalContent := FinalContent(live, editorContent);
      var payload := Payload(values.title, values.description, finalContent, values.imageUrl, values.status);
      if editingPost.Some? {
        r := Some(Update(editingPost.value.documentId, payload));
      } else {
        r := Some(Create(payload));
      }
    }

    /** A request that succeeded closes the dialog; an update also forgets the edited post. */
    method RequestSucceeded(req: Request)
      modifies this`isDialogOpen, this`editingPost
      ensures !isDialogOpen
      ensures req.Update? ==> editingPost == None
      ensures req.Create? ==> editingPost == old(editingPost)
    {
      isDialogOpen := false;
      if req.Update? {
        editingPost := None;
      }
    }
  }

  // ---------------------------------------------------------------------------
  // End to end
  // ---------------------------------------------------------------------------

  /**
   * Opening a post whose content this editor saved, and submitting it without
   * touching the editor, sends the same content back in an update of that post.
   * The editor mounts with its handler registered first (see `SetupListenerFirst`).
   */
  method ResubmitUnchanged(post: Post, d: Document, parse: string -> Option<Value>, isUrl: string -> bool)
    returns (r: Option<Request>)
    requires post.content == Array(d) && Canonical(d)
    requires FormValid(FormOf(post), isUrl)
    ensures r == Some(Update(post.documentId, PayloadOf(FormOf(post), Array(d))))
  {
    var page := new Page();
    page.HandleEdit(post);
    page.DialogEffect();
    page.LoadPostData(Some(post), parse);
    var editor := new Adapter(true);
    editor.SetupListenerFirst(true, page.editorContent);
    RoundTripCanonical(d);
    var _ := editor.ExternalUpdate(page.editorContent);
    r := page.Submit(page.form, isUrl, editor);
  }

  /** Submitting while the editor has no instance (never mounted) sends the last content its callback stored. */
  method SubmitWithoutEditor(values: FormValues, isUrl: string -> bool, doc: Document) returns (r: Option<Request>)
    requires FormValid(values, isUrl)
    ensures r == Some(Create(PayloadOf(values, Array(doc))))
  {
    var page := new Page();
    page.OpenCreate();
    page.ContentChanged(doc);
    var editor := new Adapter(true);
    r := page.Submit(values, isUrl, editor);
  }
}
