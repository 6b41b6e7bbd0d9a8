/**
 * The editor adapter: the refs the component keeps (the editor instance, the
 * initialised flag, the ignore-next-change flag) and the effects and handler
 * that flip them. The editor instance is reduced to the delta it holds;
 * setting its contents fires one change event at once, delivered to the
 * change handler only once that handler is registered (`listening`).
 */
module Editor {
  import opened DocumentModel
  import opened Encoder
  import opened Decoder
  import opened RoundTrip

  /** The delta of a freshly created editor: one empty line. */
  const BlankContents: seq<Op> := [Newline]

  class Adapter {
    /** The editor instance, as the delta it holds; None when there is none. */
    var instance: Option<seq<Op>>
    var initialized: bool
    var ignoreNextChange: bool
    /** Whether the change handler is registered on the current instance. */
    var listening: bool
    /** Whether the parent passed a change callback. */
    const hasCallback: bool

    /** An instance exists exactly while the adapter is initialised and listening. */
    predicate Valid()
      reads this
    {
      (instance.Some? ==> NoNullInsert(instance.value)) &&
      initialized == instance.Some? && listening == instance.Some?
    }

    /** What the handler and `getContent` report: the encoded contents while an instance exists. */
    function Content(): Option<Document>
      reads this
      requires instance.Some? ==> NoNullInsert(instance.value)
    {
      if instance.Some? then Some(Encode(Some(instance.value))) else None
    }

    constructor(hasCallback: bool)
      ensures this.hasCallback == hasCallback
      ensures instance == None && !initialized && !ignoreNextChange && !listening
      ensures Valid()
    {
      this.hasCallback := hasCallback;
      instance := None;
      initialized := false;
      ignoreNextChange := false;
      listening := false;
    }

    /** The change handler: a set ignore flag swallows this one change; otherwise the encoded contents go to the callback. */
    method HandleTextChange() returns (emitted: Option<Document>)
      requires instance.Some? ==> NoNullInsert(instance.value)
      modifies this`ignoreNextChange
      ensures !ignoreNextChange
      ensures old(ignoreNextChange) ==> emitted == None
      ensures !old(ignoreNextChange) ==> emitted == if hasCallback then Content() else None
    {
      if ignoreNextChange {
        ignoreNextChange := false;
        return None;
      }
      emitted := None;
      if hasCallback && instance.Some? {
        var structured := ConvertDeltaToStructured(Some(instance.value));
        emitted := Some(structured);
      }
    }

    /** A change of the instance's contents, by the user or by setting them: the change event follows at once. */
    method ApplyChange(ops: seq<Op>) returns (emitted: Option<Document>)
      requires instance.Some? && NoNullInsert(ops)
      modifies this`instance, this`ignoreNextChange
      ensures instance == Some(ops)
      ensures listening ==> !ignoreNextChange
      ensures listening && old(ignoreNextChange) ==> emitted == None
      ensures listening && !old(ignoreNextChange) ==> emitted == if hasCallback then Some(Encode(Some(ops))) else None
      ensures !listening ==> emitted == None && ignoreNextChange == old(ignoreNextChange)
    {
      instance := Some(ops);
      emitted := None;
      if listening {
        emitted := HandleTextChange();
      }
    }

    /**
     * The mount effect as the component writes it: create the instance, load
     * the initial content under the ignore flag, and only then register the
     * handler, so the change the load fires reaches no handler and the flag
     * stays set.
     */
    method Setup(mounted: bool, initialContent: Value)
      requires Valid()
      modifies this
      ensures Valid()
      ensures mounted && !old(initialized) ==>
        instance == Some(if Truthy(initialContent) then Decode(initialContent) else BlankContents) &&
        ignoreNextChange == (old(ignoreNextChange) || Truthy(initialContent))
      ensures !(mounted && !old(initialized)) ==> unchanged(this)
    {
      if mounted && !initialized {
        initialized := true;
        instance := Some(BlankContents);
        if Truthy(initialContent) {
          ignoreNextChange := true;
          var delta := ConvertStructuredToDelta(initialContent);
          var _ := ApplyChange(delta);
        }
        listening := true;
      }
    }

    /** The mount effect with the handler registered before the initial content is loaded: the load's own change consumes the flag. */
    method SetupListenerFirst(mounted: bool, initialContent: Value)
      requires Valid()
      modifies this
      ensures Valid()
      ensures mounted && !old(initialized) ==>
        instance == Some(if Truthy(initialContent) then Decode(initialContent) else BlankContents) &&
        ignoreNextChange == (old(ignoreNextChange) && !Truthy(initialContent))
      ensures !(mounted && !old(initialized)) ==> unchanged(this)
    {
      if mounted && !initialized {
        initialized := true;
        instance := Some(BlankContents);
        listening := true;
        if Truthy(initialContent) {
          ignoreNextChange := true;
          var delta := ConvertStructuredToDelta(initialContent);
          var _ := ApplyChange(delta);
        }
      }
    }

    /** The unmount cleanup: drop the instance (and with it the handler) and clear the initialised flag. */
    method Teardown()
      requires Valid()
      modifies this`instance, this`initialized, this`listening
      ensures Valid()
      ensures instance == None && !initialized && !listening
    {
      instance := None;
      initialized := false;
      listening := false;
    }

    /**
     * The effect on a new initial content from outside: with an instance, a
     * truthy content and the adapter initialised, a content that differs from
     * the encoded contents replaces them under the ignore flag. It never
     * reaches the callback.
     */
    method ExternalUpdate(incoming: Value) returns (emitted: Option<Document>)
      requires Valid()
      modifies this`instance, this`ignoreNextChange
      ensures Valid()
      ensures emitted == None
      ensures old(instance.Some? && Truthy(incoming) && initialized && Array(Encode(Some(instance.value))) != incoming) ==>
        instance == Some(Decode(incoming)) && !ignoreNextChange
      ensures !old(instance.Some? && Truthy(incoming) && initialized && Array(Encode(Some(instance.value))) != incoming) ==>
        instance == old(instance) && ignoreNextChange == old(ignoreNextChange)
    {
      emitted := None;
      if instance.Some? && Truthy(incoming) && initialized {
        var currentStructured := ConvertDeltaToStructured(Some(instance.value));
        if Array(currentStructured) != incoming {
          ignoreNextChange := true;
          var delta := ConvertStructuredToDelta(incoming);
          emitted := ApplyChange(delta);
        }
      }
    }

    /** `getContent`: the encoded contents while an instance exists, null before setup and after teardown. */
    method GetContent() returns (r: Option<Document>)
      requires Valid()
      ensures r == Content()
      ensures r.Some? <==> instance.Some?
      ensures r.Some? ==> Canonical(r.value)
    {
      if instance.Some? {
        var structured := ConvertDeltaToStructured(Some(instance.value));
        EncodeCanonical(Some(instance.value));
        return Some(structured);
      }
      return None;
    }
  }

  // ---------------------------------------------------------------------------
  // Scenarios: the mount sequence of the component (setup effect, then the
  // update effect with the same initial content), then a first user edit
  // ---------------------------------------------------------------------------

  /** As written: after loading content that is already in encoded form, the user's first edit reaches no callback. */
  method FirstEditDroppedAfterLoad(d: Document, edit: seq<Op>) returns (e: Option<Document>)
    requires Canonical(d) && NoNullInsert(edit)
    ensures e == None
  {
    var a := new Adapter(true);
    a.Setup(true, Array(d));
    RoundTripCanonical(d);
    var e0 := a.ExternalUpdate(Array(d));
    e := a.ApplyChange(edit);
  }

  /** A saved paragraph whose text keeps its line break, as `getContents` hands back a typed line, is in encoded form, so the scenario above applies to it. */
  lemma SavedLineIsCanonical()
    ensures Canonical([Paragraph([PlainText("hi\n")])])
  {
    var cs := [PlainText("hi\n")];
    assert "hi\n" != "\n" by { assert |"hi\n"| == 3; }
    assert CanonicalText(cs[0]);
    assert CanonicalBlock(Paragraph(cs));
  }

  /** With the handler registered first, the same first edit reaches the callback, encoded. */
  method FirstEditReportedAfterCorrectedLoad(d: Document, edit: seq<Op>) returns (e: Option<Document>)
    requires Canonical(d) && NoNullInsert(edit)
    ensures e == Some(Encode(Some(edit)))
  {
    var a := new Adapter(true);
    a.SetupListenerFirst(true, Array(d));
    RoundTripCanonical(d);
    var e0 := a.ExternalUpdate(Array(d));
    e := a.ApplyChange(edit);
  }

  /** Content loaded at mount reads back unchanged through `getContent` when it is in encoded form. */
  method LoadThenRead(d: Document) returns (r: Option<Document>)
    requires Canonical(d)
    ensures r == Some(d)
  {
    var a := new Adapter(true);
    a.Setup(true, Array(d));
    RoundTripCanonical(d);
    var e0 := a.ExternalUpdate(Array(d));
    r := a.GetContent();
  }

  /** An outside update to content in encoded form replaces the contents, and `getContent` then returns that content. */
  method UpdateThenRead(initial: Value, d: Document) returns (r: Option<Document>)
    requires Canonical(d)
    ensures r == Some(d)
  {
    var a := new Adapter(true);
    a.Setup(true, initial);
    RoundTripCanonical(d);
    var e0 := a.ExternalUpdate(Array(d));
    r := a.GetContent();
  }

  /** After teardown there is no content to read. */
  method ReadAfterTeardown(initial: Value) returns (r: Option<Document>)
    ensures r == None
  {
    var a := new Adapter(true);
    a.Setup(true, initial);
    a.Teardown();
    r := a.GetContent();
  }
}
