/** Documents on the wire: `TextOnDocument` of src/network/grpc/messages.cpp, which grows a message in place,
    and the reader that replays a message into a text. */
module Documents {
  import opened Basics

  datatype Document = Document(elements: seq<Element>)

  /** `Markup` without items and `Unset` are messages that can arrive but are never written here. */
  datatype Element = Text(text: string) | Markup(tag: string, items: Option<Document>) | Unset

  /** A paragraph in one of the encodings of the code page library. */
  datatype Paragraph =
    | WideText(units: seq<nat>)
    | LegacyText(page: nat, bytes: string)
    | Utf8Text(bytes: string)
    | UnknownText(page: nat, bytes: string)

  /** The library's converters to UTF-8. */
  datatype Codec = Codec(wide: seq<nat> -> string, legacy: (nat, string) -> string)

  function ToUtf8(codec: Codec, para: Paragraph): Result<string> {
    match para
    case WideText(units) => Ok(codec.wide(units))
    case LegacyText(page, bytes) => Ok(codec.legacy(page, bytes))
    case Utf8Text(bytes) => Ok(bytes)
    case UnknownText(_, _) => Throw
  }

  /** A way to read bytes and units as characters: as UTF-8, in a code page, or wide. */
  datatype Reading = Reading(utf8: string -> seq<nat>, legacy: (nat, string) -> seq<nat>, wide: seq<nat> -> seq<nat>)

  /** Under this reading the converters keep the characters. */
  ghost predicate ConvertsRight(codec: Codec, reading: Reading) {
    && (forall units :: reading.utf8(codec.wide(units)) == reading.wide(units))
    && (forall page, bytes :: reading.utf8(codec.legacy(page, bytes)) == reading.legacy(page, bytes))
  }

  /** The characters of a paragraph. */
  function CharactersOf(reading: Reading, para: Paragraph): seq<nat>
    requires !para.UnknownText?
  {
    match para
    case WideText(units) => reading.wide(units)
    case LegacyText(page, bytes) => reading.legacy(page, bytes)
    case Utf8Text(bytes) => reading.utf8(bytes)
  }

  /** Read as UTF-8, the converted text has the characters of the paragraph, whatever the reading. */
  lemma ToUtf8Keeps(codec: Codec, para: Paragraph)
    ensures ToUtf8(codec, para).Throw? <==> para.UnknownText?
    ensures !para.UnknownText? ==> forall reading :: ConvertsRight(codec, reading) ==>
              reading.utf8(ToUtf8(codec, para).value) == CharactersOf(reading, para)
  {
  }

  // ---------------------------------------------------------------------------------------
  // Places in a growing document
  // ---------------------------------------------------------------------------------------

  /** A reference to a nested document: the element to follow at each level. References stay good when a
      document grows, because elements are only ever added at the end. */
  type Path = seq<nat>

  predicate Leads(doc: Document, path: Path) {
    path == [] ||
    (path[0] < |doc.elements| && doc.elements[path[0]].Markup? && doc.elements[path[0]].items.Some?
     && Leads(doc.elements[path[0]].items.value, path[1..]))
  }

  function At(doc: Document, path: Path): Document
    requires Leads(doc, path)
  {
    if path == [] then doc else At(doc.elements[path[0]].items.value, path[1..])
  }

  /** `doc` with `es` added at the end of the nested document at `path`. */
  function Grow(doc: Document, path: Path, es: seq<Element>): Document
    requires Leads(doc, path)
    decreases |path|
  {
    if path == [] then Document(doc.elements + es)
    else
      var e := doc.elements[path[0]];
      Document(doc.elements[path[0] := Markup(e.tag, Some(Grow(e.items.value, path[1..], es)))])
  }

  lemma {:induction false} GrowAt(doc: Document, path: Path, es: seq<Element>)
    requires Leads(doc, path)
    ensures Leads(Grow(doc, path, es), path)
    ensures At(Grow(doc, path, es), path) == Document(At(doc, path).elements + es)
    decreases |path|
  {
    if path != [] {
      GrowAt(doc.elements[path[0]].items.value, path[1..], es);
    }
  }

  lemma {:induction false} GrowTwice(doc: Document, path: Path, a: seq<Element>, b: seq<Element>)
    requires Leads(doc, path)
    ensures Leads(Grow(doc, path, a), path)
    ensures Grow(Grow(doc, path, a), path, b) == Grow(doc, path, a + b)
    decreases |path|
  {
    GrowAt(doc, path, a);
    if path == [] {
      assert doc.elements + a + b == doc.elements + (a + b);
    } else {
      GrowTwice(doc.elements[path[0]].items.value, path[1..], a, b);
    }
  }

  lemma {:induction false} GrowNothing(doc: Document, path: Path)
    requires Leads(doc, path)
    ensures Grow(doc, path, []) == doc
    decreases |path|
  {
    if path == [] {
      assert doc.elements + [] == doc.elements;
    } else {
      GrowNothing(doc.elements[path[0]].items.value, path[1..]);
    }
  }

  /** Growing the newest element of a nested document. */
  lemma {:induction false} GrowChild(doc: Document, path: Path, tag: string, body: seq<Element>, es: seq<Element>)
    requires Leads(doc, path)
    ensures var child := path + [|At(doc, path).elements|];
            var doc' := Grow(doc, path, [Markup(tag, Some(Document(body)))]);
            && Leads(doc', child) && At(doc', child) == Document(body)
            && Grow(doc', child, es) == Grow(doc, path, [Markup(tag, Some(Document(body + es)))])
    decreases |path|
  {
    var n := |At(doc, path).elements|;
    var child := path + [n];
    var doc' := Grow(doc, path, [Markup(tag, Some(Document(body)))]);
    if path == [] {
      assert child[0] == n && child[1..] == [];
      assert doc'.elements[n] == Markup(tag, Some(Document(body)));
      assert doc'.elements[n := Markup(tag, Some(Document(body + es)))]
          == doc.elements + [Markup(tag, Some(Document(body + es)))];
    } else {
      assert child[0] == path[0] && child[1..] == path[1..] + [n];
      GrowChild(doc.elements[path[0]].items.value, path[1..], tag, body, es);
    }
  }

  // ---------------------------------------------------------------------------------------
  // Complete documents
  // ---------------------------------------------------------------------------------------

  /** Every element is a text, or a tag with items. */
  ghost predicate Complete(doc: Document) {
    forall i :: 0 <= i < |doc.elements| ==> CompleteElement(doc.elements[i])
  }

  ghost predicate CompleteElement(e: Element) {
    match e
    case Text(_) => true
    case Markup(_, items) => items.Some? && Complete(items.value)
    case Unset => false
  }

  /** What the reader makes of an element: nothing, if it is neither a text nor a tag with items. */
  function Kept(e: Element): seq<Element> {
    match e
    case Text(_) => [e]
    case Markup(tag, Some(items)) => [Markup(tag, Some(Document(KeptAll(items.elements))))]
    case _ => []
  }

  function KeptAll(es: seq<Element>): seq<Element> {
    if es == [] then [] else Kept(es[0]) + KeptAll(es[1..])
  }

  lemma {:induction false} KeptConcat(es: seq<Element>, e: Element)
    ensures KeptAll(es + [e]) == KeptAll(es) + Kept(e)
  {
    if es == [] {
      assert es + [e] == [e];
      assert Kept(e) + [] == Kept(e);
    } else {
      assert (es + [e])[1..] == es[1..] + [e];
      KeptConcat(es[1..], e);
      assert Kept(es[0]) + (KeptAll(es[1..]) + Kept(e)) == Kept(es[0]) + KeptAll(es[1..]) + Kept(e);
    }
  }

  lemma {:induction false} KeptShorter(es: seq<Element>)
    ensures |KeptAll(es)| <= |es|
  {
    if es != [] {
      KeptShorter(es[1..]);
    }
  }

  /** The reader keeps a document as it is exactly when it is complete. */
  lemma {:induction false} KeptExactly(es: seq<Element>)
    ensures KeptAll(es) == es <==> Complete(Document(es))
  {
    if es != [] {
      KeptElementExactly(es[0]);
      KeptExactly(es[1..]);
      KeptShorter(es[1..]);
      assert es == [es[0]] + es[1..];
      if Complete(Document(es)) {
        forall i | 0 <= i < |es[1..]| ensures CompleteElement(es[1..][i]) {
          assert es[1..][i] == es[i + 1];
        }
      }
      if KeptAll(es) == es {
        assert |Kept(es[0])| == 1;
        assert KeptAll(es)[0] == Kept(es[0])[0];
        assert KeptAll(es)[1..] == KeptAll(es[1..]);
        forall i | 0 <= i < |es| ensures CompleteElement(es[i]) {
          if i > 0 { assert es[i] == es[1..][i - 1]; }
        }
      }
    }
  }

  lemma {:induction false} KeptElementExactly(e: Element)
    ensures Kept(e) == [e] <==> CompleteElement(e)
  {
    if e.Markup? && e.items.Some? {
      KeptExactly(e.items.value.elements);
    }
  }

  /** What a reader is told, call by call. */
  datatype Call = AddText(text: string) | OpenTag(tag: string) | CloseTag

  /** The calls for the texts and for the tags with items, at every depth; other elements are passed over. */
  function Calls(es: seq<Element>): seq<Call> {
    if es == [] then [] else CallsFor(es[0]) + Calls(es[1..])
  }

  function CallsFor(e: Element): seq<Call> {
    match e
    case Text(text) => [AddText(text)]
    case Markup(tag, items) =>
      if items.Some? then [OpenTag(tag)] + Calls(items.value.elements) + [CloseTag] else []
    case Unset => []
  }

  lemma {:induction false} CallsConcat(es: seq<Element>, fs: seq<Element>)
    ensures Calls(es + fs) == Calls(es) + Calls(fs)
  {
    hide CallsFor;
    if es == [] {
      assert es + fs == fs;
    } else {
      assert (es + fs)[1..] == es[1..] + fs && (es + fs)[0] == es[0];
      CallsConcat(es[1..], fs);
    }
  }

  /** Of an incomplete document the reader keeps a complete one that makes the same calls. */
  lemma {:induction false} KeptMakesSameCalls(es: seq<Element>)
    ensures Complete(Document(KeptAll(es))) && Calls(KeptAll(es)) == Calls(es)
  {
    hide Calls, CallsFor;
    if es == [] {
      assert KeptAll(es) == es;
    } else {
      KeptElementMakesSameCalls(es[0]);
      KeptMakesSameCalls(es[1..]);
      var a, b := Kept(es[0]), KeptAll(es[1..]);
      CallsConcat(a, b);
      CallsConcat([es[0]], es[1..]);
      assert es == [es[0]] + es[1..];
      forall i | 0 <= i < |a + b| ensures CompleteElement((a + b)[i]) {
        if i < |a| {
          assert CompleteElement(Document(a).elements[i]);
        } else {
          assert CompleteElement(Document(b).elements[i - |a|]);
        }
      }
    }
  }

  lemma {:induction false} KeptElementMakesSameCalls(e: Element)
    ensures Complete(Document(Kept(e))) && Calls(Kept(e)) == Calls([e])
  {
    if e.Markup? && e.items.Some? {
      KeptMakesSameCalls(e.items.value.elements);
      var kept := Document(KeptAll(e.items.value.elements));
      assert Kept(e) == [Markup(e.tag, Some(kept))];
      CallsOfOne(e);
      CallsOfOne(Markup(e.tag, Some(kept)));
    } else {
      CallsOfOne(e);
    }
  }

  lemma CallsOfOne(e: Element)
    ensures Calls([e]) == CallsFor(e)
  {
    assert Calls([]) == [];
    assert CallsFor(e) + [] == CallsFor(e);
  }

  lemma {:induction false} GrowComplete(doc: Document, path: Path, es: seq<Element>)
    requires Leads(doc, path) && Complete(doc) && Complete(Document(es))
    ensures Complete(Grow(doc, path, es))
    decreases |path|
  {
    if path != [] {
      assert CompleteElement(doc.elements[path[0]]);
      GrowComplete(doc.elements[path[0]].items.value, path[1..], es);
    }
  }

  // ---------------------------------------------------------------------------------------
  // The writer
  // ---------------------------------------------------------------------------------------

  /** A message under construction; a `TextOnDocument` object is a reference into it. */
  class Writer {
    var doc: Document

    constructor ()
      ensures doc == Document([])
    {
      doc := Document([]);
    }

    /** `AddMarkupTag`: a new tag with an empty list of items, and a reference to that list. */
    method AddMarkupTag(at: Path, tag: string) returns (child: Path)
      requires Leads(doc, at)
      modifies this
      ensures doc == Grow(old(doc), at, [Markup(tag, Some(Document([])))])
      ensures child == at + [|At(old(doc), at).elements|]
      ensures Leads(doc, at) && Leads(doc, child)
      ensures Complete(old(doc)) ==> Complete(doc)
    {
      child := at + [|At(doc, at).elements|];
      GrowAt(doc, at, [Markup(tag, Some(Document([])))]);
      GrowChild(doc, at, tag, [], []);
      if Complete(doc) {
        GrowComplete(doc, at, [Markup(tag, Some(Document([])))]);
      }
      doc := Grow(doc, at, [Markup(tag, Some(Document([])))]);
    }

    /** `AddParagraph`: the text in UTF-8; unknown encodings are refused. */
    method AddParagraph(codec: Codec, at: Path, para: Paragraph) returns (r: Result<()>)
      requires Leads(doc, at)
      modifies this
      ensures r.Throw? <==> para.UnknownText?
      ensures doc == if r.Throw? then old(doc) else Grow(old(doc), at, [Text(ToUtf8(codec, para).value)])
      ensures r.Ok? ==> exists text :: doc == Grow(old(doc), at, [Text(text)])
                          && forall reading :: ConvertsRight(codec, reading) ==>
                               reading.utf8(text) == CharactersOf(reading, para)
      ensures Leads(doc, at) && (Complete(old(doc)) ==> Complete(doc))
    {
      var text := ToUtf8(codec, para);
      ToUtf8Keeps(codec, para);
      if text.Throw? {
        return Throw;
      }
      GrowAt(doc, at, [Text(text.value)]);
      if Complete(doc) {
        GrowComplete(doc, at, [Text(text.value)]);
      }
      doc := Grow(doc, at, [Text(text.value)]);
      r := Ok(());
    }

    /** `Convert( IText&, Document )`: replays a message into the text at `at`. */
    method Replay(codec: Codec, at: Path, src: Document)
      requires Leads(doc, at)
      modifies this
      ensures doc == Grow(old(doc), at, KeptAll(src.elements))
      decreases src
    {
      ghost var before := doc;
      GrowNothing(doc, at);
      for i := 0 to |src.elements|
        invariant Leads(before, at) && doc == Grow(before, at, KeptAll(src.elements[..i]))
      {
        var next := src.elements[i];
        ghost var done := KeptAll(src.elements[..i]);
        assert src.elements[..i + 1] == src.elements[..i] + [next];
        KeptConcat(src.elements[..i], next);
        GrowAt(before, at, done);
        GrowTwice(before, at, done, Kept(next));
        match next {
          case Text(text) =>
            var _ := AddParagraph(codec, at, Utf8Text(text));
          case Markup(tag, Some(items)) =>
            GrowChild(doc, at, tag, [], KeptAll(items.elements));
            var child := AddMarkupTag(at, tag);
            Replay(codec, child, items);
            assert [] + KeptAll(items.elements) == KeptAll(items.elements);
          case _ =>
            GrowNothing(doc, at);
        }
      }
      assert src.elements[..|src.elements|] == src.elements;
    }
  }

  /** A message read back into a fresh writer is the message, exactly when it is complete. */
  method ReplayFresh(codec: Codec, src: Document) returns (copy: Document)
    ensures copy == Document(KeptAll(src.elements))
    ensures copy == src <==> Complete(src)
    ensures Complete(copy) && Calls(copy.elements) == Calls(src.elements)
  {
    var writer := new Writer();
    writer.Replay(codec, [], src);
    KeptExactly(src.elements);
    KeptMakesSameCalls(src.elements);
    assert [] + KeptAll(src.elements) == KeptAll(src.elements);
    copy := writer.doc;
  }
}
