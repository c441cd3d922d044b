/** The dump of a text into a zmap and back: `Serialize` and `FetchFrom` of src/objects/doc-zmap.cpp. */
module TextDump {
  import opened Basics

  datatype Block = WideBlock(units: seq<nat>) | CodedBlock(encoding: nat, bytes: string)
  datatype Span = Span(tag: string, lower: nat, upper: nat)

  /** A value in the array "lines": a wide string, a zmap with the keys 0 and 1, or something else. */
  datatype Line = WideLine(units: seq<nat>) | MapLine(text: Option<string>, encoding: Option<nat>) | OtherLine

  /** A zmap in the array "spans". */
  datatype SpanMap = SpanMap(f: Option<string>, l: Option<nat>, h: Option<nat>)

  /** The two keys of the zmap that matter here. */
  datatype Dump = Dump(lines: Option<seq<Line>>, spans: Option<seq<SpanMap>>)

  function GetOr<T>(o: Option<T>, default: T): T {
    match o case Some(v) => v case None => default
  }

  function LineOf(b: Block): Line {
    match b
    case WideBlock(units) => WideLine(units)
    case CodedBlock(encoding, bytes) => MapLine(Some(bytes), Some(encoding))
  }

  function BlockOf(l: Line): Result<Block> {
    match l
    case WideLine(units) => Ok(WideBlock(units))
    case MapLine(text, encoding) => Ok(CodedBlock(GetOr(encoding, 0), GetOr(text, "")))
    case OtherLine => Throw
  }

  function SpanOf(m: SpanMap): Span {
    Span(GetOr(m.f, ""), GetOr(m.l, 0), GetOr(m.h, 0))
  }

  function MapOf(s: Span): SpanMap {
    SpanMap(Some(s.tag), Some(s.lower), Some(s.upper))
  }

  function LinesOf(bs: seq<Block>): (r: seq<Line>)
    ensures |r| == |bs| && forall i :: 0 <= i < |bs| ==> r[i] == LineOf(bs[i])
  {
    seq(|bs|, i requires 0 <= i < |bs| => LineOf(bs[i]))
  }

  function MapsOf(ss: seq<Span>): (r: seq<SpanMap>)
    ensures |r| == |ss| && forall i :: 0 <= i < |ss| ==> r[i] == MapOf(ss[i])
  {
    seq(|ss|, i requires 0 <= i < |ss| => MapOf(ss[i]))
  }

  /** The lines up to the first that is neither a wide string nor a zmap. */
  function BlocksOf(ls: seq<Line>): seq<Block> {
    if ls == [] || BlockOf(ls[0]).Throw? then [] else [BlockOf(ls[0]).value] + BlocksOf(ls[1..])
  }

  function SpansOf(ms: seq<SpanMap>): (r: seq<Span>)
    ensures |r| == |ms| && forall i :: 0 <= i < |ms| ==> r[i] == SpanOf(ms[i])
  {
    seq(|ms|, i requires 0 <= i < |ms| => SpanOf(ms[i]))
  }

  predicate Readable(ls: seq<Line>) {
    forall i :: 0 <= i < |ls| ==> BlockOf(ls[i]).Ok?
  }

  lemma {:induction false} BlocksConcat(ls: seq<Line>, l: Line)
    requires Readable(ls)
    ensures BlocksOf(ls + [l]) == BlocksOf(ls) + if BlockOf(l).Ok? then [BlockOf(l).value] else []
  {
    if ls != [] {
      assert (ls + [l])[1..] == ls[1..] + [l];
      BlocksConcat(ls[1..], l);
    }
  }

  lemma {:induction false} BlocksStop(ls: seq<Line>, n: nat)
    requires n < |ls| && Readable(ls[..n]) && BlockOf(ls[n]).Throw?
    ensures BlocksOf(ls) == BlocksOf(ls[..n])
  {
    if n > 0 {
      var rest := ls[1..][..n - 1];
      assert rest == ls[..n][1..];
      forall i | 0 <= i < |rest| ensures BlockOf(rest[i]).Ok? {
        assert rest[i] == ls[..n][i + 1];
      }
      assert ls[..n][0] == ls[0];
      BlocksStop(ls[1..], n - 1);
    }
  }

  lemma {:induction false} BlocksBack(bs: seq<Block>)
    ensures Readable(LinesOf(bs)) && BlocksOf(LinesOf(bs)) == bs
  {
    if bs != [] {
      assert LinesOf(bs)[1..] == LinesOf(bs[1..]);
      BlocksBack(bs[1..]);
    }
  }

  lemma SpansBack(ss: seq<Span>)
    ensures SpansOf(MapsOf(ss)) == ss
  {
  }

  /** Line by line: a wide string is a wide block; of a zmap key 0 is the text and key 1 the encoding. */
  ghost predicate LoadedLines(ls: seq<Line>, bs: seq<Block>) {
    && |bs| == |ls|
    && forall i :: 0 <= i < |ls| ==>
         match ls[i]
         case WideLine(units) => bs[i] == WideBlock(units)
         case MapLine(text, encoding) =>
           && bs[i].CodedBlock?
           && bs[i].bytes == (if text.Some? then text.value else "")
           && bs[i].encoding == (if encoding.Some? then encoding.value else 0)
         case OtherLine => false
  }

  /** Span by span: "f" is the tag, "l" the lower end and "h" the upper one. */
  ghost predicate LoadedSpans(ms: seq<SpanMap>, ss: seq<Span>) {
    && |ss| == |ms|
    && forall i :: 0 <= i < |ms| ==>
         && ss[i].tag == (if ms[i].f.Some? then ms[i].f.value else "")
         && ss[i].lower == (if ms[i].l.Some? then ms[i].l.value else 0)
         && ss[i].upper == (if ms[i].h.Some? then ms[i].h.value else 0)
  }

  lemma {:induction false} AllLinesLoaded(ls: seq<Line>)
    requires Readable(ls)
    ensures LoadedLines(ls, BlocksOf(ls))
  {
    if ls != [] {
      AllLinesLoaded(ls[1..]);
      assert BlocksOf(ls) == [BlockOf(ls[0]).value] + BlocksOf(ls[1..]);
    }
  }

  lemma SpansLoaded(ms: seq<SpanMap>)
    ensures LoadedSpans(ms, SpansOf(ms))
  {
  }

  class Text {
    var blocks: seq<Block>
    var markup: seq<Span>

    constructor ()
      ensures blocks == [] && markup == []
    {
      blocks, markup := [], [];
    }

    /** `Serialize`: an empty list leaves what `to` held under its key. */
    method Serialize(to: Dump) returns (dump: Dump)
      ensures dump.lines == if blocks == [] then to.lines else Some(LinesOf(blocks))
      ensures dump.spans == if markup == [] then to.spans else Some(MapsOf(markup))
      ensures blocks != [] ==> dump.lines.Some? && |dump.lines.value| == |blocks| && forall i :: 0 <= i < |blocks| ==>
                dump.lines.value[i] == (match blocks[i]
                                        case WideBlock(units) => WideLine(units)
                                        case CodedBlock(encoding, bytes) => MapLine(Some(bytes), Some(encoding)))
      ensures markup != [] ==> dump.spans.Some? && |dump.spans.value| == |markup| && forall i :: 0 <= i < |markup| ==>
                && dump.spans.value[i].f == Some(markup[i].tag)
                && dump.spans.value[i].l == Some(markup[i].lower)
                && dump.spans.value[i].h == Some(markup[i].upper)
    {
      dump := to;
      if blocks != [] {
        var output := [];
        for i := 0 to |blocks|
          invariant output == LinesOf(blocks[..i])
        {
          output := output + [LineOf(blocks[i])];
        }
        assert blocks[..|blocks|] == blocks;
        dump := dump.(lines := Some(output));
      }
      if markup != [] {
        var output := [];
        for i := 0 to |markup|
          invariant output == MapsOf(markup[..i])
        {
          output := output + [MapOf(markup[i])];
        }
        assert markup[..|markup|] == markup;
        dump := dump.(spans := Some(output));
      }
    }

    /** `FetchFrom`: appends to the text; a bad line throws when the lines before it have been appended. */
    method FetchFrom(from: Dump) returns (r: Result<()>)
      modifies this
      ensures r.Ok? <==> Readable(GetOr(from.lines, []))
      ensures blocks == old(blocks) + BlocksOf(GetOr(from.lines, []))
      ensures markup == old(markup) + if r.Ok? then SpansOf(GetOr(from.spans, [])) else []
      ensures r.Ok? ==> LoadedLines(GetOr(from.lines, []), blocks[|old(blocks)|..])
      ensures r.Ok? ==> LoadedSpans(GetOr(from.spans, []), markup[|old(markup)|..])
    {
      var lines, spans := GetOr(from.lines, []), GetOr(from.spans, []);
      for i := 0 to |lines|
        invariant Readable(lines[..i]) && blocks == old(blocks) + BlocksOf(lines[..i]) && markup == old(markup)
      {
        var b := BlockOf(lines[i]);
        if b.Throw? {
          BlocksStop(lines, i);
          return Throw;
        }
        BlocksConcat(lines[..i], lines[i]);
        assert lines[..i + 1] == lines[..i] + [lines[i]];
        blocks := blocks + [b.value];
      }
      assert lines[..|lines|] == lines;
      for i := 0 to |spans|
        invariant markup == old(markup) + SpansOf(spans[..i]) && blocks == old(blocks) + BlocksOf(lines)
      {
        markup := markup + [SpanOf(spans[i])];
      }
      assert spans[..|spans|] == spans;
      AllLinesLoaded(lines);
      SpansLoaded(spans);
      r := Ok(());
    }
  }

  /** The dump of a text into `to` reads back as the text exactly when an empty list of the text
      does not leave something readable, or unreadable, of `to` in its place. */
  method DumpAndLoad(text: Text, to: Dump) returns (copy: Text, r: Result<()>)
    ensures (r.Ok? && copy.blocks == text.blocks && copy.markup == text.markup)
            <==> (text.blocks == [] ==> GetOr(to.lines, []) == []) && (text.markup == [] ==> GetOr(to.spans, []) == [])
  {
    var dump := text.Serialize(to);
    copy := new Text();
    r := copy.FetchFrom(dump);
    BlocksBack(text.blocks);
    SpansBack(text.markup);
    assert text.markup == [] ==> (SpansOf(GetOr(to.spans, [])) == [] <==> GetOr(to.spans, []) == []);
    assert Readable(GetOr(to.lines, [])) && BlocksOf(GetOr(to.lines, [])) == [] ==> GetOr(to.lines, []) == [];
  }
}
