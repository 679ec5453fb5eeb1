/**
 * The result normaliser of `perform_ocr`: it turns the recognizer's raw
 * output (or the exception it raised) into the result document that the
 * script prints. `Normalize` states the document as a function of the raw
 * output; `PerformOcr` is the step-by-step loop of the source, proved to
 * build exactly that document.
 */
module Normalizer {
  import opened Wrappers
  import opened Geometry

  /** One detected line: `[polygon, (text, confidence)]`. */
  datatype Line = Line(polygon: seq<Point>, text: string, confidence: real)

  /** A page of the raw result; the recognizer gives `None` for a page without detections. */
  type Page = Option<seq<Line>>

  /**
   * What the recognizer step yields: either an `Exception` raised while the
   * recognizer was built or run (its `str(e)`), or the returned result, which
   * may itself be `None`.
   */
  datatype Raw = Raised(message: string) | Returned(result: Option<seq<Page>>)

  /** One entry of `blocks` in the result document. */
  datatype Block = Block(text: string, bbox: BoundingBox, confidence: real, blockType: string)

  /** The result document; `error` is present only on failure. */
  datatype Document = Document(success: bool, blocks: seq<Block>, text: string, pageCount: nat, error: Option<string>)

  /** The only block type the recognizer is reported as. */
  const TextBlockType := "text"

  /** `str(e)` of the `ValueError` that `min` raises on an empty list. */
  const EmptyMinMessage := "min() arg is an empty sequence"

  /** `'\n'.join(parts)`: the parts with one separator between neighbours. */
  function Join(parts: seq<string>, sep: string): string {
    if |parts| == 0 then ""
    else if |parts| == 1 then parts[0]
    else parts[0] + sep + Join(parts[1..], sep)
  }

  /** `s.split(sep)` for a one-character separator: always at least one part. */
  function Split(s: string, sep: char): (parts: seq<string>)
    ensures |parts| >= 1
  {
    if |s| == 0 then [""]
    else
      var rest := Split(s[1..], sep);
      if s[0] == sep then [""] + rest
      else [[s[0]] + rest[0]] + rest[1..]
  }

  /** A text without the separator is a single part. */
  lemma {:induction false} SplitWithoutSeparator(p: string, sep: char)
    requires sep !in p
    ensures Split(p, sep) == [p]
  {
    if |p| > 0 {
      SplitWithoutSeparator(p[1..], sep);
      assert [p[0]] + p[1..] == p;
    }
  }

  /** Splitting at the first separator peels off the part before it. */
  lemma {:induction false} SplitAfterPart(p: string, sep: char, rest: string)
    requires sep !in p
    ensures Split(p + [sep] + rest, sep) == [p] + Split(rest, sep)
  {
    var s := p + [sep] + rest;
    if |p| == 0 {
      assert s[1..] == rest;
    } else {
      assert s[1..] == p[1..] + [sep] + rest;
      SplitAfterPart(p[1..], sep, rest);
      assert [p[0]] + p[1..] == p;
    }
  }

  /**
   * The joined text can be split back into exactly the parts that were
   * joined, as long as there was at least one part and no part holds the
   * separator.
   */
  lemma {:induction false} SplitJoin(parts: seq<string>, sep: char)
    requires |parts| > 0
    requires forall i :: 0 <= i < |parts| ==> sep !in parts[i]
    ensures Split(Join(parts, [sep]), sep) == parts
  {
    if |parts| == 1 {
      SplitWithoutSeparator(parts[0], sep);
    } else {
      SplitJoin(parts[1..], sep);
      SplitAfterPart(parts[0], sep, Join(parts[1..], [sep]));
      assert [parts[0]] + parts[1..] == parts;
    }
  }

  /** The texts of the blocks, in block order. */
  function Texts(blocks: seq<Block>): seq<string> {
    seq(|blocks|, i requires 0 <= i < |blocks| => blocks[i].text)
  }

  /** `not result or not result[0]`: no result, no page, or an empty first page. */
  predicate NoDetections(result: Option<seq<Page>>) {
    result.None? || |result.value| == 0 || result.value[0].None? || |result.value[0].value| == 0
  }

  /** `result[0]`, the only page that is processed. */
  function FirstPage(result: Option<seq<Page>>): seq<Line>
    requires !NoDetections(result)
  {
    result.value[0].value
  }

  /** Some line has a polygon without points, on which `min(xs)` raises. */
  predicate HasEmptyPolygon(lines: seq<Line>) {
    exists i :: 0 <= i < |lines| && |lines[i].polygon| == 0
  }

  /** The block of one line: its text and confidence unchanged, its polygon's box. */
  function BlockOf(line: Line): Block
    requires |line.polygon| > 0
  {
    Block(line.text, Enclose(line.polygon), line.confidence, TextBlockType)
  }

  /** One block per line, in line order. */
  function Blocks(lines: seq<Line>): seq<Block>
    requires !HasEmptyPolygon(lines)
  {
    seq(|lines|, i requires 0 <= i < |lines| => BlockOf(lines[i]))
  }

  /** The document of an image in which nothing was detected. */
  function EmptyDocument(): Document {
    Document(true, [], "", 1, None)
  }

  /** The document of a run that raised. */
  function FailureDocument(message: string): Document {
    Document(false, [], "", 0, Some(message))
  }

  /** The document of a run that detected `blocks`. */
  function SuccessDocument(blocks: seq<Block>): Document {
    Document(true, blocks, Join(Texts(blocks), "\n"), 1, None)
  }

  /**
   * The result document for a raw recognizer outcome. It fails exactly when
   * the recognizer raised or a line of the first page has an empty polygon;
   * a success always reports one page and no error, and a failure reports
   * no blocks, no text, zero pages and the exception's message.
   */
  function Normalize(raw: Raw): (doc: Document)
    ensures doc.success <==>
      raw.Returned? && (NoDetections(raw.result) || !HasEmptyPolygon(FirstPage(raw.result)))
    ensures doc.success ==> doc.pageCount == 1 && doc.error == None
    ensures !doc.success ==> doc.blocks == [] && doc.text == "" && doc.pageCount == 0 && doc.error.Some?
    ensures raw.Raised? ==> doc.error == Some(raw.message)
    ensures raw.Returned? && !doc.success ==> doc.error == Some(EmptyMinMessage)
  {
    match raw
    case Raised(message) => FailureDocument(message)
    case Returned(result) =>
      if NoDetections(result) then EmptyDocument()
      else
        var lines := FirstPage(result);
        if HasEmptyPolygon(lines) then FailureDocument(EmptyMinMessage)
        else SuccessDocument(Blocks(lines))
  }

  /**
   * The normaliser as the source runs it: one pass over the first page that
   * appends a block and a text per line, then joins the texts. An empty
   * polygon ends the pass with the failure document.
   */
  method PerformOcr(raw: Raw) returns (doc: Document)
    ensures doc == Normalize(raw)
  {
    if raw.Raised? {
      return FailureDocument(raw.message);
    }
    var result := raw.result;
    if NoDetections(result) {
      return EmptyDocument();
    }
    var lines := result.value[0].value;
    var blocks: seq<Block> := [];
    var allText: seq<string> := [];
    var i := 0;
    while i < |lines|
      invariant 0 <= i <= |lines|
      invariant !HasEmptyPolygon(lines[..i])
      invariant blocks == Blocks(lines[..i])
      invariant allText == Texts(blocks)
    {
      var line := lines[i];
      if |line.polygon| == 0 {
        return FailureDocument(EmptyMinMessage);
      }
      var bbox := Enclose(line.polygon);
      blocks := blocks + [Block(line.text, bbox, line.confidence, TextBlockType)];
      allText := allText + [line.text];
      i := i + 1;
    }
    assert lines[..i] == lines;
    doc := Document(true, blocks, Join(allText, "\n"), 1, None);
  }

  /** An absent result, no pages, or an empty first page give the empty success document. */
  lemma NothingDetected(raw: Raw)
    requires raw.Returned? && NoDetections(raw.result)
    ensures Normalize(raw) == Document(true, [], "", 1, None)
  {
  }

  /** Every exception becomes the failure document carrying its message. */
  lemma RaisedIsReported(message: string)
    ensures Normalize(Raised(message)) == Document(false, [], "", 0, Some(message))
  {
  }

  /** Pages after the first one never influence the document. */
  lemma LaterPagesIgnored(first: Page, later: seq<Page>, other: seq<Page>)
    ensures Normalize(Returned(Some([first] + later))) == Normalize(Returned(Some([first] + other)))
  {
  }

  /**
   * On success with detections, block `k` is made from line `k` of the
   * first page: same text and confidence, type "text", and a box that
   * encloses the line's polygon and touches it on every side.
   */
  lemma BlocksFollowLines(raw: Raw, k: nat)
    requires raw.Returned? && !NoDetections(raw.result)
    requires Normalize(raw).success && k < |FirstPage(raw.result)|
    ensures var doc, line := Normalize(raw), FirstPage(raw.result)[k];
      && |doc.blocks| == |FirstPage(raw.result)|
      && doc.blocks[k].text == line.text
      && doc.blocks[k].confidence == line.confidence
      && doc.blocks[k].blockType == "text"
      && doc.blocks[k].bbox == Enclose(line.polygon)
      && doc.blocks[k].bbox.width >= 0.0 && doc.blocks[k].bbox.height >= 0.0
      && (forall p :: p in line.polygon ==> Contains(doc.blocks[k].bbox, p))
      && (exists p :: p in line.polygon && p.x == doc.blocks[k].bbox.x)
      && (exists p :: p in line.polygon && p.y == doc.blocks[k].bbox.y)
      && (exists p :: p in line.polygon && p.x == doc.blocks[k].bbox.x + doc.blocks[k].bbox.width)
      && (exists p :: p in line.polygon && p.y == doc.blocks[k].bbox.y + doc.blocks[k].bbox.height)
  {
    var line := FirstPage(raw.result)[k];
    var b := Normalize(raw).blocks[k].bbox;
    assert b == Enclose(line.polygon);
    forall p | p in line.polygon ensures Contains(b, p) {
      var i :| 0 <= i < |line.polygon| && line.polygon[i] == p;
    }
    var i0 :| 0 <= i0 < |line.polygon| && line.polygon[i0].x == b.x;
    var i1 :| 0 <= i1 < |line.polygon| && line.polygon[i1].y == b.y;
    var i2 :| 0 <= i2 < |line.polygon| && line.polygon[i2].x == b.x + b.width;
    var i3 :| 0 <= i3 < |line.polygon| && line.polygon[i3].y == b.y + b.height;
    assert line.polygon[i0] in line.polygon && line.polygon[i1] in line.polygon;
    assert line.polygon[i2] in line.polygon && line.polygon[i3] in line.polygon;
  }

  /** Whatever the outcome, the document's text is its block texts joined by newlines. */
  lemma TextIsJoinedBlockTexts(raw: Raw)
    ensures Normalize(raw).text == Join(Texts(Normalize(raw).blocks), "\n")
  {
  }

  /**
   * When at least one line was detected and no line text holds a newline,
   * splitting the document's text at newlines gives back the line texts,
   * one per block.
   */
  lemma TextSplitsIntoLineTexts(raw: Raw)
    requires raw.Returned? && !NoDetections(raw.result) && !HasEmptyPolygon(FirstPage(raw.result))
    requires forall i :: 0 <= i < |FirstPage(raw.result)| ==> '\n' !in FirstPage(raw.result)[i].text
    ensures Split(Normalize(raw).text, '\n') == Texts(Normalize(raw).blocks)
    ensures |Normalize(raw).blocks| == |FirstPage(raw.result)|
  {
    var texts := Texts(Normalize(raw).blocks);
    assert forall i :: 0 <= i < |texts| ==> texts[i] == FirstPage(raw.result)[i].text;
    SplitJoin(texts, '\n');
  }

  /** Two lines "Hello" then "World" give two blocks in that order and the text "Hello\nWorld". */
  lemma TwoLinesExample(p: seq<Point>, q: seq<Point>, c: real, d: real)
    requires |p| > 0 && |q| > 0
    ensures var doc := Normalize(Returned(Some([Some([Line(p, "Hello", c), Line(q, "World", d)])])));
      doc.success && |doc.blocks| == 2 && doc.blocks[0].text == "Hello" && doc.blocks[1].text == "World"
      && doc.text == "Hello\nWorld"
  {
    var lines := [Line(p, "Hello", c), Line(q, "World", d)];
    assert Texts(Blocks(lines)) == ["Hello", "World"];
    assert Join(["Hello", "World"], "\n") == "Hello" + "\n" + Join(["World"], "\n");
  }
}
