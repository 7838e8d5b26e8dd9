/** The native PPTX extractor (api/custom/extractors/pptx_extractor.py):
    one document per slide with text, tables rendered as Markdown. A
    presentation is what the parsing library hands over: slides of shapes,
    each shape reduced to the parts the extractor reads. */
module PptxExtractor {
  import opened Base
  import opened Text

  /** A shape: the paragraph texts of its text frame, the cell texts of its
      table (rows of cells), the text frames of a group's members, and its
      `text` attribute. `None` stands for an attribute the shape lacks. */
  datatype Shape = Shape(textFrame: Option<seq<string>>, table: Option<seq<seq<string>>>,
                         groupFrames: Option<seq<Option<seq<string>>>>, text: Option<string>)

  type Slide = seq<Shape>

  /** Opening the file either yields the slides or fails with a message. */
  datatype Presentation = Loaded(slides: seq<Slide>) | LoadFailed(reason: string)

  /** One document; `slide` is absent for the whole-presentation fallback. */
  datatype SlideDoc = SlideDoc(content: string, slide: Option<nat>)

  datatype ExtractResult = Documents(docs: seq<SlideDoc>) | ExtractError(message: string)

  /** The stripped paragraphs that are not blank. */
  function NonBlankStripped(paragraphs: seq<string>): (r: seq<string>)
    ensures |r| <= |paragraphs|
    ensures forall i :: 0 <= i < |r| ==> IsTrimmedWith(r[i], IsPySpace)
  {
    if |paragraphs| == 0 then []
    else
      var rest := NonBlankStripped(paragraphs[1..]);
      if IsPyBlank(paragraphs[0]) then rest
      else
        TrimNonBlank(paragraphs[0], IsPySpace);
        [Strip(paragraphs[0])] + rest
  }

  /** A paragraph that is not all whitespace. */
  function IsNonBlank(): string -> bool {
    (s: string) => !IsPyBlank(s)
  }

  /** The kept paragraphs are exactly the non-blank ones, each stripped:
      one per non-blank paragraph, and nothing else. */
  lemma {:induction false} NonBlankStrippedContent(paragraphs: seq<string>)
    ensures |NonBlankStripped(paragraphs)| == CountWhere(paragraphs, IsNonBlank())
    ensures forall p :: p in paragraphs && !IsPyBlank(p) ==> Strip(p) in NonBlankStripped(paragraphs)
    ensures forall s :: s in NonBlankStripped(paragraphs) ==>
              exists p :: p in paragraphs && !IsPyBlank(p) && s == Strip(p)
  {
    if |paragraphs| > 0 {
      NonBlankStrippedContent(paragraphs[1..]);
      assert forall x :: x in paragraphs <==> x == paragraphs[0] || x in paragraphs[1..];
    }
  }

  /** The k-th kept paragraph is the k-th non-blank paragraph, stripped:
      order and repetitions are those of the input. */
  lemma {:induction false} NonBlankStrippedInOrder(paragraphs: seq<string>)
    ensures |NonBlankStripped(paragraphs)| == |Filter(paragraphs, IsNonBlank())|
    ensures forall k :: 0 <= k < |NonBlankStripped(paragraphs)| ==>
              NonBlankStripped(paragraphs)[k] == Strip(Filter(paragraphs, IsNonBlank())[k])
  {
    if |paragraphs| > 0 {
      var tail := paragraphs[1..];
      NonBlankStrippedInOrder(tail);
      var r, f := NonBlankStripped(paragraphs), Filter(paragraphs, IsNonBlank());
      if IsPyBlank(paragraphs[0]) {
        assert r == NonBlankStripped(tail);
        assert f == [] + Filter(tail, IsNonBlank());
      } else {
        assert r == [Strip(paragraphs[0])] + NonBlankStripped(tail);
        assert f == [paragraphs[0]] + Filter(tail, IsNonBlank());
        forall k | 1 <= k < |r| ensures r[k] == Strip(f[k]) {
          assert r[k] == NonBlankStripped(tail)[k - 1];
          assert f[k] == Filter(tail, IsNonBlank())[k - 1];
        }
      }
    }
  }

  /** One more paragraph adds its stripped text at the end exactly when it
      is not blank: the kept paragraphs keep their order. */
  lemma {:induction false} NonBlankStrippedSnoc(paragraphs: seq<string>, q: string)
    ensures NonBlankStripped(paragraphs + [q])
            == NonBlankStripped(paragraphs) + (if IsPyBlank(q) then [] else [Strip(q)])
  {
    if |paragraphs| == 0 {
      assert paragraphs + [q] == [q];
      assert [q][1..] == [];
    } else {
      assert (paragraphs + [q])[1..] == paragraphs[1..] + [q];
      NonBlankStrippedSnoc(paragraphs[1..], q);
    }
  }

  /** `_extract_text_frame`: the non-blank paragraphs, stripped, one per
      line. */
  function ExtractTextFrame(paragraphs: seq<string>): (r: string)
    ensures r == "" <==> |NonBlankStripped(paragraphs)| == 0
    ensures r != "" ==> IsTrimmedWith(r, IsPySpace)
  {
    var parts := NonBlankStripped(paragraphs);
    if |parts| == 0 then ""
    else
      JoinOfTrimmed(IsPySpace, "\n", parts);
      Join("\n", parts)
  }

  /** Splitting a text frame's text at its newlines gives back the kept
      paragraphs, provided no paragraph holds a newline itself. */
  lemma TextFrameLines(paragraphs: seq<string>)
    requires forall i :: 0 <= i < |paragraphs| ==> '\n' !in paragraphs[i]
    requires ExtractTextFrame(paragraphs) != ""
    ensures Lines(ExtractTextFrame(paragraphs)) == NonBlankStripped(paragraphs)
  {
    var parts := NonBlankStripped(paragraphs);
    NonBlankStrippedContent(paragraphs);
    forall i | 0 <= i < |parts| ensures '\n' !in parts[i] {
      assert parts[i] in parts;
      var p :| p in paragraphs && !IsPyBlank(p) && parts[i] == Strip(p);
      TrimKeepsChars(p, IsPySpace);
    }
    LinesOfJoin(parts);
  }

  /** One table cell: newlines become spaces, the result is stripped, and
      pipes are escaped with a backslash. */
  function EscapeCell(cell: string): (r: string)
    ensures '\n' !in r
    ensures PipesFollowBackslash(r)
  {
    var flat := ReplaceChar(cell, '\n', " ");
    TrimKeepsChars(flat, IsPySpace);
    var r := ReplaceChar(Strip(flat), '|', "\\|");
    PipesEscaped(Strip(flat));
    r
  }

  /** Reading an escaped cell back: a backslash directly before a pipe is
      dropped, scanning left to right. */
  function UnescapePipes(s: string): string {
    if |s| == 0 then ""
    else if |s| >= 2 && s[0] == '\\' && s[1] == '|' then "|" + UnescapePipes(s[2..])
    else [s[0]] + UnescapePipes(s[1..])
  }

  /** An escaped text never starts with a pipe. */
  lemma EscapedStart(s: string)
    ensures |ReplaceChar(s, '|', "\\|")| > 0 ==> ReplaceChar(s, '|', "\\|")[0] != '|'
  {
    if |s| > 0 {
      var head := if s[0] == '|' then "\\|" else [s[0]];
      assert ReplaceChar(s, '|', "\\|") == head + ReplaceChar(s[1..], '|', "\\|");
    }
  }

  /** Escaping the pipes loses nothing: reading the escaped text back gives
      the original, backslashes included. */
  lemma {:induction false} UnescapeEscaped(s: string)
    ensures UnescapePipes(ReplaceChar(s, '|', "\\|")) == s
  {
    if |s| > 0 {
      var rest := ReplaceChar(s[1..], '|', "\\|");
      UnescapeEscaped(s[1..]);
      if s[0] == '|' {
        assert ReplaceChar(s, '|', "\\|") == "\\|" + rest;
        assert ("\\|" + rest)[2..] == rest;
      } else {
        assert ReplaceChar(s, '|', "\\|") == [s[0]] + rest;
        EscapedStart(s[1..]);
        assert ([s[0]] + rest)[1..] == rest;
      }
      assert s == [s[0]] + s[1..];
    }
  }

  /** A rendered cell reads back as the flattened, stripped cell text. */
  lemma EscapeCellRoundTrip(cell: string)
    ensures UnescapePipes(EscapeCell(cell)) == Strip(ReplaceChar(cell, '\n', " "))
  {
    UnescapeEscaped(Strip(ReplaceChar(cell, '\n', " ")));
  }

  /** Every pipe in `r` directly follows a backslash. */
  predicate PipesFollowBackslash(r: string) {
    forall i :: 0 <= i < |r| && r[i] == '|' ==> i > 0 && r[i - 1] == '\\'
  }

  /** After escaping, every pipe follows a backslash, so no cell text can
      open a new column. */
  lemma {:induction false} PipesEscaped(s: string)
    ensures PipesFollowBackslash(ReplaceChar(s, '|', "\\|"))
  {
    if |s| > 0 {
      PipesEscaped(s[1..]);
      var head := if s[0] == '|' then "\\|" else [s[0]];
      var rest := ReplaceChar(s[1..], '|', "\\|");
      var r := ReplaceChar(s, '|', "\\|");
      assert r == head + rest;
      forall i | 0 <= i < |r| && r[i] == '|' ensures i > 0 && r[i - 1] == '\\' {
        if i < |head| {
          assert r[i] == head[i];
          if s[0] == '|' {
            assert head == ['\\', '|'];
          }
        } else {
          var j := i - |head|;
          assert r[i] == rest[j];
          assert r[i - 1] == rest[j - 1];
        }
      }
    }
  }

  /** `n` copies of `s`. */
  function Repeat(s: string, n: nat): (r: seq<string>)
    ensures |r| == n && forall i :: 0 <= i < n ==> r[i] == s
  {
    if n == 0 then [] else [s] + Repeat(s, n - 1)
  }

  /** No cell holds a newline. */
  predicate NoNewlines(cells: seq<string>) {
    forall i :: 0 <= i < |cells| ==> '\n' !in cells[i]
  }

  /** A data row padded with empty cells and cut to `n` cells. */
  function Fit(row: seq<string>, n: nat): (r: seq<string>)
    ensures |r| == n
    ensures forall i :: 0 <= i < n ==> r[i] == if i < |row| then row[i] else ""
    ensures NoNewlines(row) ==> NoNewlines(r)
  {
    if |row| >= n then row[..n] else row + Repeat("", n - |row|)
  }

  /** One Markdown table row. */
  function MarkdownRow(cells: seq<string>): string {
    "| " + Join(" | ", cells) + " |"
  }

  /** A row built from cells without newlines holds no newline. */
  lemma RowHasNoNewline(cells: seq<string>)
    requires NoNewlines(cells)
    ensures '\n' !in MarkdownRow(cells)
  {
    JoinAvoids('\n', " | ", cells);
  }

  /** The escaped cells of every row. */
  function EscapeRows(rows: seq<seq<string>>): (r: seq<seq<string>>)
    ensures |r| == |rows|
    ensures forall i :: 0 <= i < |r| ==> |r[i]| == |rows[i]|
    ensures forall i, j :: 0 <= i < |r| && 0 <= j < |r[i]| ==> r[i][j] == EscapeCell(rows[i][j])
    ensures forall i :: 0 <= i < |r| ==> NoNewlines(r[i])
  {
    if |rows| == 0 then []
    else [seq(|rows[0]|, j requires 0 <= j < |rows[0]| => EscapeCell(rows[0][j]))] + EscapeRows(rows[1..])
  }

  /** The cells of the Markdown table: the header, the separator, then each
      further row fitted to the header's width. */
  function TableCells(rows: seq<seq<string>>): (c: seq<seq<string>>)
    requires |rows| > 0
    ensures |c| == |rows| + 1
    ensures c[0] == rows[0] && c[1] == Repeat("---", |rows[0]|)
    ensures forall k :: 1 <= k < |rows| ==> c[k + 1] == Fit(rows[k], |rows[0]|)
  {
    var n := |rows[0]|;
    var data := seq(|rows| - 1, k requires 0 <= k < |rows| - 1 => Fit(rows[k + 1], n));
    [rows[0], Repeat("---", n)] + data
  }

  /** One rendered line per row of cells. */
  function RowLines(cells: seq<seq<string>>): (r: seq<string>)
    ensures |r| == |cells|
    ensures forall k :: 0 <= k < |r| ==> r[k] == MarkdownRow(cells[k])
  {
    seq(|cells|, k requires 0 <= k < |cells| => MarkdownRow(cells[k]))
  }

  /** The lines of the Markdown table. */
  function TableLines(rows: seq<seq<string>>): (r: seq<string>)
    requires |rows| > 0
    ensures |r| == |rows| + 1
    ensures r[0] == MarkdownRow(rows[0])
    ensures r[1] == MarkdownRow(Repeat("---", |rows[0]|))
    ensures forall k :: 1 <= k < |rows| ==> r[k + 1] == MarkdownRow(Fit(rows[k], |rows[0]|))
  {
    RowLines(TableCells(rows))
  }

  /** No line of a table whose cells hold no newline holds one. */
  lemma TableLinesHaveNoNewline(rows: seq<seq<string>>)
    requires |rows| > 0
    requires forall i :: 0 <= i < |rows| ==> NoNewlines(rows[i])
    ensures forall k :: 0 <= k < |TableLines(rows)| ==> '\n' !in TableLines(rows)[k]
  {
    var c := TableCells(rows);
    forall k | 0 <= k < |c| ensures '\n' !in TableLines(rows)[k] {
      if k >= 2 {
        assert c[k] == Fit(rows[k - 1], |rows[0]|);
      }
      RowHasNoNewline(c[k]);
    }
  }

  /** `_extract_table`: empty for a table without rows, otherwise the
      Markdown lines joined with newlines. */
  function ExtractTable(rows: seq<seq<string>>): (r: string)
    ensures |rows| == 0 <==> r == ""
    ensures |rows| > 0 ==> |r| > 0 && r[0] == '|'
  {
    if |rows| == 0 then ""
    else Join("\n", TableLines(EscapeRows(rows)))
  }

  /** Splitting a rendered table at its newlines gives back one line per
      row plus the separator: cell text can never break a row. */
  lemma TableHasOneLinePerRow(rows: seq<seq<string>>)
    requires |rows| > 0
    ensures |Lines(ExtractTable(rows))| == |rows| + 1
    ensures Lines(ExtractTable(rows))[0] == MarkdownRow(EscapeRows(rows)[0])
    ensures Lines(ExtractTable(rows))[1] == MarkdownRow(Repeat("---", |rows[0]|))
    ensures forall k :: 1 <= k < |rows| ==>
              Lines(ExtractTable(rows))[k + 1] == MarkdownRow(Fit(EscapeRows(rows)[k], |rows[0]|))
  {
    var escaped := EscapeRows(rows);
    var lines := TableLines(escaped);
    TableLinesHaveNoNewline(escaped);
    LinesOfJoin(lines);
  }

  /** A text frame that yields no text: absent, or every paragraph blank. */
  predicate FrameIsEmpty(frame: Option<seq<string>>) {
    frame.None? || |NonBlankStripped(frame.value)| == 0
  }

  /** Every part holds some text. */
  predicate NoEmptyPart(parts: seq<string>) {
    forall i :: 0 <= i < |parts| ==> |parts[i]| > 0
  }

  /** The text is not empty. */
  function HasText(): string -> bool {
    (t: string) => |t| > 0
  }

  /** A frame's text as a part, when it has any. */
  function FramePart(frame: Option<seq<string>>): (r: seq<string>)
    ensures |r| <= 1 && (r == [] <==> FrameIsEmpty(frame)) && NoEmptyPart(r)
  {
    if FrameIsEmpty(frame) then [] else [ExtractTextFrame(frame.value)]
  }

  /** A table's Markdown as a part, when it has rows. */
  function TablePart(table: Option<seq<seq<string>>>): (r: seq<string>)
    ensures |r| <= 1 && (r == [] <==> table.None? || |table.value| == 0) && NoEmptyPart(r)
  {
    if table.None? || |table.value| == 0 then []
    else
      var md := ExtractTable(table.value);
      assert NoEmptyPart([md]);
      [md]
  }

  /** A shape the slide extraction takes nothing from: its frame and every
      group member's frame are empty, and it has no table rows. */
  predicate ShapeIsEmpty(shape: Shape) {
    FrameIsEmpty(shape.textFrame) && (shape.table.None? || |shape.table.value| == 0)
    && (shape.groupFrames.None? ||
        forall k :: 0 <= k < |shape.groupFrames.value| ==> FrameIsEmpty(shape.groupFrames.value[k]))
  }

  /** The texts a shape contributes, in the order the extractor visits
      them: its frame, its table, then its group members' frames. No part
      is empty, and a shape contributes nothing exactly when it is
      empty. */
  function ShapeParts(shape: Shape): (r: seq<string>)
    ensures NoEmptyPart(r)
    ensures r == [] <==> ShapeIsEmpty(shape)
  {
    var frame, table := FramePart(shape.textFrame), TablePart(shape.table);
    var group := if shape.groupFrames.Some? then GroupParts(shape.groupFrames.value) else [];
    Concat3(frame, table, group);
    Concat3All(frame, table, group, HasText());
    frame + table + group
  }

  /** A shape's frame text comes first, then its table. */
  lemma ShapePartsOrder(shape: Shape)
    ensures !FrameIsEmpty(shape.textFrame) ==>
              |ShapeParts(shape)| > 0 && ShapeParts(shape)[0] == ExtractTextFrame(shape.textFrame.value)
    ensures shape.table.Some? && |shape.table.value| > 0 ==>
              var at := if FrameIsEmpty(shape.textFrame) then 0 else 1;
              |ShapeParts(shape)| > at && ShapeParts(shape)[at] == ExtractTable(shape.table.value)
  {
    var frame, table := FramePart(shape.textFrame), TablePart(shape.table);
    var group := if shape.groupFrames.Some? then GroupParts(shape.groupFrames.value) else [];
    assert ShapeParts(shape) == frame + table + group;
    Concat3(frame, table, group);
  }

  /** The texts of a group's members' frames, in member order; there are
      none exactly when every member's frame is empty. */
  function GroupParts(frames: seq<Option<seq<string>>>): (r: seq<string>)
    ensures NoEmptyPart(r)
    ensures r == [] <==> forall k :: 0 <= k < |frames| ==> FrameIsEmpty(frames[k])
  {
    FlatMapAll(frames, FramePart, HasText());
    FlatMapEmpty(frames, FramePart);
    FlatMap(frames, FramePart)
  }

  /** One more group member adds its frame's text at the end exactly when
      that frame is not empty. */
  lemma GroupPartsSnoc(frames: seq<Option<seq<string>>>, f: Option<seq<string>>)
    ensures GroupParts(frames + [f]) == GroupParts(frames) + FramePart(f)
  {
    FlatMapSnoc(frames, f, FramePart);
  }

  /** The parts of a slide, shape by shape in slide order; no part is
      empty. */
  function SlideParts(slide: Slide): (r: seq<string>)
    ensures NoEmptyPart(r)
  {
    FlatMapAll(slide, ShapeParts, HasText());
    FlatMap(slide, ShapeParts)
  }

  /** A slide has no parts exactly when every shape on it is empty. */
  lemma SlidePartsEmpty(slide: Slide)
    ensures SlideParts(slide) == [] <==> forall k :: 0 <= k < |slide| ==> ShapeIsEmpty(slide[k])
  {
    FlatMapEmpty(slide, ShapeParts);
  }

  /** One more shape adds its parts after those of the shapes before it. */
  lemma SlidePartsSnoc(slide: Slide, shape: Shape)
    ensures SlideParts(slide + [shape]) == SlideParts(slide) + ShapeParts(shape)
  {
    FlatMapSnoc(slide, shape, ShapeParts);
  }

  /** `_extract_slide_content`: the parts separated by blank lines. It is
      empty exactly when every shape is empty, so a slide with a frame,
      table or group text is never dropped for lack of content. */
  function SlideContent(slide: Slide): (r: string)
    ensures r == "" <==> forall k :: 0 <= k < |slide| ==> ShapeIsEmpty(slide[k])
  {
    SlidePartsEmpty(slide);
    Join("\n\n", SlideParts(slide))
  }

  /** Each slide's content, stripped, in slide order: a slide is kept
      exactly when this is not empty. */
  function SlideTexts(slides: seq<Slide>): (r: seq<string>)
    ensures |r| == |slides| && forall k :: 0 <= k < |slides| ==> r[k] == Strip(SlideContent(slides[k]))
  {
    seq(|slides|, k requires 0 <= k < |slides| => Strip(SlideContent(slides[k])))
  }

  /** A stripped text is empty exactly when the text is blank, and is never
      blank itself when it is not empty. */
  lemma StrippedEmptyIffBlank(s: string)
    ensures Strip(s) == "" <==> IsPyBlank(s)
    ensures Strip(s) != "" ==> !IsPyBlank(Strip(s))
  {
    TrimEmptyIffBlank(s, IsPySpace);
  }

  /** The positions from `k` on whose text is not empty, ascending: the
      slides the loop keeps. */
  function KeptFrom(texts: seq<string>, k: nat): (r: seq<nat>)
    requires k <= |texts|
    ensures forall i :: 0 <= i < |r| ==> k <= r[i] < |texts| && texts[r[i]] != ""
    ensures forall i, j :: 0 <= i < j < |r| ==> r[i] < r[j]
    ensures forall m :: k <= m < |texts| && texts[m] != "" ==> m in r
    decreases |texts| - k
  {
    if k == |texts| then []
    else
      var rest := KeptFrom(texts, k + 1);
      if texts[k] == "" then rest else [k] + rest
  }

  /** One document per non-empty stripped slide text, numbered from
      `first`. */
  function SlideDocs(texts: seq<string>, first: nat): (r: seq<SlideDoc>)
    ensures forall i :: 0 <= i < |r| ==>
              r[i].slide.Some? && first <= r[i].slide.value < first + |texts|
              && r[i].content == texts[r[i].slide.value - first] && r[i].content != ""
    ensures forall i, j :: 0 <= i < j < |r| ==> r[i].slide.value < r[j].slide.value
  {
    var ks := KeptFrom(texts, 0);
    seq(|ks|, i requires 0 <= i < |ks| => SlideDoc(texts[ks[i]], Some(first + ks[i])))
  }

  /** Every non-empty text has its document, numbered by its position. */
  lemma SlideDocsComplete(texts: seq<string>, first: nat)
    ensures forall k :: 0 <= k < |texts| && texts[k] != "" ==>
              SlideDoc(texts[k], Some(first + k)) in SlideDocs(texts, first)
  {
    var ks := KeptFrom(texts, 0);
    var r := SlideDocs(texts, first);
    forall k | 0 <= k < |texts| && texts[k] != ""
      ensures SlideDoc(texts[k], Some(first + k)) in r
    {
      var i :| 0 <= i < |ks| && ks[i] == k;
      assert r[i] == SlideDoc(texts[k], Some(first + k));
    }
  }

  /** There are no slide documents exactly when every text is empty. */
  lemma SlideDocsEmpty(texts: seq<string>, first: nat)
    ensures |SlideDocs(texts, first)| == 0 <==> forall k :: 0 <= k < |texts| ==> texts[k] == ""
  {
    var ks := KeptFrom(texts, 0);
    if |ks| > 0 {
      assert texts[ks[0]] != "";
    }
  }

  /** The slide documents of a presentation have content that is not blank,
      and there are none exactly when every slide's content is blank. */
  lemma PresentationDocs(slides: seq<Slide>)
    ensures forall d :: d in SlideDocs(SlideTexts(slides), 1) ==> !IsPyBlank(d.content)
    ensures |SlideDocs(SlideTexts(slides), 1)| == 0 <==>
              forall k :: 0 <= k < |slides| ==> IsPyBlank(SlideContent(slides[k]))
  {
    var texts := SlideTexts(slides);
    var r := SlideDocs(texts, 1);
    forall d | d in r ensures !IsPyBlank(d.content) {
      var i :| 0 <= i < |r| && r[i] == d;
      StrippedEmptyIffBlank(SlideContent(slides[d.slide.value - 1]));
    }
    SlideDocsEmpty(texts, 1);
    forall k | 0 <= k < |slides| ensures texts[k] == "" <==> IsPyBlank(SlideContent(slides[k])) {
      StrippedEmptyIffBlank(SlideContent(slides[k]));
    }
  }

  /** A shape whose `text` is absent or blank: the fallback skips it. */
  predicate HasNoText(shape: Shape) {
    shape.text.None? || IsPyBlank(shape.text.value)
  }

  /** A shape's `text` as a part for the fallback, stripped, when it is not
      blank. */
  function TextPart(shape: Shape): (r: seq<string>)
    ensures r == [] <==> HasNoText(shape)
    ensures forall i :: 0 <= i < |r| ==> IsTrimmedWith(r[i], IsPySpace)
  {
    if HasNoText(shape) then []
    else
      TrimNonBlank(shape.text.value, IsPySpace);
      [Strip(shape.text.value)]
  }

  /** The stripped text is trimmed. */
  function IsStripped(): string -> bool {
    (t: string) => IsTrimmedWith(t, IsPySpace)
  }

  /** `_extract_all_text`'s parts: every shape's non-blank `text`, stripped,
      slide by slide. */
  function AllShapeTexts(slides: seq<Slide>): (r: seq<string>)
    ensures forall i :: 0 <= i < |r| ==> IsTrimmedWith(r[i], IsPySpace)
  {
    FlatMapAll(slides, ShapeTexts, IsStripped());
    FlatMap(slides, ShapeTexts)
  }

  /** One slide's non-blank shape texts, stripped, in shape order; there are
      none exactly when every shape has no text. */
  function ShapeTexts(slide: Slide): (r: seq<string>)
    ensures forall i :: 0 <= i < |r| ==> IsTrimmedWith(r[i], IsPySpace)
    ensures r == [] <==> forall k :: 0 <= k < |slide| ==> HasNoText(slide[k])
  {
    FlatMapAll(slide, TextPart, IsStripped());
    FlatMapEmpty(slide, TextPart);
    FlatMap(slide, TextPart)
  }

  /** One more shape adds its stripped text at the end exactly when it has
      text. */
  lemma ShapeTextsSnoc(slide: Slide, shape: Shape)
    ensures ShapeTexts(slide + [shape])
            == ShapeTexts(slide) + (if HasNoText(shape) then [] else [Strip(shape.text.value)])
  {
    FlatMapSnoc(slide, shape, TextPart);
  }

  /** One more slide adds its shape texts after those of the slides before
      it, and there are none exactly when no slide has any. */
  lemma AllShapeTextsSnoc(slides: seq<Slide>, slide: Slide)
    ensures AllShapeTexts(slides + [slide]) == AllShapeTexts(slides) + ShapeTexts(slide)
    ensures AllShapeTexts(slides) == [] <==> forall k :: 0 <= k < |slides| ==> ShapeTexts(slides[k]) == []
  {
    FlatMapSnoc(slides, slide, ShapeTexts);
    FlatMapEmpty(slides, ShapeTexts);
  }

  /** `extract()`: the per-slide documents; if there are none, one document
      with every shape's text; a presentation that cannot be opened is an
      error naming the reason. */
  function Extract(p: Presentation): (r: ExtractResult)
    ensures p.LoadFailed? ==> r == ExtractError("Failed to extract text from PPTX: " + p.reason)
    ensures p.Loaded? ==> r.Documents?
    ensures p.Loaded? ==> forall d :: d in r.docs ==> !IsPyBlank(d.content)
    ensures p.Loaded? && (exists k :: 0 <= k < |p.slides| && !IsPyBlank(SlideContent(p.slides[k]))) ==>
              r.docs == SlideDocs(SlideTexts(p.slides), 1)
    ensures p.Loaded? && (forall k :: 0 <= k < |p.slides| ==> IsPyBlank(SlideContent(p.slides[k]))) ==>
              r.docs == (if IsPyBlank(Join("\n\n", AllShapeTexts(p.slides))) then []
                         else [SlideDoc(Strip(Join("\n\n", AllShapeTexts(p.slides))), None)])
    ensures p.Loaded? ==> forall d :: d in r.docs && d.slide.None? ==>
              forall k :: 0 <= k < |p.slides| ==> IsPyBlank(SlideContent(p.slides[k]))
  {
    match p
    case LoadFailed(reason) => ExtractError("Failed to extract text from PPTX: " + reason)
    case Loaded(slides) =>
      var docs := SlideDocs(SlideTexts(slides), 1);
      PresentationDocs(slides);
      if |docs| > 0 then Documents(docs)
      else
        var all := Join("\n\n", AllShapeTexts(slides));
        if IsPyBlank(all) then Documents([])
        else
          TrimNonBlank(all, IsPySpace);
          TrimmedNotBlank(Strip(all), IsPySpace);
          Documents([SlideDoc(Strip(all), None)])
  }
}
