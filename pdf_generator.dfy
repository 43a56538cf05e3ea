/**
  The PDF writer of the AI service: every line of the generated text becomes
  one right-aligned line of Arabic on an A4 canvas, in green when the line
  carries the check mark of a correct answer and in black otherwise, with the
  markdown marks '*' and '#' and the check mark itself removed.

  The drawing library is modelled by the Canvas class below, which records
  what is drawn where; the Arabic shaping and the bidirectional reordering
  (get_display(reshape(s))) are one parameter, `shape`, since they are code
  outside the service. Coordinates are reals: A4 is 595.2755905511812 by
  841.8897637795277 points, the margin 40 and the line height 20.
*/
module PdfGenerator {
  import opened Text

  /** The fill colours the writer uses. */
  datatype Colour = Black | Green

  /** One call of drawRightString: the page it landed on (counting from 0),
      the right edge x, the baseline y, the fill colour and font in effect,
      and the text. */
  datatype Draw = Draw(page: nat, x: real, y: real, colour: Colour, fontName: string, fontSize: nat, text: string)

  /** get_display(arabic_reshaper.reshape(s)). */
  type Shaper = string -> string

  const A4Width: real := 595.2755905511812
  const A4Height: real := 841.8897637795277
  const Margin: real := 40.0
  const LineHeight: real := 20.0
  const CheckMark: char := '\U{2713}'
  const FontName := "Arabic"
  const FontSize: nat := 14

  // ------------------------------------------------------------------ canvas

  /** A drawing surface as the writer uses it: the page being drawn on, the
      current fill colour and font, everything drawn so far, and whether the
      document was written out. A new canvas fills in black with the library's
      default font, Helvetica at 12 points. */
  class Canvas {
    const path: string
    const width: real
    const height: real
    var page: nat
    var fill: Colour
    var fontName: string
    var fontSize: nat
    var draws: seq<Draw>
    var saved: bool

    constructor (path: string, width: real, height: real)
      ensures this.path == path && this.width == width && this.height == height
      ensures page == 0 && fill == Black && fontName == "Helvetica" && fontSize == 12
      ensures draws == [] && !saved
    {
      this.path := path;
      this.width := width;
      this.height := height;
      page := 0;
      fill := Black;
      fontName := "Helvetica";
      fontSize := 12;
      draws := [];
      saved := false;
    }

    method SetFillColor(colour: Colour)
      modifies this
      ensures fill == colour
      ensures page == old(page) && fontName == old(fontName) && fontSize == old(fontSize)
      ensures draws == old(draws) && saved == old(saved)
    {
      fill := colour;
    }

    method SetFont(name: string, size: nat)
      modifies this
      ensures fontName == name && fontSize == size
      ensures page == old(page) && fill == old(fill) && draws == old(draws) && saved == old(saved)
    {
      fontName := name;
      fontSize := size;
    }

    /** Draws text ending at x on the baseline y of the current page, in the
        current fill colour and font. */
    method DrawRightString(x: real, y: real, text: string)
      modifies this
      ensures draws == old(draws) + [Draw(page, x, y, fill, fontName, fontSize, text)]
      ensures page == old(page) && fill == old(fill) && fontName == old(fontName)
      ensures fontSize == old(fontSize) && saved == old(saved)
    {
      draws := draws + [Draw(page, x, y, fill, fontName, fontSize, text)];
    }

    /** Ends the current page; drawing continues on the next one, with the
        graphics state reset to black Helvetica 12. */
    method ShowPage()
      modifies this
      ensures page == old(page) + 1
      ensures fill == Black && fontName == "Helvetica" && fontSize == 12
      ensures draws == old(draws) && saved == old(saved)
    {
      page := page + 1;
      fill := Black;
      fontName := "Helvetica";
      fontSize := 12;
    }

    method Save()
      modifies this
      ensures saved
      ensures page == old(page) && fill == old(fill) && fontName == old(fontName)
      ensures fontSize == old(fontSize) && draws == old(draws)
    {
      saved := true;
    }
  }

  // ------------------------------------------------------------ one line

  /** `not line.strip()`: the line is empty or all whitespace. */
  predicate IsBlank(line: string)
  {
    Strip(line) == []
  }

  /** The check mark anywhere in the line marks a correct answer. */
  function LineColour(line: string): Colour
  {
    if CheckMark in line then Green else Black
  }

  /** The marks the writer deletes from a line before drawing it. */
  predicate IsMark(ch: char)
  {
    ch == CheckMark || ch == '*' || ch == '#'
  }

  /** The line without check marks, '*' and '#'. */
  function Unmarked(line: string): string
  {
    Remove(Remove(Remove(line, CheckMark), '*'), '#')
  }

  /** The line without check marks, '*' and '#', then stripped. */
  function CleanLine(line: string): string
  {
    Strip(Unmarked(line))
  }

  /** Where the next line goes, and what has been drawn. */
  datatype Cursor = Cursor(y: real, page: nat, draws: seq<Draw>)

  /** The cursor at the top of the first page. */
  function Start(height: real): Cursor
  {
    Cursor(height - Margin, 0, [])
  }

  /** One iteration of the writer's loop. A blank line moves the cursor one
      line down and nothing else. Any other line is drawn at the cursor, right
      aligned at the right margin, in green when it carries the check mark;
      then the cursor moves one line down, and to the top of a new page when
      that leaves it below the bottom margin. */
  function LayoutLine(cur: Cursor, line: string, width: real, height: real, shape: Shaper): Cursor
  {
    if IsBlank(line) then Cursor(cur.y - LineHeight, cur.page, cur.draws)
    else
      var d := Draw(cur.page, width - Margin, cur.y, LineColour(line), FontName, FontSize, shape(CleanLine(line)));
      var y := cur.y - LineHeight;
      if y < Margin then Cursor(height - Margin, cur.page + 1, cur.draws + [d])
      else Cursor(y, cur.page, cur.draws + [d])
  }

  /** The writer's loop over a list of lines, from the cursor cur. */
  function Run(cur: Cursor, lines: seq<string>, width: real, height: real, shape: Shaper): Cursor
    decreases |lines|
  {
    if lines == [] then cur
    else LayoutLine(Run(cur, lines[..|lines| - 1], width, height, shape), lines[|lines| - 1], width, height, shape)
  }

  /** The layout of a whole text: its lines are what text.split("\n") gives. */
  function Layout(text: string, width: real, height: real, shape: Shaper): Cursor
  {
    Run(Start(height), SplitOn(text, '\n'), width, height, shape)
  }

  /** The lines that get drawn, in order. */
  function NonBlank(lines: seq<string>): (r: seq<string>)
    ensures |r| <= |lines|
    ensures forall k :: 0 <= k < |r| ==> !IsBlank(r[k])
    decreases |lines|
  {
    if lines == [] then []
    else
      var init, last := lines[..|lines| - 1], lines[|lines| - 1];
      NonBlank(init) + (if IsBlank(last) then [] else [last])
  }

  // ------------------------------------------------------------ the writer

  lemma RunSnoc(cur: Cursor, lines: seq<string>, line: string, width: real, height: real, shape: Shaper)
    ensures Run(cur, lines + [line], width, height, shape) == LayoutLine(Run(cur, lines, width, height, shape), line, width, height, shape)
  {
    assert (lines + [line])[..|lines|] == lines;
  }

  lemma RunPrefix(cur: Cursor, lines: seq<string>, i: nat, width: real, height: real, shape: Shaper)
    requires i < |lines|
    ensures Run(cur, lines[..i + 1], width, height, shape) == LayoutLine(Run(cur, lines[..i], width, height, shape), lines[i], width, height, shape)
  {
    assert lines[..i + 1] == lines[..i] + [lines[i]];
    RunSnoc(cur, lines[..i], lines[i], width, height, shape);
  }

  /** The body of the writer's loop for a line that is not blank: the fill
      colour chosen by the check mark, the Arabic font at 14 points, and the
      cleaned, shaped line drawn ending at x on the baseline y. */
  method DrawLine(c: Canvas, line: string, x: real, y: real, shape: Shaper)
    modifies c
    ensures c.draws == old(c.draws) + [Draw(c.page, x, y, LineColour(line), FontName, FontSize, shape(CleanLine(line)))]
    ensures c.fill == LineColour(line) && c.fontName == FontName && c.fontSize == FontSize
    ensures c.page == old(c.page) && c.saved == old(c.saved)
  {
    var isCorrect := CheckMark in line;
    var cleanLine := Strip(Remove(Remove(Remove(line, CheckMark), '*'), '#'));
    var bidiText := shape(cleanLine);
    if isCorrect {
      c.SetFillColor(Green);
    } else {
      c.SetFillColor(Black);
    }
    c.SetFont(FontName, FontSize);
    c.DrawRightString(x, y, bidiText);
  }

  /** generate_pdf_from_text(text, pdf_path) as the service runs it: one new
      A4 canvas at pdf_path, the lines of the text laid out as Layout says,
      the document saved, and pdf_path returned. */
  method GeneratePdfFromText(text: string, pdfPath: string, shape: Shaper) returns (path: string, c: Canvas)
    ensures path == pdfPath
    ensures fresh(c) && c.path == pdfPath && c.width == A4Width && c.height == A4Height
    ensures c.draws == Layout(text, A4Width, A4Height, shape).draws
    ensures c.page == Layout(text, A4Width, A4Height, shape).page
    ensures c.saved
  {
    c := new Canvas(pdfPath, A4Width, A4Height);
    var width, height := A4Width, A4Height;
    var margin := Margin;
    var y := height - margin;
    var lineHeight := LineHeight;

    var lines := SplitOn(text, '\n');
    ghost var cur := Start(height);
    for i := 0 to |lines|
      invariant cur == Run(Start(height), lines[..i], width, height, shape)
      invariant cur == Cursor(y, c.page, c.draws)
      invariant !c.saved
    {
      var line := lines[i];
      RunPrefix(Start(height), lines, i, width, height, shape);
      cur := LayoutLine(cur, line, width, height, shape);
      if Strip(line) == [] {
        y := y - lineHeight;
        continue;
      }
      DrawLine(c, line, width - margin, y, shape);
      y := y - lineHeight;
      if y < margin {
        c.ShowPage();
        y := height - margin;
      }
    }
    assert lines[..|lines|] == lines;
    c.Save();
    path := pdfPath;
  }

  // -------------------------------------------------------- what is drawn

  /** The draws are the given lines, one each and in order, as the writer
      draws them: right-aligned at the right margin, in the Arabic font at 14
      points, green exactly for a line with the check mark, with the cleaned
      and shaped text. */
  predicate DrawsOf(draws: seq<Draw>, lines: seq<string>, width: real, shape: Shaper)
  {
    && |draws| == |lines|
    && forall k :: 0 <= k < |draws| ==> DrawOf(draws[k], lines[k], width, shape)
  }

  predicate DrawOf(d: Draw, line: string, width: real, shape: Shaper)
  {
    && d.x == width - Margin
    && d.fontName == FontName && d.fontSize == FontSize
    && (d.colour == Green <==> CheckMark in line)
    && d.text == shape(CleanLine(line))
  }

  lemma NonBlankSnoc(lines: seq<string>, line: string)
    ensures NonBlank(lines + [line]) == NonBlank(lines) + (if IsBlank(line) then [] else [line])
  {
    assert (lines + [line])[..|lines|] == lines;
  }

  /** Appending one draw of one more line keeps the draws those of the lines. */
  lemma DrawsOfSnoc(draws: seq<Draw>, ls: seq<string>, d: Draw, line: string, width: real, shape: Shaper)
    requires DrawsOf(draws, ls, width, shape) && DrawOf(d, line, width, shape)
    ensures DrawsOf(draws + [d], ls + [line], width, shape)
  {
    var ds, ns := draws + [d], ls + [line];
    forall k | 0 <= k < |ds|
      ensures DrawOf(ds[k], ns[k], width, shape)
    {
      if k < |draws| {
        assert ds[k] == draws[k] && ns[k] == ls[k];
      }
    }
  }

  /** What one iteration appends to the draws: nothing for a blank line, and
      one draw of the line otherwise. */
  lemma LayoutLineDraws(cur: Cursor, line: string, width: real, height: real, shape: Shaper)
    ensures IsBlank(line) ==> LayoutLine(cur, line, width, height, shape).draws == cur.draws
    ensures !IsBlank(line) ==>
      exists d :: DrawOf(d, line, width, shape) && LayoutLine(cur, line, width, height, shape).draws == cur.draws + [d]
  {
    if !IsBlank(line) {
      var d := Draw(cur.page, width - Margin, cur.y, LineColour(line), FontName, FontSize, shape(CleanLine(line)));
      assert DrawOf(d, line, width, shape);
      assert LayoutLine(cur, line, width, height, shape).draws == cur.draws + [d];
    }
  }

  lemma DrawsOfStep(cur: Cursor, lines: seq<string>, line: string, width: real, height: real, shape: Shaper)
    requires DrawsOf(cur.draws, NonBlank(lines), width, shape)
    ensures DrawsOf(LayoutLine(cur, line, width, height, shape).draws, NonBlank(lines + [line]), width, shape)
  {
    NonBlankSnoc(lines, line);
    LayoutLineDraws(cur, line, width, height, shape);
    if !IsBlank(line) {
      var d :| DrawOf(d, line, width, shape) && LayoutLine(cur, line, width, height, shape).draws == cur.draws + [d];
      DrawsOfSnoc(cur.draws, NonBlank(lines), d, line, width, shape);
    }
  }

  /** Exactly the lines that are not blank are drawn, one draw each, in
      order: right-aligned at the right margin, in the Arabic font at 14
      points, green exactly when the line carries the check mark, with the
      line's text cleaned and shaped. */
  lemma {:induction false} RunDrawsNonBlankLines(lines: seq<string>, width: real, height: real, shape: Shaper)
    ensures DrawsOf(Run(Start(height), lines, width, height, shape).draws, NonBlank(lines), width, shape)
    decreases |lines|
  {
    if lines != [] {
      var init := lines[..|lines| - 1];
      RunDrawsNonBlankLines(init, width, height, shape);
      DrawsOfStep(Run(Start(height), init, width, height, shape), init, lines[|lines| - 1], width, height, shape);
      assert init + [lines[|lines| - 1]] == lines;
    }
  }

  /** The same for a whole text: its blank lines are skipped and every other
      line of text.split("\n") is drawn. */
  lemma LayoutDrawsNonBlankLines(text: string, width: real, height: real, shape: Shaper)
    ensures DrawsOf(Layout(text, width, height, shape).draws, NonBlank(SplitOn(text, '\n')), width, shape)
    ensures JoinWith(SplitOn(text, '\n'), '\n') == text
  {
    RunDrawsNonBlankLines(SplitOn(text, '\n'), width, height, shape);
    SplitOnJoin(text, '\n');
  }

  /** The cleaned text of a line holds no check mark, '*' or '#', and starts
      and ends with a character that is not whitespace; it is empty exactly
      when the line holds nothing but whitespace and those marks. */
  lemma CleanLineProperties(line: string)
    ensures var r := CleanLine(line);
      && (forall x :: x in r ==> !IsMark(x))
      && (r != [] ==> !IsSpace(r[0]) && !IsSpace(r[|r| - 1]))
      && (r == [] <==> forall i :: 0 <= i < |line| ==> IsSpace(line[i]) || IsMark(line[i]))
  {
    UnmarkedProperties(line);
    StripProperties(Unmarked(line));
    if CleanLine(line) == [] {
      forall i | 0 <= i < |line| && !IsMark(line[i])
        ensures IsSpace(line[i])
      {
        UnmarkedKeeps(line, line[i]);
      }
    } else {
      var x := CleanLine(line)[0];
      UnmarkedKeeps(line, x);
      var i :| 0 <= i < |line| && line[i] == x;
    }
  }

  /** Removing the marks leaves none of them and every other character as
      often as before. */
  lemma UnmarkedProperties(line: string)
    ensures forall x :: x in Unmarked(line) ==> !IsMark(x)
    ensures forall x :: !IsMark(x) ==> multiset(Unmarked(line))[x] == multiset(line)[x]
  {
    var a := Remove(line, CheckMark);
    var b := Remove(a, '*');
    var c := Remove(b, '#');
    RemoveProperties(line, CheckMark);
    RemoveProperties(a, '*');
    RemoveProperties(b, '#');
    assert multiset(c)[CheckMark] == multiset(b)[CheckMark] == multiset(a)[CheckMark] == 0;
    assert multiset(c)['*'] == multiset(b)['*'] == 0;
    forall x | !IsMark(x)
      ensures multiset(c)[x] == multiset(line)[x]
    {
      assert multiset(c)[x] == multiset(b)[x] == multiset(a)[x];
    }
  }

  lemma UnmarkedKeeps(line: string, x: char)
    requires !IsMark(x)
    requires forall y :: !IsMark(y) ==> multiset(Unmarked(line))[y] == multiset(line)[y]
    ensures x in Unmarked(line) <==> x in line
  {
    assert multiset(Unmarked(line))[x] == multiset(line)[x];
  }

  // ----------------------------------------------------- order on the page

  /** The draw after draw k is on a later page, or lower on the same page. */
  predicate Below(draws: seq<Draw>, k: nat)
    requires k + 1 < |draws|
  {
    draws[k + 1].page > draws[k].page || (draws[k + 1].page == draws[k].page && draws[k + 1].y < draws[k].y)
  }

  /** The draws go down the pages in reading order, and the cursor is past
      the last of them. */
  ghost predicate Ordered(cur: Cursor)
  {
    && (forall k :: 0 <= k < |cur.draws| - 1 ==> Below(cur.draws, k))
    && (cur.draws != [] ==>
          var last := cur.draws[|cur.draws| - 1];
          last.page < cur.page || (last.page == cur.page && cur.y < last.y))
  }

  lemma OrderedStep(cur: Cursor, line: string, width: real, height: real, shape: Shaper)
    requires Ordered(cur)
    ensures Ordered(LayoutLine(cur, line, width, height, shape))
  {
    var next := LayoutLine(cur, line, width, height, shape);
    if !IsBlank(line) {
      forall k | 0 <= k < |next.draws| - 1
        ensures Below(next.draws, k)
      {
        if k < |cur.draws| - 1 {
          assert Below(cur.draws, k);
        }
      }
    }
  }

  /** Each line is drawn below the one before it, or on a later page: the
      writer never draws over what it drew. */
  lemma {:induction false} RunOrdered(lines: seq<string>, width: real, height: real, shape: Shaper)
    ensures Ordered(Run(Start(height), lines, width, height, shape))
    decreases |lines|
  {
    if lines != [] {
      RunOrdered(lines[..|lines| - 1], width, height, shape);
      OrderedStep(Run(Start(height), lines[..|lines| - 1], width, height, shape), lines[|lines| - 1], width, height, shape);
    }
  }

  /** Nothing is drawn above the top margin, and every page but the first
      was started by a drawn line reaching the bottom margin: there are at
      most as many page breaks as draws. */
  ghost predicate WithinTop(cur: Cursor, height: real)
  {
    && cur.y <= height - Margin
    && (forall k :: 0 <= k < |cur.draws| ==> cur.draws[k].y <= height - Margin)
    && cur.page <= |cur.draws|
  }

  lemma WithinTopStep(cur: Cursor, line: string, width: real, height: real, shape: Shaper)
    requires WithinTop(cur, height)
    ensures WithinTop(LayoutLine(cur, line, width, height, shape), height)
  {
  }

  lemma {:induction false} RunWithinTop(lines: seq<string>, width: real, height: real, shape: Shaper)
    ensures WithinTop(Run(Start(height), lines, width, height, shape), height)
    decreases |lines|
  {
    if lines != [] {
      RunWithinTop(lines[..|lines| - 1], width, height, shape);
      WithinTopStep(Run(Start(height), lines[..|lines| - 1], width, height, shape), lines[|lines| - 1], width, height, shape);
    }
  }

  // --------------------------------------------------------- A4 pagination

  /** The lines an A4 page holds when no line is blank. */
  const LinesPerA4Page: nat := 39

  /** On A4 with no blank lines, the k-th line is drawn on page k / 39, on
      the (k % 39)-th line of that page, and the cursor sits where the next
      line goes. */
  ghost predicate A4Paged(cur: Cursor)
  {
    var n := |cur.draws|;
    && cur.page == n / LinesPerA4Page
    && cur.y == A4Height - Margin - LineHeight * (n % LinesPerA4Page) as real
    && forall k :: 0 <= k < n ==>
         cur.draws[k].page == k / LinesPerA4Page
         && cur.draws[k].y == A4Height - Margin - LineHeight * (k % LinesPerA4Page) as real
  }

  lemma A4PagedStep(cur: Cursor, line: string, shape: Shaper)
    requires A4Paged(cur) && !IsBlank(line)
    ensures A4Paged(LayoutLine(cur, line, A4Width, A4Height, shape))
  {
    var n := |cur.draws|;
    var next := LayoutLine(cur, line, A4Width, A4Height, shape);
    if n % LinesPerA4Page == LinesPerA4Page - 1 {
      assert (n + 1) % LinesPerA4Page == 0 && (n + 1) / LinesPerA4Page == n / LinesPerA4Page + 1;
    } else {
      assert (n + 1) % LinesPerA4Page == n % LinesPerA4Page + 1 && (n + 1) / LinesPerA4Page == n / LinesPerA4Page;
    }
  }

  /** With no blank line, an A4 page holds 39 lines: line k of the text lands
      on page k / 39 at y = height - 40 - 20 * (k % 39), so every line stays
      inside the bottom margin. */
  lemma {:induction false} A4PagesOf39Lines(lines: seq<string>, shape: Shaper)
    requires forall i :: 0 <= i < |lines| ==> !IsBlank(lines[i])
    ensures var cur := Run(Start(A4Height), lines, A4Width, A4Height, shape);
      && A4Paged(cur)
      && forall k :: 0 <= k < |cur.draws| ==> cur.draws[k].y >= Margin
    decreases |lines|
  {
    var cur := Run(Start(A4Height), lines, A4Width, A4Height, shape);
    if lines != [] {
      var init := lines[..|lines| - 1];
      A4PagesOf39Lines(init, shape);
      A4PagedStep(Run(Start(A4Height), init, A4Width, A4Height, shape), lines[|lines| - 1], shape);
    }
    forall k | 0 <= k < |cur.draws|
      ensures cur.draws[k].y >= Margin
    {
      assert k % LinesPerA4Page <= 38;
    }
  }

  // ------------------------------------------------------------ blank lines

  function Blanks(n: nat): seq<string>
  {
    seq(n, _ => "")
  }

  /** A run of blank lines (empty, or whitespace only, such as the "\r" that
      CRLF text leaves after the split) only moves the cursor down, one line
      height each, with no draw and no check against the bottom margin. */
  lemma {:induction false} BlanksOnlyMoveDown(cur: Cursor, lines: seq<string>, width: real, height: real, shape: Shaper)
    requires forall i :: 0 <= i < |lines| ==> IsBlank(lines[i])
    ensures Run(cur, lines, width, height, shape) == Cursor(cur.y - LineHeight * |lines| as real, cur.page, cur.draws)
    decreases |lines|
  {
    if lines != [] {
      BlanksOnlyMoveDown(cur, lines[..|lines| - 1], width, height, shape);
    }
  }

  lemma BlanksAreBlank(n: nat)
    ensures forall i :: 0 <= i < n ==> IsBlank(Blanks(n)[i])
  {
    forall i | 0 <= i < n
      ensures IsBlank(Blanks(n)[i])
    {
      assert Blanks(n)[i] == "";
    }
  }

  lemma TextLineIsNotBlank()
    ensures !IsBlank("x")
  {
    StripProperties("x");
    assert !IsSpace("x"[0]);
  }

  /** Because blank lines skip the page-break check, 39 blank lines at the top
      of an A4 page followed by one line of text put that text at
      y = 21.88976377952770, below the 40-point bottom margin, on the first
      page. */
  lemma BlankLinesPassTheMargin(shape: Shaper)
    ensures var cur := Run(Start(A4Height), Blanks(39) + ["x"], A4Width, A4Height, shape);
      && |cur.draws| == 1
      && cur.draws[0].page == 0
      && cur.draws[0].y == A4Height - Margin - 780.0
      && cur.draws[0].y < Margin
  {
    BlanksAreBlank(39);
    BlanksOnlyMoveDown(Start(A4Height), Blanks(39), A4Width, A4Height, shape);
    assert Run(Start(A4Height), Blanks(39), A4Width, A4Height, shape) == Cursor(A4Height - Margin - 780.0, 0, []);
    RunSnoc(Start(A4Height), Blanks(39), "x", A4Width, A4Height, shape);
    TextLineIsNotBlank();
  }
}
