/** The PDF layout of a generated paper (`generate_pdf`).

    The PDF canvas is modelled by the sequence of drawing calls made on it:
    font selections, strings drawn at a point, page breaks and the final save.
    Right-to-left text shaping is an opaque function handed in by the caller. */
module Layout {
  import opened Text
  import Selection

  datatype Align = Left | Right

  /** One call made on the canvas. */
  datatype Event =
    | SetFont(name: string, size: nat)
    | Draw(x: int, y: int, line: string, align: Align)
    | ShowPage
    | Save

  /** Vertical cursor bounds and line step, in points. */
  const Top: int := 750
  const Bottom: int := 50
  const LineHeight: int := 25
  /** Lines drawn before the cursor drops below the bottom margin. */
  const LinesPerPage: int := (Top - Bottom) / LineHeight + 1

  /** Horizontal anchors: left edge for left-to-right text, right edge otherwise. */
  const LeftMargin: int := 50
  const RightMargin: int := 550

  /** Font size used after every page break, whatever the direction. */
  const PageFontSize: nat := 12

  function FontName(rtl: bool): string
  {
    if rtl then "UrduFont" else "Helvetica"
  }

  function FirstFontSize(rtl: bool): nat
  {
    if rtl then 14 else 12
  }

  function AnchorX(rtl: bool): int
  {
    if rtl then RightMargin else LeftMargin
  }

  function AlignOf(rtl: bool): Align
  {
    if rtl then Right else Left
  }

  /** Height at which the `i`-th line (counting from 0) is drawn. */
  function LineY(i: nat): int
  {
    Top - LineHeight * (i % LinesPerPage)
  }

  /** The canvas calls for line `i`: its draw, then a page break and font reset
      when that line fills the page. */
  function LineEvents(i: nat, line: string, rtl: bool): seq<Event>
  {
    [Draw(AnchorX(rtl), LineY(i), line, AlignOf(rtl))]
    + (if (i + 1) % LinesPerPage == 0 then [ShowPage, SetFont(FontName(rtl), PageFontSize)] else [])
  }

  /** The canvas calls for all of `lines`, each placed by its index alone. */
  function Steps(lines: seq<string>, rtl: bool): seq<Event>
    decreases |lines|
  {
    if lines == [] then []
    else Steps(lines[..|lines| - 1], rtl) + LineEvents(|lines| - 1, lines[|lines| - 1], rtl)
  }

  /** The text that is split into lines: shaped first for right-to-left subjects. */
  function Shaped(subject: string, text: string, shape: string -> string): string
  {
    if Selection.IsRightToLeft(subject) then shape(text) else text
  }

  /** Every call `generate_pdf` makes on its canvas, in order. */
  function PdfLog(subject: string, text: string, shape: string -> string): (log: seq<Event>)
    ensures |log| >= 3 && log[|log| - 1] == Save
    ensures Selection.IsRightToLeft(subject) ==> log[0] == SetFont("UrduFont", 14)
    ensures !Selection.IsRightToLeft(subject) ==> log[0] == SetFont("Helvetica", 12)
  {
    var rtl := Selection.IsRightToLeft(subject);
    var lines := Split(Shaped(subject, text, shape));
    assert |Steps(lines, rtl)| >= 1 by {
      assert lines != [];
    }
    [SetFont(FontName(rtl), FirstFontSize(rtl))] + Steps(lines, rtl) + [Save]
  }

  /** One step of the cursor: moving down one line falls below the bottom margin
      exactly when the line just drawn was the last that fits on the page, and the
      cursor then restarts at the top. */
  lemma CursorStep(i: nat)
    ensures (LineY(i) - LineHeight < Bottom) == ((i + 1) % LinesPerPage == 0)
    ensures LineY(i + 1) == if (i + 1) % LinesPerPage == 0 then Top else LineY(i) - LineHeight
  {
  }

  lemma StepsExtend(lines: seq<string>, i: nat, rtl: bool)
    requires i < |lines|
    ensures Steps(lines[..i + 1], rtl) == Steps(lines[..i], rtl) + LineEvents(i, lines[i], rtl)
  {
    assert lines[..i + 1][..i] == lines[..i];
  }

  /** The PDF canvas, reduced to the calls made on it. */
  class Canvas {
    var log: seq<Event>

    constructor ()
      ensures log == []
    {
      log := [];
    }

    method SetFont(name: string, size: nat)
      modifies this
      ensures log == old(log) + [Event.SetFont(name, size)]
    {
      log := log + [Event.SetFont(name, size)];
    }

    /** Draws `line` with its left end at `(x, y)`. */
    method DrawString(x: int, y: int, line: string)
      modifies this
      ensures log == old(log) + [Draw(x, y, line, Left)]
    {
      log := log + [Draw(x, y, line, Left)];
    }

    /** Draws `line` with its right end at `(x, y)`. */
    method DrawRightString(x: int, y: int, line: string)
      modifies this
      ensures log == old(log) + [Draw(x, y, line, Right)]
    {
      log := log + [Draw(x, y, line, Right)];
    }

    method ShowPage()
      modifies this
      ensures log == old(log) + [Event.ShowPage]
    {
      log := log + [Event.ShowPage];
    }

    method Save()
      modifies this
      ensures log == old(log) + [Event.Save]
    {
      log := log + [Event.Save];
    }
  }

  /** `generate_pdf`: lays out `text` line by line with a vertical cursor `y`,
      breaking the page whenever the cursor falls below the bottom margin.
      `grade` and `board` are accepted and unused, as in the script. */
  method GeneratePdf(subject: string, grade: string, board: string, text: string,
                     shape: string -> string) returns (pdf: Canvas)
    ensures fresh(pdf)
    ensures pdf.log == PdfLog(subject, text, shape)
  {
    var rtl := Selection.IsRightToLeft(subject);
    var t := text;
    pdf := new Canvas();
    if rtl {
      pdf.SetFont("UrduFont", 14);
      t := shape(text);
    } else {
      pdf.SetFont("Helvetica", 12);
    }

    var y := Top;
    var lines := Split(t);
    ghost var first := [Event.SetFont(FontName(rtl), FirstFontSize(rtl))];
    for i := 0 to |lines|
      invariant pdf.log == first + Steps(lines[..i], rtl)
      invariant y == LineY(i)
    {
      CursorStep(i);
      StepsExtend(lines, i, rtl);
      var line := lines[i];
      if rtl {
        pdf.DrawRightString(RightMargin, y, line);
      } else {
        pdf.DrawString(LeftMargin, y, line);
      }
      y := y - LineHeight;
      if y < Bottom {
        pdf.ShowPage();
        pdf.SetFont(if rtl then "UrduFont" else "Helvetica", 12);
        y := Top;
      }
    }
    assert lines[..|lines|] == lines;
    pdf.Save();
  }
}
