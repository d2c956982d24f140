/** What the layout of `generate_pdf` guarantees: which lines are drawn, where,
    on which page, and how page breaks and fonts follow each other. */
module Pages {
  import opened Text
  import opened Layout
  import Selection

  /** Where a line ended up: the page it is on (counting from 0), its anchor and its text. */
  datatype Placement = Placement(page: nat, x: int, y: int, line: string, align: Align)

  /** The drawn lines of `events`, each with the page it lands on when the
      first event is on page `page`. */
  function Placements(events: seq<Event>, page: nat): seq<Placement>
    decreases |events|
  {
    if events == [] then []
    else match events[0]
      case Draw(x, y, line, align) => [Placement(page, x, y, line, align)] + Placements(events[1..], page)
      case ShowPage => Placements(events[1..], page + 1)
      case _ => Placements(events[1..], page)
  }

  /** Number of page breaks in `events`. */
  function ShowPages(events: seq<Event>): nat
    decreases |events|
  {
    if events == [] then 0 else (if events[0] == ShowPage then 1 else 0) + ShowPages(events[1..])
  }

  lemma {:induction false} ShowPagesAppend(a: seq<Event>, b: seq<Event>)
    ensures ShowPages(a + b) == ShowPages(a) + ShowPages(b)
    decreases |a|
  {
    if a != [] {
      assert (a + b)[0] == a[0] && (a + b)[1..] == a[1..] + b;
      ShowPagesAppend(a[1..], b);
    } else {
      assert a + b == b;
    }
  }

  lemma {:induction false} PlacementsAppend(a: seq<Event>, b: seq<Event>, page: nat)
    ensures Placements(a + b, page) == Placements(a, page) + Placements(b, page + ShowPages(a))
    decreases |a|
  {
    if a != [] {
      assert (a + b)[0] == a[0] && (a + b)[1..] == a[1..] + b;
      PlacementsAppend(a[1..], b, if a[0] == ShowPage then page + 1 else page);
    } else {
      assert a + b == b;
    }
  }

  /** The calls for one line hold exactly one draw, and a page break only after
      the line that fills its page. */
  lemma LineEventsFacts(i: nat, line: string, rtl: bool, page: nat)
    ensures Placements(LineEvents(i, line, rtl), page)
      == [Placement(page, AnchorX(rtl), LineY(i), line, AlignOf(rtl))]
    ensures ShowPages(LineEvents(i, line, rtl)) == if (i + 1) % LinesPerPage == 0 then 1 else 0
  {
    var e := LineEvents(i, line, rtl);
    if (i + 1) % LinesPerPage == 0 {
      var font := SetFont(FontName(rtl), PageFontSize);
      assert e == [Draw(AnchorX(rtl), LineY(i), line, AlignOf(rtl)), ShowPage, font];
      assert e[1..] == [ShowPage, font] && e[1..][1..] == [font] && [font][1..] == [];
      assert Placements([font], page + 1) == [];
      assert ShowPages([font]) == 0;
    } else {
      assert e[1..] == [];
    }
  }

  lemma PageCountStep(n: nat)
    requires n >= 1
    ensures n / LinesPerPage == (n - 1) / LinesPerPage + (if n % LinesPerPage == 0 then 1 else 0)
  {
  }

  /** `n` lines make `n / 29` page breaks. */
  lemma {:induction false} StepsPageBreaks(lines: seq<string>, rtl: bool)
    ensures ShowPages(Steps(lines, rtl)) == |lines| / LinesPerPage
    decreases |lines|
  {
    if lines != [] {
      var n := |lines|;
      var init := lines[..n - 1];
      var last := LineEvents(n - 1, lines[n - 1], rtl);
      StepsPageBreaks(init, rtl);
      ShowPagesAppend(Steps(init, rtl), last);
      LineEventsFacts(n - 1, lines[n - 1], rtl, 0);
      PageCountStep(n);
    }
  }

  /** Where line `i` belongs: page `i / 29`, height `750 - 25 * (i % 29)`, the
      direction's anchor, the line's own text. */
  function Expected(i: nat, line: string, rtl: bool): Placement
  {
    Placement(i / LinesPerPage, AnchorX(rtl), LineY(i), line, AlignOf(rtl))
  }

  /** Every line is drawn where it belongs, in order and with its text unchanged. */
  lemma {:induction false} StepsPlacements(lines: seq<string>, rtl: bool)
    ensures |Placements(Steps(lines, rtl), 0)| == |lines|
    ensures forall i :: 0 <= i < |lines| ==> Placements(Steps(lines, rtl), 0)[i] == Expected(i, lines[i], rtl)
    decreases |lines|
  {
    if lines != [] {
      var n := |lines|;
      var init := lines[..n - 1];
      var s := Steps(init, rtl);
      var last := LineEvents(n - 1, lines[n - 1], rtl);
      assert Steps(lines, rtl) == s + last;
      StepsPlacements(init, rtl);
      StepsPageBreaks(init, rtl);
      var page := (n - 1) / LinesPerPage;
      assert ShowPages(s) == page;
      PlacementsAppend(s, last, 0);
      LineEventsFacts(n - 1, lines[n - 1], rtl, page);
      var head := Placements(s, 0);
      var p := head + [Expected(n - 1, lines[n - 1], rtl)];
      assert Placements(Steps(lines, rtl), 0) == p;
      forall i | 0 <= i < n
        ensures p[i] == Expected(i, lines[i], rtl)
      {
        if i < n - 1 {
          assert p[i] == head[i] && init[i] == lines[i];
        }
      }
    }
  }

  /** Every page break is immediately followed by the font reset at size 12. */
  lemma {:induction false} StepsBreakThenFont(lines: seq<string>, rtl: bool)
    ensures forall k :: 0 <= k < |Steps(lines, rtl)| && Steps(lines, rtl)[k] == ShowPage ==>
      k + 1 < |Steps(lines, rtl)| && Steps(lines, rtl)[k + 1] == SetFont(FontName(rtl), PageFontSize)
    decreases |lines|
  {
    if lines != [] {
      var n := |lines|;
      var init := lines[..n - 1];
      StepsBreakThenFont(init, rtl);
      var last := LineEvents(n - 1, lines[n - 1], rtl);
      var s := Steps(init, rtl);
      assert Steps(lines, rtl) == s + last;
      forall k | 0 <= k < |s + last| && (s + last)[k] == ShowPage
        ensures k + 1 < |s + last| && (s + last)[k + 1] == SetFont(FontName(rtl), PageFontSize)
      {
        if k < |s| {
          assert s[k] == ShowPage;
        } else {
          assert last[k - |s|] == ShowPage;
        }
      }
    }
  }

  /** An opening font selection and a closing save draw nothing and break no page. */
  lemma {:induction false} FramedByFontAndSave(font: Event, steps: seq<Event>)
    requires font.SetFont?
    ensures Placements([font] + steps + [Save], 0) == Placements(steps, 0)
    ensures ShowPages([font] + steps + [Save]) == ShowPages(steps)
  {
    var tail := steps + [Save];
    assert [font] + steps + [Save] == [font] + tail;
    assert ([font] + tail)[0] == font && ([font] + tail)[1..] == tail;
    PlacementsAppend(steps, [Save], 0);
    ShowPagesAppend(steps, [Save]);
    assert [Save][1..] == [];
    assert Placements([Save], ShowPages(steps)) == [] && ShowPages([Save]) == 0;
    assert Placements(steps, 0) + [] == Placements(steps, 0);
  }

  /** The document's placements and page breaks are those of its line steps. */
  lemma {:induction false} PdfLogIsSteps(subject: string, text: string, shape: string -> string)
    ensures var rtl := Selection.IsRightToLeft(subject);
      var steps := Steps(Split(Shaped(subject, text, shape)), rtl);
      Placements(PdfLog(subject, text, shape), 0) == Placements(steps, 0)
      && ShowPages(PdfLog(subject, text, shape)) == ShowPages(steps)
  {
    var rtl := Selection.IsRightToLeft(subject);
    FramedByFontAndSave(SetFont(FontName(rtl), FirstFontSize(rtl)),
                        Steps(Split(Shaped(subject, text, shape)), rtl));
  }

  /** One line is drawn per newline-separated segment of the (shaped) text, in
      order and unchanged, so the drawn lines joined by newlines give the text back. */
  lemma DrawnLinesAreTextLines(subject: string, text: string, shape: string -> string)
    ensures var s := Shaped(subject, text, shape);
      var p := Placements(PdfLog(subject, text, shape), 0);
      |p| == CountChar(s, '\n') + 1
      && (forall i :: 0 <= i < |p| ==> p[i].line == Split(s)[i] && '\n' !in p[i].line)
      && Join(Split(s)) == s
  {
    var s := Shaped(subject, text, shape);
    PdfLogIsSteps(subject, text, shape);
    StepsPlacements(Split(s), Selection.IsRightToLeft(subject));
    SplitSegmentsNewlineFree(s);
    JoinSplit(s);
  }

  /** Right-to-left subjects have every line right-anchored at x = 550; all other
      subjects have every line left-anchored at x = 50. */
  lemma AnchoredBySubject(subject: string, text: string, shape: string -> string)
    ensures var p := Placements(PdfLog(subject, text, shape), 0);
      |p| >= 1
      && forall i :: 0 <= i < |p| ==>
        (p[i].align == Right <==> Selection.IsRightToLeft(subject))
        && p[i].x == (if Selection.IsRightToLeft(subject) then 550 else 50)
  {
    var s := Shaped(subject, text, shape);
    PdfLogIsSteps(subject, text, shape);
    StepsPlacements(Split(s), Selection.IsRightToLeft(subject));
  }

  /** The cursor grid: 29 lines per page, 25 points apart, from 750 down to 50. */
  lemma Grid(i: nat)
    ensures LinesPerPage == 29
    ensures LineY(i) == 750 - 25 * (i % 29)
    ensures 50 <= LineY(i) <= 750 && (750 - LineY(i)) % 25 == 0
  {
  }

  /** Line `i` lands on page `i / 29` at height `750 - 25 * (i % 29)`, always
      between the bottom margin 50 and the top 750, on the 25-point grid. */
  lemma LinePositions(subject: string, text: string, shape: string -> string)
    ensures var p := Placements(PdfLog(subject, text, shape), 0);
      forall i :: 0 <= i < |p| ==>
        p[i].page == i / 29 && p[i].y == 750 - 25 * (i % 29)
        && 50 <= p[i].y <= 750 && (750 - p[i].y) % 25 == 0
  {
    var lines := Split(Shaped(subject, text, shape));
    var rtl := Selection.IsRightToLeft(subject);
    PdfLogIsSteps(subject, text, shape);
    StepsPlacements(lines, rtl);
    var p := Placements(PdfLog(subject, text, shape), 0);
    forall i | 0 <= i < |p|
      ensures p[i].page == i / 29 && p[i].y == 750 - 25 * (i % 29)
        && 50 <= p[i].y <= 750 && (750 - p[i].y) % 25 == 0
    {
      Grid(i);
    }
  }

  /** A page holds at most 29 lines; 29 lines fit on the first page and a 30th
      line starts the second. */
  lemma PageCapacity(subject: string, text: string, shape: string -> string)
    ensures var p := Placements(PdfLog(subject, text, shape), 0);
      (forall i, j :: 0 <= i < j < |p| && p[i].page == p[j].page ==> j - i < 29)
      && (|p| <= 29 ==> forall i :: 0 <= i < |p| ==> p[i].page == 0)
      && (|p| >= 30 ==> p[28].page == 0 && p[29].page == 1)
  {
    LinePositions(subject, text, shape);
  }

  /** `n` drawn lines make exactly `n / 29` page breaks, and each break is
      immediately followed by re-selecting the subject's font at size 12. */
  lemma PageBreaks(subject: string, text: string, shape: string -> string)
    ensures var log := PdfLog(subject, text, shape);
      var font := if Selection.IsRightToLeft(subject) then "UrduFont" else "Helvetica";
      ShowPages(log) == |Placements(log, 0)| / 29
      && forall k :: 0 <= k < |log| && log[k] == ShowPage ==>
        k + 1 < |log| && log[k + 1] == SetFont(font, 12)
  {
    var rtl := Selection.IsRightToLeft(subject);
    var lines := Split(Shaped(subject, text, shape));
    var steps := Steps(lines, rtl);
    var log := PdfLog(subject, text, shape);
    PdfLogIsSteps(subject, text, shape);
    StepsPlacements(lines, rtl);
    StepsPageBreaks(lines, rtl);
    StepsBreakThenFont(lines, rtl);
    assert log == [SetFont(FontName(rtl), FirstFontSize(rtl))] + steps + [Save];
    forall k | 0 <= k < |log| && log[k] == ShowPage
      ensures k + 1 < |log| && log[k + 1] == SetFont(FontName(rtl), 12)
    {
      assert 1 <= k <= |steps| && steps[k - 1] == ShowPage;
    }
  }

  /** Empty text still draws one empty line at the top of the first page. */
  lemma EmptyTextDrawsOneEmptyLine(subject: string, shape: string -> string)
    ensures !Selection.IsRightToLeft(subject) ==>
      PdfLog(subject, "", shape) == [SetFont("Helvetica", 12), Draw(50, 750, "", Left), Save]
    ensures Selection.IsRightToLeft(subject) && shape("") == "" ==>
      PdfLog(subject, "", shape) == [SetFont("UrduFont", 14), Draw(550, 750, "", Right), Save]
  {
    assert Split("") == [""];
    assert [""][..0] == [];
  }
}
