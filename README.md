# Academic paper generator: request building and PDF layout

This project models the core of a Streamlit app. The user picks a subject, a class (grade) and an exam board. The app asks an external LLM crew to draft an exam paper. It then lays the returned text out as a PDF, line by line, and offers it for download. Everything the app itself decides is modelled here:

- **Board patterns** (`Board`). A fixed table gives the Federal and Punjab boards their question counts and syllabus label. Every other board gets the default pattern.
- **Request text** (`Request`). The agents' roles and goals and the tasks' descriptions are f-strings. Each is modelled as a `Concat` of its literal and field pieces. Before the crew runs, `generate_paper` rewrites the shared question task's description when the subject is Islamiat, so that it demands Urdu. `Task` is a class because that description is changed in place.
- **Choices and derived values** (`Selection`). This covers the drop-down lists, the question-type phrase, and the set of right-to-left subjects (Urdu_A, Urdu_B, Islamiat).
- **PDF layout** (`Layout`, `Pages`). The canvas is modelled by the calls made on it: `SetFont`, `Draw` (left- or right-anchored), `ShowPage` and `Save`.
  - `GeneratePdf` is the imperative loop. It keeps a vertical cursor `y` that starts at 750 and moves down 25 after each line. Below 50 it breaks the page, re-selects the font at size 12 and resets `y` to 750.
  - The loop is proved equal to `PdfLog`, a closed form in which line `i` depends only on `i`.
  - `Pages` proves what the layout guarantees:
    - one draw per newline-separated segment, in order and unchanged;
    - x = 550 right-anchored exactly for right-to-left subjects, x = 50 left-anchored otherwise;
    - line `i` on page `i / 29` at y = 750 − 25·(i mod 29);
    - `n / 29` page breaks, each followed by the font reset;
    - the opening font is UrduFont 14 or Helvetica 12.
- **Download name** (`Download`). The name is `{subject}_Paper_Class_{grade}_{board}.pdf`. It is proved to determine subject, grade and board whenever grade and board contain no `_`, which holds for every selectable grade and board. A parser is the partner definition, and the round trip is proved in both directions.
- **Text** (`Text`). This holds Python's `str.split("\n")` and `"\n".join` with their round trips, plus substring containment.

Behaviour of the code that a reader might not expect, modelled as written:

- **Empty text.** `"".split("\n")` is `[""]`, so empty generated text is drawn as one empty line, not as a page with no drawn lines. For a left-to-right subject it is drawn left-anchored at (50, 750). For a right-to-left subject the shaped text is split instead; when the shaping maps `""` to `""`, the one empty line is drawn right-anchored at (550, 750).
- **Question type.** The question-type phrase is computed (line 56 of `src/paper_generator/main.py`) but never used: it reaches neither an agent nor a task, so it has no effect on what the crew is asked.
- **Grade validation.** The grade is never validated; the model takes any string.
- **The Islamiat override.** It mutates the shared question task rather than building a fresh request. `GeneratePaper` has `modifies` on that task.
- **Page breaks.** With exactly 29 lines, all 29 fit on the first page. The loop still issues a page break and a font reset after the 29th line: `n / 29` breaks for `n` lines.
- **Right-to-left choice.** It depends on the subject name, not on a separate direction flag. The first right-to-left page uses size 14, and later pages use size 12.

## Model

| member | source | states |
|---|---|---|
| `Board.ResolvePattern` | src/paper_generator/main.py:49-54 | Federal gives 20/30/50 with "Federal Board Syllabus"; Punjab gives 25/25/50 with "Punjab Board Syllabus"; every other board gives 20/30/50 with "Default Syllabus"; the label is always one of the three |
| `Selection.QuestionType` | src/paper_generator/main.py:56 | the phrase is "curriculum-based questions" exactly for English_A and Urdu_A, and "general academic questions" exactly for every other subject |
| `Selection.IsRightToLeft` | src/paper_generator/main.py:124 | right-to-left handling applies exactly to Urdu_A, Urdu_B and Islamiat |
| `Request.DirectivesEmbedSelection` | src/paper_generator/main.py:59-89 | the designer's role names the subject, grade and board; its goal and the structure task name the subject, grade, board and syllabus label; the generator's goal names the syllabus label |
| `Request.Task.constructor` | src/paper_generator/main.py:91-96 | a task keeps the name, agent, description and expected output it was given |
| `Request.DefineTasks` | src/paper_generator/main.py:84-103 | creates three new tasks with their names, agents, descriptions and expected outputs: the structure and question descriptions are built from the selection and the board's syllabus label, the review description is a fixed sentence, and the expected outputs name the subject (structure, question) or are fixed (review) |
| `Request.GeneratePaper` | src/paper_generator/main.py:107-117 | for Islamiat the question task's description becomes the Urdu directive with the grade; for any other subject it is unchanged; the crew's text is returned as is |
| `Request.UrduRequiredExactlyForIslamiat` | src/paper_generator/main.py:110-111 | the question directive contains the Urdu requirement if and only if the subject is Islamiat; it then names the grade, and otherwise names the subject and the syllabus label |
| `Request.MathematicsPunjabScenario` | src/paper_generator/main.py:51-94 | Mathematics, class 9, Punjab resolves to 25/25/50 "Punjab Board Syllabus"; the directives name Mathematics and that label and ask for no Urdu |
| `Text.Split` | src/paper_generator/main.py:132 | splitting on newlines yields one more segment than the text has newlines |
| `Text.SplitSegmentsNewlineFree` | src/paper_generator/main.py:132 | no segment contains a newline |
| `Text.JoinSplit` | src/paper_generator/main.py:132 | joining the segments with newlines gives back the text |
| `Text.SplitJoin` | src/paper_generator/main.py:132 | splitting newline-free parts joined with newlines gives back the parts |
| `Layout.Canvas.constructor` | src/paper_generator/main.py:121 | a new canvas has had no calls made on it |
| `Layout.Canvas.SetFont` | src/paper_generator/main.py:125 | appends one font selection with its name and size |
| `Layout.Canvas.DrawString` | src/paper_generator/main.py:136 | appends one left-anchored draw at the given point |
| `Layout.Canvas.DrawRightString` | src/paper_generator/main.py:134 | appends one right-anchored draw at the given point |
| `Layout.Canvas.ShowPage` | src/paper_generator/main.py:140 | appends one page break |
| `Layout.Canvas.Save` | src/paper_generator/main.py:144 | appends the final save |
| `Layout.PdfLog` | src/paper_generator/main.py:124-128 | the call log opens with UrduFont 14 for right-to-left subjects and Helvetica 12 otherwise, and ends with the save |
| `Layout.CursorStep` | src/paper_generator/main.py:138-142 | moving the cursor down 25 falls below 50 exactly after the 29th line of a page, and the cursor then restarts at 750 |
| `Layout.GeneratePdf` | src/paper_generator/main.py:119-146 | the cursor loop makes exactly the calls of `PdfLog` on a new canvas |
| `Pages.StepsPlacements` | src/paper_generator/main.py:131-142 | line `i` is drawn on page `i / 29` at height 750 − 25·(i mod 29), at the direction's anchor, with its text unchanged, and there is one draw per line |
| `Pages.StepsPageBreaks` | src/paper_generator/main.py:138-142 | `n` lines make exactly `n / 29` page breaks |
| `Pages.StepsBreakThenFont` | src/paper_generator/main.py:139-142 | every page break is immediately followed by the font reset at size 12 |
| `Pages.Grid` | src/paper_generator/main.py:131-142 | 29 lines fit a page; every line height lies in [50, 750] on the 25-point grid |
| `Pages.DrawnLinesAreTextLines` | src/paper_generator/main.py:126-136 | the number of draws is the number of newlines of the shaped text plus one; draw `i` carries segment `i`, which has no newline; the segments join back to the text |
| `Pages.AnchoredBySubject` | src/paper_generator/main.py:124-136 | at least one line is drawn; each is right-anchored if and only if the subject is right to left, at x = 550, and otherwise left-anchored at x = 50 |
| `Pages.LinePositions` | src/paper_generator/main.py:131-142 | drawn line `i` is on page `i / 29` at y = 750 − 25·(i mod 29), with 50 ≤ y ≤ 750 |
| `Pages.PageCapacity` | src/paper_generator/main.py:131-142 | two lines on the same page are fewer than 29 apart; up to 29 lines all land on the first page; a 30th line starts the second page |
| `Pages.PageBreaks` | src/paper_generator/main.py:139-142 | `n` drawn lines give exactly `n / 29` page breaks, each immediately followed by the subject's font at size 12 |
| `Pages.EmptyTextDrawsOneEmptyLine` | src/paper_generator/main.py:125-136 | empty text gives: the font, one empty line drawn at the top anchor, and the save |
| `Download.FileName` | src/paper_generator/main.py:160 | the download name `{subject}_Paper_Class_{grade}_{board}.pdf` parses back to its subject, grade and board whenever grade and board contain no `_` |
| `Download.ParseFileNameInverts` | src/paper_generator/main.py:160 | the concatenated name gives back its subject, grade and board when grade and board contain no `_` |
| `Download.ParsedFileNameRebuilds` | src/paper_generator/main.py:160 | every name the parser accepts is the download name of what it returns |
| `Download.SelectableFileNamesParse` | src/paper_generator/main.py:46-47 | names built from any selectable grade and board parse back to the choices |

## Left out

- The LLM crew is left out: the `Agent`, `Task` and `Crew` objects of the external library and `kickoff`. Its output is the `crewOutput` parameter of `GeneratePaper`. The `raw_output`-or-`str(result)` fallback is not modelled, because the result object is foreign.
- `Request.GeneratePaper` does not model the status messages it writes to the page.
- Arabic reshaping and bidirectional reordering are left out as external text shaping. They are the opaque `shape` parameter, applied to the whole text before splitting.
- Font registration from a fixed file path is left out, as external resource loading. So are the real PDF bytes, the page size and the in-memory buffer (lines 19-27, 120-121, 144-146); only the canvas calls are modelled.
- The Streamlit widgets, text display and download button are left out as UI and I/O (lines 43-47, 150-162). Only the drop-down lists and the file name are kept.
- `get_wikipedia_summary` (network) and `solve_math_expression` (floating-point symbolic maths) are left out. They are not called by the app's paper-generation flow.
- Request.UrduRequiredExactlyForIslamiat: assumes the subject contains no `*`. Every selectable subject meets this. A free-form subject could itself spell out the Urdu marker.
