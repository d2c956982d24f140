/** The name under which the PDF is offered for download. */
module Download {
  import Selection

  datatype Option<T> = None | Some(value: T)

  const Extension := ".pdf"
  const ClassTag := "_Paper_Class"

  /** `f"{subject}_Paper_Class_{grade}_{board}.pdf"`: a name from which the
      subject, grade and board can be read back when grade and board hold no `_`. */
  function FileName(subject: string, grade: string, board: string): (r: string)
    ensures '_' !in grade && '_' !in board ==> ParseFileName(r) == Some((subject, grade, board))
  {
    var r := subject + ClassTag + "_" + grade + "_" + board + Extension;
    assert '_' !in grade && '_' !in board ==> ParseFileName(r) == Some((subject, grade, board)) by {
      if '_' !in grade && '_' !in board {
        ParseFileNameInverts(subject, grade, board);
      }
    }
    r
  }

  /** The last position of `c` in `s`, if any. */
  function LastIndexOf(s: string, c: char): (r: Option<nat>)
    ensures r.None? ==> c !in s
    ensures r.Some? ==> r.value < |s| && s[r.value] == c && c !in s[r.value + 1..]
    decreases |s|
  {
    if s == [] then None
    else if s[|s| - 1] == c then Some(|s| - 1)
    else
      var r := LastIndexOf(s[..|s| - 1], c);
      assert s == s[..|s| - 1] + [s[|s| - 1]];
      r
  }

  /** Reads subject, grade and board back out of a download name; the grade and
      the board are the last two `_`-separated fields before the extension. */
  function ParseFileName(name: string): Option<(string, string, string)>
  {
    if |name| < |Extension| || name[|name| - |Extension|..] != Extension then None
    else
      var stem := name[..|name| - |Extension|];
      match LastIndexOf(stem, '_')
      case None => None
      case Some(j) =>
        var rest := stem[..j];
        match LastIndexOf(rest, '_')
        case None => None
        case Some(k) =>
          var head := rest[..k];
          if |head| < |ClassTag| || head[|head| - |ClassTag|..] != ClassTag then None
          else Some((head[..|head| - |ClassTag|], rest[k + 1..], stem[j + 1..]))
  }

  /** The last `c` of `a + [c] + b` is the one after `a` when `b` holds none. */
  lemma LastIndexOfBefore(a: string, c: char, b: string)
    requires c !in b
    ensures LastIndexOf(a + [c] + b, c) == Some(|a|)
  {
    var s := a + [c] + b;
    var r := LastIndexOf(s, c);
    assert s[|a|] == c;
  }

  /** In `head_grade_board`, the last two `_` are the ones around the grade. */
  lemma StemFields(head: string, grade: string, board: string)
    requires '_' !in grade && '_' !in board
    ensures var rest := head + "_" + grade;
      var stem := rest + "_" + board;
      LastIndexOf(stem, '_') == Some(|rest|) && stem[..|rest|] == rest && stem[|rest| + 1..] == board
      && LastIndexOf(rest, '_') == Some(|head|) && rest[..|head|] == head && rest[|head| + 1..] == grade
  {
    var rest := head + "_" + grade;
    var stem := rest + "_" + board;
    LastIndexOfBefore(rest, '_', board);
    assert stem[..|rest|] == rest && stem[|rest| + 1..] == board;
    LastIndexOfBefore(head, '_', grade);
    assert rest[..|head|] == head && rest[|head| + 1..] == grade;
  }

  /** The download name determines its subject, grade and board whenever the
      grade and the board contain no `_`. */
  lemma {:induction false} ParseFileNameInverts(subject: string, grade: string, board: string)
    requires '_' !in grade && '_' !in board
    ensures ParseFileName(subject + ClassTag + "_" + grade + "_" + board + Extension)
      == Some((subject, grade, board))
  {
    var head := subject + ClassTag;
    var stem := head + "_" + grade + "_" + board;
    var name := subject + ClassTag + "_" + grade + "_" + board + Extension;
    assert name == stem + Extension;
    assert name[..|name| - |Extension|] == stem && name[|name| - |Extension|..] == Extension;
    StemFields(head, grade, board);
    assert head[|head| - |ClassTag|..] == ClassTag && head[..|head| - |ClassTag|] == subject;
  }

  /** Every name the parser accepts is the download name of what it returns. */
  lemma ParsedFileNameRebuilds(name: string)
    requires ParseFileName(name).Some?
    ensures var parts := ParseFileName(name).value;
      FileName(parts.0, parts.1, parts.2) == name
  {
    var stem := name[..|name| - |Extension|];
    var j := LastIndexOf(stem, '_').value;
    var rest := stem[..j];
    var k := LastIndexOf(rest, '_').value;
    var head := rest[..k];
    assert head == head[..|head| - |ClassTag|] + ClassTag;
    assert rest == head + "_" + rest[k + 1..];
    assert stem == rest + "_" + stem[j + 1..];
    assert name == stem + Extension;
  }

  /** Names built from the form's choices always parse back to those choices. */
  lemma SelectableFileNamesParse(subject: string, grade: string, board: string)
    requires grade in Selection.Grades && board in Selection.Boards
    ensures ParseFileName(FileName(subject, grade, board)) == Some((subject, grade, board))
  {
  }
}
