/** Exam-board question patterns (the `BOARD_PATTERNS` table and its lookup). */
module Board {

  /** The question counts and syllabus label an exam board prescribes. */
  datatype Pattern = Pattern(mcqs: nat, shortQs: nat, longQs: nat, syllabus: string)

  /** The boards that have a pattern of their own. */
  const BoardPatterns: map<string, Pattern> := map[
    "Federal" := Pattern(20, 30, 50, "Federal Board Syllabus"),
    "Punjab" := Pattern(25, 25, 50, "Punjab Board Syllabus")
  ]

  /** The pattern used for every board missing from the table. */
  const DefaultPattern: Pattern := Pattern(20, 30, 50, "Default Syllabus")

  /** `BOARD_PATTERNS.get(board, default)`: total, unknown boards are a normal case. */
  function ResolvePattern(board: string): (p: Pattern)
    ensures board == "Federal" ==> p == Pattern(20, 30, 50, "Federal Board Syllabus")
    ensures board == "Punjab" ==> p == Pattern(25, 25, 50, "Punjab Board Syllabus")
    ensures board != "Federal" && board != "Punjab" ==> p == Pattern(20, 30, 50, "Default Syllabus")
    ensures p.syllabus in {"Federal Board Syllabus", "Punjab Board Syllabus", "Default Syllabus"}
  {
    if board in BoardPatterns then BoardPatterns[board] else DefaultPattern
  }
}
