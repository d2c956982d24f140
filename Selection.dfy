/** The choices the form offers and the values derived from the chosen subject. */
module Selection {

  /** The subject drop-down, in display order. */
  const Subjects: seq<string> := ["English_A", "English_B", "Urdu_A", "Urdu_B", "Islamiat",
    "Mathematics", "Science", "Social Studies", "Biology", "Chemistry", "Physics"]

  /** The class (grade) drop-down; grades are kept as the strings the form returns. */
  const Grades: seq<string> := ["5", "6", "7", "8", "9", "10", "11", "12"]

  /** The board drop-down. */
  const Boards: seq<string> := ["Federal", "Punjab", "Sindh", "KPK", "Balochistan"]

  /** Subjects written in Urdu script, laid out right to left. */
  const RightToLeftSubjects: seq<string> := ["Urdu_A", "Urdu_B", "Islamiat"]

  /** Subjects whose questions follow the curriculum. */
  const CurriculumSubjects: seq<string> := ["English_A", "Urdu_A"]

  const CurriculumPhrase := "curriculum-based questions"
  const GeneralPhrase := "general academic questions"

  /** The subjects whose PDF is shaped, right-anchored and set in the Urdu font. */
  predicate IsRightToLeft(subject: string)
    ensures IsRightToLeft(subject) <==> subject == "Urdu_A" || subject == "Urdu_B" || subject == "Islamiat"
  {
    subject in RightToLeftSubjects
  }

  /** The question-type phrase picked from the subject. */
  function QuestionType(subject: string): (phrase: string)
    ensures phrase == CurriculumPhrase <==> subject == "English_A" || subject == "Urdu_A"
    ensures phrase == GeneralPhrase <==> subject != "English_A" && subject != "Urdu_A"
  {
    if subject in CurriculumSubjects then CurriculumPhrase else GeneralPhrase
  }
}
