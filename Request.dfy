/** The generation request: the three agents and three tasks whose texts are
    filled in from the chosen subject, grade and board, and the one override
    `generate_paper` applies before the crew runs. */
module Request {
  import opened Text
  import opened Board

  /** An agent's configuration; the agent itself runs in an external library. */
  datatype Agent = Agent(name: string, role: string, goal: string, backstory: string, model: string)

  const Model := "gemini/gemini-2.0-flash"

  /** The marker of the Urdu-language requirement in the Islamiat directive. */
  const UrduMarker := "**in Urdu**"

  function DesignerRole(subject: string, grade: string, board: string): string
  {
    Concat(["Structuring ", subject, " academic papers for Grade ", grade, " - ", board, " Board"])
  }

  function DesignerGoal(subject: string, grade: string, board: string, syllabus: string): string
  {
    Concat(["Ensure the ", subject, " paper follows the ", board, " board guidelines for Class ",
            grade, ", adhering to the ", syllabus, "."])
  }

  function GeneratorRole(subject: string): string
  {
    Concat(["Creating diverse questions for ", subject, " academic paper"])
  }

  function GeneratorGoal(subject: string, grade: string, syllabus: string): string
  {
    Concat(["Generate various types of ", subject, " questions for Class ", grade,
            ", ensuring alignment with the ", syllabus, "."])
  }

  function CheckerRole(subject: string): string
  {
    Concat(["Ensuring high-quality and relevant ", subject, " questions"])
  }

  function StructureDescription(subject: string, grade: string, board: string, syllabus: string): string
  {
    Concat(["Create an academic paper structure for ", subject, ", Class ", grade, ", ", board,
            " Board, following the ", syllabus, "."])
  }

  /** The question task's description as first defined, for every subject.
      (The long literal opening is kept in short pieces.) */
  function QuestionDescription(subject: string, syllabus: string): string
  {
    Concat(["Generate long-questions, ", "short-questions, MCQs, ", "fill-in-the-blanks, ",
            "and true/false questions for ", subject, ", adhering to the ", syllabus, "."])
  }

  /** The question task's description once rewritten for Islamiat. */
  function UrduQuestionDescription(grade: string): string
  {
    Concat(["Generate Islamiat questions ", UrduMarker, " for Class ", grade, ", following the syllabus."])
  }

  /** The review task's description, the same for every selection. */
  const ReviewDescription := "Review the generated questions and improve clarity, correctness, "
    + "and ensure they align with the current syllabus."

  function PaperDesigner(subject: string, grade: string, board: string): Agent
  {
    Agent("Paper Designer", DesignerRole(subject, grade, board),
          DesignerGoal(subject, grade, board, ResolvePattern(board).syllabus),
          "An AI assistant skilled in designing structured academic papers.", Model)
  }

  function QuestionGenerator(subject: string, grade: string, board: string): Agent
  {
    Agent("Question Generator", GeneratorRole(subject),
          GeneratorGoal(subject, grade, ResolvePattern(board).syllabus),
          "An AI expert in crafting academic questions.", Model)
  }

  function QualityChecker(subject: string): Agent
  {
    Agent("Quality Checker", CheckerRole(subject),
          "Review and refine questions for clarity, accuracy, and adherence to the current syllabus.",
          "An AI specialized in verifying academic content quality.", Model)
  }

  /** A task handed to the crew; its description can be rewritten after creation. */
  class Task {
    const name: string
    const agent: Agent
    var description: string
    const expectedOutput: string

    constructor (name: string, agent: Agent, description: string, expectedOutput: string)
      ensures this.name == name && this.agent == agent
      ensures this.description == description && this.expectedOutput == expectedOutput
    {
      this.name := name;
      this.agent := agent;
      this.description := description;
      this.expectedOutput := expectedOutput;
    }
  }

  /** The three tasks, in the order the crew runs them, for the chosen subject,
      grade and board. */
  method DefineTasks(subject: string, grade: string, board: string)
    returns (structure: Task, question: Task, review: Task)
    ensures fresh(structure) && fresh(question) && fresh(review)
    ensures structure.name == "Design Paper Structure"
    ensures structure.agent == PaperDesigner(subject, grade, board)
    ensures structure.description == StructureDescription(subject, grade, board, ResolvePattern(board).syllabus)
    ensures structure.expectedOutput == "A structured " + subject + " exam paper template."
    ensures question.name == "Generate Questions"
    ensures question.agent == QuestionGenerator(subject, grade, board)
    ensures question.description == QuestionDescription(subject, ResolvePattern(board).syllabus)
    ensures question.expectedOutput == "A set of well-formatted " + subject + " academic questions."
    ensures review.name == "Review and Refine Questions"
    ensures review.agent == QualityChecker(subject)
    ensures review.description == ReviewDescription
    ensures review.expectedOutput == "A set of well-formatted and syllabus-aligned academic questions."
  {
    var syllabus := ResolvePattern(board).syllabus;
    structure := new Task("Design Paper Structure", PaperDesigner(subject, grade, board),
      StructureDescription(subject, grade, board, syllabus),
      "A structured " + subject + " exam paper template.");
    question := new Task("Generate Questions", QuestionGenerator(subject, grade, board),
      QuestionDescription(subject, syllabus),
      "A set of well-formatted " + subject + " academic questions.");
    review := new Task("Review and Refine Questions", QualityChecker(subject), ReviewDescription,
      "A set of well-formatted and syllabus-aligned academic questions.");
  }

  /** The question task's description when the crew runs. */
  function QuestionDirective(subject: string, grade: string, board: string): string
  {
    if subject == "Islamiat" then UrduQuestionDescription(grade)
    else QuestionDescription(subject, ResolvePattern(board).syllabus)
  }

  /** `generate_paper`: rewrites the shared question task for Islamiat, then runs
      the crew, whose text output is the parameter `crewOutput`. */
  method GeneratePaper(subject: string, grade: string, board: string, questionTask: Task,
                       crewOutput: string) returns (outputText: string)
    modifies questionTask
    ensures subject == "Islamiat" ==> questionTask.description == UrduQuestionDescription(grade)
    ensures subject != "Islamiat" ==> questionTask.description == old(questionTask.description)
    ensures old(questionTask.description) == QuestionDescription(subject, ResolvePattern(board).syllabus)
      ==> questionTask.description == QuestionDirective(subject, grade, board)
    ensures outputText == crewOutput
  {
    if subject == "Islamiat" {
      questionTask.description := UrduQuestionDescription(grade);
    }
    outputText := crewOutput;
  }

  lemma DesignerRoleNames(subject: string, grade: string, board: string)
    ensures var role := DesignerRole(subject, grade, board);
      Contains(role, subject) && Contains(role, grade) && Contains(role, board)
  {
    var role := ["Structuring ", subject, " academic papers for Grade ", grade, " - ", board, " Board"];
    ContainsPart(role, 1);
    ContainsPart(role, 3);
    ContainsPart(role, 5);
  }

  lemma DesignerGoalNames(subject: string, grade: string, board: string, syllabus: string)
    ensures var goal := DesignerGoal(subject, grade, board, syllabus);
      Contains(goal, subject) && Contains(goal, board) && Contains(goal, grade) && Contains(goal, syllabus)
  {
    var goal := ["Ensure the ", subject, " paper follows the ", board, " board guidelines for Class ",
                 grade, ", adhering to the ", syllabus, "."];
    ContainsPart(goal, 1);
    ContainsPart(goal, 3);
    ContainsPart(goal, 5);
    ContainsPart(goal, 7);
  }

  lemma StructureDescriptionNames(subject: string, grade: string, board: string, syllabus: string)
    ensures var structure := StructureDescription(subject, grade, board, syllabus);
      Contains(structure, subject) && Contains(structure, grade)
      && Contains(structure, board) && Contains(structure, syllabus)
  {
    var structure := ["Create an academic paper structure for ", subject, ", Class ", grade, ", ", board,
                      " Board, following the ", syllabus, "."];
    ContainsPart(structure, 1);
    ContainsPart(structure, 3);
    ContainsPart(structure, 5);
    ContainsPart(structure, 7);
  }

  /** The paper designer's role and goal, the question generator's goal and the
      structure task name the chosen subject, grade, board and syllabus label. */
  lemma DirectivesEmbedSelection(subject: string, grade: string, board: string)
    ensures var syllabus := ResolvePattern(board).syllabus;
      var role := PaperDesigner(subject, grade, board).role;
      var goal := PaperDesigner(subject, grade, board).goal;
      var structure := StructureDescription(subject, grade, board, syllabus);
      Contains(role, subject) && Contains(role, grade) && Contains(role, board)
      && Contains(goal, subject) && Contains(goal, board) && Contains(goal, grade) && Contains(goal, syllabus)
      && Contains(QuestionGenerator(subject, grade, board).goal, syllabus)
      && Contains(structure, subject) && Contains(structure, grade)
      && Contains(structure, board) && Contains(structure, syllabus)
  {
    var syllabus := ResolvePattern(board).syllabus;
    DesignerRoleNames(subject, grade, board);
    DesignerGoalNames(subject, grade, board, syllabus);
    ContainsPart(["Generate various types of ", subject, " questions for Class ", grade,
                  ", ensuring alignment with the ", syllabus, "."], 5);
    StructureDescriptionNames(subject, grade, board, syllabus);
  }

  /** No syllabus label contains `*`. */
  lemma SyllabusLacksStar(board: string)
    ensures '*' !in ResolvePattern(board).syllabus
  {
    var syllabus := ResolvePattern(board).syllabus;
    if syllabus == "Federal Board Syllabus" {
    } else if syllabus == "Punjab Board Syllabus" {
    } else {
      assert syllabus == "Default Syllabus";
    }
  }

  /** The question description contains `*` only if the subject or the syllabus does. */
  lemma QuestionDescriptionLacksStar(subject: string, syllabus: string)
    requires '*' !in subject && '*' !in syllabus
    ensures '*' !in QuestionDescription(subject, syllabus)
  {
    var parts := ["Generate long-questions, ", "short-questions, MCQs, ", "fill-in-the-blanks, ",
                  "and true/false questions for ", subject, ", adhering to the ", syllabus, "."];
    forall k | 0 <= k < |parts|
      ensures '*' !in parts[k]
    {
      if k == 0 {
      } else if k == 1 {
      } else if k == 2 {
      } else if k == 3 {
      } else if k == 5 {
      }
    }
    ConcatLacks(parts, '*');
  }

  /** The question directive demands Urdu exactly when the subject is Islamiat,
      and then names the grade; otherwise it names the subject and the syllabus.
      (The Urdu marker starts with `*`, which no other template contains.) */
  lemma UrduRequiredExactlyForIslamiat(subject: string, grade: string, board: string)
    requires '*' !in subject
    ensures var d := QuestionDirective(subject, grade, board);
      (Contains(d, UrduMarker) <==> subject == "Islamiat")
      && (subject == "Islamiat" ==> Contains(d, grade))
      && (subject != "Islamiat" ==> Contains(d, subject) && Contains(d, ResolvePattern(board).syllabus))
  {
    var d := QuestionDirective(subject, grade, board);
    if subject == "Islamiat" {
      var urdu := ["Generate Islamiat questions ", UrduMarker, " for Class ", grade, ", following the syllabus."];
      ContainsPart(urdu, 1);
      ContainsPart(urdu, 3);
    } else {
      var syllabus := ResolvePattern(board).syllabus;
      var parts := ["Generate long-questions, ", "short-questions, MCQs, ", "fill-in-the-blanks, ",
                    "and true/false questions for ", subject, ", adhering to the ", syllabus, "."];
      ContainsPart(parts, 4);
      ContainsPart(parts, 6);
      SyllabusLacksStar(board);
      QuestionDescriptionLacksStar(subject, syllabus);
      if Contains(d, UrduMarker) {
        ContainsCharOf(d, UrduMarker, 0);
      }
    }
  }

  /** A Mathematics paper for class 9 of the Punjab board follows the Punjab
      pattern, names Mathematics and the Punjab syllabus, and asks for no Urdu. */
  lemma MathematicsPunjabScenario(subject: string, grade: string, board: string)
    requires subject == "Mathematics" && grade == "9" && board == "Punjab"
    ensures ResolvePattern(board) == Pattern(25, 25, 50, "Punjab Board Syllabus")
    ensures var d := QuestionDirective(subject, grade, board);
      Contains(d, subject) && Contains(d, "Punjab Board Syllabus") && !Contains(d, UrduMarker)
    ensures Contains(StructureDescription(subject, grade, board, ResolvePattern(board).syllabus), "Punjab Board Syllabus")
  {
    UrduRequiredExactlyForIslamiat(subject, grade, board);
    DirectivesEmbedSelection(subject, grade, board);
  }
}
