/** The assessment package's records: a question as its author wrote it, and a learner's response. */
module Quiz {
  import opened Prelude

  /** A row id. The zero id is Go's uuid.Nil; ids order as their printed forms do. */
  type Id = nat
  const NIL: Id := 0

  datatype QuestionType =
    | TrueFalse | SingleChoice | MultipleChoice | FillBlanks | ShortAnswer
    | Ordering | Matching | OpenEnded | Range | ImageAnswering | ImageMatching
    | Puzzle | Pin | Graph | DrawImage
    | Unknown(name: string)

  datatype Point = Point(x: real, y: real)

  datatype Region = Region(x: real, y: real, w: real, h: real)

  datatype Spec = Spec(image: string, regions: seq<Region>, points: seq<Point>, tolerance: real)

  /** One option of a question: a choice, an item to order, or half of a pair. */
  datatype Choice = Choice(
    id: Id,
    content: string,
    position: int,
    isCorrect: bool,
    matchId: Id,
    matchContent: string)

  datatype Question = Question(
    id: Id,
    kind: QuestionType,
    prompt: string,
    points: int,
    position: int,
    explanation: string,
    caseSensitive: bool,
    accepted: seq<seq<string>>,
    spec: Option<Spec>,
    options: seq<Choice>)

  /** A learner's answer, in the one shape that covers every type. */
  datatype Response = Response(
    choices: seq<Id>,
    text: string,
    blanks: seq<string>,
    order: seq<Id>,
    pairs: map<Id, Id>,
    number: Option<real>,
    point: Option<Point>,
    points: seq<Point>,
    upload: string)

  const EMPTY_RESPONSE := Response([], "", [], [], map[], None, None, [], "")

  predicate ValidQuestionType(t: QuestionType) {
    !t.Unknown?
  }

  /** The types no machine grades. */
  predicate IsManual(t: QuestionType) {
    t == OpenEnded || t == DrawImage
  }
}
