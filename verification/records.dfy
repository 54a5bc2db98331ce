/**
 * The pipeline's shared state: a list of chat messages. Entry 0 is the
 * résumé text; entries 1 to 4 each hold one stage's structured output as a
 * JSON object. The four record shapes are the stage schemas
 * `compareMatchClass`, `scoreNextStepClass`, `createEmailClass` and
 * `createInterviewQuestionClass`.
 */
module Records {
  import opened Wrappers

  /** The failures the pipeline raises, named after the Python exception each stands for. */
  datatype Error =
    | IndexError                // a message list too short for the entry read
    | JsonDecodeError           // message content that does not parse as JSON
    | TypeError                 // JSON content that is not an object, read with a key
    | KeyError(key: string)     // a JSON object without the key read
    | WrongType(key: string)    // a non-string value where a string method is applied
    | OverflowError             // a date past 31 December 9999

  /** An already-parsed JSON value, reduced to the kinds the stages produce. */
  datatype Value = Str(s: string) | Int(i: int) | OtherJson

  /**
   * Message content: a JSON object, JSON text whose top-level value is not
   * an object (a string, a number, an array), or text that does not parse.
   */
  datatype Content = Json(fields: map<string, Value>) | NonObject(value: Value) | Plain(text: string)

  datatype Role = Human | Ai

  datatype Message = Message(role: Role, content: Content)

  /** `json.loads(message.content)[key]`. */
  function Lookup(m: Message, key: string): (r: Result<Value, Error>)
    ensures r.Success? <==> m.content.Json? && key in m.content.fields
    ensures r.Success? ==> r.value == m.content.fields[key]
    ensures r.Failure? && m.content.Json? ==> r.error == KeyError(key)
    ensures r.Failure? && m.content.NonObject? ==> r.error == TypeError
    ensures r.Failure? && m.content.Plain? ==> r.error == JsonDecodeError
  {
    match m.content
    case Plain(_) => Failure(JsonDecodeError)
    case NonObject(_) => Failure(TypeError)
    case Json(fields) => if key in fields then Success(fields[key]) else Failure(KeyError(key))
  }

  /** `json.loads(message.content)[key]` where a string is needed. */
  function LookupString(m: Message, key: string): (r: Result<string, Error>)
    ensures r.Success? <==> Lookup(m, key).Success? && Lookup(m, key).value.Str?
    ensures r.Success? ==> Lookup(m, key) == Success(Str(r.value))
    ensures r.Failure? && Lookup(m, key).Success? ==> r.error == WrongType(key)
    ensures r.Failure? && Lookup(m, key).Failure? ==> r == Failure(Lookup(m, key).error)
  {
    var v :- Lookup(m, key);
    if v.Str? then Success(v.s) else Failure(WrongType(key))
  }

  /** A model-backed stage: given the messages so far, the message it answers with, or its failure. */
  type Agent = seq<Message> -> Result<Message, Error>

  // Field names, as the stage schemas declare them.
  const MinimalRequirementsKey := "minimal_requirements_analysis"
  const PreferredRequirementsKey := "preferred_requirements_analysis"
  const StrengthsKey := "strengths"
  const PotentialGapsKey := "potential_gaps"
  const CandidateNameKey := "candidate_name"
  const ScoreKey := "score"
  const EmailKey := "email"
  const QuestionsKey := "questions"

  /** `compareMatchClass`. */
  datatype CompareMatch = CompareMatch(
    minimalRequirementsAnalysis: string,
    preferredRequirementsAnalysis: string,
    strengths: string,
    potentialGaps: string,
    candidateName: string)

  /** `scoreNextStepClass`. */
  datatype ScoreNextStep = ScoreNextStep(score: int)

  /** `createEmailClass`. */
  datatype CreateEmail = CreateEmail(email: string)

  /** `createInterviewQuestionClass`. */
  datatype CreateInterviewQuestion = CreateInterviewQuestion(questions: string)

  /** The message a stage answers with, its content the record serialised as JSON. */
  function CompareMatchMessage(r: CompareMatch): Message {
    Message(Ai, Json(map[
      MinimalRequirementsKey := Str(r.minimalRequirementsAnalysis),
      PreferredRequirementsKey := Str(r.preferredRequirementsAnalysis),
      StrengthsKey := Str(r.strengths),
      PotentialGapsKey := Str(r.potentialGaps),
      CandidateNameKey := Str(r.candidateName)]))
  }

  function ScoreNextStepMessage(r: ScoreNextStep): Message {
    Message(Ai, Json(map[ScoreKey := Int(r.score)]))
  }

  function CreateEmailMessage(r: CreateEmail): Message {
    Message(Ai, Json(map[EmailKey := Str(r.email)]))
  }

  function CreateInterviewQuestionMessage(r: CreateInterviewQuestion): Message {
    Message(Ai, Json(map[QuestionsKey := Str(r.questions)]))
  }
}
