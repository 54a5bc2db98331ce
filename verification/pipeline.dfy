/**
 * The screening pipeline: the graph of four nodes wired START ->
 * compareMatch -> scoreNextStep -> createEmail -> createInterviewQuestion ->
 * END, its run on the résumé text, and the assembly of the 7-tuple result
 * from entries 1 to 4 of the final message list. The model-backed agents,
 * "today" and the time draw are parameters.
 */
module Pipeline {
  import opened Wrappers
  import opened Calendar
  import opened Clock
  import opened Records
  import opened EmailPostProcessing

  /** The nodes added on lines 190-193. */
  datatype Stage =
    | CompareMatchStage
    | ScoreNextStepStage
    | CreateEmailStage
    | CreateInterviewQuestionStage

  datatype Vertex = Start | Node(stage: Stage) | End

  /** The four nodes in the order the edges chain them. */
  const Chain: seq<Stage> := [CompareMatchStage, ScoreNextStepStage, CreateEmailStage, CreateInterviewQuestionStage]

  /** The edges added on lines 195-199. */
  const WorkflowEdges: seq<(Vertex, Vertex)> := [
    (Start, Node(CompareMatchStage)),
    (Node(CompareMatchStage), Node(ScoreNextStepStage)),
    (Node(ScoreNextStepStage), Node(CreateEmailStage)),
    (Node(CreateEmailStage), Node(CreateInterviewQuestionStage)),
    (Node(CreateInterviewQuestionStage), End)]

  /** The number of edges leaving `v`. */
  function OutDegree(edges: seq<(Vertex, Vertex)>, v: Vertex): nat {
    if |edges| == 0 then 0
    else (if edges[0].0 == v then 1 else 0) + OutDegree(edges[1..], v)
  }

  /** The target of the first edge leaving `v`. */
  function Successor(edges: seq<(Vertex, Vertex)>, v: Vertex): Option<Vertex> {
    if |edges| == 0 then None
    else if edges[0].0 == v then Some(edges[0].1)
    else Successor(edges[1..], v)
  }

  /** The stages met when following edges from `v` until END, within `fuel` steps. */
  function Walk(edges: seq<(Vertex, Vertex)>, v: Vertex, fuel: nat): Option<seq<Stage>>
    decreases fuel
  {
    if v == End then Some([])
    else if fuel == 0 then None
    else
      match Successor(edges, v)
      case None => None
      case Some(w) =>
        match Walk(edges, w, fuel - 1)
        case None => None
        case Some(rest) => Some((if v.Node? then [v.stage] else []) + rest)
  }

  /** The order the compiled graph runs its nodes in. */
  function ExecutionOrder(): seq<Stage> {
    match Walk(WorkflowEdges, Start, |WorkflowEdges|)
    case None => []
    case Some(order) => order
  }

  /** END has no outgoing edge; START and every node have one. */
  lemma OutDegreeOf(v: Vertex)
    ensures OutDegree(WorkflowEdges, v) == if v == End then 0 else 1
  {
    var e := WorkflowEdges;
    assert e[1..][1..][1..][1..][1..] == [];
    assert OutDegree(e[1..][1..][1..][1..][1..], v) == 0;
    assert OutDegree(e[1..][1..][1..][1..], v) == if v == Node(CreateInterviewQuestionStage) then 1 else 0;
    assert OutDegree(e[1..][1..][1..], v)
           == OutDegree(e[1..][1..][1..][1..], v) + if v == Node(CreateEmailStage) then 1 else 0;
    assert OutDegree(e[1..][1..], v)
           == OutDegree(e[1..][1..][1..], v) + if v == Node(ScoreNextStepStage) then 1 else 0;
    assert OutDegree(e[1..], v)
           == OutDegree(e[1..][1..], v) + if v == Node(CompareMatchStage) then 1 else 0;
    assert OutDegree(e, v) == OutDegree(e[1..], v) + if v == Start then 1 else 0;
    match v
    case Start =>
    case End =>
    case Node(st) =>
      match st
      case CompareMatchStage =>
      case ScoreNextStepStage =>
      case CreateEmailStage =>
      case CreateInterviewQuestionStage =>
  }

  lemma WalkWorkflow()
    ensures Walk(WorkflowEdges, Start, |WorkflowEdges|)
            == Some(Chain)
  {
    var e := WorkflowEdges;
    assert e[1..][1..][1..][1..][1..] == [];
    assert Successor(e, Start) == Some(Node(CompareMatchStage));
    assert Successor(e, Node(CompareMatchStage)) == Some(Node(ScoreNextStepStage));
    assert Successor(e, Node(ScoreNextStepStage)) == Some(Node(CreateEmailStage));
    assert Successor(e, Node(CreateEmailStage)) == Some(Node(CreateInterviewQuestionStage));
    assert Successor(e, Node(CreateInterviewQuestionStage)) == Some(End);
    var order := Chain;
    assert Walk(e, End, 0) == Some([]);
    assert order[4..] == [];
    assert Walk(e, Node(CreateInterviewQuestionStage), 1) == Some([CreateInterviewQuestionStage] + order[4..]);
    assert order[3..] == [CreateInterviewQuestionStage] + order[4..];
    assert Walk(e, Node(CreateEmailStage), 2) == Some([CreateEmailStage] + order[3..]);
    assert order[2..] == [CreateEmailStage] + order[3..];
    assert Walk(e, Node(ScoreNextStepStage), 3) == Some([ScoreNextStepStage] + order[2..]);
    assert order[1..] == [ScoreNextStepStage] + order[2..];
    assert Walk(e, Node(CompareMatchStage), 4) == Some([CompareMatchStage] + order[1..]);
    assert order == [CompareMatchStage] + order[1..];
    assert [] + order == order;
    assert |e| == 5;
    assert Walk(e, Start, 5) == Some(order);
  }

  /**
   * The graph is a chain: START and every node have exactly one outgoing
   * edge and END none, so each node runs once, in the order compareMatch,
   * scoreNextStep, createEmail, createInterviewQuestion.
   */
  lemma WorkflowIsChain()
    ensures OutDegree(WorkflowEdges, Start) == 1
    ensures forall s: Stage :: OutDegree(WorkflowEdges, Node(s)) == 1
    ensures OutDegree(WorkflowEdges, End) == 0
    ensures ExecutionOrder()
            == Chain
    ensures forall s: Stage :: multiset(ExecutionOrder())[s] == 1
  {
    OutDegreeOf(Start);
    OutDegreeOf(End);
    forall s: Stage
      ensures OutDegree(WorkflowEdges, Node(s)) == 1
    {
      OutDegreeOf(Node(s));
    }
    WalkWorkflow();
    forall s: Stage
      ensures multiset(ExecutionOrder())[s] == 1
    {
      OnceInOrder(s);
    }
  }

  lemma ExecutionOrderIsChain()
    ensures ExecutionOrder() == Chain && |Chain| == 4
  {
    WalkWorkflow();
  }

  lemma OnceInOrder(s: Stage)
    ensures multiset(Chain)[s] == 1
  {
    var order := Chain;
    assert multiset(order)
           == multiset{CompareMatchStage} + multiset{ScoreNextStepStage}
            + multiset{CreateEmailStage} + multiset{CreateInterviewQuestionStage};
  }

  /** The four model-backed agents. */
  datatype Agents = Agents(
    compareMatch: Agent,
    scoreNextStep: Agent,
    createEmail: Agent,
    createInterviewQuestion: Agent)

  /**
   * `compareMatchNode`, `scoreNextStepNode` and `createInterviewQuestionNode`:
   * the update is the agent's message list, the messages so far and its reply.
   */
  function AgentNode(agent: Agent, messages: seq<Message>): (r: Result<seq<Message>, Error>)
    ensures r.Failure? <==> agent(messages).Failure?
    ensures r.Failure? ==> r.error == agent(messages).error
    ensures r.Success? ==>
      && |r.value| == |messages| + 1
      && r.value[..|messages|] == messages
      && r.value[|messages|] == agent(messages).value
  {
    var reply :- agent(messages);
    assert (messages + [reply])[..|messages|] == messages;
    Success(messages + [reply])
  }

  /**
   * How the graph state takes in a node's update: the entries it already
   * holds stay as they are and the update's new last entry is appended.
   */
  function Absorb(state: seq<Message>, update: seq<Message>): (r: seq<Message>)
    ensures |update| == 0 ==> r == state
    ensures |update| > 0 ==> |r| == |state| + 1 && r[..|state|] == state && r[|state|] == update[|update| - 1]
    ensures |update| == |state| + 1 && update[..|state|] == state ==> r == update
  {
    assert |update| > 0 ==> (state + [update[|update| - 1]])[..|state|] == state;
    if |update| == 0 then state else state + [update[|update| - 1]]
  }

  /** The update one node returns for the messages so far. */
  function NodeUpdate(stage: Stage, agents: Agents, today: Date, draw: Time, state: seq<Message>)
    : Result<seq<Message>, Error>
    requires ValidDate(today) && IsDraw(draw)
  {
    match stage
    case CompareMatchStage => AgentNode(agents.compareMatch, state)
    case ScoreNextStepStage => AgentNode(agents.scoreNextStep, state)
    case CreateEmailStage => CreateEmailNode(state, agents.createEmail, today, draw)
    case CreateInterviewQuestionStage => AgentNode(agents.createInterviewQuestion, state)
  }

  /** Runs the stages in order, each on the state its predecessors left; the first failure ends the run. */
  function RunStages(stages: seq<Stage>, agents: Agents, today: Date, draw: Time, state: seq<Message>)
    : Result<seq<Message>, Error>
    requires ValidDate(today) && IsDraw(draw)
    decreases |stages|
  {
    if |stages| == 0 then Success(state)
    else
      var update :- NodeUpdate(stages[0], agents, today, draw, state);
      RunStages(stages[1..], agents, today, draw, Absorb(state, update))
  }

  /**
   * Line 221: `graph.invoke` on the résumé text as the one user message. A
   * finished run holds the résumé text and one entry per node.
   */
  function RunGraph(cvText: string, agents: Agents, today: Date, draw: Time): (r: Result<seq<Message>, Error>)
    requires ValidDate(today) && IsDraw(draw)
    ensures r.Success? ==> |r.value| == 5 && r.value[0] == Message(Human, Plain(cvText))
  {
    var start := [Message(Human, Plain(cvText))];
    ExecutionOrderIsChain();
    RunStagesGrows(ExecutionOrder(), agents, today, draw, start);
    RunStages(ExecutionOrder(), agents, today, draw, start)
  }

  /**
   * Every node adds exactly one entry to the state and leaves the entries
   * already there alone: an agent node adds the agent's reply, the email
   * node adds the post-processed email (and not the agent's own reply).
   */
  lemma NodeAppendsOne(stage: Stage, agents: Agents, today: Date, draw: Time, state: seq<Message>)
    requires ValidDate(today) && IsDraw(draw)
    ensures NodeUpdate(stage, agents, today, draw, state).Success? ==>
      var next := Absorb(state, NodeUpdate(stage, agents, today, draw, state).value);
      && |next| == |state| + 1
      && next[..|state|] == state
      && (stage != CreateEmailStage ==> next[|state|] == StageAgent(stage, agents)(state).value)
      && (stage == CreateEmailStage ==>
            var update := CreateEmailNode(state, agents.createEmail, today, draw).value;
            next[|state|] == update[|update| - 1])
  {
    var r := NodeUpdate(stage, agents, today, draw, state);
    if r.Success? {
      var next := Absorb(state, r.value);
      if stage == CreateEmailStage {
        assert |r.value| > 0;
        assert next == state + [r.value[|r.value| - 1]];
      } else {
        assert r.value == state + [StageAgent(stage, agents)(state).value];
      }
      assert next[..|state|] == state;
    }
  }

  /** The agent behind a node other than the email node. */
  function StageAgent(stage: Stage, agents: Agents): Agent {
    match stage
    case CompareMatchStage => agents.compareMatch
    case ScoreNextStepStage => agents.scoreNextStep
    case CreateEmailStage => agents.createEmail
    case CreateInterviewQuestionStage => agents.createInterviewQuestion
  }

  /** A run that gets through its stages grows the state by one entry per stage, keeping what was there. */
  lemma {:induction false} RunStagesGrows(stages: seq<Stage>, agents: Agents, today: Date, draw: Time,
                                          state: seq<Message>)
    requires ValidDate(today) && IsDraw(draw)
    ensures RunStages(stages, agents, today, draw, state).Success? ==>
      var out := RunStages(stages, agents, today, draw, state).value;
      |out| == |state| + |stages| && out[..|state|] == state
    decreases |stages|
  {
    if |stages| > 0 && RunStages(stages, agents, today, draw, state).Success? {
      var update := NodeUpdate(stages[0], agents, today, draw, state).value;
      var next := Absorb(state, update);
      NodeAppendsOne(stages[0], agents, today, draw, state);
      RunStagesGrows(stages[1..], agents, today, draw, next);
      var out := RunStages(stages, agents, today, draw, state).value;
      assert out[..|next|] == next;
      assert out[..|state|] == next[..|state|];
    }
  }

  /**
   * A finished run holds five entries: the résumé text, then each node's
   * entry, each computed from exactly the entries before it.
   */
  lemma RunGraphShape(cvText: string, agents: Agents, today: Date, draw: Time)
    requires ValidDate(today) && IsDraw(draw)
    ensures RunGraph(cvText, agents, today, draw).Success? ==>
      var msgs := RunGraph(cvText, agents, today, draw).value;
      && |msgs| == 5
      && msgs[0] == Message(Human, Plain(cvText))
      && agents.compareMatch(msgs[..1]) == Success(msgs[1])
      && agents.scoreNextStep(msgs[..2]) == Success(msgs[2])
      && CreateEmailNode(msgs[..3], agents.createEmail, today, draw).Success?
      && msgs[3] == CreateEmailMessage(CreateEmail(
           PostProcess(LookupString(agents.createEmail(msgs[..3]).value, EmailKey).value,
                       LookupString(msgs[1], CandidateNameKey).value, today, draw).value))
      && agents.createInterviewQuestion(msgs[..4]) == Success(msgs[4])
  {
    if RunGraph(cvText, agents, today, draw).Success? {
      RunGraphSteps(cvText, agents, today, draw);
      var msgs := RunGraph(cvText, agents, today, draw).value;
      NodeAppendsOne(CompareMatchStage, agents, today, draw, msgs[..1]);
      NodeAppendsOne(ScoreNextStepStage, agents, today, draw, msgs[..2]);
      NodeAppendsOne(CreateInterviewQuestionStage, agents, today, draw, msgs[..4]);
      assert msgs[..2][1] == msgs[1] && msgs[..3][2] == msgs[2] && msgs[..5][4] == msgs[4];
      EmailEntry(msgs[..3], agents.createEmail, today, draw);
      assert msgs[..4][3] == msgs[3] && msgs[..3][1] == msgs[1];
    }
  }

  /** A finished run is the four node updates absorbed in turn, each on the entries before it. */
  lemma RunGraphSteps(cvText: string, agents: Agents, today: Date, draw: Time)
    requires ValidDate(today) && IsDraw(draw)
    ensures RunGraph(cvText, agents, today, draw).Success? ==>
      var msgs := RunGraph(cvText, agents, today, draw).value;
      && |msgs| == 5
      && msgs[0] == Message(Human, Plain(cvText))
      && NodeUpdate(CompareMatchStage, agents, today, draw, msgs[..1]).Success?
      && msgs[..2] == Absorb(msgs[..1], NodeUpdate(CompareMatchStage, agents, today, draw, msgs[..1]).value)
      && NodeUpdate(ScoreNextStepStage, agents, today, draw, msgs[..2]).Success?
      && msgs[..3] == Absorb(msgs[..2], NodeUpdate(ScoreNextStepStage, agents, today, draw, msgs[..2]).value)
      && NodeUpdate(CreateEmailStage, agents, today, draw, msgs[..3]).Success?
      && msgs[..4] == Absorb(msgs[..3], NodeUpdate(CreateEmailStage, agents, today, draw, msgs[..3]).value)
      && NodeUpdate(CreateInterviewQuestionStage, agents, today, draw, msgs[..4]).Success?
      && msgs[..5] == Absorb(msgs[..4], NodeUpdate(CreateInterviewQuestionStage, agents, today, draw, msgs[..4]).value)
  {
    if RunGraph(cvText, agents, today, draw).Success? {
      var order := Chain;
      RunGraphRunsStages(cvText, agents, today, draw);
      var m0 := [Message(Human, Plain(cvText))];
      RunStagesStep(order, agents, today, draw, m0);
      var m1 := Absorb(m0, NodeUpdate(CompareMatchStage, agents, today, draw, m0).value);
      RunStagesStep(order[1..], agents, today, draw, m1);
      var m2 := Absorb(m1, NodeUpdate(ScoreNextStepStage, agents, today, draw, m1).value);
      RunStagesStep(order[1..][1..], agents, today, draw, m2);
      var m3 := Absorb(m2, NodeUpdate(CreateEmailStage, agents, today, draw, m2).value);
      RunStagesStep(order[1..][1..][1..], agents, today, draw, m3);
      var m4 := Absorb(m3, NodeUpdate(CreateInterviewQuestionStage, agents, today, draw, m3).value);
      assert order[1..][1..][1..][1..] == [];
      var msgs := RunGraph(cvText, agents, today, draw).value;
      assert msgs == m4;
      NodeAppendsOne(CompareMatchStage, agents, today, draw, m0);
      NodeAppendsOne(ScoreNextStepStage, agents, today, draw, m1);
      NodeAppendsOne(CreateEmailStage, agents, today, draw, m2);
      NodeAppendsOne(CreateInterviewQuestionStage, agents, today, draw, m3);
      assert msgs[..5] == m4;
      assert msgs[..4] == m3;
      assert msgs[..3] == m2 by { assert m3[..3] == m2; }
      assert msgs[..2] == m1 by { assert m2[..2] == m1; }
      assert msgs[..1] == m0 by { assert m1[..1] == m0; }
    }
  }

  /** The entry the email node adds is the post-processed email, with the name read from entry 1. */
  lemma EmailEntry(state: seq<Message>, createEmail: Agent, today: Date, draw: Time)
    requires ValidDate(today) && IsDraw(draw)
    ensures CreateEmailNode(state, createEmail, today, draw).Success? ==>
      && |state| >= 2
      && createEmail(state).Success?
      && LookupString(createEmail(state).value, EmailKey).Success?
      && LookupString(state[1], CandidateNameKey).Success?
      && var post := PostProcess(LookupString(createEmail(state).value, EmailKey).value,
                                 LookupString(state[1], CandidateNameKey).value, today, draw);
         && post.Success?
         && Absorb(state, CreateEmailNode(state, createEmail, today, draw).value)[|state|]
            == CreateEmailMessage(CreateEmail(post.value))
  {
  }

  /** The graph runs the four stages in the chain's order, starting from the résumé text. */
  lemma RunGraphRunsStages(cvText: string, agents: Agents, today: Date, draw: Time)
    requires ValidDate(today) && IsDraw(draw)
    ensures RunGraph(cvText, agents, today, draw)
            == RunStages(Chain,
                         agents, today, draw, [Message(Human, Plain(cvText))])
  {
    WorkflowIsChain();
  }

  /**
   * A run continues from the state its first stage leaves when that stage
   * succeeds, and ends with the stage's error when it fails.
   */
  lemma RunStagesStep(stages: seq<Stage>, agents: Agents, today: Date, draw: Time, state: seq<Message>)
    requires ValidDate(today) && IsDraw(draw) && |stages| > 0
    ensures NodeUpdate(stages[0], agents, today, draw, state).Success? ==>
      RunStages(stages, agents, today, draw, state)
      == RunStages(stages[1..], agents, today, draw,
                   Absorb(state, NodeUpdate(stages[0], agents, today, draw, state).value))
    ensures NodeUpdate(stages[0], agents, today, draw, state).Failure? ==>
      RunStages(stages, agents, today, draw, state)
      == Failure(NodeUpdate(stages[0], agents, today, draw, state).error)
  {
  }

  /** Running two runs of stages one after the other is running them joined. */
  lemma {:induction false} RunStagesAppend(first: seq<Stage>, second: seq<Stage>, agents: Agents,
                                           today: Date, draw: Time, state: seq<Message>)
    requires ValidDate(today) && IsDraw(draw)
    ensures RunStages(first + second, agents, today, draw, state)
            == match RunStages(first, agents, today, draw, state)
               case Failure(e) => Failure(e)
               case Success(mid) => RunStages(second, agents, today, draw, mid)
    decreases |first|
  {
    if |first| == 0 {
      assert first + second == second;
    } else {
      var whole := first + second;
      assert whole[0] == first[0] && whole[1..] == first[1..] + second;
      RunStagesStep(whole, agents, today, draw, state);
      RunStagesStep(first, agents, today, draw, state);
      var u := NodeUpdate(first[0], agents, today, draw, state);
      if u.Success? {
        RunStagesAppend(first[1..], second, agents, today, draw, Absorb(state, u.value));
      }
    }
  }

  /** The state the run on the résumé text has reached after its first `k` nodes. */
  function StateAfter(k: nat, cvText: string, agents: Agents, today: Date, draw: Time): Result<seq<Message>, Error>
    requires ValidDate(today) && IsDraw(draw) && k <= |Chain|
  {
    RunStages(Chain[..k], agents, today, draw, [Message(Human, Plain(cvText))])
  }

  /**
   * A failing node ends the run with its error: when the first `k` nodes
   * succeed and node `k` fails, nothing is assembled and the screening fails
   * with that node's error.
   */
  lemma StageFailureAborts(cvText: string, agents: Agents, today: Date, draw: Time, k: nat)
    requires ValidDate(today) && IsDraw(draw) && k < |Chain|
    requires StateAfter(k, cvText, agents, today, draw).Success?
    requires NodeUpdate(Chain[k], agents, today, draw, StateAfter(k, cvText, agents, today, draw).value).Failure?
    ensures Screen(cvText, agents, today, draw)
            == Failure(NodeUpdate(Chain[k], agents, today, draw, StateAfter(k, cvText, agents, today, draw).value).error)
  {
    var start := [Message(Human, Plain(cvText))];
    RunGraphRunsStages(cvText, agents, today, draw);
    assert Chain[..k] + Chain[k..] == Chain;
    RunStagesAppend(Chain[..k], Chain[k..], agents, today, draw, start);
    RunStagesStep(Chain[k..], agents, today, draw, StateAfter(k, cvText, agents, today, draw).value);
  }

  /** The 7-tuple the entry point returns. */
  datatype ScreeningResult = ScreeningResult(
    minimalRequirementsAnalysis: Value,
    preferredRequirementsAnalysis: Value,
    strengths: Value,
    potentialGaps: Value,
    score: Value,
    email: Value,
    questions: Value)

  /**
   * Lines 227-243: the fields read, in order, from entries 1 to 4. Assembly
   * succeeds exactly when entries 1 to 4 exist and hold their keys, and then
   * the tuple holds those fields in the fixed order; a missing entry, content
   * that is not a JSON object, or a missing key is a failure, never a default.
   */
  function AssembleResult(messages: seq<Message>): (r: Result<ScreeningResult, Error>)
    ensures r.Success? <==>
      && HasKey(messages, 1, MinimalRequirementsKey)
      && HasKey(messages, 1, PreferredRequirementsKey)
      && HasKey(messages, 1, StrengthsKey)
      && HasKey(messages, 1, PotentialGapsKey)
      && HasKey(messages, 2, ScoreKey)
      && HasKey(messages, 3, EmailKey)
      && HasKey(messages, 4, QuestionsKey)
    ensures r.Success? ==>
      r.value == ScreeningResult(
        FieldOf(messages, 1, MinimalRequirementsKey),
        FieldOf(messages, 1, PreferredRequirementsKey),
        FieldOf(messages, 1, StrengthsKey),
        FieldOf(messages, 1, PotentialGapsKey),
        FieldOf(messages, 2, ScoreKey),
        FieldOf(messages, 3, EmailKey),
        FieldOf(messages, 4, QuestionsKey))
    ensures r.Failure? ==>
      r.error in {
        IndexError, JsonDecodeError, TypeError,
        KeyError(MinimalRequirementsKey), KeyError(PreferredRequirementsKey), KeyError(StrengthsKey),
        KeyError(PotentialGapsKey), KeyError(ScoreKey), KeyError(EmailKey), KeyError(QuestionsKey)}
    ensures |messages| < 2 ==> r == Failure(IndexError)
    ensures r == Failure(IndexError) ==> |messages| < 5
    ensures r == Failure(JsonDecodeError) ==> exists i :: 1 <= i < 5 && i < |messages| && messages[i].content.Plain?
    ensures r == Failure(TypeError) ==> exists i :: 1 <= i < 5 && i < |messages| && messages[i].content.NonObject?
    ensures r.Failure? && r.error.KeyError? ==>
      || (r.error.key == MinimalRequirementsKey && MissingKey(messages, 1, MinimalRequirementsKey))
      || (r.error.key == PreferredRequirementsKey && MissingKey(messages, 1, PreferredRequirementsKey))
      || (r.error.key == StrengthsKey && MissingKey(messages, 1, StrengthsKey))
      || (r.error.key == PotentialGapsKey && MissingKey(messages, 1, PotentialGapsKey))
      || (r.error.key == ScoreKey && MissingKey(messages, 2, ScoreKey))
      || (r.error.key == EmailKey && MissingKey(messages, 3, EmailKey))
      || (r.error.key == QuestionsKey && MissingKey(messages, 4, QuestionsKey))
    ensures |messages| >= 5 && (forall i :: 1 <= i < 5 ==> messages[i].content.Json?) && r.Failure?
            ==> r.error.KeyError?
  {
    if |messages| < 2 then Failure(IndexError)
    else
      var mra :- Lookup(messages[1], MinimalRequirementsKey);
      var pra :- Lookup(messages[1], PreferredRequirementsKey);
      var strengths :- Lookup(messages[1], StrengthsKey);
      var gaps :- Lookup(messages[1], PotentialGapsKey);
      if |messages| < 3 then Failure(IndexError)
      else
        var score :- Lookup(messages[2], ScoreKey);
        if |messages| < 4 then Failure(IndexError)
        else
          var email :- Lookup(messages[3], EmailKey);
          if |messages| < 5 then Failure(IndexError)
          else
            var questions :- Lookup(messages[4], QuestionsKey);
            Success(ScreeningResult(mra, pra, strengths, gaps, score, email, questions))
  }

  /**
   * Lines 215-247: run the graph on the résumé text and assemble the result.
   * A failed run is the screening's failure, and the email returned is the
   * post-processed one, not the email agent's own reply.
   */
  function Screen(cvText: string, agents: Agents, today: Date, draw: Time): (r: Result<ScreeningResult, Error>)
    requires ValidDate(today) && IsDraw(draw)
    ensures RunGraph(cvText, agents, today, draw).Failure? ==> r == Failure(RunGraph(cvText, agents, today, draw).error)
    ensures RunGraph(cvText, agents, today, draw).Success? ==> r == AssembleResult(RunGraph(cvText, agents, today, draw).value)
    ensures r.Success? ==>
      && RunGraph(cvText, agents, today, draw).Success?
      && var msgs := RunGraph(cvText, agents, today, draw).value;
         && |msgs| == 5
         && agents.createEmail(msgs[..3]).Success?
         && LookupString(agents.createEmail(msgs[..3]).value, EmailKey).Success?
         && LookupString(msgs[1], CandidateNameKey).Success?
         && var post := PostProcess(LookupString(agents.createEmail(msgs[..3]).value, EmailKey).value,
                                    LookupString(msgs[1], CandidateNameKey).value, today, draw);
            post.Success? && r.value.email == Str(post.value)
  {
    RunGraphShape(cvText, agents, today, draw);
    var messages :- RunGraph(cvText, agents, today, draw);
    AssembleResult(messages)
  }

  /** Entry `i` of `messages` is a JSON object holding `key`. */
  predicate HasKey(messages: seq<Message>, i: nat, key: string) {
    i < |messages| && messages[i].content.Json? && key in messages[i].content.fields
  }

  /** Entry `i` is a JSON object without `key`: reading it raises `KeyError(key)`. */
  predicate MissingKey(messages: seq<Message>, i: nat, key: string) {
    i < |messages| && messages[i].content.Json? && key !in messages[i].content.fields
  }

  function FieldOf(messages: seq<Message>, i: nat, key: string): Value
    requires HasKey(messages, i, key)
  {
    messages[i].content.fields[key]
  }

  /**
   * When every agent answers with its schema's record, the run ends with the
   * résumé text and the four records' messages, the email's carrying the
   * post-processed text.
   */
  lemma ConformingMessages(cvText: string, agents: Agents, today: Date, draw: Time,
                           cm: CompareMatch, sc: ScoreNextStep, em: CreateEmail, qs: CreateInterviewQuestion)
    requires ValidDate(today) && IsDraw(draw)
    requires agents.compareMatch([Message(Human, Plain(cvText))]) == Success(CompareMatchMessage(cm))
    requires agents.scoreNextStep([Message(Human, Plain(cvText)), CompareMatchMessage(cm)])
             == Success(ScoreNextStepMessage(sc))
    requires agents.createEmail([Message(Human, Plain(cvText)), CompareMatchMessage(cm), ScoreNextStepMessage(sc)])
             == Success(CreateEmailMessage(em))
    requires PostProcess(em.email, cm.candidateName, today, draw).Success?
    requires agents.createInterviewQuestion(
               [Message(Human, Plain(cvText)), CompareMatchMessage(cm), ScoreNextStepMessage(sc),
                CreateEmailMessage(CreateEmail(PostProcess(em.email, cm.candidateName, today, draw).value))])
             == Success(CreateInterviewQuestionMessage(qs))
    ensures RunGraph(cvText, agents, today, draw) == Success(
      [Message(Human, Plain(cvText)), CompareMatchMessage(cm), ScoreNextStepMessage(sc),
       CreateEmailMessage(CreateEmail(PostProcess(em.email, cm.candidateName, today, draw).value)),
       CreateInterviewQuestionMessage(qs)])
  {
    var post := PostProcess(em.email, cm.candidateName, today, draw).value;
    var cv := Message(Human, Plain(cvText));
    RunGraphRunsStages(cvText, agents, today, draw);
    ConformingEmailStage(agents, today, draw, cv, cm, sc, em);
    RunWithEmail(agents, today, draw, cv, CompareMatchMessage(cm), ScoreNextStepMessage(sc),
                 CreateEmailMessage(CreateEmail(post)), CreateInterviewQuestionMessage(qs));
  }

  /**
   * When the first two agents answer `a` and `b`, the email node appends `e`
   * and the questions agent answers `q`, the run ends with those four entries
   * after the résumé entry.
   */
  lemma RunWithEmail(agents: Agents, today: Date, draw: Time, cv: Message, a: Message, b: Message,
                     e: Message, q: Message)
    requires ValidDate(today) && IsDraw(draw)
    requires agents.compareMatch([cv]) == Success(a)
    requires agents.scoreNextStep([cv, a]) == Success(b)
    requires NodeUpdate(CreateEmailStage, agents, today, draw, [cv, a, b]).Success?
    requires Absorb([cv, a, b], NodeUpdate(CreateEmailStage, agents, today, draw, [cv, a, b]).value) == [cv, a, b, e]
    requires agents.createInterviewQuestion([cv, a, b, e]) == Success(q)
    ensures RunStages(Chain, agents, today, draw, [cv]) == Success([cv, a, b, e, q])
  {
    RunFirstTwo(agents, today, draw, cv, a, b);
    assert [cv, a, b] + [e] == [cv, a, b, e];
    RunLastTwo(agents, today, draw, [cv, a, b], e, q);
    assert [cv, a, b] + [e] + [q] == [cv, a, b, e, q];
  }

  /** When the email node appends `e` and the questions agent answers `q`, the last two nodes end the run. */
  lemma RunLastTwo(agents: Agents, today: Date, draw: Time, m2: seq<Message>, e: Message, q: Message)
    requires ValidDate(today) && IsDraw(draw)
    ensures (&& NodeUpdate(CreateEmailStage, agents, today, draw, m2).Success?
             && Absorb(m2, NodeUpdate(CreateEmailStage, agents, today, draw, m2).value) == m2 + [e]
             && agents.createInterviewQuestion(m2 + [e]) == Success(q))
            ==> RunStages(Chain[2..], agents, today, draw, m2) == Success(m2 + [e] + [q])
  {
    if || NodeUpdate(CreateEmailStage, agents, today, draw, m2).Failure?
       || Absorb(m2, NodeUpdate(CreateEmailStage, agents, today, draw, m2).value) != m2 + [e]
       || agents.createInterviewQuestion(m2 + [e]) != Success(q)
    {
      return;
    }
    var m3 := m2 + [e];
    var m4 := m3 + [q];
    assert Chain[2..][0] == CreateEmailStage && Chain[3..][0] == CreateInterviewQuestionStage;
    RunStagesStep(Chain[2..], agents, today, draw, m2);
    assert NodeUpdate(CreateInterviewQuestionStage, agents, today, draw, m3) == Success(m4);
    assert Absorb(m3, m4) == m4;
    assert Chain[2..][1..] == Chain[3..];
    RunStagesStep(Chain[3..], agents, today, draw, m3);
    assert Chain[3..][1..] == [];
  }

  /** When the first two agents answer `a` and `b`, the first two nodes append them. */
  lemma RunFirstTwo(agents: Agents, today: Date, draw: Time, cv: Message, a: Message, b: Message)
    requires ValidDate(today) && IsDraw(draw)
    requires agents.compareMatch([cv]) == Success(a)
    requires agents.scoreNextStep([cv, a]) == Success(b)
    ensures RunStages(Chain, agents, today, draw, [cv]) == RunStages(Chain[2..], agents, today, draw, [cv, a, b])
  {
    assert [cv] + [a] == [cv, a];
    assert NodeUpdate(CompareMatchStage, agents, today, draw, [cv]) == Success([cv, a]);
    assert Absorb([cv], [cv, a]) == [cv, a];
    RunStagesStep(Chain, agents, today, draw, [cv]);
    assert [cv, a] + [b] == [cv, a, b];
    assert NodeUpdate(ScoreNextStepStage, agents, today, draw, [cv, a]) == Success([cv, a, b]);
    assert Absorb([cv, a], [cv, a, b]) == [cv, a, b];
    RunStagesStep(Chain[1..], agents, today, draw, [cv, a]);
    assert Chain[1..][1..] == Chain[2..];
  }

  /** With a conforming email agent, the email node appends the post-processed email as the fourth entry. */
  lemma ConformingEmailStage(agents: Agents, today: Date, draw: Time, cv: Message, cm: CompareMatch,
                             sc: ScoreNextStep, em: CreateEmail)
    requires ValidDate(today) && IsDraw(draw)
    requires agents.createEmail([cv, CompareMatchMessage(cm), ScoreNextStepMessage(sc)])
             == Success(CreateEmailMessage(em))
    requires PostProcess(em.email, cm.candidateName, today, draw).Success?
    ensures var m2 := [cv, CompareMatchMessage(cm), ScoreNextStepMessage(sc)];
      && NodeUpdate(CreateEmailStage, agents, today, draw, m2).Success?
      && Absorb(m2, NodeUpdate(CreateEmailStage, agents, today, draw, m2).value)
         == m2 + [CreateEmailMessage(CreateEmail(PostProcess(em.email, cm.candidateName, today, draw).value))]
  {
    var m2 := [cv, CompareMatchMessage(cm), ScoreNextStepMessage(sc)];
    var post := PostProcess(em.email, cm.candidateName, today, draw).value;
    assert LookupString(m2[1], CandidateNameKey) == Success(cm.candidateName);
    assert LookupString(CreateEmailMessage(em), EmailKey) == Success(em.email);
    var rebuilt := RebuildMessages(m2, CreateEmailMessage(CreateEmail(post)));
    assert NodeUpdate(CreateEmailStage, agents, today, draw, m2) == Success(rebuilt);
  }

  /**
   * When every agent answers with its schema's record, the screening returns
   * the compareMatch analyses, the score, the post-processed email and the
   * questions.
   */
  lemma ConformingRun(cvText: string, agents: Agents, today: Date, draw: Time,
                      cm: CompareMatch, sc: ScoreNextStep, em: CreateEmail, qs: CreateInterviewQuestion)
    requires ValidDate(today) && IsDraw(draw)
    requires agents.compareMatch([Message(Human, Plain(cvText))]) == Success(CompareMatchMessage(cm))
    requires agents.scoreNextStep([Message(Human, Plain(cvText)), CompareMatchMessage(cm)])
             == Success(ScoreNextStepMessage(sc))
    requires agents.createEmail([Message(Human, Plain(cvText)), CompareMatchMessage(cm), ScoreNextStepMessage(sc)])
             == Success(CreateEmailMessage(em))
    requires PostProcess(em.email, cm.candidateName, today, draw).Success?
    requires agents.createInterviewQuestion(
               [Message(Human, Plain(cvText)), CompareMatchMessage(cm), ScoreNextStepMessage(sc),
                CreateEmailMessage(CreateEmail(PostProcess(em.email, cm.candidateName, today, draw).value))])
             == Success(CreateInterviewQuestionMessage(qs))
    ensures Screen(cvText, agents, today, draw) == Success(ScreeningResult(
      Str(cm.minimalRequirementsAnalysis), Str(cm.preferredRequirementsAnalysis),
      Str(cm.strengths), Str(cm.potentialGaps), Int(sc.score),
      Str(PostProcess(em.email, cm.candidateName, today, draw).value), Str(qs.questions)))
  {
    var post := PostProcess(em.email, cm.candidateName, today, draw).value;
    ConformingMessages(cvText, agents, today, draw, cm, sc, em, qs);
    ConformingAssembly(Message(Human, Plain(cvText)), cm, sc, CreateEmail(post), qs);
  }

  /** The result assembled from the résumé entry and the four records' messages holds the records' fields. */
  lemma ConformingAssembly(cv: Message, cm: CompareMatch, sc: ScoreNextStep, em: CreateEmail,
                           qs: CreateInterviewQuestion)
    ensures AssembleResult([cv, CompareMatchMessage(cm), ScoreNextStepMessage(sc), CreateEmailMessage(em),
                            CreateInterviewQuestionMessage(qs)])
            == Success(ScreeningResult(
                 Str(cm.minimalRequirementsAnalysis), Str(cm.preferredRequirementsAnalysis),
                 Str(cm.strengths), Str(cm.potentialGaps), Int(sc.score), Str(em.email), Str(qs.questions)))
  {
    var msgs := [cv, CompareMatchMessage(cm), ScoreNextStepMessage(sc), CreateEmailMessage(em),
                 CreateInterviewQuestionMessage(qs)];
    assert HasKey(msgs, 1, MinimalRequirementsKey) && HasKey(msgs, 1, PreferredRequirementsKey);
    assert HasKey(msgs, 1, StrengthsKey) && HasKey(msgs, 1, PotentialGapsKey);
    assert HasKey(msgs, 2, ScoreKey) && HasKey(msgs, 3, EmailKey) && HasKey(msgs, 4, QuestionsKey);
  }
}
