# Candidate-screening pipeline: a Dafny model

This project models the core of a résumé-screening service built on a
LangGraph state graph (`runtime/langgraph_agentcore.py`). The graph runs four
model-backed stages in a fixed chain:

1. compareMatch: the requirement analyses and the candidate's name;
2. scoreNextStep: a score;
3. createEmail: a rejection or interview email;
4. createInterviewQuestion: the interview questions.

The stages share one message list. Entry 0 is the résumé text, and entries 1
to 4 hold the stages' JSON outputs.

The model covers:

- the email stage's deterministic post-processing:
  - `[CANDIDATE_NAME]` is replaced by the extracted name;
  - when both `[INTERVIEW_DATE]` and `[INTERVIEW_TIME]` remain, the date
    today + 3 days (`DD-MM-YYYY`) and the adjusted random time (`HH:MM PM`)
    are filled in;
  - the message list is rebuilt with its last entry swapped;
- the wiring of the graph and the run of the four nodes over the shared
  state;
- the assembly of the 7-tuple result from entries 1 to 4.

The four model-backed agents are opaque function parameters
(`Records.Agent`). The current date and the random (hour, minute) draw are
also parameters. Every Python exception on these paths is an `Error` value
in a `Result`:

- `IndexError`;
- `JsonDecodeError`;
- `TypeError`, for JSON content that is not an object but is read with a key;
- `KeyError(key)`;
- `WrongType(key)`, for `.replace` applied to a non-string;
- `OverflowError`, for a date past 31 December 9999;
- the agents' own failures.

Modules, one per file:

| file | module | contents |
|---|---|---|
| wrappers.dfy | `Wrappers` | `Option`, `Result` |
| text.dfy | `Text` | `pat in s`, `s.find`, `s.replace`, `s.split`, `sep.join`, and the lemmas relating `replace` to `split` and `join` |
| numerals.dfy | `Numerals` | zero-padded decimal fields and their reading back |
| calendar.dfy | `Calendar` | proleptic Gregorian dates, `toordinal()`, `date + timedelta(days=n)`, `%d-%m-%Y` |
| clock.dfy | `Clock` | the draw, its 16:30 → 16:00 adjustment, `%I:%M %p` |
| records.dfy | `Records` | JSON values, messages, the four stage schemas, key lookup, errors |
| email.dfy | `EmailPostProcessing` | `createEmailNode` |
| pipeline.dfy | `Pipeline` | graph edges, node run, result assembly |

### Behaviour worth knowing

- **Leftover placeholders.** `str.replace` makes one left-to-right pass and
  never rescans its output, so post-processing can leave a placeholder
  behind, and a second pass can then change the text:
  - `EmailPostProcessing.NestedPlaceholderSurvives` shows that
    `[CANDIDATE_[CANDIDATE_NAME]NAME]` with an empty name becomes
    `[CANDIDATE_NAME]`.
  - `EmailPostProcessing.LetterNameCompletesPlaceholder` shows that
    `[CANDID[CANDIDATE_NAME]TE_NAME]` with the name `A` becomes
    `[CANDIDATE_NAME]`.
  - A name that itself contains a placeholder is inserted as is.

  Each placeholder has exactly one `[`, its first character, and exactly one
  `]`, its last. Suppose a name has neither bracket and has a character that
  occurs in no placeholder (`InertText`). Then no placeholder occurrence can
  start in it, end in it or cover it, and none is left. For such names the
  model proves that scheduling leaves no placeholder
  (`ScheduledPlaceholdersResolved`) and that a second pass changes nothing
  (`PostProcessIdempotent`). The date and time texts always have this
  property.
- **Missing or non-string name.** A missing `candidate_name` raises
  `KeyError`. Content of entry 1 that is JSON but not an object raises
  `TypeError`. A non-string name raises `TypeError` inside `.replace`. The
  model returns `KeyError`, `TypeError` and `WrongType` for these.
- **The name takes part in the scheduling test.** Post-processing fails only
  with `OverflowError`, and only when both scheduling placeholders remain
  after the name is substituted and today + 3 days is past 31 December 9999.
  The name raises nothing of its own, but it can add or complete those
  placeholders: on 30 December 9999 the body `[CANDIDATE_NAME]` fails with
  the name `[INTERVIEW_DATE][INTERVIEW_TIME]` and succeeds with the empty
  name (`NameRequestsScheduling`).

## Model

| member | source | states |
|---|---|---|
| Records.Lookup | runtime/langgraph_agentcore.py:124-126 | `json.loads(content)[key]` succeeds exactly when the content is a JSON object holding `key`, and yields that value. Otherwise it fails with `KeyError(key)` for an object, `TypeError` for JSON that is not an object, and `JsonDecodeError` for content that does not parse |
| Records.LookupString | runtime/langgraph_agentcore.py:131-135 | the looked-up value succeeds as a string exactly when the lookup succeeds with a string; a non-string value is `WrongType(key)`, and a failed lookup keeps its error |
| Text.Find | runtime/langgraph_agentcore.py:137 | the result is an occurrence with no occurrence before it, and there is no result exactly when `pat in s` is false |
| Text.Contains | runtime/langgraph_agentcore.py:137 | `pat in s` holds exactly when `pat` occurs at some index. Its link to the scan is stated by `Text.Find`, which reports nothing exactly when `Contains` is false |
| Text.FindAt | runtime/langgraph_agentcore.py:135 | an occurrence with no occurrence before it is the one the scan reports |
| Text.ScanStep | runtime/langgraph_agentcore.py:135 | at the leftmost occurrence the text splits as before + `pat` + rest; `replace` emits before + `rep` and continues on the rest; `split` and `count` step the same way |
| Text.ReplaceAll | runtime/langgraph_agentcore.py:135 | `s.replace(pat, rep)` replaces the leftmost occurrence and continues after it. `Text.ReplaceAllJoinsSplit`, `Text.JoinSplit` and `Text.SplitPiecesAvoid` state what it computes, and `Text.ReplaceAllSelf` states that replacing a pattern by itself changes nothing |
| Text.JoinSplit | runtime/langgraph_agentcore.py:135 | `pat.join(s.split(pat)) == s`: the pieces and the separators rebuild the text |
| Text.ReplaceAllJoinsSplit | runtime/langgraph_agentcore.py:135 | `s.replace(pat, rep) == rep.join(s.split(pat))`, and there is one more piece than replaced occurrences |
| Text.SplitPiecesAvoid | runtime/langgraph_agentcore.py:135 | no piece of `s.split(pat)` contains `pat`: every occurrence is cut out |
| Text.ReplaceAllLength | runtime/langgraph_agentcore.py:135 | the length changes by `len(rep) - len(pat)` per replaced occurrence |
| Text.ReplaceAllAbsent | runtime/langgraph_agentcore.py:135 | text without an occurrence is returned unchanged, with count 0 |
| Text.ReplaceAllSelf | runtime/langgraph_agentcore.py:135 | replacing a pattern by itself gives back the text |
| Text.ReplaceAllAvoids | runtime/langgraph_agentcore.py:152-153 | suppose `q` cannot start or end inside `rep`, and `rep` has a character outside `q`. Then the output holds no `q`: the replaced pattern itself is gone, and text free of any other `q` stays free of it |
| Numerals.PadDigits | runtime/langgraph_agentcore.py:141 | a padded field has exactly the requested width and only digits |
| Numerals.DecimalValueOfPadDigits | runtime/langgraph_agentcore.py:141 | a zero-padded field reads back as its number whenever the number fits the width |
| Calendar.DaysInMonth | runtime/langgraph_agentcore.py:140 | every month has 28 to 31 days |
| Calendar.ToOrdinal | runtime/langgraph_agentcore.py:139-140 | the ordinal of a valid date lies within its year's block: above the days of the earlier years and at most their count plus the year's length. `Calendar.OrdinalMonotone`, `Calendar.OrdinalInjective` and `Calendar.OrdinalRange` relate ordinals to calendar order |
| Calendar.OrdinalMonotone | runtime/langgraph_agentcore.py:139-140 | the day ordinal (`toordinal()`) strictly increases in calendar order |
| Calendar.OrdinalInjective | runtime/langgraph_agentcore.py:139-140 | two valid dates with the same ordinal are the same date |
| Calendar.OrdinalRange | runtime/langgraph_agentcore.py:140 | ordinals run from 1 to 3652059, and only 31 December 9999 has the largest |
| Calendar.NextDay | runtime/langgraph_agentcore.py:140 | the next day is a valid date whose ordinal is one more, and there is none exactly after 31 December 9999 |
| Calendar.AddDays | runtime/langgraph_agentcore.py:140 | a successful `date + timedelta(days=n)` is a valid date |
| Calendar.AddDaysOrdinal | runtime/langgraph_agentcore.py:140 | adding `n` days moves the ordinal by exactly `n`, and overflows exactly when that passes the last date |
| Calendar.AddDaysUnique | runtime/langgraph_agentcore.py:140 | the sum is the one valid date whose ordinal is `n` more |
| Calendar.FormatDate | runtime/langgraph_agentcore.py:141 | `%d-%m-%Y` prints ten characters: two digits, '-', two digits, '-', four digits |
| Calendar.ParseFormatDate | runtime/langgraph_agentcore.py:141 | the printed date reads back as the same date |
| Clock.AdjustDraw | runtime/langgraph_agentcore.py:144-147 | the adjusted draw is a valid time between 13:00 and 16:00 with the drawn hour and minute 0 or 30; it is never 16:30, and any other draw is left alone |
| Clock.Hour12 | runtime/langgraph_agentcore.py:149 | `%I` is between 1 and 12 |
| Clock.Hour12Inverse | runtime/langgraph_agentcore.py:149 | `%I` and `%p` together give back the 24-hour hour |
| Clock.FormatTime12 | runtime/langgraph_agentcore.py:148-149 | `%I:%M %p` prints two digits, ':', two digits, ' ', then AM before noon and PM from noon |
| Clock.ParseFormatTime12 | runtime/langgraph_agentcore.py:148-149 | the printed time reads back as the same time |
| Clock.WindowTimeTexts | runtime/langgraph_agentcore.py:144-149 | the seven start times from 13:00 to 16:00 print as `01:00 PM` … `04:00 PM` |
| Clock.AdjustedDrawFormat | runtime/langgraph_agentcore.py:144-149 | every adjusted draw prints as one of the seven window times, in the afternoon, never `04:30 PM` |
| Clock.WindowTimesReachable | runtime/langgraph_agentcore.py:144-149 | every window time is printed for some draw, so the window is exactly those seven |
| EmailPostProcessing.InterviewDate | runtime/langgraph_agentcore.py:139-141 | the interview date text reads back as the date three days after today; there is none exactly when that passes 31 December 9999 |
| EmailPostProcessing.LeapInterviewDate | runtime/langgraph_agentcore.py:139-141 | three days after 27 February 2024, a leap year, prints as `01-03-2024` |
| EmailPostProcessing.PrintedDate | runtime/langgraph_agentcore.py:141 | 1 March 2024 prints as `01-03-2024` |
| EmailPostProcessing.LastDaysOverflow | runtime/langgraph_agentcore.py:140 | three days after 29 December 9999 is past the last date, so there is no interview date (Python's OverflowError) |
| EmailPostProcessing.InterviewTime | runtime/langgraph_agentcore.py:143-149 | the interview time text is a window time other than `04:30 PM` and reads back as the adjusted draw |
| EmailPostProcessing.NameSubstitution | runtime/langgraph_agentcore.py:135 | `SubstituteName`, line 135: the body is its placeholder-free pieces joined by `[CANDIDATE_NAME]`; the result joins the same pieces with the name; the length changes by `len(name) - 16` per occurrence |
| EmailPostProcessing.PostProcess | runtime/langgraph_agentcore.py:135-153 | post-processing fails exactly when `SchedulingRequested` (line 137) holds after name substitution and today + 3 days is past the last date, and then with `OverflowError`. Without both placeholders the result is the name-substituted body. With them, the date text `InterviewDate(today)` joins the pieces between date placeholders, and the time text `InterviewTime(draw)` joins the pieces of that between time placeholders (lines 152-153) |
| EmailPostProcessing.NameRequestsScheduling | runtime/langgraph_agentcore.py:135-140 | a name holding both scheduling placeholders turns scheduling on: on 30 December 9999 the body `[CANDIDATE_NAME]` fails with `OverflowError` with that name and gives the empty text with the empty name |
| EmailPostProcessing.DigitNotPlaceholderChar | runtime/langgraph_agentcore.py:141 | no digit occurs in a placeholder |
| EmailPostProcessing.DateTextInert | runtime/langgraph_agentcore.py:141 | the interview date text has no bracket and starts with a digit, which is in no placeholder, so it cannot help form one |
| EmailPostProcessing.DateShapeInert | runtime/langgraph_agentcore.py:141 | any `DD-MM-YYYY` text of digits and dashes is inert: no bracket, and a leading digit that is in no placeholder |
| EmailPostProcessing.TimeTextInert | runtime/langgraph_agentcore.py:149 | the interview time text has no bracket and starts with a digit, which is in no placeholder, so it cannot help form one |
| EmailPostProcessing.ScheduledPlaceholdersResolved | runtime/langgraph_agentcore.py:137-153 | once the schedule is filled in, no date or time placeholder is left. For a name without brackets that has a character outside the placeholders, no name placeholder is left either |
| EmailPostProcessing.CleanBodyUnchanged | runtime/langgraph_agentcore.py:135-153 | a body without the name placeholder and without both scheduling placeholders comes back unchanged, whatever the name, date and draw |
| EmailPostProcessing.PostProcessIdempotent | runtime/langgraph_agentcore.py:135-153 | for a name without brackets that has a character outside the placeholders, processing the output again with any name, date and draw returns it unchanged |
| EmailPostProcessing.NestedFind | runtime/langgraph_agentcore.py:135 | in `[CANDIDATE_[CANDIDATE_NAME]NAME]` the leftmost placeholder is the inner one, at index 11 |
| EmailPostProcessing.NestedNameSubstitution | runtime/langgraph_agentcore.py:135 | replacing with an empty name turns `[CANDIDATE_[CANDIDATE_NAME]NAME]` into `[CANDIDATE_NAME]` |
| EmailPostProcessing.PlainNameSubstitution | runtime/langgraph_agentcore.py:135-137 | `[CANDIDATE_NAME]` with the name `Jane` becomes `Jane`, and neither text requests scheduling |
| EmailPostProcessing.NestedPlaceholderSurvives | runtime/langgraph_agentcore.py:135 | post-processing can leave a name placeholder behind, and a second pass then changes the text: it is not idempotent in general |
| EmailPostProcessing.LetterNameCompletesPlaceholder | runtime/langgraph_agentcore.py:135 | `[CANDID[CANDIDATE_NAME]TE_NAME]` with the bracket-free name `A` becomes `[CANDIDATE_NAME]`, and `A` is not inert: the character condition on the name is needed |
| EmailPostProcessing.LetterNotInert | runtime/langgraph_agentcore.py:135 | `A` has no bracket, but its one character occurs in the placeholders |
| EmailPostProcessing.RebuildMessages | runtime/langgraph_agentcore.py:160 | `messages[:-1] + [updated]` keeps the length of a non-empty list, keeps every entry but the last, and ends with `updated` |
| EmailPostProcessing.CreateEmailNode | runtime/langgraph_agentcore.py:122-161 | the email node fails with `IndexError` without entry 1. A failed name lookup on entry 1 gives that failure: `KeyError`, `TypeError` or `JsonDecodeError`. A failure of the email agent, or of the `email` lookup in its reply, is the node's failure unchanged. A non-string email is `WrongType(email)` (`.replace` on it, line 135), a string email with a non-string name is `WrongType(candidate_name)`, and an interview date past the last date is `OverflowError` (line 140). The node succeeds exactly when the name and the agent's email are strings and post-processing succeeds. Then the list keeps its length and all entries but the last, which becomes the post-processed email |
| Pipeline.OutDegreeOf | runtime/langgraph_agentcore.py:195-199 | START and every node have exactly one outgoing edge, END none |
| Pipeline.WalkWorkflow | runtime/langgraph_agentcore.py:195-200 | following the edges from START reaches END through compareMatch, scoreNextStep, createEmail, createInterviewQuestion |
| Pipeline.WorkflowIsChain | runtime/langgraph_agentcore.py:189-200 | the graph is a chain: one edge out of START and each node, none out of END, and each of the four nodes runs exactly once in that order |
| Pipeline.OnceInOrder | runtime/langgraph_agentcore.py:190-193 | each of the four nodes appears once in the execution order |
| Pipeline.ExecutionOrderIsChain | runtime/langgraph_agentcore.py:195-199 | the order the graph runs its nodes in is the chain of the four nodes |
| Pipeline.NodeAppendsOne | runtime/langgraph_agentcore.py:69-71 | each node adds exactly one entry and leaves earlier entries alone. An agent node (lines 69-71, 88-90, 184-186) adds the agent's reply. The email node (line 160) adds the post-processed email, not the agent's own reply |
| Pipeline.AgentNode | runtime/langgraph_agentcore.py:69-71 | an agent node fails exactly when its agent fails, with the agent's error. Otherwise its update is the messages so far followed by the agent's reply (also lines 88-90 and 184-186) |
| Pipeline.Absorb | runtime/langgraph_agentcore.py:160 | the state takes in a node's update by appending the update's last entry. An update that extends the state by one entry becomes the new state, and the email node's `messages[:-1] + [email]` adds the email after the score entry |
| Pipeline.RunStagesGrows | runtime/langgraph_agentcore.py:221 | a successful run grows the state by one entry per stage, keeping the entries it started with |
| Pipeline.RunStagesStep | runtime/langgraph_agentcore.py:221 | a run continues from the state its first stage leaves, or ends with that stage's error |
| Pipeline.RunGraphRunsStages | runtime/langgraph_agentcore.py:221 | invoking the graph runs the four stages in chain order on the résumé text as the one user message |
| Pipeline.RunGraph | runtime/langgraph_agentcore.py:221 | a finished run of the graph holds five entries, the first the résumé text as the user message |
| Pipeline.RunStagesAppend | runtime/langgraph_agentcore.py:221 | running two sequences of nodes one after the other is running them joined: the first failure ends the run, otherwise the second starts from the state the first left |
| Pipeline.StageFailureAborts | runtime/langgraph_agentcore.py:221-222 | when the first `k` nodes succeed and node `k` fails, for any of the four nodes, the screening fails with that node's error and assembles nothing |
| Pipeline.RunGraphShape | runtime/langgraph_agentcore.py:221-222 | a finished run holds five entries: the résumé text, then each node's entry, each computed from exactly the entries before it |
| Pipeline.RunGraphSteps | runtime/langgraph_agentcore.py:195-199 | a finished run is the four node updates taken in turn, each on the entries before it, in the wired order |
| Pipeline.EmailEntry | runtime/langgraph_agentcore.py:155-160 | the entry the email node adds is the post-processed email of the agent's reply, with the name read from entry 1 |
| Pipeline.ConformingRun | runtime/langgraph_agentcore.py:215-247 | when every agent answers with its schema's record, the screening returns the four analyses, the score, the post-processed email and the questions |
| Pipeline.AssembleResult | runtime/langgraph_agentcore.py:227-243 | assembly succeeds exactly when entries 1 to 4 exist and hold their keys. The tuple then holds those fields in the returned order. A failure is `IndexError`, `JsonDecodeError`, `TypeError` or the `KeyError` of one of the seven keys, never a default. Each is tied to its cause: fewer than two entries is `IndexError`, and `IndexError` only with fewer than five. `JsonDecodeError` means a read entry does not parse, and `TypeError` that one is not an object. `KeyError(key)` means the entry that `key` is read from is an object without it. With five entries, all objects, a failure is a `KeyError` |
| Pipeline.Screen | runtime/langgraph_agentcore.py:215-247 | a failed run is the screening's failure. A successful run gives the assembly of its messages, so the seven fields follow `Pipeline.AssembleResult`. A successful screening's email is the post-processed email of the email agent's reply, with the name from entry 1 |
| Pipeline.ConformingMessages | runtime/langgraph_agentcore.py:215-222 | when every agent answers with its schema's record, the run ends with the résumé entry and the four records' messages, the email's holding the post-processed text |
| Pipeline.RunFirstTwo | runtime/langgraph_agentcore.py:195-197 | when the first two agents answer, the first two nodes append their replies in order |
| Pipeline.ConformingEmailStage | runtime/langgraph_agentcore.py:122-161 | with a conforming email agent, the email node appends the post-processed email as the fourth entry |
| Pipeline.RunLastTwo | runtime/langgraph_agentcore.py:197-199 | when the email node appends an email and the questions agent answers, the run ends with both |
| Pipeline.RunWithEmail | runtime/langgraph_agentcore.py:195-199 | when the agents answer in turn and the email node appends its email, the run ends with the résumé entry followed by the four entries |
| Pipeline.ConformingAssembly | runtime/langgraph_agentcore.py:227-243 | the tuple assembled from the four records' messages holds exactly the records' fields |

## Left out

- `extract_cv` (lines 203-212) is left out. It downloads the PDF from S3 and extracts the first page with pypdf. The model starts from the extracted text. The unreachable `os.remove` after its `return` is not modelled.
- Deleting the PDF from S3 (line 246) and reading the payload (line 217) are I/O and are left out.
- Reading secrets, creating the chat model and the service wrapper (lines 1-29) are left out.
- The system prompts are left out, and so are the wording they ask for (rejection or invitation by score, the "no questions" sentinel) and the score range. That content is produced by the model, not by pipeline code. The agents are parameters of the model.
- `create_agent` may return tool-call messages besides its final reply. The model's agent returns one reply, appended to the messages it was given.
- The LangGraph `add_messages` reducer and `Command` are left out. They merge a node's update into the state by message id. `Pipeline.Absorb` keeps the entries already there and appends the update's last entry, which is what that merge does for the updates these nodes return.
- `json.loads` and `json.dumps` are left out: message content is already parsed, into an object (`Json`), JSON that is not an object (`NonObject`, which gives `TypeError` when read with a key), or text that does not parse (`Plain`). JSON values other than strings and integers (floats, booleans, null, arrays, objects) are one `OtherJson` case.
- `datetime.date.today()` and `random.randint` / `random.choice` are left out; the date and the draw are parameters. The draw ranges over hour 13 to 16 and minute 0 or 30, each combination allowed, so nothing about their distribution is modelled.
- Calendar.FormatDate: prints `%Y` as four zero-padded digits. Some C libraries print years below 1000 without padding. Only today + 3 days is printed, so this matters only for a clock set before year 1000.
- Clock.FormatTime12: prints `%p` as the C locale's `AM`/`PM`. Other locales are not modelled.
- Text.ReplaceAll: requires a non-empty pattern. Python's `replace` with an empty pattern inserts `rep` between characters, but the code only replaces the three fixed placeholders.
- Pipeline.Walk: follows at most as many edges as the graph has. This is enough for any path in a graph without cycles, which the wiring is.
- EmailPostProcessing.ScheduledPlaceholdersResolved: proves that no name placeholder remains only for a name with no bracket and a character outside the placeholders. Without that condition the code can leave one: the empty name in `NestedPlaceholderSurvives` and the name `A` in `LetterNameCompletesPlaceholder` both do.
- EmailPostProcessing.PostProcessIdempotent: holds only for a name with no bracket and a character outside the placeholders, for the same reason.
- `invoke-agent.py` and `deploy-runtime.py` are client and deployment scripts and are not part of this model.
