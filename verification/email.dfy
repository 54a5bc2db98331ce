/**
 * The email stage's deterministic post-processing (`createEmailNode`): the
 * candidate's name replaces every `[CANDIDATE_NAME]`; when the result still
 * holds both `[INTERVIEW_DATE]` and `[INTERVIEW_TIME]`, the interview date
 * (today plus three days) and time (the adjusted draw) replace them; and the
 * message list is rebuilt with its last entry swapped for the new email.
 * "Today" and the random draw are parameters.
 */
module EmailPostProcessing {
  import opened Wrappers
  import opened Text
  import opened Numerals
  import opened Calendar
  import opened Clock
  import opened Records

  const CandidateNamePlaceholder: string := "[CANDIDATE_NAME]"
  const InterviewDatePlaceholder: string := "[INTERVIEW_DATE]"
  const InterviewTimePlaceholder: string := "[INTERVIEW_TIME]"

  /** How many days after today the interview is held. */
  const InterviewLeadDays: nat := 3

  /** Every character that occurs in one of the three placeholders. */
  const PlaceholderChars: string :=
    CandidateNamePlaceholder + InterviewDatePlaceholder + InterviewTimePlaceholder

  /**
   * A replacement text that cannot help form a placeholder. Each placeholder
   * holds one '[', its first character, and one ']', its last. A text with
   * neither bracket can therefore only lie wholly inside a placeholder
   * occurrence, and a character that occurs in no placeholder rules that out.
   */
  predicate InertText(rep: string) {
    && '[' !in rep && ']' !in rep
    && exists k :: 0 <= k < |rep| && rep[k] !in PlaceholderChars
  }

  /** An inert text meets the conditions of `ReplaceAllAvoids` for each of the three placeholders. */
  lemma InertAgainst(rep: string, q: string)
    requires InertText(rep)
    requires q == CandidateNamePlaceholder || q == InterviewDatePlaceholder || q == InterviewTimePlaceholder
    ensures |q| > 0 && q[0] !in rep && q[|q| - 1] !in rep
    ensures exists k :: 0 <= k < |rep| && rep[k] !in q
  {
    var k :| 0 <= k < |rep| && rep[k] !in PlaceholderChars;
    assert rep[k] !in q;
  }

  /** Line 135: every `[CANDIDATE_NAME]` becomes the name. */
  function SubstituteName(body: string, name: string): string {
    ReplaceAll(body, CandidateNamePlaceholder, name)
  }

  /** The test on line 137: both scheduling placeholders are present. */
  predicate SchedulingRequested(body: string) {
    Contains(body, InterviewDatePlaceholder) && Contains(body, InterviewTimePlaceholder)
  }

  /** Lines 139-141: today plus three days as `DD-MM-YYYY`; None for Python's OverflowError. */
  function InterviewDate(today: Date): (r: Option<string>)
    requires ValidDate(today)
    ensures r.None? <==> ToOrdinal(today) + InterviewLeadDays > MaxOrdinal
    ensures r.Some? ==> |r.value| == 10 && r.value[2] == '-' && r.value[5] == '-'
    ensures r.Some? ==> ParseDate(r.value).Some?
    ensures r.Some? ==> ToOrdinal(ParseDate(r.value).value) == ToOrdinal(today) + InterviewLeadDays
  {
    AddDaysOrdinal(today, InterviewLeadDays);
    match AddDays(today, InterviewLeadDays)
    case None => None
    case Some(d) =>
      ParseFormatDate(d);
      Some(FormatDate(d))
  }

  /** Lines 144-149: the adjusted draw as `HH:MM PM`. */
  function InterviewTime(draw: Time): (s: string)
    requires IsDraw(draw)
    ensures s in WindowTimes && s != "04:30 PM"
    ensures ParseTime12(s) == Some(AdjustDraw(draw))
  {
    AdjustedDrawFormat(draw);
    ParseFormatTime12(AdjustDraw(draw));
    FormatTime12(AdjustDraw(draw))
  }

  /** Three days after 27 February 2024, a leap year, is 1 March 2024. */
  lemma LeapInterviewDate()
    ensures InterviewDate(Date(2024, 2, 27)) == Some("01-03-2024")
  {
    assert NextDay(Date(2024, 2, 27)) == Some(Date(2024, 2, 28));
    assert NextDay(Date(2024, 2, 28)) == Some(Date(2024, 2, 29));
    assert NextDay(Date(2024, 2, 29)) == Some(Date(2024, 3, 1));
    assert AddDays(Date(2024, 2, 27), 3) == Some(Date(2024, 3, 1));
    PrintedDate();
  }

  lemma PrintedDate()
    ensures FormatDate(Date(2024, 3, 1)) == "01-03-2024"
  {
    PadTwoDigits(1);
    PadTwoDigits(3);
    PadTwoDigits(20);
    assert PadDigits(202, 3) == PadDigits(20, 2) + [DigitChar(2)];
    assert PadDigits(2024, 4) == PadDigits(202, 3) + [DigitChar(4)];
    assert DigitChar(0) == '0' && DigitChar(1) == '1' && DigitChar(2) == '2';
    assert DigitChar(3) == '3' && DigitChar(4) == '4';
  }

  /** Three days after 29 December 9999 is past the last date: the interview date overflows. */
  lemma LastDaysOverflow()
    ensures InterviewDate(Date(9999, 12, 29)).None?
  {
    assert NextDay(Date(9999, 12, 29)) == Some(Date(9999, 12, 30));
    assert NextDay(Date(9999, 12, 30)) == Some(Date(9999, 12, 31));
    assert NextDay(Date(9999, 12, 31)) == None;
    assert AddDays(Date(9999, 12, 29), 3) == None;
  }

  /**
   * Lines 135-153: the post-processing of the email body. It fails only with
   * `OverflowError`, and only when both scheduling placeholders remain after
   * the name is substituted and today plus three days is past the last date.
   * Without both placeholders the name-substituted body is the result; with
   * them, the pieces between date placeholders are joined by the date text,
   * and the pieces of that between time placeholders by the time text.
   */
  function PostProcess(body: string, name: string, today: Date, draw: Time): (r: Result<string, Error>)
    requires ValidDate(today) && IsDraw(draw)
    ensures r.Failure? <==> SchedulingRequested(SubstituteName(body, name))
                            && ToOrdinal(today) + InterviewLeadDays > MaxOrdinal
    ensures r.Failure? ==> r.error == OverflowError
    ensures !SchedulingRequested(SubstituteName(body, name)) ==> r == Success(SubstituteName(body, name))
    ensures SchedulingRequested(SubstituteName(body, name)) && r.Success? ==>
      && InterviewDate(today).Some?
      && var dated := Join(Split(SubstituteName(body, name), InterviewDatePlaceholder), InterviewDate(today).value);
         r.value == Join(Split(dated, InterviewTimePlaceholder), InterviewTime(draw))
  {
    var named := SubstituteName(body, name);
    if SchedulingRequested(named) then
      match InterviewDate(today)
      case None => Failure(OverflowError)
      case Some(date) =>
        var dated := ReplaceAll(named, InterviewDatePlaceholder, date);
        ReplaceAllJoinsSplit(named, InterviewDatePlaceholder, date);
        ReplaceAllJoinsSplit(dated, InterviewTimePlaceholder, InterviewTime(draw));
        Success(ReplaceAll(dated, InterviewTimePlaceholder, InterviewTime(draw)))
    else
      Success(named)
  }

  /**
   * Name substitution is `name.join(body.split("[CANDIDATE_NAME]"))`: the body
   * is its placeholder-free pieces joined by the placeholder, each occurrence
   * is replaced, and the length changes by `|name| - 16` per occurrence.
   */
  lemma NameSubstitution(body: string, name: string)
    ensures var pieces := Split(body, CandidateNamePlaceholder);
      && body == Join(pieces, CandidateNamePlaceholder)
      && SubstituteName(body, name) == Join(pieces, name)
      && |pieces| == Count(body, CandidateNamePlaceholder) + 1
      && (forall k :: 0 <= k < |pieces| ==> !Contains(pieces[k], CandidateNamePlaceholder))
    ensures |SubstituteName(body, name)|
            == |body| + Count(body, CandidateNamePlaceholder) * (|name| - |CandidateNamePlaceholder|)
    ensures |CandidateNamePlaceholder| == 16
  {
    JoinSplit(body, CandidateNamePlaceholder);
    ReplaceAllJoinsSplit(body, CandidateNamePlaceholder, name);
    SplitPiecesAvoid(body, CandidateNamePlaceholder);
    ReplaceAllLength(body, CandidateNamePlaceholder, name);
  }

  /** No placeholder character is a digit, so a numeral cannot start a placeholder. */
  lemma DigitNotPlaceholderChar(c: char)
    requires IsDigit(c)
    ensures c !in PlaceholderChars
  {
    assert forall k :: 0 <= k < |CandidateNamePlaceholder| ==> !IsDigit(CandidateNamePlaceholder[k]);
    assert forall k :: 0 <= k < |InterviewDatePlaceholder| ==> !IsDigit(InterviewDatePlaceholder[k]);
    assert forall k :: 0 <= k < |InterviewTimePlaceholder| ==> !IsDigit(InterviewTimePlaceholder[k]);
  }

  lemma DateTextInert(today: Date)
    requires ValidDate(today)
    ensures InterviewDate(today).Some? ==> InertText(InterviewDate(today).value)
  {
    AddDaysOrdinal(today, InterviewLeadDays);
    if AddDays(today, InterviewLeadDays).Some? {
      var d := AddDays(today, InterviewLeadDays).value;
      assert InterviewDate(today).value == FormatDate(d);
      DateShapeInert(FormatDate(d));
    }
  }

  /** A `DD-MM-YYYY` text is inert: digits and dashes, and it starts with a digit. */
  lemma DateShapeInert(s: string)
    requires |s| == 10 && s[2] == '-' && s[5] == '-'
    requires AllDigits(s[0..2]) && AllDigits(s[3..5]) && AllDigits(s[6..10])
    ensures InertText(s)
  {
    forall k | 0 <= k < |s|
      ensures s[k] == '-' || IsDigit(s[k])
    {
      if k < 2 {
        assert s[0..2][k] == s[k];
      } else if 2 < k < 5 {
        assert s[3..5][k - 3] == s[k];
      } else if 5 < k {
        assert s[6..10][k - 6] == s[k];
      }
    }
    assert IsDigit(s[0]);
    DigitNotPlaceholderChar(s[0]);
    assert s[0] !in PlaceholderChars;
  }

  lemma TimeTextInert(draw: Time)
    requires IsDraw(draw)
    ensures InertText(InterviewTime(draw))
  {
    var s := InterviewTime(draw);
    var t := AdjustDraw(draw);
    assert s == FormatTime12(t);
    forall k | 0 <= k < |s|
      ensures s[k] != '[' && s[k] != ']'
    {
      if k < 2 {
        assert s[0..2][k] == s[k];
      } else if 2 < k < 5 {
        assert s[3..5][k - 3] == s[k];
      } else if 5 < k {
        assert s[6..][k - 6] == s[k];
      }
    }
    assert s[0..2][0] == s[0];
    DigitNotPlaceholderChar(s[0]);
    assert s[0] !in PlaceholderChars;
  }

  /**
   * When the schedule is filled in, no `[INTERVIEW_DATE]` or `[INTERVIEW_TIME]`
   * is left, and with an inert name no `[CANDIDATE_NAME]` either.
   */
  lemma ScheduledPlaceholdersResolved(body: string, name: string, today: Date, draw: Time)
    requires ValidDate(today) && IsDraw(draw)
    requires SchedulingRequested(SubstituteName(body, name))
    requires ToOrdinal(today) + InterviewLeadDays <= MaxOrdinal
    ensures PostProcess(body, name, today, draw).Success?
    ensures var out := PostProcess(body, name, today, draw).value;
      && !Contains(out, InterviewDatePlaceholder)
      && !Contains(out, InterviewTimePlaceholder)
      && (InertText(name) ==> !Contains(out, CandidateNamePlaceholder))
  {
    var named := SubstituteName(body, name);
    var date := InterviewDate(today).value;
    var time := InterviewTime(draw);
    DateTextInert(today);
    TimeTextInert(draw);
    var dated := ReplaceAll(named, InterviewDatePlaceholder, date);
    var out := ReplaceAll(dated, InterviewTimePlaceholder, time);
    assert PostProcess(body, name, today, draw).value == out;
    InertAgainst(date, InterviewDatePlaceholder);
    InertAgainst(time, InterviewDatePlaceholder);
    InertAgainst(time, InterviewTimePlaceholder);
    ReplaceAllAvoids(named, InterviewDatePlaceholder, date, InterviewDatePlaceholder);
    ReplaceAllAvoids(dated, InterviewTimePlaceholder, time, InterviewDatePlaceholder);
    ReplaceAllAvoids(dated, InterviewTimePlaceholder, time, InterviewTimePlaceholder);
    if InertText(name) {
      InertAgainst(name, CandidateNamePlaceholder);
      InertAgainst(date, CandidateNamePlaceholder);
      InertAgainst(time, CandidateNamePlaceholder);
      ReplaceAllAvoids(body, CandidateNamePlaceholder, name, CandidateNamePlaceholder);
      ReplaceAllAvoids(named, InterviewDatePlaceholder, date, CandidateNamePlaceholder);
      ReplaceAllAvoids(dated, InterviewTimePlaceholder, time, CandidateNamePlaceholder);
    }
  }

  /** A body holding none of the three placeholders comes back unchanged. */
  lemma CleanBodyUnchanged(body: string, name: string, today: Date, draw: Time)
    requires ValidDate(today) && IsDraw(draw)
    requires !Contains(body, CandidateNamePlaceholder)
    requires !Contains(body, InterviewDatePlaceholder) || !Contains(body, InterviewTimePlaceholder)
    ensures PostProcess(body, name, today, draw) == Success(body)
  {
    ReplaceAllAbsent(body, CandidateNamePlaceholder, name);
  }

  /**
   * With an inert name, post-processing is idempotent: its output, processed
   * again with any name, date and draw, comes back unchanged.
   */
  lemma PostProcessIdempotent(body: string, name: string, today: Date, draw: Time,
                              name': string, today': Date, draw': Time)
    requires ValidDate(today) && IsDraw(draw) && ValidDate(today') && IsDraw(draw')
    requires InertText(name)
    ensures PostProcess(body, name, today, draw).Success? ==>
      var out := PostProcess(body, name, today, draw).value;
      PostProcess(out, name', today', draw') == Success(out)
  {
    if PostProcess(body, name, today, draw).Failure? {
      return;
    }
    var named := SubstituteName(body, name);
    var out := PostProcess(body, name, today, draw).value;
    if SchedulingRequested(named) {
      ScheduledPlaceholdersResolved(body, name, today, draw);
    } else {
      InertAgainst(name, CandidateNamePlaceholder);
      ReplaceAllAvoids(body, CandidateNamePlaceholder, name, CandidateNamePlaceholder);
      assert out == named;
    }
    CleanBodyUnchanged(out, name', today', draw');
  }

  /** Both scheduling placeholders, as a name might carry them. */
  const SchedulingName: string := InterviewDatePlaceholder + InterviewTimePlaceholder

  /**
   * The name takes part in the scheduling test: a name holding both
   * scheduling placeholders turns scheduling on, so on 30 December 9999 the
   * body `[CANDIDATE_NAME]` fails with it and succeeds with the empty name.
   */
  lemma NameRequestsScheduling()
    ensures PostProcess(CandidateNamePlaceholder, SchedulingName, Date(9999, 12, 30), Time(13, 0))
            == Failure(OverflowError)
    ensures PostProcess(CandidateNamePlaceholder, "", Date(9999, 12, 30), Time(13, 0)) == Success("")
  {
    var pat := CandidateNamePlaceholder;
    assert Find(pat, pat) == Some(0);
    ScanStep(pat, pat, SchedulingName);
    ScanStep(pat, pat, "");
    assert pat[16..] == "";
    ScanStop("", pat, SchedulingName);
    assert SubstituteName(pat, SchedulingName) == SchedulingName;
    assert SubstituteName(pat, "") == "";
    assert OccursAt(SchedulingName, InterviewDatePlaceholder, 0);
    assert OccursAt(SchedulingName, InterviewTimePlaceholder, 16);
    assert SchedulingRequested(SchedulingName);
    assert !Contains("", InterviewDatePlaceholder);
    assert NextDay(Date(9999, 12, 30)) == Some(Date(9999, 12, 31));
    assert NextDay(Date(9999, 12, 31)) == None;
    assert AddDays(Date(9999, 12, 30), 3) == None;
  }

  /** `[CANDIDATE_[CANDIDATE_NAME]NAME]`: a placeholder split by another one. */
  const NestedBody: string :=
    CandidateNamePlaceholder[..11] + CandidateNamePlaceholder + CandidateNamePlaceholder[11..]

  /** The leftmost `[CANDIDATE_NAME]` in the nested body is the inner one, at index 11. */
  lemma NestedFind()
    ensures Find(NestedBody, CandidateNamePlaceholder) == Some(11)
  {
    var pat := CandidateNamePlaceholder;
    var body := NestedBody;
    assert body[..11] == pat[..11] && body[11..27] == pat;
    assert forall k :: 0 < k < 11 ==> pat[k] != '[';
    forall j | 0 <= j < 11
      ensures !OccursAt(body, pat, j)
    {
      if j == 0 {
        assert body[0..16][11] == body[11] == pat[0] != pat[11];
      } else {
        assert body[j..j + 16][0] == body[j] == pat[j] != pat[0];
      }
    }
    FindAt(body, pat, 11);
  }

  lemma NestedNameSubstitution()
    ensures SubstituteName(NestedBody, "") == CandidateNamePlaceholder
  {
    var pat := CandidateNamePlaceholder;
    var body := NestedBody;
    NestedFind();
    ScanStep(body, pat, "");
    assert body[..11] == pat[..11] && body[27..] == pat[11..];
    ScanStop(pat[11..], pat, "");
    assert pat[..11] + "" + pat[11..] == pat;
  }

  lemma PlainNameSubstitution()
    ensures SubstituteName(CandidateNamePlaceholder, "Jane") == "Jane"
    ensures !SchedulingRequested(CandidateNamePlaceholder)
    ensures !SchedulingRequested("Jane")
  {
    assert Find(CandidateNamePlaceholder, CandidateNamePlaceholder) == Some(0);
    assert Find("", CandidateNamePlaceholder) == None;
    assert !OccursAt(CandidateNamePlaceholder, InterviewDatePlaceholder, 0) by {
      assert CandidateNamePlaceholder[0..16][1] != InterviewDatePlaceholder[1];
    }
  }

  /**
   * `str.replace` does not rescan its output: a placeholder split by another
   * one survives an empty name, so a second pass changes the text again.
   */
  lemma NestedPlaceholderSurvives(today: Date, draw: Time)
    requires ValidDate(today) && IsDraw(draw)
    ensures PostProcess(NestedBody, "", today, draw)
            == Success(CandidateNamePlaceholder)
    ensures PostProcess(CandidateNamePlaceholder, "Jane", today, draw) == Success("Jane")
  {
    NestedNameSubstitution();
    PlainNameSubstitution();
  }

  /** `[CANDID` + `[CANDIDATE_NAME]` + `TE_NAME]`: the placeholder with its 'A' at index 7 cut out. */
  const LetterGapBody: string :=
    CandidateNamePlaceholder[..7] + CandidateNamePlaceholder + CandidateNamePlaceholder[8..]

  /**
   * A bracket-free name made only of placeholder characters can still
   * complete a placeholder: the name `A` fills the gap in `LetterGapBody`.
   */
  lemma LetterNameCompletesPlaceholder()
    ensures SubstituteName(LetterGapBody, "A") == CandidateNamePlaceholder
    ensures '[' !in "A" && ']' !in "A" && !InertText("A")
  {
    LetterGapSubstitution();
    LetterNotInert();
  }

  /** `A` has no bracket, but its only character occurs in the placeholders. */
  lemma LetterNotInert()
    ensures '[' !in "A" && ']' !in "A" && !InertText("A")
  {
    var a := "A";
    assert |a| == 1 && a[0] == 'A';
    assert PlaceholderChars[2] == 'A';
    assert forall k :: 0 <= k < |a| ==> a[k] in PlaceholderChars;
  }

  lemma LetterGapSubstitution()
    ensures SubstituteName(LetterGapBody, "A") == CandidateNamePlaceholder
  {
    var pat := CandidateNamePlaceholder;
    var body := LetterGapBody;
    LetterGapFind();
    ScanStep(body, pat, "A");
    assert body[..7] == pat[..7] && body[23..] == pat[8..];
    ScanStop(pat[8..], pat, "A");
    assert pat[..7] + "A" + pat[8..] == pat;
  }

  /** The leftmost `[CANDIDATE_NAME]` in `LetterGapBody` is the whole one, at index 7. */
  lemma LetterGapFind()
    ensures Find(LetterGapBody, CandidateNamePlaceholder) == Some(7)
  {
    var pat := CandidateNamePlaceholder;
    var body := LetterGapBody;
    assert body[..7] == pat[..7] && body[7..23] == pat;
    assert forall k :: 0 < k < 7 ==> pat[k] != '[';
    forall j | 0 <= j < 7
      ensures !OccursAt(body, pat, j)
    {
      if j == 0 {
        assert body[0..16][7] == body[7] == pat[0] != pat[7];
      } else {
        assert body[j..j + 16][0] == body[j] == pat[j] != pat[0];
      }
    }
    FindAt(body, pat, 7);
  }

  /** Line 160: `messages[:-1] + [updated]`, the last entry swapped for the new one. */
  function RebuildMessages(messages: seq<Message>, updated: Message): (r: seq<Message>)
    ensures |messages| > 0 ==> |r| == |messages|
    ensures |messages| == 0 ==> |r| == 1
    ensures forall k :: 0 <= k < |r| - 1 ==> r[k] == messages[k]
    ensures r[|r| - 1] == updated
  {
    (if |messages| == 0 then [] else messages[..|messages| - 1]) + [updated]
  }

  /**
   * Lines 122-161: the email node on the messages so far, with the email
   * agent as a parameter. It keeps the list's length and every entry but the
   * last, which becomes the post-processed email of the agent's reply, with
   * the name taken from entry 1. A list without entry 1, an entry 1 that
   * cannot be read for a name, or a name that is not a string is a failure.
   */
  function CreateEmailNode(messages: seq<Message>, createEmail: Agent, today: Date, draw: Time)
    : (r: Result<seq<Message>, Error>)
    requires ValidDate(today) && IsDraw(draw)
    ensures |messages| < 2 ==> r == Failure(IndexError)
    ensures |messages| >= 2 && Lookup(messages[1], CandidateNameKey).Failure?
            ==> r == Failure(Lookup(messages[1], CandidateNameKey).error)
    ensures |messages| >= 2 && Lookup(messages[1], CandidateNameKey).Success? && createEmail(messages).Failure?
            ==> r == Failure(createEmail(messages).error)
    ensures |messages| >= 2 && Lookup(messages[1], CandidateNameKey).Success? && createEmail(messages).Success?
            && Lookup(createEmail(messages).value, EmailKey).Failure?
            ==> r == Failure(Lookup(createEmail(messages).value, EmailKey).error)
    ensures |messages| >= 2 && Lookup(messages[1], CandidateNameKey).Success? && createEmail(messages).Success?
            && Lookup(createEmail(messages).value, EmailKey).Success?
            && !Lookup(createEmail(messages).value, EmailKey).value.Str?
            ==> r == Failure(WrongType(EmailKey))
    ensures |messages| >= 2 && Lookup(messages[1], CandidateNameKey).Success?
            && !Lookup(messages[1], CandidateNameKey).value.Str?
            && createEmail(messages).Success? && LookupString(createEmail(messages).value, EmailKey).Success?
            ==> r == Failure(WrongType(CandidateNameKey))
    ensures (&& |messages| >= 2
             && LookupString(messages[1], CandidateNameKey).Success?
             && createEmail(messages).Success?
             && LookupString(createEmail(messages).value, EmailKey).Success?
             && PostProcess(LookupString(createEmail(messages).value, EmailKey).value,
                            LookupString(messages[1], CandidateNameKey).value, today, draw).Failure?)
            ==> r == Failure(OverflowError)
    ensures (&& |messages| >= 2
             && LookupString(messages[1], CandidateNameKey).Success?
             && createEmail(messages).Success?
             && LookupString(createEmail(messages).value, EmailKey).Success?
             && PostProcess(LookupString(createEmail(messages).value, EmailKey).value,
                            LookupString(messages[1], CandidateNameKey).value, today, draw).Success?)
            ==> r.Success?
    ensures |messages| >= 2 && !LookupString(messages[1], CandidateNameKey).Success? ==> r.Failure?
    ensures r.Success? ==>
      && |messages| >= 2
      && LookupString(messages[1], CandidateNameKey).Success?
      && createEmail(messages).Success?
      && LookupString(createEmail(messages).value, EmailKey).Success?
      && var name := LookupString(messages[1], CandidateNameKey).value;
         var body := LookupString(createEmail(messages).value, EmailKey).value;
         && PostProcess(body, name, today, draw).Success?
         && |r.value| == |messages|
         && r.value[..|r.value| - 1] == messages[..|messages| - 1]
         && r.value[|r.value| - 1] == CreateEmailMessage(CreateEmail(PostProcess(body, name, today, draw).value))
  {
    if |messages| < 2 then
      Failure(IndexError)
    else
      var nameValue :- Lookup(messages[1], CandidateNameKey);
      var reply :- createEmail(messages);
      var bodyValue :- Lookup(reply, EmailKey);
      if !bodyValue.Str? then
        Failure(WrongType(EmailKey))
      else if !nameValue.Str? then
        Failure(WrongType(CandidateNameKey))
      else
        var email :- PostProcess(bodyValue.s, nameValue.s, today, draw);
        var out := RebuildMessages(messages, CreateEmailMessage(CreateEmail(email)));
        assert out[..|out| - 1] == messages[..|messages| - 1];
        Success(out)
  }
}
