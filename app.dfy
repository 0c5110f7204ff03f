/** The top-level component: the state cells it owns (the code, the saved code, the
    selected level, tone and language, the running flags and the validation error), the
    streaming session it drives, and its handlers. Every setter call the handlers make
    is recorded in the ghost log `steps`, with each generator handed to the session as
    one step, so the order of the calls is part of each handler's contract. */
module AppComponent {
  import opened Types
  import opened Text
  import opened Errors
  import Stream
  import opened ExplainStream
  import opened Session
  import Generate
  import opened Toolbar

  /** One setter call of the component, the warning, or one generator driven to its end
      by the session. */
  datatype Step =
    | SetValidationError(validationError: Option<string>)
    | SetIsExplaining(explaining: bool)
    | SetIsExplainingDiff(explainingDiff: bool)
    | Execute(generator: Generator)
    | SetSavedCode(savedCode: string)
    | SetCode(code: string)
    | SetCodeGenerating(generating: bool)
    | ShowWarning

  /** How a generator ends as the session sees it: the returned explanation, which is
      always truthy, or the thrown error. */
  function EndOf(outcome: Outcome): (e: End)
    ensures outcome.Returned? <==> e.Done?
    ensures outcome.Returned? ==> e.value == Some(outcome.explanation)
    ensures outcome.Threw? ==> e.error == outcome.error
  {
    match outcome
    case Returned(x) => Done(Some(x))
    case Threw(x) => Fail(x)
  }

  /** The session cells after an answer: the explanation returned or nothing, all the
      text yielded, both flags down, and the message of the error thrown. */
  function SessionView(a: Answer): View {
    View(if a.outcome.Returned? then Some(a.outcome.explanation) else None,
         Concat(a.yielded), false, false,
         if a.outcome.Threw? then Some(HandleApiError(a.outcome.error)) else None)
  }

  /** Whatever the session showed before, the setter calls made for an answer leave it
      showing `SessionView(a)`. */
  lemma SessionViewIsReplay(v: View, a: Answer)
    ensures Replay(v, SessionUpdates(a.yielded, EndOf(a.outcome))) == SessionView(a)
  {
    SessionOutcome(v, a.yielded, EndOf(a.outcome));
  }

  /** Whether the steps hand a generator to the session. */
  predicate StreamStarted(steps: seq<Step>) {
    exists k :: 0 <= k < |steps| && steps[k].Execute?
  }

  /** The flag a generator's handler raises while it runs. */
  function Flag(g: Generator, on: bool): Step {
    if g.CodeGenerator? then SetIsExplaining(on) else SetIsExplainingDiff(on)
  }

  /** The calls of `handleExplain`: blank code only sets the validation message;
      otherwise the message is cleared, the flag is raised, the generator for the code is
      driven to its end and the flag is lowered. */
  function ExplainSteps(code: string, language: string, level: ExplainLevel, tone: ExplainTone,
                        apiKey: string): seq<Step> {
    if Trim(code) == "" then [SetValidationError(Some(NoCodeMessage))]
    else [SetValidationError(None), SetIsExplaining(true),
          Execute(CodeGenerator(code, language, level, tone, apiKey)), SetIsExplaining(false)]
  }

  /** The calls of `handleExplainDiff`: both codes must be non-blank; the saved code is the
      code before and the current code the code after. */
  function DiffSteps(code: string, savedCode: string, language: string, level: ExplainLevel, tone: ExplainTone,
                     apiKey: string): seq<Step> {
    if Trim(code) == "" || Trim(savedCode) == "" then [SetValidationError(Some(NoDiffCodeMessage))]
    else [SetValidationError(None), SetIsExplainingDiff(true),
          Execute(DiffGenerator(savedCode, code, language, level, tone, apiKey)), SetIsExplainingDiff(false)]
  }

  /** `canExplainDiff`: there is saved code and the current code differs from it. */
  predicate CanExplainDiff(code: string, savedCode: string) {
    savedCode != "" && code != savedCode
  }

  /** The error shown in the panel: the session's error when it is a non-empty message,
      otherwise the validation error. */
  function DisplayedError(streamError: Option<string>, validationError: Option<string>): (shown: Option<string>)
    ensures shown.Some? ==> shown == streamError || shown == validationError
    ensures shown.None? <==> (streamError.None? || streamError.value == "") && validationError.None?
    ensures streamError.Some? && streamError.value != "" ==> shown == streamError
  {
    if streamError.Some? && streamError.value != "" then streamError else validationError
  }

  /** What reading `isValidRequest` from the string `generateCode` returns resolves to: a
      string has no such property, so the read gives `undefined`, which is falsy. */
  function IsValidRequest(result: string): (valid: bool)
    ensures !valid
  {
    false
  }

  /** The calls of `handleGenerateCode` as written: a generated string always takes the
      warning branch, and only a thrown error changes a cell other than the flags. */
  function GenerateStepsAsWritten(outcome: Generate.GenOutcome): seq<Step> {
    [SetCodeGenerating(true), SetValidationError(None)]
      + (match outcome
         case Generated(result) =>
           if !IsValidRequest(result) then [ShowWarning, SetCodeGenerating(false)]
           else [SetCode(result)]
         case Failed(e) => [SetValidationError(Some(HandleApiError(e)))])
      + [SetCodeGenerating(false)]
  }

  /** The calls of `handleGenerateCode` as evidently intended: the generated code replaces
      the editor's code; a thrown error is shown as the validation error. */
  function GenerateSteps(outcome: Generate.GenOutcome): seq<Step> {
    [SetCodeGenerating(true), SetValidationError(None)]
      + (match outcome
         case Generated(result) => [SetCode(result)]
         case Failed(e) => [SetValidationError(Some(HandleApiError(e)))])
      + [SetCodeGenerating(false)]
  }

  /** The component's own cells that the handlers set. */
  datatype Cells = Cells(code: string, savedCode: string, codeGenerating: bool, isExplaining: bool,
                         isExplainingDiff: bool, validationError: Option<string>)

  /** One setter call on the cells; the warning and a streaming session leave them as
      they are. */
  function ApplyStep(c: Cells, s: Step): Cells {
    match s
    case SetValidationError(v) => c.(validationError := v)
    case SetIsExplaining(b) => c.(isExplaining := b)
    case SetIsExplainingDiff(b) => c.(isExplainingDiff := b)
    case SetSavedCode(x) => c.(savedCode := x)
    case SetCode(x) => c.(code := x)
    case SetCodeGenerating(b) => c.(codeGenerating := b)
    case Execute(_) => c
    case ShowWarning => c
  }

  /** The cells after a sequence of steps, applied in order. */
  function ReplaySteps(c: Cells, steps: seq<Step>): Cells
    decreases |steps|
  {
    if |steps| == 0 then c else ApplyStep(ReplaySteps(c, steps[..|steps| - 1]), steps[|steps| - 1])
  }

  class App {
    var code: string
    var savedCode: string
    var level: ExplainLevel
    var tone: ExplainTone
    var language: string
    var codeGenerating: bool
    var isExplaining: bool
    var isExplainingDiff: bool
    var apiKey: string
    var validationError: Option<string>
    const session: StreamingSession
    /** Every setter call and generator handed to the session so far, in order. */
    ghost var steps: seq<Step>

    function Current(): Cells
      reads this
    {
      Cells(code, savedCode, codeGenerating, isExplaining, isExplainingDiff, validationError)
    }

    /** The initial state; the key is the one the key hook has loaded. */
    constructor(storedKey: string)
      ensures Current() == Cells("", "", false, false, false, None)
      ensures level == Beginner && tone == Normal && language == "typescript" && apiKey == storedKey
      ensures fresh(session) && session.Current() == View(None, "", false, false, None)
      ensures steps == []
    {
      code := "";
      savedCode := "";
      level := Beginner;
      tone := Normal;
      language := "typescript";
      codeGenerating := false;
      isExplaining := false;
      isExplainingDiff := false;
      apiKey := storedKey;
      validationError := None;
      session := new StreamingSession();
      steps := [];
    }

    /** The error passed to the panel. */
    function Error(): (shown: Option<string>)
      reads this, session
      ensures shown == DisplayedError(session.error, validationError)
    {
      DisplayedError(session.error, validationError)
    }

    /** One setter call, or the warning. */
    method Set(s: Step)
      requires !s.Execute?
      modifies this
      ensures Current() == ApplyStep(old(Current()), s) && steps == old(steps) + [s]
      ensures language == old(language) && level == old(level) && tone == old(tone) && apiKey == old(apiKey)
    {
      steps := steps + [s];
      match s
      case SetValidationError(v) => validationError := v;
      case SetIsExplaining(b) => isExplaining := b;
      case SetIsExplainingDiff(b) => isExplainingDiff := b;
      case SetSavedCode(x) => savedCode := x;
      case SetCode(x) => code := x;
      case SetCodeGenerating(b) => codeGenerating := b;
      case ShowWarning =>
    }

    /** Several setter calls in order. */
    method SetAll(ss: seq<Step>)
      requires forall k :: 0 <= k < |ss| ==> !ss[k].Execute?
      modifies this
      ensures Current() == ReplaySteps(old(Current()), ss) && steps == old(steps) + ss
      ensures language == old(language) && level == old(level) && tone == old(tone) && apiKey == old(apiKey)
    {
      for i := 0 to |ss|
        invariant Current() == ReplaySteps(old(Current()), ss[..i]) && steps == old(steps) + ss[..i]
        invariant language == old(language) && level == old(level) && tone == old(tone) && apiKey == old(apiKey)
      {
        Set(ss[i]);
        assert ss[..i + 1][..i] == ss[..i];
      }
      assert ss[..|ss|] == ss;
    }

    /** `await executeStream(generator)`: the session consumes what the generator yields
        and how it ends. */
    method Drive(g: Generator, response: Stream.Response, parse: string -> Stream.Payload)
      modifies this, session
      ensures var a := KeyedAnswer(g.apiKey, response, parse);
        && session.Current() == SessionView(a)
        && session.updates == old(session.updates) + SessionUpdates(a.yielded, EndOf(a.outcome))
      ensures Current() == old(Current()) && steps == old(steps) + [Execute(g)]
      ensures language == old(language) && level == old(level) && tone == old(tone) && apiKey == old(apiKey)
    {
      var a := Drain(g, response, parse);
      Consume(g, a);
    }

    /** The session's side of `executeStream`: the chunks and the end of the generator. */
    method Consume(g: Generator, a: Answer)
      modifies this, session
      ensures session.Current() == SessionView(a)
      ensures session.updates == old(session.updates) + SessionUpdates(a.yielded, EndOf(a.outcome))
      ensures Current() == old(Current()) && steps == old(steps) + [Execute(g)]
      ensures language == old(language) && level == old(level) && tone == old(tone) && apiKey == old(apiKey)
    {
      steps := steps + [Execute(g)];
      session.ExecuteStream(a.yielded, EndOf(a.outcome));
    }

    /** The part both explain handlers share once the validation passes: clear the
        validation error, raise the generator's flag, await the session, lower the flag. */
    method Explaining(g: Generator, response: Stream.Response, parse: string -> Stream.Payload)
      modifies this, session
      ensures steps == old(steps) + [SetValidationError(None), Flag(g, true), Execute(g), Flag(g, false)]
      ensures g.CodeGenerator? ==> Current() == old(Current()).(validationError := None, isExplaining := false)
      ensures g.DiffGenerator? ==> Current() == old(Current()).(validationError := None, isExplainingDiff := false)
      ensures var a := KeyedAnswer(g.apiKey, response, parse);
        && session.Current() == SessionView(a)
        && session.updates == old(session.updates) + SessionUpdates(a.yielded, EndOf(a.outcome))
      ensures language == old(language) && level == old(level) && tone == old(tone) && apiKey == old(apiKey)
    {
      var raise, lower := Flag(g, true), Flag(g, false);
      assert raise == (if g.CodeGenerator? then SetIsExplaining(true) else SetIsExplainingDiff(true));
      assert lower == (if g.CodeGenerator? then SetIsExplaining(false) else SetIsExplainingDiff(false));
      ghost var c0 := Current();
      Set(SetValidationError(None));
      ghost var c1 := Current();
      Set(raise);
      ghost var c2 := Current();
      Drive(g, response, parse);
      Set(lower);
      assert c1 == c0.(validationError := None);
      if g.CodeGenerator? {
        assert c2 == c1.(isExplaining := true);
        assert Current() == c2.(isExplaining := false);
      } else {
        assert c2 == c1.(isExplainingDiff := true);
        assert Current() == c2.(isExplainingDiff := false);
      }
      AppendFour(old(steps), SetValidationError(None), raise, Execute(g), lower);
    }

    /** The editor's change handler. */
    method EditCode(newCode: string)
      modifies this
      ensures Current() == old(Current()).(code := newCode) && steps == old(steps) + [SetCode(newCode)]
      ensures language == old(language) && level == old(level) && tone == old(tone) && apiKey == old(apiKey)
    {
      Set(SetCode(newCode));
    }

    /** The toolbar's change handlers, behind their guards. */
    method ChangeLanguage(value: string)
      modifies this
      ensures language == LanguageAfterChange(old(language), value)
      ensures Current() == old(Current()) && steps == old(steps)
      ensures level == old(level) && tone == old(tone) && apiKey == old(apiKey)
    {
      language := LanguageAfterChange(language, value);
    }

    method ChangeLevel(value: string)
      modifies this
      ensures level == LevelAfterChange(old(level), value)
      ensures Current() == old(Current()) && steps == old(steps)
      ensures language == old(language) && tone == old(tone) && apiKey == old(apiKey)
    {
      level := LevelAfterChange(level, value);
    }

    method ChangeTone(value: string)
      modifies this
      ensures tone == ToneAfterChange(old(tone), value)
      ensures Current() == old(Current()) && steps == old(steps)
      ensures language == old(language) && level == old(level) && apiKey == old(apiKey)
    {
      tone := ToneAfterChange(tone, value);
    }

    /** `handleExplain`: blank code only sets the validation message and starts no stream;
        otherwise the message is cleared, the flag is raised, the generator for the code
        is driven to its end and the flag is lowered. */
    method HandleExplain(response: Stream.Response, parse: string -> Stream.Payload)
      modifies this, session
      ensures steps == old(steps) + ExplainSteps(old(code), language, level, tone, apiKey)
      ensures Trim(old(code)) == "" ==>
        && Current() == old(Current()).(validationError := Some(NoCodeMessage))
        && session.Current() == old(session.Current()) && session.updates == old(session.updates)
      ensures Trim(old(code)) != "" ==>
        var a := KeyedAnswer(apiKey, response, parse);
        && Current() == old(Current()).(validationError := None, isExplaining := false)
        && session.Current() == SessionView(a)
        && session.updates == old(session.updates) + SessionUpdates(a.yielded, EndOf(a.outcome))
      ensures language == old(language) && level == old(level) && tone == old(tone) && apiKey == old(apiKey)
    {
      if Trim(code) == "" {
        Set(SetValidationError(Some(NoCodeMessage)));
        return;
      }
      Explaining(CodeGenerator(code, language, level, tone, apiKey), response, parse);
    }

    /** `handleSaveCode`: the saved code becomes the current code. */
    method HandleSaveCode()
      modifies this
      ensures Current() == old(Current()).(savedCode := old(code)) && steps == old(steps) + [SetSavedCode(old(code))]
      ensures language == old(language) && level == old(level) && tone == old(tone) && apiKey == old(apiKey)
    {
      Set(SetSavedCode(code));
    }

    /** `handleExplainDiff`: both codes must be non-blank; the saved code is the code before
        and the current code the code after. */
    method HandleExplainDiff(response: Stream.Response, parse: string -> Stream.Payload)
      modifies this, session
      ensures steps == old(steps) + DiffSteps(old(code), old(savedCode), language, level, tone, apiKey)
      ensures (Trim(old(code)) == "" || Trim(old(savedCode)) == "") ==>
        && Current() == old(Current()).(validationError := Some(NoDiffCodeMessage))
        && session.Current() == old(session.Current()) && session.updates == old(session.updates)
      ensures (Trim(old(code)) != "" && Trim(old(savedCode)) != "") ==>
        var a := KeyedAnswer(apiKey, response, parse);
        && Current() == old(Current()).(validationError := None, isExplainingDiff := false)
        && session.Current() == SessionView(a)
        && session.updates == old(session.updates) + SessionUpdates(a.yielded, EndOf(a.outcome))
      ensures language == old(language) && level == old(level) && tone == old(tone) && apiKey == old(apiKey)
    {
      if Trim(code) == "" || Trim(savedCode) == "" {
        Set(SetValidationError(Some(NoDiffCodeMessage)));
        return;
      }
      Explaining(DiffGenerator(savedCode, code, language, level, tone, apiKey), response, parse);
    }

    /** The outcome of the request `handleGenerateCode` makes: the prompt, the selected
        language, the key, and the current code as the existing code. */
    function GenerationOutcome(request: string, response: Generate.GenResponse): (outcome: Generate.GenOutcome)
      reads this
      ensures apiKey == "" ==> outcome == Generate.Failed(PlainError(NoApiKeyMessage))
      ensures outcome.Generated? ==> response.Body? && response.content.Some?
                                     && outcome.code == Generate.CleanCode(response.content.value)
    {
      Generate.GenerateCode(request, language, apiKey, Some(code), response)
    }

    /** `handleGenerateCode` as written, given what `generateCode` returned or threw: a
        returned string always takes the warning branch, so the code stays as it was. */
    method HandleGenerateCodeAsWritten(outcome: Generate.GenOutcome)
      modifies this
      ensures steps == old(steps) + GenerateStepsAsWritten(outcome)
      ensures Current() == old(Current()).(codeGenerating := false,
        validationError := if outcome.Failed? then Some(HandleApiError(outcome.error)) else None)
      ensures language == old(language) && level == old(level) && tone == old(tone) && apiKey == old(apiKey)
    {
      Set(SetCodeGenerating(true));
      Set(SetValidationError(None));
      var tail: seq<Step>;
      if outcome.Generated? {
        var result := outcome.code;
        tail := if !IsValidRequest(result) then [ShowWarning, SetCodeGenerating(false)] else [SetCode(result)];
      } else {
        tail := [SetValidationError(Some(HandleApiError(outcome.error)))];
      }
      ghost var before := Current();
      SetAll(tail);
      if outcome.Generated? {
        ReplayTwo(before, tail);
      } else {
        ReplayOne(before, tail);
      }
      Set(SetCodeGenerating(false));
    }

    /** `handleGenerateCode` as evidently intended: the generated code replaces the code. */
    method HandleGenerateCode(outcome: Generate.GenOutcome)
      modifies this
      ensures steps == old(steps) + GenerateSteps(outcome)
      ensures outcome.Generated? ==>
        Current() == old(Current()).(code := outcome.code, validationError := None, codeGenerating := false)
      ensures outcome.Failed? ==>
        Current() == old(Current()).(validationError := Some(HandleApiError(outcome.error)), codeGenerating := false)
      ensures language == old(language) && level == old(level) && tone == old(tone) && apiKey == old(apiKey)
    {
      Set(SetCodeGenerating(true));
      Set(SetValidationError(None));
      if outcome.Generated? {
        Set(SetCode(outcome.code));
      } else {
        Set(SetValidationError(Some(HandleApiError(outcome.error))));
      }
      Set(SetCodeGenerating(false));
    }
  }

  lemma AppendFour(x: seq<Step>, a: Step, b: Step, c: Step, d: Step)
    ensures x + [a] + [b] + [c] + [d] == x + [a, b, c, d]
  {
  }

  lemma ReplayOne(c: Cells, s: seq<Step>)
    requires |s| == 1
    ensures ReplaySteps(c, s) == ApplyStep(c, s[0])
  {
    assert s[..0] == [];
  }

  lemma ReplayTwo(c: Cells, s: seq<Step>)
    requires |s| == 2
    ensures ReplaySteps(c, s) == ApplyStep(ApplyStep(c, s[0]), s[1])
  {
    ReplayOne(c, s[..1]);
  }

  /** Explaining starts a stream exactly when the code is not blank, and diff explaining
      exactly when neither code is blank. */
  lemma StreamStartedIff(code: string, savedCode: string, language: string, level: ExplainLevel,
                         tone: ExplainTone, apiKey: string)
    ensures StreamStarted(ExplainSteps(code, language, level, tone, apiKey)) <==> Trim(code) != ""
    ensures StreamStarted(DiffSteps(code, savedCode, language, level, tone, apiKey))
        <==> Trim(code) != "" && Trim(savedCode) != ""
  {
    if Trim(code) != "" {
      assert ExplainSteps(code, language, level, tone, apiKey)[2].Execute?;
    }
    if Trim(code) != "" && Trim(savedCode) != "" {
      assert DiffSteps(code, savedCode, language, level, tone, apiKey)[2].Execute?;
    }
  }

  /** Around the stream of an explanation, the validation error has been cleared and the
      explaining flag raised before it, and the flag is lowered after it; the generator
      is created for the current code with the selected options and the key. */
  lemma ExplainBracketsStream(code: string, language: string, level: ExplainLevel, tone: ExplainTone,
                              apiKey: string, k: nat)
    requires var s := ExplainSteps(code, language, level, tone, apiKey); k < |s| && s[k].Execute?
    ensures var s := ExplainSteps(code, language, level, tone, apiKey);
      && (exists i :: 0 <= i < k && s[i] == SetValidationError(None))
      && (exists i :: 0 <= i < k && s[i] == SetIsExplaining(true))
      && (exists j :: k < j < |s| && s[j] == SetIsExplaining(false))
      && s[k].generator == CodeGenerator(code, language, level, tone, apiKey)
  {
    var s := ExplainSteps(code, language, level, tone, apiKey);
    assert k == 2;
    assert s[0] == SetValidationError(None);
    assert s[1] == SetIsExplaining(true);
    assert s[3] == SetIsExplaining(false);
  }

  /** The same for a diff explanation, whose generator compares the saved code (before)
      with the current code (after). */
  lemma DiffBracketsStream(code: string, savedCode: string, language: string, level: ExplainLevel,
                           tone: ExplainTone, apiKey: string, k: nat)
    requires var s := DiffSteps(code, savedCode, language, level, tone, apiKey); k < |s| && s[k].Execute?
    ensures var s := DiffSteps(code, savedCode, language, level, tone, apiKey);
      && (exists i :: 0 <= i < k && s[i] == SetValidationError(None))
      && (exists i :: 0 <= i < k && s[i] == SetIsExplainingDiff(true))
      && (exists j :: k < j < |s| && s[j] == SetIsExplainingDiff(false))
      && s[k].generator == DiffGenerator(savedCode, code, language, level, tone, apiKey)
  {
    var s := DiffSteps(code, savedCode, language, level, tone, apiKey);
    assert k == 2;
    assert s[0] == SetValidationError(None);
    assert s[1] == SetIsExplainingDiff(true);
    assert s[3] == SetIsExplainingDiff(false);
  }

  /** When the toolbar lets Explain be pressed, the validation passes and a stream runs. */
  lemma EnabledExplainStreams(code: string, isExplainingDiff: bool, language: string, level: ExplainLevel,
                              tone: ExplainTone, apiKey: string)
    requires !ExplainDisabled(code, isExplainingDiff)
    ensures StreamStarted(ExplainSteps(code, language, level, tone, apiKey))
  {
    assert ExplainSteps(code, language, level, tone, apiKey)[2].Execute?;
  }

  /** The diff button can be enabled while the diff validation still fails: `canExplainDiff`
      looks only at emptiness and equality, so blank current code or whitespace-only saved
      code reaches the handler, which rejects it. */
  lemma EnabledDiffCanBeRejected(language: string, level: ExplainLevel, tone: ExplainTone, apiKey: string)
    ensures !DiffDisabled(CanExplainDiff("", "x"), false)
    ensures DiffSteps("", "x", language, level, tone, apiKey) == [SetValidationError(Some(NoDiffCodeMessage))]
    ensures !DiffDisabled(CanExplainDiff("x", " "), false)
    ensures DiffSteps("x", " ", language, level, tone, apiKey) == [SetValidationError(Some(NoDiffCodeMessage))]
  {
    BlankLiterals();
  }

  lemma BlankLiterals()
    ensures Trim("") == "" && Trim(" ") == ""
  {
    TrimEmptyIffBlank("");
    TrimEmptyIffBlank(" ");
    assert IsSpace(' ');
  }

  /** With both codes non-blank and different, an enabled diff button starts a stream. */
  lemma EnabledDiffStreams(code: string, savedCode: string, language: string, level: ExplainLevel,
                           tone: ExplainTone, apiKey: string)
    requires !DiffDisabled(CanExplainDiff(code, savedCode), false)
    requires Trim(code) != "" && Trim(savedCode) != ""
    ensures StreamStarted(DiffSteps(code, savedCode, language, level, tone, apiKey))
  {
    assert DiffSteps(code, savedCode, language, level, tone, apiKey)[2].Execute?;
  }

  /** Right after a save, both Save and diff explain are disabled until the code changes;
      once it changes to something else, diff explain becomes possible. */
  lemma SaveDisablesSaveAndDiff(code: string, newCode: string)
    ensures SaveDisabled(code, code) && !CanExplainDiff(code, code)
    ensures code != "" && newCode != code ==> CanExplainDiff(newCode, code)
  {
  }

  /** A stale non-empty stream error hides a fresh validation message: a blank-code press
      after a failed stream keeps showing the stream's error. */
  lemma StaleStreamErrorHidesValidation(streamMessage: string)
    requires streamMessage != ""
    ensures DisplayedError(Some(streamMessage), Some(NoCodeMessage)) == Some(streamMessage)
    ensures DisplayedError(None, Some(NoCodeMessage)) == Some(NoCodeMessage)
  {
  }

  /** A press with an empty key shows the key message, no explanation and no text,
      whatever the response. */
  lemma EmptyKeyShown(response: Stream.Response, parse: string -> Stream.Payload)
    ensures var v := SessionView(KeyedAnswer("", response, parse));
      v.explanation == None && v.streamingContent == "" && DisplayedError(v.error, None) == Some(NoApiKeyMessage)
  {
    NoApiKeyMessageNotEmpty();
  }

  lemma NoApiKeyMessageNotEmpty()
    ensures NoApiKeyMessage != ""
  {
    assert |NoApiKeyMessage| > 0;
  }

  /** With a key, a status that is not ok shows the API error message with the status and
      the body text, and nothing streamed. */
  lemma StatusShown(apiKey: string, status: int, text: string, parse: string -> Stream.Payload)
    requires apiKey != ""
    ensures var v := SessionView(KeyedAnswer(apiKey, Stream.Status(status, text), parse));
      && v.explanation == None && v.streamingContent == ""
      && DisplayedError(v.error, None) == Some(ApiErrorPrefix + IntString(status) + " - " + text)
  {
    CreatedErrorShown(status, text);
    assert |ApiErrorPrefix + IntString(status) + " - " + text| > 0 by {
      assert |ApiErrorPrefix| > 0;
    }
  }

  /** With a key, an ok response shows an explanation, all the streamed text, and only
      the validation error, which the handler has cleared. */
  lemma SuccessShown(apiKey: string, body: seq<string>, parse: string -> Stream.Payload,
                     validationError: Option<string>)
    requires apiKey != ""
    ensures var a := KeyedAnswer(apiKey, Stream.Ok(body), parse);
      var v := SessionView(a);
      && a.outcome.Returned?
      && v.explanation == Some(a.outcome.explanation)
      && v.streamingContent == Concat(a.yielded)
      && DisplayedError(v.error, validationError) == validationError
  {
  }

  /** As written, a generated code is never applied: no outcome leads to a code change,
      and a successful generation shows the warning instead. */
  lemma GenerationDiscardedAsWritten(c: Cells, outcome: Generate.GenOutcome)
    ensures forall k :: 0 <= k < |GenerateStepsAsWritten(outcome)| ==> !GenerateStepsAsWritten(outcome)[k].SetCode?
    ensures ReplaySteps(c, GenerateStepsAsWritten(outcome)).code == c.code
    ensures outcome.Generated? ==> ShowWarning in GenerateStepsAsWritten(outcome)
  {
    var s := GenerateStepsAsWritten(outcome);
    if outcome.Generated? {
      assert s[2] == ShowWarning;
    }
    NoCodeStepKeepsCode(c, s);
  }

  /** Steps without a code change leave the code as it was. */
  lemma {:induction false} NoCodeStepKeepsCode(c: Cells, s: seq<Step>)
    requires forall k :: 0 <= k < |s| ==> !s[k].SetCode?
    ensures ReplaySteps(c, s).code == c.code
    decreases |s|
  {
    if |s| > 0 {
      NoCodeStepKeepsCode(c, s[..|s| - 1]);
    }
  }

  /** A concrete request that succeeds and is still discarded: with a key and a plain
      one-letter answer, `generateCode` returns that letter, and the as-written handler
      shows the warning and keeps the code. */
  lemma GenerationDiscardedExample(c: Cells)
    ensures Generate.GenerateCode("x", "go", "k", Some(""), Generate.Body(Some("a"))) == Generate.Generated("a")
    ensures ShowWarning in GenerateStepsAsWritten(Generate.Generated("a"))
    ensures ReplaySteps(c, GenerateStepsAsWritten(Generate.Generated("a"))).code == c.code
  {
    Generate.UnfencedAnswerTrimmed("a");
    TrimLetter();
    GenerationDiscardedAsWritten(c, Generate.Generated("a"));
  }

  lemma TrimLetter()
    ensures Trim("a") == "a"
  {
    assert !IsSpace('a');
  }

  /** As intended, a successful generation puts exactly the generated code in the editor
      and a failure shows its message and keeps the code; the flag is raised first and
      lowered last. */
  lemma GenerationApplied(outcome: Generate.GenOutcome)
    ensures var s := GenerateSteps(outcome);
      outcome.Generated? ==> (SetCode(outcome.code) in s
        && forall k :: 0 <= k < |s| && s[k].SetCode? ==> s[k].code == outcome.code)
    ensures var s := GenerateSteps(outcome);
      outcome.Failed? ==> (SetValidationError(Some(HandleApiError(outcome.error))) in s
        && forall k :: 0 <= k < |s| ==> !s[k].SetCode?)
    ensures var s := GenerateSteps(outcome);
      s[0] == SetCodeGenerating(true) && s[|s| - 1] == SetCodeGenerating(false)
  {
    var s := GenerateSteps(outcome);
    assert s[2] == (if outcome.Generated? then SetCode(outcome.code)
                    else SetValidationError(Some(HandleApiError(outcome.error))));
  }
}
