/** The two streaming generators of `explainEngineStream.ts`: check the key, mask and
    truncate the code, build the prompt, open the stream, pass every chunk on while
    accumulating it, and finally parse the accumulated answer. A run is recorded as a
    `Run` value: the prompt sent (if one was built), the chunks yielded in order, and
    what the generator finally returned or threw. */
module ExplainStream {
  import opened Types
  import opened Text
  import opened Errors
  import opened Mask
  import opened Truncate
  import opened Prompt
  import opened Stream
  import opened Extraction

  datatype Outcome = Returned(explanation: Explanation) | Threw(error: Thrown)

  datatype Run = Run(prompt: Option<string>, yielded: seq<string>, outcome: Outcome)

  /** What the consumer of a generator sees: the chunks in order and how it ends. */
  datatype Answer = Answer(yielded: seq<string>, outcome: Outcome)

  /** What a generator does once its prompt is sent: a failed stream throws before any
      chunk; an opened one yields the chunks of the body and returns the parse of their
      concatenation. */
  function Answered(response: Response, parse: string -> Payload): (a: Answer)
    ensures a.outcome.Threw? <==> !response.Ok?
    ensures a.outcome.Threw? ==> a.yielded == []
  {
    match OpenStream(response)
    case Failed(e) => Answer([], Threw(e))
    case Opened(body) =>
      var chunks := StreamChunks(Concat(body), parse);
      Answer(chunks, Returned(ParseMarkdown(Concat(chunks))))
  }

  /** The run once the prompt is built: the prompt is sent and the answer consumed. */
  function Streamed(prompt: string, response: Response, parse: string -> Payload): (run: Run)
    ensures run.prompt == Some(prompt)
    ensures run.outcome.Threw? <==> !response.Ok?
    ensures run.outcome.Threw? ==> run.yielded == []
  {
    var a := Answered(response, parse);
    Run(Some(prompt), a.yielded, a.outcome)
  }

  /** The prompt of `explainHeuristicallyStream`: the code is masked first and the masked
      text is truncated. */
  function CodeStreamPrompt(code: string, lang: string, level: ExplainLevel): string {
    BuildCodePrompt(TruncateDefault(MaskSensitiveData(code)), lang, level)
  }

  /** The prompt of `explainDiffHeuristicallyStream`: both codes are masked and truncated
      each on its own. */
  function DiffStreamPrompt(before: string, after: string, lang: string, level: ExplainLevel): string {
    BuildDiffPrompt(TruncateDefault(MaskSensitiveData(before)), TruncateDefault(MaskSensitiveData(after)), lang, level)
  }

  /** A generator's run from its key check on: a missing or empty key throws the key
      error before any prompt is built; any other key has the prompt streamed. */
  function KeyedRun(apiKey: string, prompt: string, response: Response, parse: string -> Payload): (run: Run)
    ensures apiKey == "" ==> run == Run(None, [], Threw(PlainError(NoApiKeyMessage)))
    ensures apiKey != "" ==> run == Streamed(prompt, response, parse)
  {
    var keyError := AssertApiKey(Some(apiKey));
    if keyError.Some? then Run(None, [], Threw(keyError.value))
    else Streamed(prompt, response, parse)
  }

  /** The run of `explainHeuristicallyStream`. */
  function CodeRun(code: string, lang: string, level: ExplainLevel, apiKey: string,
                   response: Response, parse: string -> Payload): Run {
    KeyedRun(apiKey, CodeStreamPrompt(code, lang, level), response, parse)
  }

  /** The run of `explainDiffHeuristicallyStream`. */
  function DiffRun(before: string, after: string, lang: string, level: ExplainLevel, apiKey: string,
                   response: Response, parse: string -> Payload): Run {
    KeyedRun(apiKey, DiffStreamPrompt(before, after, lang, level), response, parse)
  }

  /** A generator object as the component creates it: the function called and its
      arguments; none of its body has run yet. */
  datatype Generator =
    | CodeGenerator(code: string, lang: string, level: ExplainLevel, tone: ExplainTone, apiKey: string)
    | DiffGenerator(before: string, after: string, lang: string, level: ExplainLevel, tone: ExplainTone,
                    apiKey: string)

  /** The run of a generator. */
  function GeneratorRun(g: Generator, response: Response, parse: string -> Payload): Run {
    match g
    case CodeGenerator(code, lang, level, _, apiKey) => CodeRun(code, lang, level, apiKey, response, parse)
    case DiffGenerator(before, after, lang, level, _, apiKey) => DiffRun(before, after, lang, level, apiKey, response, parse)
  }

  /** What a generator's consumer sees depends only on its key and the response: an empty
      key throws the key error with no chunk, any other key gets the answer. */
  function KeyedAnswer(apiKey: string, response: Response, parse: string -> Payload): (a: Answer)
    ensures apiKey == "" ==> a == Answer([], Threw(PlainError(NoApiKeyMessage)))
    ensures apiKey != "" ==> a == Answered(response, parse)
  {
    if AssertApiKey(Some(apiKey)).Some? then Answer([], Threw(PlainError(NoApiKeyMessage)))
    else Answered(response, parse)
  }

  /** Driving a generator to its end: what its consumer receives is the chunks and the
      end of the generator's run. */
  method Drain(g: Generator, response: Response, parse: string -> Payload) returns (a: Answer)
    ensures a == KeyedAnswer(g.apiKey, response, parse)
  {
    var run: Run;
    if g.CodeGenerator? {
      run := ExplainCodeStream(g.code, g.lang, g.level, g.tone, g.apiKey, response, parse);
    } else {
      run := ExplainDiffStream(g.before, g.after, g.lang, g.level, g.tone, g.apiKey, response, parse);
    }
    a := Answer(run.yielded, run.outcome);
  }

  /** The answer received from a generator is its run without the prompt. */
  lemma GeneratorAnswer(g: Generator, response: Response, parse: string -> Payload)
    ensures var run := GeneratorRun(g, response, parse);
      Answer(run.yielded, run.outcome) == KeyedAnswer(g.apiKey, response, parse)
  {
  }

  /** `explainHeuristicallyStream`. The tone is accepted and not used. */
  method ExplainCodeStream(code: string, lang: string, level: ExplainLevel, tone: ExplainTone,
                           apiKey: string, response: Response, parse: string -> Payload)
    returns (run: Run)
    ensures run == CodeRun(code, lang, level, apiKey, response, parse)
    ensures Answer(run.yielded, run.outcome) == KeyedAnswer(apiKey, response, parse)
  {
    var failure := AssertApiKey(Some(apiKey));
    if failure.Some? {
      return Run(None, [], Threw(failure.value));
    }
    var maskedCode := MaskSensitiveData(code);
    var truncatedCode := TruncateDefault(maskedCode);
    var prompt := BuildCodePrompt(truncatedCode, lang, level);
    run := Consume(prompt, response, parse);
  }

  /** `explainDiffHeuristicallyStream`. The tone is accepted and not used. */
  method ExplainDiffStream(before: string, after: string, lang: string, level: ExplainLevel, tone: ExplainTone,
                           apiKey: string, response: Response, parse: string -> Payload)
    returns (run: Run)
    ensures run == DiffRun(before, after, lang, level, apiKey, response, parse)
    ensures Answer(run.yielded, run.outcome) == KeyedAnswer(apiKey, response, parse)
  {
    var failure := AssertApiKey(Some(apiKey));
    if failure.Some? {
      return Run(None, [], Threw(failure.value));
    }
    var maskedBefore := MaskSensitiveData(before);
    var maskedAfter := MaskSensitiveData(after);
    var truncatedBefore := TruncateDefault(maskedBefore);
    var truncatedAfter := TruncateDefault(maskedAfter);
    var prompt := BuildDiffPrompt(truncatedBefore, truncatedAfter, lang, level);
    run := Consume(prompt, response, parse);
  }

  /** Opening the stream and the `for await` loop shared by both generators: each chunk
      is added to `fullContent` and yielded unchanged. */
  method Consume(prompt: string, response: Response, parse: string -> Payload) returns (run: Run)
    ensures run == Streamed(prompt, response, parse)
  {
    var stream := OpenStream(response);
    if stream.Failed? {
      return Run(Some(prompt), [], Threw(stream.error));
    }
    var chunks, _ := ProcessStream(stream.body, parse);
    var fullContent := "";
    var yielded: seq<string> := [];
    for i := 0 to |chunks|
      invariant yielded == chunks[..i]
      invariant fullContent == Concat(yielded)
    {
      assert chunks[..i + 1] == yielded + [chunks[i]];
      ConcatAppend(yielded, [chunks[i]]);
      fullContent := fullContent + chunks[i];
      yielded := yielded + [chunks[i]];
    }
    assert yielded == chunks;
    var explanation := ParseMarkdownToExplanation(fullContent);
    run := Run(Some(prompt), yielded, Returned(explanation));
  }

  /** Where the reads of the body are cut does not matter: splitting one read in two
      leaves the run unchanged. */
  lemma ReadBoundaryIrrelevant(prompt: string, body: seq<string>, i: nat, r1: string, r2: string,
                               parse: string -> Payload)
    requires i < |body| && body[i] == r1 + r2
    ensures Streamed(prompt, Ok(body[..i] + [r1, r2] + body[i + 1..]), parse) == Streamed(prompt, Ok(body), parse)
  {
    var split := body[..i] + [r1, r2] + body[i + 1..];
    assert split == (body[..i] + [r1]) + ([r2] + body[i + 1..]);
    assert body == (body[..i] + [r1 + r2]) + body[i + 1..];
    ConcatAppend(body[..i] + [r1], [r2] + body[i + 1..]);
    ConcatAppend(body[..i], [r1]);
    ConcatAppend([r2], body[i + 1..]);
    ConcatAppend(body[..i] + [r1 + r2], body[i + 1..]);
    ConcatAppend(body[..i], [r1 + r2]);
    assert Concat([r1]) == r1 && Concat([r2]) == r2 && Concat([r1 + r2]) == r1 + r2 by {
      assert [r1][..0] == [] && [r2][..0] == [] && [r1 + r2][..0] == [];
    }
    assert Concat(split) == Concat(body);
  }

  /** A successful run returns an explanation whose three lists are not empty, parsed from
      exactly the text it yielded. */
  lemma StreamedExplanationComplete(prompt: string, response: Response, parse: string -> Payload)
    requires Streamed(prompt, response, parse).outcome.Returned?
    ensures var run := Streamed(prompt, response, parse);
      && run.outcome.explanation == ParseMarkdown(Concat(run.yielded))
      && |run.outcome.explanation.howItWorks| > 0
      && |run.outcome.explanation.keyTechniques| > 0
      && |run.outcome.explanation.watchOut| > 0
  {
    var run := Streamed(prompt, response, parse);
    ParseListsNeverEmpty(Concat(run.yielded));
  }

  /** The code reaches the prompt masked and then truncated, at its very end. */
  lemma CodeStreamPromptEndsWithCode(code: string, lang: string, level: ExplainLevel)
    ensures EndsWith(CodeStreamPrompt(code, lang, level), InputSuffix(TruncateDefault(MaskSensitiveData(code))))
  {
    CodePromptEndsWithCode(TruncateDefault(MaskSensitiveData(code)), lang, level);
  }
}
