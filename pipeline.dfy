/** summarize: choose the backend, extract the text, have the model number
    the sentences of each chunk, have it summarise the numbered text with
    citations, and parse its reply into bullet records. */
module Pipeline {
  import opened Errors
  import opened Strings
  import opened Chunker
  import opened Normalizer
  import opened BulletParser
  import opened Backends

  /** The two prompt files, as _load_prompt reads them. */
  datatype Prompts = Prompts(extract: string, summary: string)

  /** The content of a user message: the prompt, a blank line, then the
      material it is about. */
  function PromptFor(prompt: string, material: string): string {
    prompt + "\n\n" + material
  }

  /** The numbering stage as far as it went: the requests sent, and either
      the replies in order or the failure that stopped it. */
  datatype Stage = Stage(sent: seq<Request>, replies: Result<seq<string>>)

  /** The numbering loop over the chunks, one request per chunk in chunk
      order, each seeing the requests before it; the first failing call
      ends it. */
  function Numbering(service: Service, backend: Backend, temperature: real, prompt: string,
                     chunks: seq<string>): (stage: Stage)
    ensures |stage.sent| <= |chunks|
    ensures stage.replies.Ok? ==> |stage.sent| == |chunks| == |stage.replies.value|
    ensures forall k :: 0 <= k < |stage.sent| ==>
              stage.sent[k] == UserRequest(backend, PromptFor(prompt, chunks[k]), temperature)
  {
    if chunks == [] then Stage([], Ok([]))
    else
      var prev := Numbering(service, backend, temperature, prompt, chunks[..|chunks| - 1]);
      if prev.replies.Err? then prev
      else
        var request := UserRequest(backend, PromptFor(prompt, chunks[|chunks| - 1]), temperature);
        match Chat(service, prev.sent, request)
        case Err(e) => Stage(prev.sent + [request], Err(e))
        case Ok(reply) => Stage(prev.sent + [request], Ok(prev.replies.value + [reply]))
  }

  /** Each reply is the answer to its own request, given the requests sent
      before it. */
  predicate Answered(service: Service, sent: seq<Request>, replies: seq<string>) {
    && |replies| == |sent|
    && forall k :: 0 <= k < |sent| ==> Chat(service, sent[..k], sent[k]) == Ok(replies[k])
  }

  /** Every request but the last was answered, and the last one failed with
      the given error. */
  predicate FailedLast(service: Service, sent: seq<Request>, error: Error) {
    && sent != []
    && Chat(service, sent[..|sent| - 1], sent[|sent| - 1]) == Err(error)
    && forall k :: 0 <= k < |sent| - 1 ==> Chat(service, sent[..k], sent[k]).Ok?
  }

  /** A stage's replies are the service's answers, or its failure is that
      of its last request. */
  predicate AnsweredStage(service: Service, stage: Stage) {
    if stage.replies.Ok? then Answered(service, stage.sent, stage.replies.value)
    else FailedLast(service, stage.sent, stage.replies.error)
  }

  /** Every request of the numbering stage was answered, and each reply is
      the answer to its own request given those sent before it; when the
      stage failed, its last request is the one whose call failed. */
  lemma {:induction false} NumberingAnswers(service: Service, backend: Backend, temperature: real, prompt: string,
                                            chunks: seq<string>)
    ensures AnsweredStage(service, Numbering(service, backend, temperature, prompt, chunks))
  {
    if chunks != [] {
      var front := chunks[..|chunks| - 1];
      var prev := Numbering(service, backend, temperature, prompt, front);
      NumberingAnswers(service, backend, temperature, prompt, front);
      if prev.replies.Ok? {
        var request := UserRequest(backend, PromptFor(prompt, chunks[|chunks| - 1]), temperature);
        match Chat(service, prev.sent, request)
        case Err(e) =>
          FailedAfter(service, prev.sent, prev.replies.value, request, e);
        case Ok(reply) =>
          AnsweredSnoc(service, prev.sent, prev.replies.value, request, reply);
      }
    }
  }

  lemma AnsweredSnoc(service: Service, sent: seq<Request>, replies: seq<string>, request: Request, reply: string)
    requires Answered(service, sent, replies) && Chat(service, sent, request) == Ok(reply)
    ensures Answered(service, sent + [request], replies + [reply])
  {
    var all := sent + [request];
    assert all[..|sent|] == sent;
    assert forall k :: 0 <= k < |sent| ==> all[..k] == sent[..k] && all[k] == sent[k];
  }

  lemma FailedAfter(service: Service, sent: seq<Request>, replies: seq<string>, request: Request, e: Error)
    requires Answered(service, sent, replies) && Chat(service, sent, request) == Err(e)
    ensures FailedLast(service, sent + [request], e)
  {
    var all := sent + [request];
    assert all[..|sent|] == sent;
    assert forall k :: 0 <= k < |sent| ==> all[..k] == sent[..k] && all[k] == sent[k];
  }

  /** The stage over one more chunk, after a prefix that went through. */
  lemma NumberingNext(service: Service, backend: Backend, temperature: real, prompt: string,
                      chunks: seq<string>, i: nat, prev: Stage, request: Request)
    requires i < |chunks|
    requires prev == Numbering(service, backend, temperature, prompt, chunks[..i]) && prev.replies.Ok?
    requires request == UserRequest(backend, PromptFor(prompt, chunks[i]), temperature)
    ensures Numbering(service, backend, temperature, prompt, chunks[..i + 1])
         == match Chat(service, prev.sent, request)
            case Err(e) => Stage(prev.sent + [request], Err(e))
            case Ok(reply) => Stage(prev.sent + [request], Ok(prev.replies.value + [reply]))
  {
    var next := chunks[..i + 1];
    assert next[..i] == chunks[..i] && next[i] == chunks[i];
  }

  /** Once a prefix of the chunks has failed, the stage over all of them is
      that failure: nothing more is sent. */
  lemma {:induction false} NumberingStopsAtFailure(service: Service, backend: Backend, temperature: real, prompt: string,
                                                   chunks: seq<string>, j: nat)
    requires j <= |chunks|
    requires Numbering(service, backend, temperature, prompt, chunks[..j]).replies.Err?
    ensures Numbering(service, backend, temperature, prompt, chunks) == Numbering(service, backend, temperature, prompt, chunks[..j])
    decreases |chunks|
  {
    if j < |chunks| {
      var front := chunks[..|chunks| - 1];
      assert front[..j] == chunks[..j];
      NumberingStopsAtFailure(service, backend, temperature, prompt, front, j);
    } else {
      assert chunks[..j] == chunks;
    }
  }

  /** What a run of summarize did: the requests it sent, in order, and the
      records it returned or the failure it raised. */
  datatype Outcome = Outcome(sent: seq<Request>, result: Result<seq<Bullet>>)

  /** summarize(source, backend=engine, model=model, temperature=temperature),
      as a value: the backend is chosen first, then the text is extracted,
      and only then is the model called. */
  function SummarizeSpec(source: Source, io: Io, prompts: Prompts, service: Service,
                         engine: string, model: Option<string>, temperature: real): Outcome
  {
    match ChooseBackend(engine, model)
    case Err(e) => Outcome([], Err(e))
    case Ok(backend) =>
      match ExtractText(source, io)
      case Err(e) => Outcome([], Err(e))
      case Ok(text) => Stages(service, backend, temperature, prompts, text)
  }

  /** The two model stages over an extracted text: the numbering calls, one
      per chunk, then the summarising call over the numbered chunks joined
      by newlines, whose reply is parsed. */
  function Stages(service: Service, backend: Backend, temperature: real, prompts: Prompts, text: string): Outcome {
    var stage := Numbering(service, backend, temperature, prompts.extract, Chunks(text, DefaultMaxChars));
    if stage.replies.Err? then Outcome(stage.sent, Err(stage.replies.error))
    else Final(service, backend, temperature, prompts.summary, stage.sent, stage.replies.value)
  }

  /** The summarising call after the numbering calls sent went through with
      the given replies. */
  function Final(service: Service, backend: Backend, temperature: real, prompt: string,
                 sent: seq<Request>, numbered: seq<string>): Outcome
  {
    var final := UserRequest(backend, PromptFor(prompt, Join(numbered, "\n")), temperature);
    match Chat(service, sent, final)
    case Err(e) => Outcome(sent + [final], Err(e))
    case Ok(raw) => Outcome(sent + [final], Ok(Parse(raw)))
  }

  /** summarize */
  method Summarize(source: Source, io: Io, prompts: Prompts, service: Service,
                   engine: string, model: Option<string>, temperature: real)
    returns (sent: seq<Request>, result: Result<seq<Bullet>>)
    ensures Outcome(sent, result) == SummarizeSpec(source, io, prompts, service, engine, model, temperature)
  {
    var chosen := ChooseBackend(engine, model);
    if chosen.Err? {
      return [], Err(chosen.error);
    }
    var backend := chosen.value;
    var extracted := ExtractText(source, io);
    if extracted.Err? {
      return [], Err(extracted.error);
    }
    var text := extracted.value;
    assert SummarizeSpec(source, io, prompts, service, engine, model, temperature)
        == Stages(service, backend, temperature, prompts, text);
    var chunks := Chunks(text, DefaultMaxChars);
    var numbered: seq<string> := [];
    sent := [];
    for i := 0 to |chunks|
      invariant Numbering(service, backend, temperature, prompts.extract, chunks[..i]) == Stage(sent, Ok(numbered))
    {
      var request := UserRequest(backend, PromptFor(prompts.extract, chunks[i]), temperature);
      var reply := Chat(service, sent, request);
      NumberingNext(service, backend, temperature, prompts.extract, chunks, i, Stage(sent, Ok(numbered)), request);
      sent := sent + [request];
      if reply.Err? {
        NumberingStopsAtFailure(service, backend, temperature, prompts.extract, chunks, i + 1);
        return sent, Err(reply.error);
      }
      numbered := numbered + [reply.value];
    }
    assert chunks[..|chunks|] == chunks;
    var final := UserRequest(backend, PromptFor(prompts.summary, Join(numbered, "\n")), temperature);
    var summary := Chat(service, sent, final);
    sent := sent + [final];
    if summary.Err? {
      return sent, Err(summary.error);
    }
    var bullets := ParseBullets(summary.value);
    return sent, Ok(bullets);
  }

  /** The replies the service gives to the requests, in order, each given
      those sent before it (an empty string for a call that failed). */
  function Replies(service: Service, sent: seq<Request>): (replies: seq<string>)
    ensures |replies| == |sent|
  {
    seq(|sent|, k requires 0 <= k < |sent| =>
      var r := Chat(service, sent[..k], sent[k]);
      if r.Ok? then r.value else "")
  }

  lemma AnsweredReplies(service: Service, sent: seq<Request>, replies: seq<string>)
    requires Answered(service, sent, replies)
    ensures replies == Replies(service, sent)
  {
    assert forall k :: 0 <= k < |sent| ==> Replies(service, sent)[k] == replies[k];
  }

  /** An unknown engine fails the run before the source is read and before
      any call to the model. */
  lemma UnknownBackendFailsFast(source: Source, io: Io, prompts: Prompts, service: Service,
                                engine: string, model: Option<string>, temperature: real)
    requires engine != "gpt4o" && engine != "llama"
    ensures SummarizeSpec(source, io, prompts, service, engine, model, temperature)
         == Outcome([], Err(UnknownBackend(engine)))
  {
  }

  /** A source that cannot be turned into text fails the run with the
      extraction's own error, and no call to the model is made. */
  lemma ExtractionFailureMakesNoCalls(source: Source, io: Io, prompts: Prompts, service: Service,
                                      engine: string, model: Option<string>, temperature: real)
    requires ChooseBackend(engine, model).Ok? && ExtractText(source, io).Err?
    ensures SummarizeSpec(source, io, prompts, service, engine, model, temperature)
         == Outcome([], Err(ExtractText(source, io).error))
  {
  }

  /** A path whose suffix is neither .txt nor .pdf, such as .docx, fails
      the run with the unsupported extension, and the model is never
      called. */
  lemma UnsupportedPathMakesNoCalls(path: string, io: Io, prompts: Prompts, service: Service,
                                    engine: string, model: Option<string>, temperature: real)
    requires ChooseBackend(engine, model).Ok?
    requires Extension(path) != ".txt" && Extension(path) != ".pdf"
    ensures SummarizeSpec(PathSource(path), io, prompts, service, engine, model, temperature)
         == Outcome([], Err(UnsupportedExtension(Extension(path))))
  {
  }

  /** Once the backend is chosen and the text extracted, a run is its two
      model stages over that text. */
  lemma RunIsStages(source: Source, io: Io, prompts: Prompts, service: Service,
                    engine: string, model: Option<string>, temperature: real,
                    backend: Backend, text: string)
    requires ChooseBackend(engine, model) == Ok(backend) && ExtractText(source, io) == Ok(text)
    ensures SummarizeSpec(source, io, prompts, service, engine, model, temperature)
         == Stages(service, backend, temperature, prompts, text)
  {
  }

  /** A request of the kind every call of a run sends. */
  predicate SameClient(request: Request, backend: Backend, temperature: real) {
    && request.model == ModelName(backend)
    && request.temperature == temperature
    && |request.messages| == 1 && request.messages[0].role == User
  }

  lemma StagesSameClient(service: Service, backend: Backend, temperature: real, prompts: Prompts,
                         text: string, stage: Stage, o: Outcome)
    requires stage == Numbering(service, backend, temperature, prompts.extract, Chunks(text, DefaultMaxChars))
    requires o == Stages(service, backend, temperature, prompts, text)
    ensures forall k :: 0 <= k < |o.sent| ==> SameClient(o.sent[k], backend, temperature)
  {
    if stage.replies.Ok? {
      FinalSameClient(service, backend, temperature, prompts.summary, stage.sent, stage.replies.value, o);
    }
  }

  lemma FinalSameClient(service: Service, backend: Backend, temperature: real, prompt: string,
                        sent: seq<Request>, numbered: seq<string>, o: Outcome)
    requires forall k :: 0 <= k < |sent| ==> SameClient(sent[k], backend, temperature)
    requires o == Final(service, backend, temperature, prompt, sent, numbered)
    ensures forall k :: 0 <= k < |o.sent| ==> SameClient(o.sent[k], backend, temperature)
  {
    var final := UserRequest(backend, PromptFor(prompt, Join(numbered, "\n")), temperature);
    assert o.sent == sent + [final];
  }

  /** Every call of a run goes to the chosen backend's model with the
      caller's temperature, as a single user message. */
  lemma SameClientForEveryCall(source: Source, io: Io, prompts: Prompts, service: Service,
                               engine: string, model: Option<string>, temperature: real, o: Outcome)
    requires o == SummarizeSpec(source, io, prompts, service, engine, model, temperature)
    ensures forall k :: 0 <= k < |o.sent| ==> SameClient(o.sent[k], ChooseBackend(engine, model).value, temperature)
  {
    if ChooseBackend(engine, model).Ok? && ExtractText(source, io).Ok? {
      var backend := ChooseBackend(engine, model).value;
      var text := ExtractText(source, io).value;
      RunIsStages(source, io, prompts, service, engine, model, temperature, backend, text);
      StagesSameClient(service, backend, temperature, prompts, text,
                       Numbering(service, backend, temperature, prompts.extract, Chunks(text, DefaultMaxChars)), o);
    }
  }

  /** The summarising call after numbering calls that were all answered:
      one more request, over the answers joined by newlines. */
  lemma FinalAfterAnswers(service: Service, backend: Backend, temperature: real, prompt: string,
                          sent: seq<Request>, numbered: seq<string>, o: Outcome)
    requires Answered(service, sent, numbered)
    requires o == Final(service, backend, temperature, prompt, sent, numbered) && o.result.Ok?
    ensures |o.sent| == |sent| + 1 && o.sent[..|sent|] == sent
    ensures o.sent[|sent|] == UserRequest(backend, PromptFor(prompt, Join(Replies(service, sent), "\n")), temperature)
    ensures Chat(service, sent, o.sent[|sent|]).Ok?
    ensures o.result == Ok(Parse(Chat(service, sent, o.sent[|sent|]).value))
  {
    AnsweredReplies(service, sent, numbered);
    var final := UserRequest(backend, PromptFor(prompt, Join(numbered, "\n")), temperature);
    assert o.sent == sent + [final];
    assert o.sent[..|sent|] == sent;
  }

  lemma StagesSuccess(service: Service, backend: Backend, temperature: real, prompts: Prompts,
                      text: string, chunks: seq<string>, stage: Stage, o: Outcome)
    requires chunks == Chunks(text, DefaultMaxChars)
    requires stage == Numbering(service, backend, temperature, prompts.extract, chunks)
    requires o == Stages(service, backend, temperature, prompts, text) && o.result.Ok?
    ensures stage.replies.Ok? && Answered(service, stage.sent, stage.replies.value)
    ensures o == Final(service, backend, temperature, prompts.summary, stage.sent, stage.replies.value)
  {
    NumberingAnswers(service, backend, temperature, prompts.extract, chunks);
  }

  lemma StagesRun(service: Service, backend: Backend, temperature: real, prompts: Prompts,
                  text: string, chunks: seq<string>, o: Outcome)
    requires chunks == Chunks(text, DefaultMaxChars)
    requires o == Stages(service, backend, temperature, prompts, text) && o.result.Ok?
    ensures |o.sent| == |chunks| + 1
    ensures forall k :: 0 <= k < |chunks| ==>
              o.sent[k] == UserRequest(backend, PromptFor(prompts.extract, chunks[k]), temperature)
    ensures Answered(service, o.sent[..|chunks|], Replies(service, o.sent[..|chunks|]))
    ensures o.sent[|chunks|]
         == UserRequest(backend, PromptFor(prompts.summary, Join(Replies(service, o.sent[..|chunks|]), "\n")), temperature)
    ensures Chat(service, o.sent[..|chunks|], o.sent[|chunks|]).Ok?
    ensures o.result == Ok(Parse(Chat(service, o.sent[..|chunks|], o.sent[|chunks|]).value))
  {
    var stage := Numbering(service, backend, temperature, prompts.extract, chunks);
    StagesSuccess(service, backend, temperature, prompts, text, chunks, stage, o);
    FinalAfterAnswers(service, backend, temperature, prompts.summary, stage.sent, stage.replies.value, o);
    AnsweredReplies(service, stage.sent, stage.replies.value);
    assert forall k :: 0 <= k < |chunks| ==> o.sent[k] == stage.sent[k];
  }

  /** A run that returns records made one numbering call per chunk, in
      chunk order, each answered, then one summarising call over the
      numbered chunks joined by newlines; it returns the parse of the reply
      to that last call. The call count is ceil(|text| / 6000) + 1. */
  lemma SuccessfulRun(source: Source, io: Io, prompts: Prompts, service: Service,
                      engine: string, model: Option<string>, temperature: real,
                      backend: Backend, text: string, chunks: seq<string>, o: Outcome)
    requires ChooseBackend(engine, model) == Ok(backend) && ExtractText(source, io) == Ok(text)
    requires chunks == Chunks(text, DefaultMaxChars)
    requires o == SummarizeSpec(source, io, prompts, service, engine, model, temperature) && o.result.Ok?
    ensures |o.sent| == |chunks| + 1 == (|text| + DefaultMaxChars - 1) / DefaultMaxChars + 1
    ensures forall k :: 0 <= k < |chunks| ==>
              o.sent[k] == UserRequest(backend, PromptFor(prompts.extract, chunks[k]), temperature)
    ensures Answered(service, o.sent[..|chunks|], Replies(service, o.sent[..|chunks|]))
    ensures o.sent[|chunks|]
         == UserRequest(backend, PromptFor(prompts.summary, Join(Replies(service, o.sent[..|chunks|]), "\n")), temperature)
    ensures Chat(service, o.sent[..|chunks|], o.sent[|chunks|]).Ok?
    ensures o.result == Ok(Parse(Chat(service, o.sent[..|chunks|], o.sent[|chunks|]).value))
  {
    RunIsStages(source, io, prompts, service, engine, model, temperature, backend, text);
    StagesRun(service, backend, temperature, prompts, text, chunks, o);
    ChunkCount(text, DefaultMaxChars);
  }

  /** A run that fails after the text was extracted fails at a model call:
      every earlier call was answered, the last call sent is the one that
      failed, and nothing is sent after it. */
  lemma FailedRunStopsAtFailingCall(source: Source, io: Io, prompts: Prompts, service: Service,
                                    engine: string, model: Option<string>, temperature: real,
                                    text: string, o: Outcome)
    requires ChooseBackend(engine, model).Ok? && ExtractText(source, io) == Ok(text)
    requires o == SummarizeSpec(source, io, prompts, service, engine, model, temperature) && o.result.Err?
    ensures o.result == Err(ChatFailed)
    ensures FailedLast(service, o.sent, ChatFailed)
    ensures |o.sent| <= |Chunks(text, DefaultMaxChars)| + 1
  {
    var backend := ChooseBackend(engine, model).value;
    var chunks := Chunks(text, DefaultMaxChars);
    var stage := Numbering(service, backend, temperature, prompts.extract, chunks);
    NumberingAnswers(service, backend, temperature, prompts.extract, chunks);
    if stage.replies.Ok? {
      var final := UserRequest(backend, PromptFor(prompts.summary, Join(stage.replies.value, "\n")), temperature);
      FailedAfter(service, stage.sent, stage.replies.value, final, ChatFailed);
    }
  }

  /** An empty document still costs one call: no numbering call, and a
      summarising call over nothing but the prompt and a blank line. */
  lemma EmptyTextOneCall(source: Source, io: Io, prompts: Prompts, service: Service,
                         engine: string, model: Option<string>, temperature: real, backend: Backend)
    requires ChooseBackend(engine, model) == Ok(backend) && ExtractText(source, io) == Ok("")
    ensures SummarizeSpec(source, io, prompts, service, engine, model, temperature).sent
         == [UserRequest(backend, PromptFor(prompts.summary, ""), temperature)]
  {
    RunIsStages(source, io, prompts, service, engine, model, temperature, backend, "");
    assert Chunks("", DefaultMaxChars) == [];
    assert Numbering(service, backend, temperature, prompts.extract, []) == Stage([], Ok([]));
    assert Join([], "\n") == "";
    assert Final(service, backend, temperature, prompts.summary, [], []).sent
        == [UserRequest(backend, PromptFor(prompts.summary, ""), temperature)];
  }

  /** The numbering stage over a single chunk whose call is answered. */
  lemma NumberingOneChunk(service: Service, backend: Backend, temperature: real, prompt: string,
                          chunk: string, request: Request, reply: string)
    requires request == UserRequest(backend, PromptFor(prompt, chunk), temperature)
    requires Chat(service, [], request) == Ok(reply)
    ensures Numbering(service, backend, temperature, prompt, [chunk]) == Stage([request], Ok([reply]))
  {
    assert [chunk][..0] == [] && [chunk][0] == chunk;
    assert Numbering(service, backend, temperature, prompt, []) == Stage([], Ok([]));
    assert [] + [request] == [request] && [] + [reply] == [reply];
  }

  /** A text of one chunk whose two calls are answered: exactly those two
      requests are sent, and the parse of the second reply is returned. */
  lemma OneChunkRun(service: Service, backend: Backend, temperature: real, prompts: Prompts,
                    text: string, first: Request, final: Request, numbered: string, summary: string)
    requires 1 <= |text| <= DefaultMaxChars
    requires first == UserRequest(backend, PromptFor(prompts.extract, text), temperature)
    requires final == UserRequest(backend, PromptFor(prompts.summary, numbered), temperature)
    requires Chat(service, [], first) == Ok(numbered) && Chat(service, [first], final) == Ok(summary)
    ensures Stages(service, backend, temperature, prompts, text) == Outcome([first, final], Ok(Parse(summary)))
  {
    SingleChunk(text, DefaultMaxChars);
    NumberingOneChunk(service, backend, temperature, prompts.extract, text, first, numbered);
    assert Join([numbered], "\n") == numbered;
    assert Final(service, backend, temperature, prompts.summary, [first], [numbered])
        == Outcome([first, final], Ok(Parse(summary)));
  }

  /** A stub service that numbers the sentences of a short text file and
      then answers with one cited bullet: the run makes exactly two calls,
      the numbering call over the whole text and the summarising call over
      the numbered text, and returns the one record. */
  lemma StubRun(path: string, io: Io, prompts: Prompts, service: Service,
                engine: string, model: Option<string>, temperature: real,
                backend: Backend, text: string, first: Request, final: Request)
    requires ChooseBackend(engine, model) == Ok(backend)
    requires Extension(path) == ".txt" && io.readText(path) == Some(text)
    requires 1 <= |text| <= DefaultMaxChars
    requires first == UserRequest(backend, PromptFor(prompts.extract, text), temperature)
    requires final == UserRequest(backend, PromptFor(prompts.summary, "1. Sentence one. 2. Sentence two."), temperature)
    requires service([], first) == Some("1. Sentence one. 2. Sentence two.")
    requires service([first], final) == Some("- Summary bullet | 1,2")
    ensures SummarizeSpec(PathSource(path), io, prompts, service, engine, model, temperature)
         == Outcome([first, final], Ok([Bullet("Summary bullet", [1, 2])]))
  {
    StubRepliesTrimmed();
    SummaryBulletReply();
    TwoCallRun(path, io, prompts, service, engine, model, temperature, backend, text, first, final,
               "1. Sentence one. 2. Sentence two.", "- Summary bullet | 1,2", [Bullet("Summary bullet", [1, 2])]);
  }

  /** A text file of one chunk whose two calls are answered with replies
      that need no trimming. */
  lemma TwoCallRun(path: string, io: Io, prompts: Prompts, service: Service,
                   engine: string, model: Option<string>, temperature: real,
                   backend: Backend, text: string, first: Request, final: Request,
                   numbered: string, summary: string, bullets: seq<Bullet>)
    requires ChooseBackend(engine, model) == Ok(backend)
    requires Extension(path) == ".txt" && io.readText(path) == Some(text)
    requires 1 <= |text| <= DefaultMaxChars
    requires first == UserRequest(backend, PromptFor(prompts.extract, text), temperature)
    requires final == UserRequest(backend, PromptFor(prompts.summary, numbered), temperature)
    requires service([], first) == Some(numbered) && Trimmed(numbered)
    requires service([first], final) == Some(summary) && Trimmed(summary)
    requires Parse(summary) == bullets
    ensures SummarizeSpec(PathSource(path), io, prompts, service, engine, model, temperature)
         == Outcome([first, final], Ok(bullets))
  {
    RunIsStages(PathSource(path), io, prompts, service, engine, model, temperature, backend, text);
    ChatKeepsTrimmedReply(service, [], first, numbered);
    ChatKeepsTrimmedReply(service, [first], final, summary);
    OneChunkRun(service, backend, temperature, prompts, text, first, final, numbered, summary);
  }

  lemma StubRepliesTrimmed()
    ensures Trimmed("1. Sentence one. 2. Sentence two.") && Trimmed("- Summary bullet | 1,2")
  {
  }
}
