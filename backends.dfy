/** The model clients: choose_backend and the chat call both backends
    share. The chat endpoint itself is a parameter: what it answers is not
    part of this model. */
module Backends {
  import opened Errors
  import opened Strings

  /** The two clients choose_backend can build. */
  datatype Backend = Gpt4o | Ollama(model: string)

  /** The model OllamaBackend serves when none is named. */
  const OllamaDefaultModel: string := "llama3.2"

  /** The model name a backend puts in every request. */
  function ModelName(backend: Backend): string {
    match backend
    case Gpt4o => "gpt-4o-mini"
    case Ollama(model) => model
  }

  /** choose_backend(engine, model): "gpt4o" ignores the model, "llama"
      falls back to llama3.2 when the model is None or empty, and any other
      engine is refused. */
  function ChooseBackend(engine: string, model: Option<string>): (r: Result<Backend>)
    ensures r.Ok? <==> engine == "gpt4o" || engine == "llama"
    ensures r.Err? ==> r.error == UnknownBackend(engine)
    ensures engine == "gpt4o" ==> r == Ok(Gpt4o)
    ensures engine == "llama" ==> r.Ok? && r.value.Ollama?
    ensures r.Ok? ==> ModelName(r.value) != []
    ensures engine == "llama" && model.Some? && model.value != [] ==> r == Ok(Ollama(model.value))
    ensures engine == "llama" && (model.None? || model.value == []) ==> r == Ok(Ollama(OllamaDefaultModel))
  {
    if engine == "gpt4o" then Ok(Gpt4o)
    else if engine == "llama" then Ok(Ollama(if model.Some? && model.value != [] then model.value else OllamaDefaultModel))
    else Err(UnknownBackend(engine))
  }

  datatype Role = User | System | Assistant

  /** The Message typed dict. */
  datatype Message = Message(role: Role, content: string)

  /** One chat.completions.create call: the model, the messages and the
      temperature, which the pipeline passes through untouched. */
  datatype Request = Request(model: string, messages: seq<Message>, temperature: real)

  /** The chat endpoint as the pipeline sees it: given the requests sent
      before and a new one, the content of the first choice of its reply,
      or None when the client raises (network, authentication, rate
      limit). */
  type Service = (seq<Request>, Request) -> Option<string>

  /** A request made of one user message. */
  function UserRequest(backend: Backend, content: string, temperature: real): Request {
    Request(ModelName(backend), [Message(User, content)], temperature)
  }

  /** BaseBackend.chat: send the request and return the reply stripped of
      its surrounding whitespace; a client that raises fails the call. */
  function Chat(service: Service, history: seq<Request>, request: Request): (r: Result<string>)
    ensures r.Err? <==> service(history, request).None?
    ensures r.Err? ==> r.error == ChatFailed
    ensures r.Ok? ==> r.value == [] || Trimmed(r.value)
    ensures r.Ok? ==> r.value == Strip(service(history, request).value)
  {
    match service(history, request)
    case None => Err(ChatFailed)
    case Some(content) => Ok(Strip(content))
  }

  /** A reply that has no whitespace around it comes back unchanged. */
  lemma ChatKeepsTrimmedReply(service: Service, history: seq<Request>, request: Request, content: string)
    requires service(history, request) == Some(content)
    requires Trimmed(content)
    ensures Chat(service, history, request) == Ok(content)
  {
    StripKeeps(content);
  }
}
