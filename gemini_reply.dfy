/** The chatbot adapter: `getGeminiResponse` sends the user's message behind a
    fixed system instruction to the generative-language service, then looks for
    reply text in the loosely shaped result with an ordered list of strategies;
    the first truthy text wins, a serialisation of the whole result is the
    fallback, and a failed call gives a fixed apology. `POST /api/chatbot` wraps it. */
module GeminiReply {
  import opened Js
  import opened Http

  /** An element of a `content` array; `text` is `None` when missing or not a string. */
  datatype Part = Part(text: Option<string>)

  /** An element of an `output` array. `content` is `None` unless it is an array. */
  datatype OutputItem = OutputItem(content: Option<seq<Part>>)

  /** An element of `response.candidates`; each field is `None` unless it is an array. */
  datatype Candidate = Candidate(content: Option<seq<Part>>, output: Option<seq<OutputItem>>)

  /** The outcome of calling and awaiting `response.text()`. */
  datatype Invocation = Throws | Resolves(value: Option<string>)

  /** What `response.text` is: a function, a string, or anything else. */
  datatype TextAccessor = NoText | TextString(s: string) | TextFunction(call: Invocation)

  /** `result.response`; `candidates` is `None` unless it is an array. */
  datatype ModelResponse = ModelResponse(text: TextAccessor, candidates: Option<seq<Candidate>>)

  /** The result of `generateContent`; `output` is `None` unless it is an array. */
  datatype Envelope = Envelope(response: Option<ModelResponse>, output: Option<seq<OutputItem>>)

  /** `await model.generateContent(...)`: it rejects, or yields a result. */
  datatype ModelCall = CallFailed | CallReturned(result: Envelope)

  datatype ChatBody = ChatBody(respuesta: string)

  const SystemInstruction: string :=
    "Eres un asistente amable y servicial para una aplicación de búsqueda y registro de mascotas perdidas.\n"
    + "Tu función es:\n"
    + "1. Ayudar a los usuarios a encontrar sus mascotas perdidas.\n"
    + "2. Responder preguntas sobre el uso de la aplicación.\n"
    + "3. Mantener un tono empático y positivo."

  const Apology: string :=
    "Lo siento, tuve un problema para conectarme con mi cerebro de IA. Por favor, inténtalo de nuevo más tarde."

  /** The text sent to the model: the system instruction first, the user's message last. */
  function Prompt(message: string): (p: string)
    ensures SystemInstruction <= p
    ensures |message| <= |p| && p[|p| - |message|..] == message
  {
    var p := SystemInstruction + "\n\nUsuario: " + message;
    assert p[..|SystemInstruction|] == SystemInstruction;
    p
  }

  /** The first truthy text that `probe` finds along `xs`, in iteration order. */
  function FirstHit<T>(xs: seq<T>, probe: T -> Option<string>): (r: Option<string>)
    ensures r.Some? ==> Truthy(r)
  {
    if xs == [] then None
    else if Truthy(probe(xs[0])) then probe(xs[0])
    else FirstHit(xs[1..], probe)
  }

  /** `xs[i]` is where the scan stops: its text is truthy and no earlier one is. */
  ghost predicate StopsAt<T>(xs: seq<T>, probe: T -> Option<string>, i: nat) {
    i < |xs| && Truthy(probe(xs[i])) && forall j | 0 <= j < i :: !Truthy(probe(xs[j]))
  }

  /** `FirstHit` is a first-match scan: it finds text exactly when some element
      has truthy text, and then it is the text of the first such element. */
  lemma {:induction false} FirstHitSpec<T>(xs: seq<T>, probe: T -> Option<string>)
    ensures FirstHit(xs, probe).None? <==> forall i | 0 <= i < |xs| :: !Truthy(probe(xs[i]))
    ensures FirstHit(xs, probe).Some? ==>
      exists i: nat :: StopsAt(xs, probe, i) && probe(xs[i]) == FirstHit(xs, probe)
  {
    if xs != [] {
      if Truthy(probe(xs[0])) {
        assert StopsAt(xs, probe, 0);
      } else {
        FirstHitSpec(xs[1..], probe);
        if FirstHit(xs[1..], probe).Some? {
          var i: nat :| StopsAt(xs[1..], probe, i) && probe(xs[1..][i]) == FirstHit(xs[1..], probe);
          assert StopsAt(xs, probe, i + 1);
        } else {
          forall i | 0 <= i < |xs| ensures !Truthy(probe(xs[i])) {
            if i > 0 {
              assert xs[i] == xs[1..][i - 1];
            }
          }
        }
      }
    }
  }

  /** Once the scan has found text, later elements are never consulted. */
  lemma {:induction false} FirstHitStops<T>(xs: seq<T>, ys: seq<T>, probe: T -> Option<string>)
    requires FirstHit(xs, probe).Some?
    ensures FirstHit(xs + ys, probe) == FirstHit(xs, probe)
  {
    assert (xs + ys)[0] == xs[0];
    if !Truthy(probe(xs[0])) {
      assert (xs + ys)[1..] == xs[1..] + ys;
      FirstHitStops(xs[1..], ys, probe);
    }
  }

  function PartText(p: Part): Option<string> {
    p.text
  }

  /** The first truthy part text of a content that is an array. */
  function ContentText(content: Option<seq<Part>>): Option<string> {
    if content.Some? then FirstHit(content.value, PartText) else None
  }

  function ItemText(o: OutputItem): Option<string> {
    ContentText(o.content)
  }

  /** One candidate: its `content` is searched before its `output[].content`. */
  function CandidateText(c: Candidate): Option<string> {
    var t := ContentText(c.content);
    if t.Some? then t
    else if c.output.Some? then FirstHit(c.output.value, ItemText)
    else None
  }

  /** The value of `text` after strategy 1: the string `response.text`, or what
      `response.text()` resolves to; it may be falsy. */
  function AccessorText(env: Envelope): Option<string> {
    if env.response.None? then None
    else
      match env.response.value.text
      case NoText => None
      case TextString(s) => Some(s)
      case TextFunction(invocation) => if invocation.Resolves? then invocation.value else None
  }

  /** Strategy 2: the first candidate with text, in order. */
  function CandidatesText(env: Envelope): Option<string> {
    if env.response.Some? && env.response.value.candidates.Some?
    then FirstHit(env.response.value.candidates.value, CandidateText)
    else None
  }

  /** Strategy 3: `result.output[0].content`. */
  function OutputText(env: Envelope): Option<string> {
    if env.output.Some? && |env.output.value| > 0 then ContentText(env.output.value[0].content) else None
  }

  /** The reply text the strategies find, each consulted only while `text` is still falsy. */
  function ReplyText(env: Envelope): (r: Option<string>)
    ensures r.Some? ==> Truthy(r)
  {
    if Truthy(AccessorText(env)) then AccessorText(env)
    else if CandidatesText(env).Some? then CandidatesText(env)
    else OutputText(env)
  }

  /** What `getGeminiResponse` resolves to. `serialize` stands for
      `JSON.stringify(result)`; `None` when it throws, which the inner handler
      repeats and the outer handler turns into the apology. */
  function GeminiReply(call: ModelCall, serialize: Envelope -> Option<string>): (r: string)
    ensures call.CallReturned? && ReplyText(call.result).Some? ==> r == ReplyText(call.result).value
    ensures call.CallReturned? && ReplyText(call.result).None? && serialize(call.result).Some? ==>
              r == serialize(call.result).value
    ensures r != "" || (call.CallReturned? && ReplyText(call.result).None? && serialize(call.result) == Some(""))
  {
    match call
    case CallFailed => Apology
    case CallReturned(env) =>
      match ReplyText(env)
      case Some(t) => t
      case None => if serialize(env).Some? then serialize(env).value else Apology
  }

  /** A scan over the parts of one content array that stops at the first truthy
      text; that text replaces the falsy `text`, which is kept otherwise. */
  method ScanParts(parts: seq<Part>, text0: Option<string>) returns (text: Option<string>)
    requires !Truthy(text0)
    ensures Truthy(text) <==> FirstHit(parts, PartText).Some?
    ensures Truthy(text) ==> text == FirstHit(parts, PartText)
    ensures !Truthy(text) ==> text == text0
  {
    text := text0;
    var j := 0;
    while j < |parts|
      invariant 0 <= j <= |parts|
      invariant text == text0
      invariant FirstHit(parts, PartText) == FirstHit(parts[j..], PartText)
    {
      assert parts[j..][0] == parts[j] && parts[j..][1..] == parts[j + 1..];
      if Truthy(parts[j].text) {
        text := parts[j].text;
        break;
      }
      j := j + 1;
    }
  }

  /** `getGeminiResponse(prompt)` once the model call has settled. */
  method GetGeminiResponse(call: ModelCall, serialize: Envelope -> Option<string>) returns (reply: string)
    ensures reply == GeminiReply(call, serialize)
  {
    if call.CallFailed? {
      return Apology;
    }
    var result := call.result;
    var text: Option<string> := None;

    // 1) response.text, as a function or as a string
    if result.response.Some? {
      match result.response.value.text
      case TextFunction(invocation) =>
        if invocation.Resolves? {
          text := invocation.value;
        }
      case TextString(s) =>
        text := Some(s);
      case NoText =>
    }

    // 2) response.candidates -> content / output -> text
    if !Truthy(text) && result.response.Some? && result.response.value.candidates.Some? {
      var candidates := result.response.value.candidates.value;
      var i := 0;
      while i < |candidates|
        invariant 0 <= i <= |candidates|
        invariant !Truthy(text) && text == AccessorText(result)
        invariant FirstHit(candidates, CandidateText) == FirstHit(candidates[i..], CandidateText)
      {
        assert candidates[i..][0] == candidates[i] && candidates[i..][1..] == candidates[i + 1..];
        var cand := candidates[i];
        if cand.content.Some? {
          text := ScanParts(cand.content.value, text);
        }
        if Truthy(text) {
          break;
        }
        if cand.output.Some? {
          var output := cand.output.value;
          var k := 0;
          while k < |output|
            invariant 0 <= k <= |output|
            invariant !Truthy(text) && text == AccessorText(result)
            invariant FirstHit(output, ItemText) == FirstHit(output[k..], ItemText)
          {
            assert output[k..][0] == output[k] && output[k..][1..] == output[k + 1..];
            if output[k].content.Some? {
              text := ScanParts(output[k].content.value, text);
            }
            if Truthy(text) {
              break;
            }
            k := k + 1;
          }
        }
        if Truthy(text) {
          break;
        }
        i := i + 1;
      }
    }

    // 3) the alternative shape result.output[0].content
    if !Truthy(text) && result.output.Some? && |result.output.value| > 0 && result.output.value[0].content.Some? {
      text := ScanParts(result.output.value[0].content.value, text);
    }

    if Truthy(text) {
      return text.value;
    }
    // fallback: JSON.stringify(result); when it throws, the outer handler apologises
    match serialize(result)
    case Some(json) =>
      reply := json;
    case None =>
      reply := Apology;
  }

  /** `POST /api/chatbot`: a missing message gives 400; otherwise the reply is
      always delivered with status 200, since `getGeminiResponse` never rejects. */
  function Chatbot(mensaje: Option<string>, model: string -> ModelCall, serialize: Envelope -> Option<string>)
    : (r: Response<ChatBody>)
    ensures r.Status() == 400 <==> !Truthy(mensaje)
    ensures r.Status() == 200 <==> Truthy(mensaje)
    ensures !Truthy(mensaje) ==> r == Failure(400, "Falta el mensaje")
    ensures Truthy(mensaje) ==> r == Ok(ChatBody(GeminiReply(model(Prompt(mensaje.value)), serialize)))
  {
    if !Truthy(mensaje) then Failure(400, "Falta el mensaje")
    else Ok(ChatBody(GeminiReply(model(Prompt(mensaje.value)), serialize)))
  }

  /** Truthy text from `response.text` ends the search: whatever the candidates
      and `result.output` hold, they are not consulted. */
  lemma AccessorTextWins(env: Envelope, candidates: Option<seq<Candidate>>, output: Option<seq<OutputItem>>)
    requires Truthy(AccessorText(env))
    ensures ReplyText(Envelope(Some(env.response.value.(candidates := candidates)), output)) == AccessorText(env)
  {
  }

  /** Text found among the candidates ends the search before `result.output`. */
  lemma CandidatesBeforeOutput(env: Envelope, output: Option<seq<OutputItem>>)
    requires !Truthy(AccessorText(env)) && CandidatesText(env).Some?
    ensures ReplyText(env.(output := output)) == CandidatesText(env)
  {
  }

  /** Within a candidate, text in `content` wins over anything in `output`. */
  lemma ContentBeforeOutput(c: Candidate, output: Option<seq<OutputItem>>)
    requires ContentText(c.content).Some?
    ensures CandidateText(c.(output := output)) == ContentText(c.content)
  {
  }

  /** A content array holds no truthy text. */
  ghost predicate Silent(content: Option<seq<Part>>) {
    content.Some? ==> forall p | p in content.value :: !Truthy(p.text)
  }

  ghost predicate SilentCandidate(c: Candidate) {
    Silent(c.content) && (c.output.Some? ==> forall o | o in c.output.value :: Silent(o.content))
  }

  /** No place the strategies look at holds truthy text. */
  ghost predicate NoTextAnywhere(env: Envelope) {
    && !Truthy(AccessorText(env))
    && (env.response.Some? && env.response.value.candidates.Some? ==>
          forall c | c in env.response.value.candidates.value :: SilentCandidate(c))
    && (env.output.Some? && |env.output.value| > 0 ==> Silent(env.output.value[0].content))
  }

  /** A first-match scan finds nothing exactly when every element is silent. */
  lemma FirstHitNone<T>(xs: seq<T>, probe: T -> Option<string>)
    ensures FirstHit(xs, probe).None? <==> forall x | x in xs :: !Truthy(probe(x))
  {
    FirstHitSpec(xs, probe);
    if FirstHit(xs, probe).None? {
      forall x | x in xs ensures !Truthy(probe(x)) {
        var i :| 0 <= i < |xs| && xs[i] == x;
      }
    }
  }

  lemma ContentTextNone(content: Option<seq<Part>>)
    ensures ContentText(content).None? <==> Silent(content)
  {
    if content.Some? {
      FirstHitNone(content.value, PartText);
    }
  }

  lemma CandidateTextNone(c: Candidate)
    ensures CandidateText(c).None? <==> SilentCandidate(c)
  {
    ContentTextNone(c.content);
    if c.output.Some? {
      FirstHitNone(c.output.value, ItemText);
      forall o | o in c.output.value ensures ItemText(o).None? <==> Silent(o.content) {
        ContentTextNone(o.content);
      }
    }
  }

  /** The strategies find no reply text exactly when no place they look at holds truthy text. */
  lemma NothingFound(env: Envelope)
    ensures ReplyText(env).None? <==> NoTextAnywhere(env)
  {
    if env.response.Some? && env.response.value.candidates.Some? {
      var candidates := env.response.value.candidates.value;
      FirstHitNone(candidates, CandidateText);
      forall c | c in candidates ensures CandidateText(c).None? <==> SilentCandidate(c) {
        CandidateTextNone(c);
      }
    }
    if env.output.Some? && |env.output.value| > 0 {
      ContentTextNone(env.output.value[0].content);
    }
  }

  /** With no text anywhere, the reply is the serialised result, or the apology
      when serialising throws; a failed call always gives the apology. */
  lemma Fallback(call: ModelCall, serialize: Envelope -> Option<string>)
    ensures call.CallFailed? ==> GeminiReply(call, serialize) == Apology
    ensures call.CallReturned? && NoTextAnywhere(call.result) ==>
      GeminiReply(call, serialize) == (if serialize(call.result).Some? then serialize(call.result).value else Apology)
  {
    if call.CallReturned? {
      NothingFound(call.result);
    }
  }
}
