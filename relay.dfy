/**
 * The translate handler: a fixed chain of early rejections (wrong method,
 * model not yet discovered, undecodable body, template failure), then the
 * event-stream headers, the generation request and the relayed stream.
 *
 * JSON decoding is library code: its result comes in as an
 * `Option<TranslateRequest>`. Template execution comes in as a function
 * from the decoded request to the rendered prompt or a failure.
 */
module Relay {
  import opened Wrappers
  import opened Http
  import opened Prompt
  import Discovery
  import Sse

  const MsgPostOnly: string := "只支援 POST"
  const MsgNotReady: string := "AI 模型尚未就緒，請稍後再試"
  const MsgBadJson: string := "無效的 JSON"
  const MsgPromptFailed: string := "生成提示詞失敗"

  /** Generation options; the temperature is carried as a constant only. */
  const Temperature: real := 0.0
  const NumCtx: int := 4096

  datatype Options = Options(temperature: real, numCtx: int)

  /** The request handed to the backend's streaming generation call. */
  datatype GenerateRequest = GenerateRequest(model: string, prompt: string, stream: bool, options: Options)

  /** What the checks decide: an error reply, or a generation request. */
  datatype Decision = Reject(status: int, message: string) | Proceed(request: GenerateRequest)

  /** The headers that mark the reply as an unbuffered event stream. */
  const StreamHeaders: map<string, string> := map[
    "Content-Type" := "text/event-stream",
    "Cache-Control" := "no-cache",
    "Connection" := "keep-alive",
    "X-Accel-Buffering" := "no"
  ]

  /** The checks in their fixed order: method, readiness, body, prompt. */
  function Decide(requestMethod: string, model: string, decoded: Option<TranslateRequest>,
                  render: TranslateRequest -> Option<string>): (d: Decision)
    // a non-POST request is refused whatever the model or the body
    ensures d == Reject(StatusMethodNotAllowed, MsgPostOnly) <==> requestMethod != MethodPost
    // a POST before discovery has published is refused as unavailable
    ensures d == Reject(StatusServiceUnavailable, MsgNotReady) <==> requestMethod == MethodPost && model == ""
    ensures d == Reject(StatusBadRequest, MsgBadJson) <==>
      requestMethod == MethodPost && model != "" && decoded.None?
    ensures d == Reject(StatusInternalServerError, MsgPromptFailed) <==>
      requestMethod == MethodPost && model != "" && decoded.Some? && render(decoded.value).None?
    // nothing else is ever replied before generation
    ensures d.Reject? ==> d.status in {StatusMethodNotAllowed, StatusServiceUnavailable, StatusBadRequest, StatusInternalServerError}
    // generation happens exactly when every check passes, with the published
    // model, the rendered prompt, streaming on and the fixed options
    ensures d.Proceed? <==> requestMethod == MethodPost && model != "" && decoded.Some? && render(decoded.value).Some?
    ensures d.Proceed? ==> d.request.model == model && d.request.model != ""
    ensures d.Proceed? ==> d.request.prompt == render(decoded.value).value
    ensures d.Proceed? ==> d.request.stream && d.request.options == Options(Temperature, NumCtx)
  {
    if requestMethod != MethodPost then Reject(StatusMethodNotAllowed, MsgPostOnly)
    else if model == "" then Reject(StatusServiceUnavailable, MsgNotReady)
    else if decoded.None? then Reject(StatusBadRequest, MsgBadJson)
    else
      match render(decoded.value)
      case None => Reject(StatusInternalServerError, MsgPromptFailed)
      case Some(prompt) => Proceed(GenerateRequest(model, prompt, true, Options(Temperature, NumCtx)))
  }

  /** Marks the reply as an unbuffered, uncached, kept-alive event stream. */
  method SetStreamHeaders(w: ResponseWriter)
    modifies w
    ensures w.headers == old(w.headers) + StreamHeaders
    ensures w.status == old(w.status) && w.body == old(w.body)
  {
    w.SetHeader("Content-Type", "text/event-stream");
    w.SetHeader("Cache-Control", "no-cache");
    w.SetHeader("Connection", "keep-alive");
    w.SetHeader("X-Accel-Buffering", "no");
  }

  /** Serving a request: reply with the decision's error, or set the stream
      headers, start generation and relay the chunks the backend produces
      for it. `sent` is the request given to the backend, if any. */
  method HandleTranslate(w: ResponseWriter, registry: Discovery.ModelRegistry, requestMethod: string,
                         decoded: Option<TranslateRequest>, render: TranslateRequest -> Option<string>,
                         chunks: seq<string>)
    returns (sent: Option<GenerateRequest>)
    modifies w
    ensures match Decide(requestMethod, registry.detectedModel, decoded, render)
      case Reject(code, message) =>
        && sent == None
        && w.status == code && w.body == old(w.body) + message + "\n"
        && w.headers == old(w.headers) + ErrorHeaders
      case Proceed(request) =>
        && sent == Some(request)
        && w.status == old(w.status)
        && w.headers == old(w.headers) + StreamHeaders
        && w.body == old(w.body) + Sse.Body(chunks)
  {
    if requestMethod != MethodPost {
      assert Decide(requestMethod, registry.detectedModel, decoded, render) == Reject(StatusMethodNotAllowed, MsgPostOnly);
      w.Error(MsgPostOnly, StatusMethodNotAllowed);
      return None;
    }
    if registry.detectedModel == "" {
      assert Decide(requestMethod, registry.detectedModel, decoded, render) == Reject(StatusServiceUnavailable, MsgNotReady);
      w.Error(MsgNotReady, StatusServiceUnavailable);
      return None;
    }
    if decoded.None? {
      assert Decide(requestMethod, registry.detectedModel, decoded, render) == Reject(StatusBadRequest, MsgBadJson);
      w.Error(MsgBadJson, StatusBadRequest);
      return None;
    }
    var prompt := render(decoded.value);
    if prompt.None? {
      assert Decide(requestMethod, registry.detectedModel, decoded, render) == Reject(StatusInternalServerError, MsgPromptFailed);
      w.Error(MsgPromptFailed, StatusInternalServerError);
      return None;
    }

    SetStreamHeaders(w);

    var request := GenerateRequest(registry.detectedModel, prompt.value, true, Options(Temperature, NumCtx));
    assert Decide(requestMethod, registry.detectedModel, decoded, render) == Proceed(request);
    sent := Some(request);
    var _ := Sse.Stream(w, chunks);
  }

  /** Once discovery has run, a POST is never refused as unavailable. */
  lemma ReadyAfterDiscovery(outcomes: seq<Discovery.ListOutcome>, requestMethod: string,
                            decoded: Option<TranslateRequest>, render: TranslateRequest -> Option<string>)
    requires Discovery.MaxAttempts <= |outcomes|
    ensures var d := Decide(requestMethod, Discovery.Discover(outcomes).model, decoded, render);
      d.Reject? ==> d.status != StatusServiceUnavailable
  {
  }

  /** With the translation template, a POST with a decodable body to a ready
      service always proceeds, and the prompt ends with the escaped text. */
  lemma TemplateRequestProceeds(model: string, req: TranslateRequest, esc: string -> string)
    requires model != ""
    ensures var d := Decide(MethodPost, model, Some(req), r => Some(Render(esc, r)));
      && d == Proceed(GenerateRequest(model, Render(esc, req), true, Options(Temperature, NumCtx)))
      && |esc(req.text)| <= |d.request.prompt|
      && d.request.prompt[|d.request.prompt| - |esc(req.text)|..] == esc(req.text)
  {
    RenderEndsWithText(esc, req);
  }
}
