# Translation gateway core, modelled in Dafny

The gateway (`main.go`) turns a local inference server into a translation
service. Two pieces of behaviour are modelled here:

* **Model discovery** (`detectModel`): up to ten times, ask the server for its
  model list, scan it in order and publish the first name containing the
  case-sensitive marker `translategemma`; after ten fruitless attempts (each
  followed by a 2-second wait, the last one included) publish the fallback
  `translategemma:4b`. The published name lives in one process-wide slot,
  `detectedModel`, empty until discovery writes it.
* **The translate handler** (`handleTranslate`): a fixed chain of early
  rejections (non-POST → 405, no model yet → 503, undecodable JSON → 400,
  template failure → 500), then the event-stream headers, a generation
  request (published model, rendered prompt, streaming on, temperature 0,
  context window 4096), and the relay of the backend's chunks as
  `data: <chunk>\n\n` frames, empty chunks skipped, in arrival order.

Modules, one per concern of `main.go`:

| file | module | what |
|---|---|---|
| `wrappers.dfy` | `Wrappers` | `Option` |
| `discovery.dfy` | `Discovery` | list outcomes, the discovery specification `Discover`, the `ModelRegistry` class holding `detectedModel` and its `DetectModel` retry loop |
| `prompt.dfy` | `Prompt` | the request record, the template as literal/slot segments, rendering with an uninterpreted escaper `esc` |
| `http.dfy` | `Http` | the response writer (status, headers, growing body) and the HTTP constants |
| `sse.dfy` | `Sse` | event framing as a function, a reference definition, a client-side parser, and the per-chunk callback and stream loop as methods |
| `relay.dfy` | `Relay` | the decision function `Decide`, the generation request, and the `HandleTranslate` method |

The server is abstracted: its list answers are a sequence of
`ListOutcome`s (one per possible call), its generation stream is the
sequence of chunks it produces. The HTML escaper of the template package
is the function parameter `esc`; JSON decoding is an
`Option<TranslateRequest>`; template execution is a function from the
decoded request to `Option<string>`.

The template at `main.go:41-44` fills the source language into three slots
and the target language into four, and as an HTML template it escapes every
substituted value; `TemplateShape`, `RenderLength` and `RenderEndsWithText`
state this.

## Model

| member | source | states |
|---|---|---|
| `Discovery.ContainsAt` | main.go:56 | the substring test used to recognise a translation model, `Contains(s, sub)`, holds exactly when `sub` occurs at some position of `s` (both directions; case-sensitive) |
| `Discovery.FirstMatch` | main.go:55-60 | no result exactly when no name carries the marker; otherwise the result is a listed name, unchanged, carrying the marker, and it is the first such name in listing order |
| `Discovery.DiscoverFrom` | main.go:52-66 | from attempt `i` on, either some attempt matches and the run stops right there after all earlier attempts came back empty (waits = attempts − 1), or all remaining attempts fail and the fallback is published after 10 attempts and 10 waits |
| `Discovery.Discover` | main.go:48-67 | at most 10 and at least 1 list attempts; the published name is non-empty and contains the marker; the run either stopped on the first match or fell back |
| `Discovery.DiscoverStopsAtFirstMatch` | main.go:52-60 | if attempt `k` is the first that yields a match, discovery publishes exactly that name after `k + 1` attempts and `k` waits |
| `Discovery.DiscoverFallsBack` | main.go:63-66 | if no attempt yields a match, discovery makes 10 attempts, waits 10 times (20 seconds, the last attempt included) and publishes `translategemma:4b` |
| `Discovery.ModelRegistry.constructor` | main.go:24 | the model slot starts empty |
| `Discovery.ModelRegistry.DetectModel` | main.go:48-67 | the retry loop publishes `Discover(outcomes).model` after the same number of attempts and waits, and the slot is non-empty afterwards |
| `Prompt.TemplateShape` | main.go:41-44 | the template fills 3 slots with the source language, 4 with the target language and 1 with the text, and the text slot is last |
| `Prompt.FillAppend` | main.go:41-44 | rendering is compositional over template segments |
| `Prompt.FillLength` | main.go:41-44 | a rendered template is its literal text plus one escaped field value per slot |
| `Prompt.RenderLength` | main.go:41-44 | the prompt is the literal skeleton plus 3 × escaped source, 4 × escaped target and 1 × escaped text |
| `Prompt.RenderEndsWithText` | main.go:44 | the prompt ends with the escaped text |
| `Prompt.FillDependsOnEscapedFields` | main.go:110-111 | rendering is deterministic and depends on the request only through its escaped fields |
| `Http.ResponseWriter.SetHeader` | main.go:117-120 | sets one header, nothing else changes |
| `Http.ResponseWriter.Error` | main.go:94 | an error reply sets the plain-text and no-sniff headers, the status, and writes the message line |
| `Sse.BodyIsFramesOfNonEmpty` | main.go:134-143 | the response body is exactly the concatenation of `data: c\n\n` over the non-empty chunks `c`, in arrival order |
| `Sse.BodyAppend` | main.go:134-143 | the body of a stream is the body of its first part followed by that of the rest: a stream cut short leaves a prefix of the full body |
| `Sse.BodySkipsEmpty` | main.go:135-137 | empty chunks add nothing to the body |
| `Sse.ParseBody` | main.go:138 | a client splitting the body into frames gets back exactly the non-empty chunks, in order, when no chunk holds a newline |
| `Sse.NewlinesBreakFraming` | main.go:138 | chunks are written verbatim, so a chunk holding a frame boundary gives the same body as two chunks |
| `Sse.OnChunk` | main.go:134-143 | the callback writes the chunk's frame (nothing for an empty chunk) and never asks the backend to stop |
| `Sse.Stream` | main.go:134-143 | relaying a stream appends `Body(chunks)` to the response, leaves status and headers alone, and ends without a callback error |
| `Relay.Decide` | main.go:92-131 | the gate order: 405 exactly for a non-POST; 503 exactly for a POST with no model; 400 exactly for a ready POST with an undecodable body; 500 exactly when rendering then fails; no other rejection; generation exactly when all four checks pass, with the published model, the rendered prompt, streaming on, temperature 0 and `num_ctx` 4096 |
| `Relay.SetStreamHeaders` | main.go:116-120 | the four event-stream headers are set, the status and body are unchanged |
| `Relay.HandleTranslate` | main.go:92-143 | a rejection writes the error headers, the decided status and message and calls no backend; otherwise the four stream headers are set, the decided request is the one sent, and the body grows by the framed chunks |
| `Relay.ReadyAfterDiscovery` | main.go:99-102 | once discovery has run, the 503 rejection can no longer happen |
| `Relay.TemplateRequestProceeds` | main.go:110-131 | with the real template, a POST with a decodable body to a ready service proceeds with the rendered prompt, which ends with the escaped text |

## Left out

- HTTP server setup, routing, static file serving and `/api/info` (`main.go:69-90`): server plumbing around the core.
- Constructing the inference client and its fatal error (`main.go:36-40`); the list and generate network calls are the given `ListOutcome` sequence and chunk sequence.
- Concurrency: the background launch of discovery, the unsynchronised read and write of `detectedModel`, request-context cancellation. The slot is a single field written by discovery; `HandleTranslate` reads it as one value (the source reads it twice, at lines 99 and 124, which agree because discovery only writes once).
- The error and cancellation logging after generation (`main.go:145-152`) and every log line: they change no reply. A stream that ends early because of a backend error or a cancelled client is modelled by passing the chunks delivered before the end (`BodyAppend` relates it to the full stream).
- `time.Sleep`: waits are counted (`Run.waits`), time is not modelled.
- Flushing after each frame (`main.go:139-141`): it changes when bytes leave, not which bytes.
- The internals of the template package's HTML escaper (the parameter `esc`) and of JSON decoding (an `Option`), including the default of empty strings for absent JSON fields.
- The temperature is carried as the constant `0.0`; no floating-point arithmetic is modelled.
- Http.ResponseWriter.Error: does not model that `http.Error` also deletes a `Content-Length` header; no handler path sets one before an error reply.
- Discovery.Discover: takes at least ten list answers, one per possible call; the server answering every call is how the environment is represented, not a restriction of the source.
- Sse.ParseBody: the round trip is stated only for chunks without newlines, since the source frames chunks verbatim and `NewlinesBreakFraming` shows the body is ambiguous otherwise.
