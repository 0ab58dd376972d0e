# Crop disease detection: relay and Detection page, modelled in Dafny

The system is a small web demo. A browser page lets a user pick a photo of a
crop. A Node relay forwards the photo to a hosted vision model and returns the
diagnosis it finds in the model's reply. The page then renders that diagnosis.
The model does all the image analysis. This project models the two pieces of
decision logic the repository owns itself, and proves properties about them.

- **Fenced-JSON extraction** (`fence.dfy`, module `Fence`). The relay applies
  the ECMAScript pattern ```` /```json\n([\s\S]*?)\n```/ ```` to the reply and
  keeps capture group 1. `Extract` finds the first opening fence, then the
  first closing delimiter at or after that fence's end. It is proved equal to
  the regex semantics: the leftmost start that can match, then the shortest
  (lazy) body. Lemmas cover the round trip, the payload never holding the
  closing delimiter, the exact matching of the fence (CR LF and upper-case
  tags do not open a block), the empty body, and the bare fence pair.
- **The `/detect-disease` handler** (`relay.dfy`, module `Relay`). `Decide`
  picks one of four outcomes: no image, fallback, parsed payload, or failure.
  `Respond` turns the outcome into a status and a JSON body. `Handle` also
  records the model calls made, so "no file, no model call" can be stated.
  The model's reply, the base64 encoder and `JSON.parse` are parameters.
- **Detection page state** (`page.dfy`, module `Page`). The page's four
  state variables form a record: preview, loading, error and data. `Choose`
  and `Settle` are the two halves of `handleImageUpload`. In every sequential
  trace, the page stays in one of three shapes: initial, one request in
  flight, or settled with exactly one of error and data set.
- **Rendering** (`render.dfy`, module `Render`). Rendering is a pure function
  from the page state to a view. The results panel is shown on JavaScript
  truthiness. The four sections come in a fixed order, one row per list item.
  A heading replaces only the first `_`. Every row carries the same marker:
  a cross exactly when the disease name is `"No disease detected"`.

`wrappers.dfy` holds the `Option` and `Result` types both sides use.

Three facts about the code shape the model:
- The prompt (backend/server.js:39-63) asks for an object with six keys. The
  handler returns whatever `JSON.parse` produced, with no shape check, so
  `Decide` and `Handle` allow any JSON value in a 200 answer.
- The prompt asks for "JSON format" and names no fence. The pattern at
  backend/server.js:76 demands a line feed right after the `json` tag and
  right before the closing backticks. A CR LF line ending or an upper-case
  tag gives the fallback. An empty block with both line feeds matches, and
  then fails to parse (500).
- The prompt's no-disease object (backend/server.js:53-60) has four empty
  lists. Rendering does not rely on that: the cross marker depends only on
  the disease name.

## Model

| member | source | states |
|---|---|---|
| Fence.FindFrom | backend/server.js:76 | The result is an occurrence of the pattern at or after the start index, with none between; None means no occurrence at or after it. |
| Fence.Locate | backend/server.js:76 | No span exactly when no opening fence is followed by a closing delimiter. Otherwise the span is the leftmost-start, shortest-body match. |
| Fence.Extract | backend/server.js:76 | `match` gives null exactly when no opening fence is followed, at or after its end, by `\n```` `. Otherwise capture group 1 is the text between the delimiters of the leftmost, laziest match. |
| Fence.FirstFenceFirstCloseIsFirstMatch | backend/server.js:76 | The first opening fence, paired with the first closing delimiter at or after its end, is the match the regex engine reports. |
| Fence.MatchIffFirstFenceClosed | backend/server.js:76 | A match exists if and only if the first opening fence is followed by a closing delimiter; later fences never add a match. |
| Fence.NoOpenNoMatch | backend/server.js:76-77 | A reply with no opening fence anywhere has no match. |
| Fence.PayloadIsCloseFreeSlice | backend/server.js:76 | The payload sits right after the first opening fence and is followed by a closing delimiter. It never contains the closing delimiter. |
| Fence.FirstMatchOpensFirst | backend/server.js:76 | The reported match starts at the first opening fence of the reply. |
| Fence.FirstMatchBodyHasNoClose | backend/server.js:76 | The lazy body of the reported match never holds the closing delimiter. |
| Fence.FirstOpenAfterPrefix | backend/server.js:76 | If a text starts with a prefix that has no opening fence, followed by a fence, that fence is the first one: no occurrence can run across the join. |
| Fence.FirstCloseAfterBody | backend/server.js:76 | If a body without a closing delimiter is followed by one, that delimiter is the first one at or after the body's start. |
| Fence.ExtractAt | backend/server.js:76-77 | Given the first opening fence and the first closing delimiter at or after its end, capture group 1 is exactly the text between them. |
| Fence.RoundTrip | backend/server.js:76 | For `p` without an opening fence and `s` without a closing delimiter, extraction from `p + "```json\n" + s + "\n```" + q` gives back `s`. |
| Fence.WholeBlock | backend/server.js:76-77 | A reply that is exactly one fenced block around a body without a closing delimiter gives back that body. |
| Fence.NoLineFeedNoClose | backend/server.js:76 | A payload without a line feed cannot hold the closing delimiter. |
| Fence.NoOpenAcrossLineFeed | backend/server.js:76 | Text that ends in a line feed cannot start an opening fence that crosses its end. |
| Fence.CrlfFenceDoesNotOpen | backend/server.js:76 | An opening fence written with CR LF does not match, so a reply without an exact fence yields no payload. |
| Fence.UpperCaseTagDoesNotOpen | backend/server.js:76 | Matching is case-sensitive: an upper-case `JSON` tag does not open a block. |
| Fence.EmptyBodyMatches | backend/server.js:76 | An empty block with both line feeds matches, with the empty payload. |
| Fence.BareFencePairDoesNotMatch | backend/server.js:76 | The opening fence's line feed cannot double as the closing one's: "```json\n```" does not match. |
| Relay.Decide | backend/server.js:26-85 | No file gives NoImage. A thrown call gives Failed with its message. No match gives Fallback. A matched payload gives Payload, holding its parse, exactly when it parses, and otherwise Failed with the parser's message. |
| Relay.Respond | backend/server.js:28-83 | NoImage is 400 `{"error":"No image uploaded"}`. Fallback is 200 `{"message":"Invalid response format"}`. A payload is 200 with the value itself, as `parse` produced it. Failure is 500 `{"error": message}`. |
| Relay.Handle | backend/server.js:26-85 | The status is 200, 400 or 500, and 400 exactly when there is no file. A 200 body is the fallback object or the parse of this reply's fenced payload. A 500 means a file was given and the model call threw or the payload failed to parse. Without a file: no model call. With one: exactly one call, carrying the base64 of the bytes and the media type. |
| Relay.FencedPayloadReturnedVerbatim | backend/server.js:76-79 | A well-formed fenced block whose payload parses is answered 200 with the value `parse` gave for its payload; the handler changes nothing and checks no shape. |
| Relay.UnfencedReplyFallsBack | backend/server.js:76-79 | A reply without an opening fence is answered 200 with the fallback object. |
| Relay.CrlfReplyFallsBack | backend/server.js:76-79 | A reply whose fence opens with CR LF is answered 200 with the fallback object. |
| Relay.EmptyBlockIsServerError | backend/server.js:76-83 | An empty fenced block goes to the 500 path with the parser's message, not to the fallback. |
| Relay.UnparsablePayloadIsServerError | backend/server.js:77-83 | A matched payload that fails to parse is answered 500 with the parser's message. |
| Relay.SingleLineBlockReturnedVerbatim | backend/server.js:76-79 | A reply that is one fenced block around a one-line payload is answered 200 with that payload's parse. |
| Relay.LeafRustExample | backend/server.js:76-79 | A typical one-line diagnosis reply is answered 200 with exactly the parsed object. |
| Page.Choose | frontend/src/pages/Detection.tsx:22-29 | A change event with no file leaves all four variables unchanged. With a file, it sets the preview and loading, and clears error and data. |
| Page.Settle | frontend/src/pages/Detection.tsx:34-48 | Loading ends and the preview is kept. An ok, parsed response sets data and leaves error alone. Anything else sets error to the fixed message and leaves data alone. |
| Page.Upload | frontend/src/pages/Detection.tsx:22-49 | After a completed upload: loading is false and the preview is the chosen image. Exactly one of error and data is set. Data is set if and only if the response was ok and parsed. |
| Page.StepKeepsConsistent | frontend/src/pages/Detection.tsx:22-49 | An event in turn keeps the page in one of its three consistent shapes. |
| Page.SequentialRunKeepsConsistent | frontend/src/pages/Detection.tsx:22-49 | Every sequential trace of events keeps the page consistent. |
| Page.SettledStateHasOneResult | frontend/src/pages/Detection.tsx:40-47 | In a consistent page past the initial state with nothing loading, exactly one of error and data is set. |
| Render.ReplaceFirst | frontend/src/pages/Detection.tsx:155 | Only the first occurrence of the pattern character changes; every other character and the length stay the same. |
| Render.ReplaceFirstAfterPrefix | frontend/src/pages/Detection.tsx:155 | When the first underscore follows a prefix without one, only that underscore is replaced. |
| Render.HeadingOfPlainKey | frontend/src/pages/Detection.tsx:155 | A key without an underscore is shown unchanged. |
| Render.PlainKeyHeadings | frontend/src/pages/Detection.tsx:146-155 | The headings of symptoms, causes and treatments are the keys themselves. |
| Render.PreventiveMeasuresHeading | frontend/src/pages/Detection.tsx:155 | `preventive_measures` is shown as `preventive measures`. |
| Render.LaterUnderscoresKept | frontend/src/pages/Detection.tsx:155 | Any underscore after the first stays: the heading replaces once, not globally. |
| Render.Rows | frontend/src/pages/Detection.tsx:158-174 | One row per list item, all with the same marker. |
| Render.TextsOfRows | frontend/src/pages/Detection.tsx:158-174 | The rows list exactly the items, in list order. |
| Render.RenderReport | frontend/src/pages/Detection.tsx:135-177 | Title and badge are the name and confidence. Four sections come in the fixed order, each with its heading and its field's items in order. A row's marker is the cross exactly when the name is `"No disease detected"`. |
| Render.Render | frontend/src/pages/Detection.tsx:100-179 | The panel is shown exactly when the preview or the error is truthy, loading is on, or data is set. In the panel, the preview and the alert appear exactly when their variables are truthy, the spinner when loading, and the report exactly when data is set. |
| Render.PanelShownIffAnythingSet | frontend/src/pages/Detection.tsx:100 | On every consistent state, the panel is shown exactly when one of the four variables is set. That is exactly when the page has left its initial state. |
| Render.HealthyReportHasNoRows | frontend/src/pages/Detection.tsx:146-177 | A "no disease" diagnosis with empty lists renders four empty sections. |

## Left out

- The generative model call (backend/server.js:66-73) is not modelled. Its outcome is the `Reply` parameter: reply text, or the message of an exception. The reply is read twice (lines 72-73) and only the second read is used; both reads give the same text, so it appears once.
- The instruction prompt (backend/server.js:39-63) is a fixed constant with no decision content. Its text is not reproduced: `ModelCall` records the model name and the inline image only.
- `JSON.parse` is the `parse` parameter; nothing in the repository parses JSON. The empty-block lemma assumes only that `parse("")` fails, as any RFC 8259 parser must.
- Relay.Respond: the 200 body is "the parsed value itself" only because `parse` stands for `JSON.parse` followed by the serialisation `res.json` performs (backend/server.js:79), which is not modelled as a separate step. That serialisation reprints numbers as doubles (`92.0` becomes `92`, `1e400` becomes `null`) and keeps only the last of duplicate keys.
- Base64 encoding is library code and enters as the `base64` parameter.
- Express routing, multer, CORS, dotenv and `listen` are I/O plumbing. That includes multer's own error for a file under a field other than `image`, which never reaches the handler.
- A thrown value that is not an `Error` has no `message`, which would give a body without the `error` member. Every exception is modelled as carrying a message string.
- `fetch`, `URL.createObjectURL`, React's hooks and batching, framer-motion and styling are left out. The object URL is a parameter of the change event, and a sequential trace requires it to be non-empty, as browser object URLs are. The `capitalize` CSS class changes only the display case of the heading.
- Overlapping uploads, where the last response wins, are a concurrency concern. Only sequential traces are modelled: a new file is chosen only when no request is in flight.
- The page's data is typed `DiseaseData`. The relay's fallback object and other untyped bodies are not representable, including a JSON `null` body, which would leave neither error nor data set. Rendering such a body would fail at Detection.tsx:158, and the model does not claim rendering is total for arbitrary bodies.
- Landing.tsx, Navbar.tsx, Footer.tsx and App.tsx are static presentation and a route table with no decision logic.
