/** The `POST /detect-disease` handler of the inference relay.

    The handler has three exits: 400 when no image was uploaded, 200 with
    either the parsed fenced payload or a fallback object, and 500 with the
    message of any exception thrown on the way. The generative model's reply,
    the base64 encoder and `JSON.parse` are outside this repository: they
    enter as parameters, so every lemma holds for every reply the model might
    produce and every encoder and parser. */
module Relay {
  import opened Wrappers
  import Fence

  /** A JSON value (RFC 8259), as the response body carries it. A number is
      held as its text, since nothing here does arithmetic on it. The `parse`
      parameter of the handler stands for `JSON.parse` followed by the
      serialisation `res.json` applies, so its result is already in the form
      that is sent. */
  datatype Json =
    | JNull
    | JBool(b: bool)
    | JNumber(text: string)
    | JString(s: string)
    | JArray(items: seq<Json>)
    | JObject(members: seq<(string, Json)>)

  /** The file the upload middleware stored for the form field `image`. */
  datatype Upload = Upload(buffer: seq<bv8>, mimeType: string)

  /** The image as sent inline to the model: base64 text and its media type. */
  datatype InlineImage = InlineImage(data: string, mimeType: string)

  /** One request to the generative model. Its text part is the fixed
      instruction prompt, which is the same on every call. */
  datatype ModelCall = ModelCall(model: string, image: InlineImage)

  /** What awaiting the model produced: the reply's text, or the message of
      the exception raised by the call or by reading the reply. */
  datatype Reply = Text(text: string) | Threw(message: string)

  /** How one request ended, before it is turned into an HTTP response. */
  datatype Outcome = NoImage | Fallback | Payload(value: Json) | Failed(message: string)

  /** An HTTP response: status code and JSON body. */
  datatype Response = Response(status: nat, body: Json)

  /** Everything one request does that is visible from outside: the model
      calls it made, in order, and the response it sent. */
  datatype Exchange = Exchange(calls: seq<ModelCall>, response: Response)

  const ModelName: string := "gemini-1.5-pro-latest"
  const NoImageMessage: string := "No image uploaded"
  const FallbackMessage: string := "Invalid response format"

  /** `{"error": message}`, the body of the 400 and 500 responses. */
  function ErrorBody(message: string): Json
  {
    JObject([("error", JString(message))])
  }

  /** `{"message": "Invalid response format"}`, sent when the reply has no fenced block. */
  const FallbackBody: Json := JObject([("message", JString(FallbackMessage))])

  /** The handler's decision, given the uploaded file (if any), what the model
      replied and the JSON parser. The reply only matters when a file is present. */
  function Decide(file: Option<Upload>, reply: Reply, parse: string -> Result<Json, string>): (o: Outcome)
    ensures o.NoImage? <==> file.None?
    ensures o.Fallback? <==> file.Some? && reply.Text? && forall i: nat, j: nat :: !Fence.Delimits(reply.text, i, j)
    ensures o.Payload? <==> file.Some? && reply.Text? && exists p :: Fence.Extract(reply.text) == Some(p) && parse(p).Ok?
    ensures o.Payload? ==> exists p :: Fence.Extract(reply.text) == Some(p) && parse(p) == Ok(o.value)
    ensures o.Failed? <==> file.Some? && (reply.Threw? || exists p :: Fence.Extract(reply.text) == Some(p) && parse(p).Err?)
    ensures o.Failed? && reply.Threw? ==> o.message == reply.message
    ensures o.Failed? && reply.Text? ==> parse(Fence.Extract(reply.text).value) == Err(o.message)
  {
    if file.None? then NoImage
    else
      match reply
      case Threw(m) => Failed(m)
      case Text(t) =>
        match Fence.Extract(t)
        case None => Fallback
        case Some(p) =>
          match parse(p)
          case Ok(v) => Payload(v)
          case Err(m) => Failed(m)
  }

  /** The HTTP response Express sends for an outcome. */
  function Respond(o: Outcome): (r: Response)
    ensures r.status == 400 <==> o.NoImage?
    ensures r.status == 500 <==> o.Failed?
    ensures r.status == 200 <==> o.Fallback? || o.Payload?
    ensures o.Payload? ==> r.body == o.value
    ensures o.Fallback? ==> r.body == FallbackBody
    ensures o.Failed? ==> r.body == ErrorBody(o.message)
    ensures o.NoImage? ==> r.body == ErrorBody(NoImageMessage)
  {
    match o
    case NoImage => Response(400, ErrorBody(NoImageMessage))
    case Fallback => Response(200, FallbackBody)
    case Payload(v) => Response(200, v)
    case Failed(m) => Response(500, ErrorBody(m))
  }

  /** One request to `POST /detect-disease`: the model is called once with
      the base64 of the uploaded bytes, and only when a file was uploaded. */
  function Handle(file: Option<Upload>, base64: seq<bv8> -> string, reply: Reply,
                  parse: string -> Result<Json, string>): (x: Exchange)
    ensures x.response.status in {200, 400, 500}
    ensures x.response.status == 200 ==>
      || x.response.body == FallbackBody
      || (reply.Text? && Fence.Extract(reply.text).Some? && parse(Fence.Extract(reply.text).value) == Ok(x.response.body))
    ensures x.response.status == 500 ==>
      file.Some? && (reply.Threw? || (Fence.Extract(reply.text).Some? && parse(Fence.Extract(reply.text).value).Err?))
    ensures file.Some? ==> x.response.status != 400
    ensures file.None? ==> x.calls == [] && x.response == Response(400, ErrorBody(NoImageMessage))
    ensures file.Some? ==>
      x.calls == [ModelCall(ModelName, InlineImage(base64(file.value.buffer), file.value.mimeType))]
  {
    var calls := if file.None? then [] else [ModelCall(ModelName, InlineImage(base64(file.value.buffer), file.value.mimeType))];
    Exchange(calls, Respond(Decide(file, reply, parse)))
  }

  /** A reply with a well-formed fenced block is answered with the parsed
      payload, unchanged and with no check of its shape, whatever text
      surrounds the block. */
  lemma FencedPayloadReturnedVerbatim(f: Upload, base64: seq<bv8> -> string, parse: string -> Result<Json, string>,
                                      p: string, body: string, q: string, v: Json)
    requires !Fence.Contains(p, Fence.Open) && !Fence.Contains(body, Fence.Close)
    requires parse(body) == Ok(v)
    ensures Handle(Some(f), base64, Text(p + Fence.Open + body + Fence.Close + q), parse).response == Response(200, v)
  {
    Fence.RoundTrip(p, body, q);
  }

  /** A reply without any opening fence is answered 200 with the fallback object. */
  lemma UnfencedReplyFallsBack(f: Upload, base64: seq<bv8> -> string, parse: string -> Result<Json, string>, text: string)
    requires !Fence.Contains(text, Fence.Open)
    ensures Handle(Some(f), base64, Text(text), parse).response == Response(200, FallbackBody)
  {
    Fence.NoOpenNoMatch(text);
  }

  /** A fence opened with CR LF is not recognised, so the reply falls back
      even though it visibly holds a JSON block. */
  lemma CrlfReplyFallsBack(f: Upload, base64: seq<bv8> -> string, parse: string -> Result<Json, string>, rest: string)
    requires !Fence.Contains(rest, Fence.Open)
    ensures Handle(Some(f), base64, Text("```json\r\n" + rest), parse).response == Response(200, FallbackBody)
  {
    Fence.CrlfFenceDoesNotOpen(rest);
  }

  /** An empty fenced block is a match with an empty payload; a conforming
      JSON parser rejects the empty text, so the answer is 500 carrying the
      parser's message, not the fallback. */
  lemma EmptyBlockIsServerError(f: Upload, base64: seq<bv8> -> string, parse: string -> Result<Json, string>)
    requires parse("").Err?
    ensures Handle(Some(f), base64, Text("```json\n\n```"), parse).response == Response(500, ErrorBody(parse("").error))
  {
    Fence.EmptyBodyMatches();
  }

  /** A payload inside the fence that does not parse is answered 500 with the
      parser's message. */
  lemma UnparsablePayloadIsServerError(f: Upload, base64: seq<bv8> -> string, parse: string -> Result<Json, string>,
                                       p: string, body: string, q: string)
    requires !Fence.Contains(p, Fence.Open) && !Fence.Contains(body, Fence.Close)
    requires parse(body).Err?
    ensures Handle(Some(f), base64, Text(p + Fence.Open + body + Fence.Close + q), parse).response
         == Response(500, ErrorBody(parse(body).error))
  {
    Fence.RoundTrip(p, body, q);
  }

  /** A reply that is exactly one fenced block around a one-line payload is
      answered with that payload's parse. */
  lemma SingleLineBlockReturnedVerbatim(f: Upload, base64: seq<bv8> -> string, parse: string -> Result<Json, string>,
                                        body: string, v: Json)
    requires '\n' !in body
    requires parse(body) == Ok(v)
    ensures Handle(Some(f), base64, Text(Fence.Open + body + Fence.Close), parse).response == Response(200, v)
  {
    Fence.NoLineFeedNoClose(body);
    Fence.WholeBlock(body);
  }

  /** Joining two texts without a line feed gives a text without one. */
  lemma NoLineFeedInJoin(a: string, b: string)
    requires '\n' !in a && '\n' !in b
    ensures '\n' !in a + b
  {
    assert forall c :: c in a + b ==> c in a || c in b;
  }

  /** The members of `LeafRust`, each a single line. Membership in a string
      literal is costly for the solver, so these facts are kept in small
      lemmas of their own. */
  lemma LeafRustHeadIsOneLine()
    ensures '\n' !in LeafRustName && '\n' !in LeafRustConfidence
  {
  }

  lemma LeafRustListsAreOneLine()
    ensures '\n' !in LeafRustSymptoms && '\n' !in LeafRustCauses
  {
  }

  lemma LeafRustTreatmentsIsOneLine()
    ensures '\n' !in LeafRustTreatments
  {
  }

  lemma LeafRustPreventionIsOneLine()
    ensures '\n' !in LeafRustPrevention
  {
  }

  /** The typical diagnosis reply `LeafRust` is a single line. */
  lemma LeafRustIsOneLine()
    ensures '\n' !in LeafRust
  {
    LeafRustHeadIsOneLine();
    LeafRustListsAreOneLine();
    LeafRustTreatmentsIsOneLine();
    LeafRustPreventionIsOneLine();
    var s := LeafRustName;
    NoLineFeedInJoin(s, LeafRustConfidence);
    s := s + LeafRustConfidence;
    NoLineFeedInJoin(s, LeafRustSymptoms);
    s := s + LeafRustSymptoms;
    NoLineFeedInJoin(s, LeafRustCauses);
    s := s + LeafRustCauses;
    NoLineFeedInJoin(s, LeafRustTreatments);
    s := s + LeafRustTreatments;
    NoLineFeedInJoin(s, LeafRustPrevention);
    s := s + LeafRustPrevention;
    assert s == LeafRust;
  }

  /** A typical diagnosis reply: exactly one fenced block holding a one-line
      JSON object, and that object comes back as is. */
  lemma LeafRustExample(f: Upload, base64: seq<bv8> -> string, parse: string -> Result<Json, string>,
                        payload: string, v: Json)
    requires payload == LeafRust && parse(payload) == Ok(v)
    ensures Handle(Some(f), base64, Text(Fence.Open + payload + Fence.Close), parse).response == Response(200, v)
  {
    LeafRustIsOneLine();
    SingleLineBlockReturnedVerbatim(f, base64, parse, payload, v);
  }

  /** A typical one-line diagnosis reply from the model. It is written member
      by member because one long literal is costly for the solver to unfold. */
  const LeafRust: string :=
    LeafRustName + LeafRustConfidence + LeafRustSymptoms + LeafRustCauses + LeafRustTreatments + LeafRustPrevention
  const LeafRustName: string := "{\"disease_name\":\"Leaf Rust\","
  const LeafRustConfidence: string := "\"confidence\":\"92%\","
  const LeafRustSymptoms: string := "\"symptoms\":[\"orange pustules\"],"
  const LeafRustCauses: string := "\"causes\":[\"fungus\"],"
  const LeafRustTreatments: string := "\"treatments\":[\"fungicide\"],"
  const LeafRustPrevention: string := "\"preventive_measures\":[\"rotate crops\"]}"
}
