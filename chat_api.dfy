/**
 * The serverless `/api/chat` handler: a chain of early returns (method,
 * credentials, body parse, required fields) ending in one call to the
 * language model with a fixed prompt template.
 *
 * The handler writes a status and a JSON payload to its response object; here
 * it returns them. The model call is the parameter `generate`, a function from
 * the request the handler would send to what the SDK delivers; "the model is
 * not called" is stated as "the response does not depend on `generate`".
 */
module ChatApi {
  import opened Types

  /**
   * A property value of the JSON body. Strings are kept; for any other JSON
   * value the model carries the two things the handler observes: its
   * truthiness and its rendering inside a template literal, which is `None`
   * when that conversion throws (an object such as `{"toString": 1}` has no
   * callable `toString` and a `valueOf` that returns an object).
   */
  datatype JsonValue = JString(s: string) | JOther(truthy: bool, rendered: Option<string>)

  /** The two properties the handler destructures; `None` is `undefined`. */
  datatype Fields = Fields(documentText: Option<JsonValue>, question: Option<JsonValue>)

  /**
   * `req.body`: a string the handler must parse itself (with the outcome of
   * `JSON.parse`: `None` when it throws), or a body the platform already
   * decoded. A body that is not an object (or is `null`/`undefined`) has
   * neither property and appears as `Fields(None, None)`.
   */
  datatype RequestBody = Raw(parse: Option<Fields>) | Decoded(fields: Fields)

  datatype Request = Request(httpMethod: string, body: RequestBody)

  /** `process.env.API_KEY` and `process.env.VITE_API_KEY`. */
  datatype Env = Env(apiKey: Option<string>, viteApiKey: Option<string>)

  /** What `ai.models.generateContent` is asked for, with the key the client was built with. */
  datatype ModelRequest = ModelRequest(apiKey: string, model: string, contents: string)

  /** The SDK call: the response's `text`, or a thrown error. */
  datatype ModelOutcome = Generated(text: string) | Threw

  datatype Payload = ErrorBody(error: string) | AnswerBody(answer: string)

  datatype Response = Response(status: int, payload: Payload)

  /** Where validation ends: an early response, or the model request to send. */
  datatype Decision = Respond(response: Response) | Generate(request: ModelRequest)

  const ModelName := "gemini-2.5-flash"

  const MethodNotAllowed := Response(405, ErrorBody("Method Not Allowed"))
  const MissingApiKey := Response(500, ErrorBody("Server misconfiguration: API Key not set"))
  const InvalidJson := Response(400, ErrorBody("Invalid JSON body"))
  const MissingFields := Response(400, ErrorBody("Missing document text or question in request body"))
  const ModelFailed := Response(500, ErrorBody("Internal Server Error processing your request"))

  /** `!!v` for a destructured property: `undefined` is falsy, and a string is truthy iff it is non-empty. */
  function Truthy(v: Option<JsonValue>): (t: bool)
    ensures t ==> v.Some?
    ensures v.Some? && v.value.JString? ==> (t <==> v.value.s != "")
  {
    match v
    case None => false
    case Some(JString(s)) => s != ""
    case Some(JOther(truthy, _)) => truthy
  }

  /** `${v}` inside a template literal; `None` when the conversion throws. */
  function Render(v: JsonValue): Option<string> {
    match v
    case JString(s) => Some(s)
    case JOther(_, rendered) => rendered
  }

  predicate NonEmpty(v: Option<string>) {
    v.Some? && v.value != ""
  }

  /** `process.env.API_KEY || process.env.VITE_API_KEY`, when that is truthy. */
  function ApiKey(env: Env): (key: Option<string>)
    ensures key.Some? <==> NonEmpty(env.apiKey) || NonEmpty(env.viteApiKey)
    ensures NonEmpty(env.apiKey) ==> key == env.apiKey
    ensures !NonEmpty(env.apiKey) && NonEmpty(env.viteApiKey) ==> key == env.viteApiKey
  {
    if NonEmpty(env.apiKey) then env.apiKey
    else if NonEmpty(env.viteApiKey) then env.viteApiKey
    else None
  }

  const Instructions := "Based strictly and solely on the content of the following document, please provide a concise and factual answer to the user's question. Do not use any external knowledge or make assumptions beyond what is written in the text. If the answer cannot be found within the document, you must state that the information is not available in the provided text."
  const DocumentHeader := "\n\nDOCUMENT:\n---\n"
  const QuestionHeader := "\n---\n\nQUESTION:\n"

  /**
   * The prompt template around the given instructions: the instructions, then
   * the document verbatim between "---" lines after "DOCUMENT:", then the
   * question verbatim after "QUESTION:", then a final newline.
   */
  function Template(instructions: string, documentText: string, question: string): (p: string)
    ensures var docStart := |instructions| + |DocumentHeader|;
      var qStart := docStart + |documentText| + |QuestionHeader|;
      && |p| == qStart + |question| + 1
      && p[..|instructions|] == instructions
      && p[|instructions|..docStart] == DocumentHeader
      && p[docStart..docStart + |documentText|] == documentText
      && p[docStart + |documentText|..qStart] == QuestionHeader
      && p[qStart..|p| - 1] == question
      && p[|p| - 1] == '\n'
  {
    instructions + DocumentHeader + documentText + QuestionHeader + question + "\n"
  }

  /** The prompt the handler sends. */
  function Prompt(documentText: string, question: string): string {
    Template(Instructions, documentText, question)
  }

  /** The prompt starts with the fixed instructions and holds the two fields verbatim in their places. */
  lemma PromptLayout(documentText: string, question: string)
    ensures var p, docStart := Prompt(documentText, question), |Instructions| + |DocumentHeader|;
      && |p| == docStart + |documentText| + |QuestionHeader| + |question| + 1
      && p[..|Instructions|] == Instructions
      && p[docStart..docStart + |documentText|] == documentText
      && p[docStart + |documentText| + |QuestionHeader|..|p| - 1] == question
  {
  }

  /**
   * The checks of the handler, in the order it makes them, and the building of
   * the prompt: a request gets as far as the model exactly when every check
   * passes and both fields render, and an early response is always an error.
   * A rendering that throws lands in the handler's outer `catch`.
   */
  function Validate(req: Request, env: Env): (d: Decision)
    ensures d.Generate? <==> Accepted(req, env)
    ensures d.Respond? ==> d.response.status in {400, 405, 500} && d.response.payload.ErrorBody?
    ensures d.Generate? ==> d.request.apiKey == ApiKey(env).value && d.request.model == ModelName
  {
    if req.httpMethod != "POST" then Respond(MethodNotAllowed)
    else if ApiKey(env).None? then Respond(MissingApiKey)
    else if req.body.Raw? && req.body.parse.None? then Respond(InvalidJson)
    else
      var fields := if req.body.Raw? then req.body.parse.value else req.body.fields;
      if !Truthy(fields.documentText) || !Truthy(fields.question) then Respond(MissingFields)
      else if Render(fields.documentText.value).None? || Render(fields.question.value).None? then Respond(ModelFailed)
      else Generate(ModelRequest(ApiKey(env).value, ModelName,
                                 Prompt(Render(fields.documentText.value).value, Render(fields.question.value).value)))
  }

  /** `handler(req, res)`: the status and payload it writes. */
  function Handler(req: Request, env: Env, generate: ModelRequest -> ModelOutcome): (r: Response)
    ensures r.status in {200, 400, 405, 500}
    ensures r.status == 405 <==> req.httpMethod != "POST"
    ensures r.status == 200 <==> r.payload.AnswerBody?
  {
    match Validate(req, env)
    case Respond(response) => response
    case Generate(request) =>
      match generate(request)
      case Generated(text) => Response(200, AnswerBody(text))
      case Threw => ModelFailed
  }

  // ---------------------------------------------------------------------------
  // What the handler promises

  /** The body the handler destructures, once it has been parsed successfully. */
  function BodyFields(body: RequestBody): Option<Fields> {
    match body
    case Raw(parse) => parse
    case Decoded(fields) => Some(fields)
  }

  /** A request every check lets through, with two fields that render. */
  predicate Accepted(req: Request, env: Env) {
    && req.httpMethod == "POST"
    && ApiKey(env).Some?
    && BodyFields(req.body).Some?
    && Truthy(BodyFields(req.body).value.documentText)
    && Truthy(BodyFields(req.body).value.question)
    && Render(BodyFields(req.body).value.documentText.value).Some?
    && Render(BodyFields(req.body).value.question.value).Some?
  }

  /** A rejected request is answered without calling the model: any two models give the same response. */
  lemma RejectedNeverCallsModel(req: Request, env: Env, g1: ModelRequest -> ModelOutcome, g2: ModelRequest -> ModelOutcome)
    requires !Accepted(req, env)
    ensures Handler(req, env, g1) == Handler(req, env, g2)
    ensures Handler(req, env, g1).status != 200
  {
    assert Validate(req, env).Respond?;
  }

  /**
   * An accepted request sends one model request, built from the selected key,
   * the fixed model name and the prompt over the two fields; the response is
   * 200 with the model's text, or 500 when the call throws.
   */
  lemma AcceptedCallsModel(req: Request, env: Env, generate: ModelRequest -> ModelOutcome)
    requires Accepted(req, env)
    ensures var fields := BodyFields(req.body).value;
      var sent := ModelRequest(ApiKey(env).value, ModelName,
                               Prompt(Render(fields.documentText.value).value, Render(fields.question.value).value));
      Handler(req, env, generate) ==
        match generate(sent)
        case Generated(text) => Response(200, AnswerBody(text))
        case Threw => ModelFailed
  {
  }

  /** The method check comes before every other check. */
  lemma MethodCheckedFirst(req: Request, env: Env, generate: ModelRequest -> ModelOutcome)
    requires req.httpMethod != "POST"
    ensures Handler(req, env, generate) == MethodNotAllowed
  {
  }

  /** Without a non-empty key in either variable, a POST gets 500 before the body is looked at. */
  lemma MissingKeyIsServerError(req: Request, env: Env, generate: ModelRequest -> ModelOutcome)
    requires req.httpMethod == "POST"
    requires !NonEmpty(env.apiKey) && !NonEmpty(env.viteApiKey)
    ensures Handler(req, env, generate) == MissingApiKey
  {
  }

  /** A string body that does not parse gets 400 "Invalid JSON body". */
  lemma UnparseableBody(req: Request, env: Env, generate: ModelRequest -> ModelOutcome)
    requires req.httpMethod == "POST" && ApiKey(env).Some?
    requires req.body == Raw(None)
    ensures Handler(req, env, generate) == InvalidJson
  {
  }

  /** A parsed body whose `documentText` or `question` is falsy gets 400. */
  lemma FalsyFieldRejected(req: Request, env: Env, generate: ModelRequest -> ModelOutcome)
    requires req.httpMethod == "POST" && ApiKey(env).Some?
    requires BodyFields(req.body).Some?
    requires !Truthy(BodyFields(req.body).value.documentText) || !Truthy(BodyFields(req.body).value.question)
    ensures Handler(req, env, generate) == MissingFields
  {
  }

  /**
   * Fields that pass the falsy check but whose rendering throws get the outer
   * `catch`'s 500, whatever the model would do: the model is not called.
   */
  lemma UnrenderableFieldIsServerError(req: Request, env: Env, generate: ModelRequest -> ModelOutcome)
    requires req.httpMethod == "POST" && ApiKey(env).Some?
    requires BodyFields(req.body).Some?
    requires Truthy(BodyFields(req.body).value.documentText) && Truthy(BodyFields(req.body).value.question)
    requires Render(BodyFields(req.body).value.documentText.value).None?
      || Render(BodyFields(req.body).value.question.value).None?
    ensures Handler(req, env, generate) == ModelFailed
  {
  }

  /** Given the document's length, the prompt determines the document and the question. */
  lemma TemplateDeterminesFields(instructions: string, d1: string, q1: string, d2: string, q2: string)
    requires |d1| == |d2|
    requires Template(instructions, d1, q1) == Template(instructions, d2, q2)
    ensures d1 == d2 && q1 == q2
  {
  }

  /**
   * Without the length, it does not: the delimiters are not escaped, so a
   * document that itself contains the question header yields the same prompt
   * as a shorter document with a longer question.
   */
  lemma TemplateDelimitersAmbiguous(instructions: string)
    ensures Template(instructions, "a" + QuestionHeader + "b", "c") == Template(instructions, "a", "b" + QuestionHeader + "c")
  {
  }
}
