/**
 * The HTTP handlers of the prediction endpoint, as mappings from a request
 * to a status code and a JSON payload. The generator is the one of module
 * `Claude`, run in the given environment.
 */
module PredictRoute {
  import opened Wrappers
  import opened JsText
  import opened Json
  import opened Claude
  import Validation

  /** What `request.json()` delivers: a parsed value, or a failure to parse. */
  datatype RequestBody = Malformed | Body(value: Json)

  /** The JSON payload of a response. */
  datatype Payload = Prediction(result: PredictionResult) | ErrorPayload(error: string)

  datatype HttpResponse = HttpResponse(status: int, payload: Payload)

  const QuestionRequired: string := "Question is required"
  const QuestionTooLong: string := "Question is too long (max 500 characters)"
  const GenerationFailed: string := "Failed to generate predictions"
  const ParameterRequired: string := "Question parameter is required"

  /** The longest question, in UTF-16 units, that the POST handler forwards. */
  const MaxQuestionLength: int := 500

  /** The generator's outcome as a response: 200 with the result, or 500. */
  function Respond(outcome: Result<PredictionResult, GenerationError>): (r: HttpResponse)
    ensures r.status == 200 <==> outcome.Success?
    ensures r.status == 200 ==> r.payload == Prediction(outcome.value)
    ensures r.status != 200 ==> r == HttpResponse(500, ErrorPayload(GenerationFailed))
  {
    match outcome
    case Success(result) => HttpResponse(200, Prediction(result))
    case Failure(_) => HttpResponse(500, ErrorPayload(GenerationFailed))
  }

  /** The `question` member a POST body carries, if it carries one. */
  function QuestionOf(body: RequestBody): (q: Option<Json>)
    ensures q.Some? <==> body.Body? && body.value.JObject? && "question" in body.value.members
  {
    if body.Malformed? then None else Prop(body.value, "question")
  }

  /**
   * The POST body is forwarded to the generator: its `question` is a string
   * that is not blank after trimming and is at most 500 UTF-16 units long,
   * measured before any trimming.
   */
  ghost predicate Forwarded(body: RequestBody)
  {
    var q := QuestionOf(body);
    q.Some? && q.value.JString? && Trim(q.value.s) != [] && Utf16Length(q.value.s) <= MaxQuestionLength
  }

  /**
   * The checks the POST handler applies to the `question` member, in
   * order: a missing, non-string or blank question fails with "Question is
   * required", an overlong one with the length message; any other is
   * passed on untrimmed.
   */
  function ScreenQuestion(question: Option<Json>): (r: Result<string, string>)
    ensures r.Success? <==>
      (question.Some? && question.value.JString? &&
       Trim(question.value.s) != [] && Utf16Length(question.value.s) <= MaxQuestionLength)
    ensures r.Success? ==> r.value == question.value.s
    ensures r.Failure? ==> r.error == QuestionRequired || r.error == QuestionTooLong
    ensures r == Failure(QuestionTooLong) <==>
      (question.Some? && question.value.JString? &&
       Trim(question.value.s) != [] && Utf16Length(question.value.s) > MaxQuestionLength)
  {
    if !Truthy(question) || !question.value.JString? || Trim(question.value.s) == [] then
      Failure(QuestionRequired)
    else if Utf16Length(question.value.s) > MaxQuestionLength then
      Failure(QuestionTooLong)
    else
      Success(question.value.s)
  }

  /**
   * `POST`: a body that cannot be read, or is `null` (so that destructuring
   * it throws), gives 500; a question that fails the checks gives 400 with
   * the check's message; otherwise the raw question goes to the generator,
   * and every error it throws becomes 500.
   */
  function Post(body: RequestBody, env: Environment): (r: HttpResponse)
    ensures r.status == 200 || r.status == 400 || r.status == 500
    ensures Forwarded(body) ==> r == Respond(GeneratePredictions(QuestionOf(body).value.s, env))
    ensures r.status == 500 ==> r.payload == ErrorPayload(GenerationFailed)
  {
    if body.Malformed? || body.value.JNull? then HttpResponse(500, ErrorPayload(GenerationFailed))
    else
      match ScreenQuestion(Prop(body.value, "question"))
      case Failure(message) => HttpResponse(400, ErrorPayload(message))
      case Success(question) => Respond(GeneratePredictions(question, env))
  }

  /** 400 is the answer exactly when the body was read but its question
    * is not forwarded. */
  lemma PostBadRequestIff(body: RequestBody, env: Environment)
    ensures Post(body, env).status == 400 <==> body.Body? && !body.value.JNull? && !Forwarded(body)
  {
    if body.Body? && !body.value.JNull? {
      assert QuestionOf(body) == Prop(body.value, "question");
    }
  }

  /** A successful POST answers with the generator's result for its question:
    * three valid scenarios echoing that question. */
  lemma PostSuccess(body: RequestBody, env: Environment)
    requires Post(body, env).status == 200
    ensures Forwarded(body)
    ensures var r := Post(body, env).payload.result;
      r.question == QuestionOf(body).value.s && |r.scenarios| == 3 &&
      forall i :: 0 <= i < 3 ==> ValidateScenario(r.scenarios[i])
  {
  }

  /** A POST body holding just the question. */
  function QuestionBody(question: string): (b: RequestBody)
    ensures b.Body? && Prop(b.value, "question") == Some(JString(question))
  {
    Body(JObject(map["question" := JString(question)]))
  }

  /** A missing, non-string or blank question is answered 400 "Question is required". */
  lemma PostRequiresQuestion(body: RequestBody, env: Environment)
    requires body.Body? && !body.value.JNull?
    requires var q := Prop(body.value, "question");
      q.None? || !q.value.JString? || Trim(q.value.s) == []
    ensures Post(body, env) == HttpResponse(400, ErrorPayload(QuestionRequired))
  {
  }

  /**
   * The length limit applies to the raw string: a non-blank question of
   * exactly 500 UTF-16 units is forwarded, one of 501 or more is refused.
   */
  lemma PostLengthLimit(question: string, env: Environment)
    requires Trim(question) != []
    ensures Utf16Length(question) <= 500 ==>
      Post(QuestionBody(question), env) == Respond(GeneratePredictions(question, env))
    ensures Utf16Length(question) > 500 ==>
      Post(QuestionBody(question), env) == HttpResponse(400, ErrorPayload(QuestionTooLong))
  {
    var body := QuestionBody(question);
    assert question != [] && Truthy(Some(JString(question)));
    assert !body.value.JNull? && QuestionOf(body) == Some(JString(question));
  }

  /** The POST handler never answers 429 or 503: the generator's rate-limit
    * and authentication errors both become 500. */
  lemma GeneratorErrorsBecome500(question: string, env: Environment)
    requires Forwarded(QuestionBody(question))
    requires GeneratePredictions(question, env).Failure?
    ensures Post(QuestionBody(question), env) == HttpResponse(500, ErrorPayload(GenerationFailed))
  {
  }

  /**
   * `validateQuestion` is not applied: a question it rejects as too short
   * is still forwarded to the generator.
   */
  lemma ShortQuestionForwarded(env: Environment)
    ensures Validation.ValidateQuestion(Some(JString("hi"))) == Validation.Invalid(Validation.TooShort)
    ensures Post(QuestionBody("hi"), env) == Respond(GeneratePredictions("hi", env))
  {
    var q := "hi";
    assert q[0] == 'h' && q[1] == 'i' && |q| == 2;
    assert Validation.NoTagClose(q) && Validation.SingleSpaced(q);
    Validation.SanitizedFormUnchanged(q);
    assert Utf16Length(q) <= 4;
    Validation.ShortQuestionRejected(q);
    TrimUnchanged(q);
    PostLengthLimit(q, env);
  }

  /**
   * `GET`: an absent or empty `q` parameter gives 400; any other value,
   * blank or long as it may be, goes to the generator.
   */
  function Get(q: Option<string>, env: Environment): (r: HttpResponse)
    ensures r.status == 200 || r.status == 400 || r.status == 500
    ensures r.status == 400 <==> q.None? || q.value == []
    ensures r.status == 400 ==> r.payload == ErrorPayload(ParameterRequired)
    ensures r.status != 400 ==> r == Respond(GeneratePredictions(q.value, env))
  {
    if q.None? || q.value == [] then HttpResponse(400, ErrorPayload(ParameterRequired))
    else Respond(GeneratePredictions(q.value, env))
  }

  /** GET and POST agree on a question both forward. */
  lemma GetAgreesWithPost(question: string, env: Environment)
    requires Forwarded(QuestionBody(question))
    ensures Get(Some(question), env) == Post(QuestionBody(question), env)
  {
  }
}
