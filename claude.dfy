/**
 * The prediction generator: it asks a language model for three future
 * scenarios about a question and falls back to three fixed scenarios
 * whenever the answer cannot be used.
 *
 * The model call, `JSON.parse`, the API-key lookup and the clock are not
 * modelled; they are inputs collected in an `Environment`.
 */
module Claude {
  import opened Wrappers
  import opened JsText
  import opened Json

  // ---------------------------------------------------------------------
  // Scenarios
  // ---------------------------------------------------------------------

  /** The three kinds of scenario. */
  datatype Tag = Optimistic | Realistic | Pessimistic

  /** The tag's name as it appears in the `scenario` field. */
  function TagName(t: Tag): string
  {
    match t
    case Optimistic => "optimistic"
    case Realistic => "realistic"
    case Pessimistic => "pessimistic"
  }

  /** The tag a `scenario` field names, if it names one. */
  function TagOfName(name: string): (t: Option<Tag>)
    ensures t.Some? ==> TagName(t.value) == name
  {
    if name == "optimistic" then Some(Optimistic)
    else if name == "realistic" then Some(Realistic)
    else if name == "pessimistic" then Some(Pessimistic)
    else None
  }

  /** Every tag is recognised from its own name. */
  lemma TagNameRoundTrip(t: Tag)
    ensures TagOfName(TagName(t)) == Some(t)
  {
  }

  /** A well-typed scenario, the shape the generator promises its callers. */
  datatype Scenario = Scenario(
    title: string,
    tag: Tag,
    description: string,
    probability: real,
    confidence: real,
    timeline: string,
    keyFactors: seq<string>,
    actionSteps: seq<string>)

  /** The JSON strings of a list of strings. */
  function Strings(xs: seq<string>): (vs: seq<Json>)
    ensures |vs| == |xs|
    ensures forall i :: 0 <= i < |xs| ==> vs[i] == JString(xs[i])
  {
    seq(|xs|, i requires 0 <= i < |xs| => JString(xs[i]))
  }

  /** A scenario as the JSON object the API returns for it. */
  function Encode(s: Scenario): (v: Json)
    ensures v.JObject?
    ensures Prop(v, "scenario") == Some(JString(TagName(s.tag)))
    ensures Prop(v, "probability") == Some(JNumber(s.probability))
    ensures Prop(v, "confidence") == Some(JNumber(s.confidence))
    ensures Prop(v, "timeline") == Some(JString(s.timeline))
  {
    JObject(map[
      "title" := JString(s.title),
      "scenario" := JString(TagName(s.tag)),
      "description" := JString(s.description),
      "probability" := JNumber(s.probability),
      "confidence" := JNumber(s.confidence),
      "timeline" := JString(s.timeline),
      "keyFactors" := JArray(Strings(s.keyFactors)),
      "actionSteps" := JArray(Strings(s.actionSteps))])
  }

  /** The `scenario` field names one of the three tags. */
  predicate HasTag(v: Json)
  {
    var p := Prop(v, "scenario");
    p.Some? && p.value.JString? && TagOfName(p.value.s).Some?
  }

  /**
   * `validateScenario`: a truthy value of type object whose fields have the
   * expected JavaScript types; stated on the JSON value, an object whose
   * members include the eight fields with the expected kinds of value and a
   * `scenario` naming one of the three tags. Element types of the two arrays
   * and the ranges of the two numbers are not examined.
   */
  function ValidateScenario(v: Json): (b: bool)
    ensures b <==>
      v.JObject? &&
      "title" in v.members && v.members["title"].JString? &&
      "scenario" in v.members && v.members["scenario"].JString? &&
      (v.members["scenario"].s == "optimistic" || v.members["scenario"].s == "realistic" ||
       v.members["scenario"].s == "pessimistic") &&
      "description" in v.members && v.members["description"].JString? &&
      "probability" in v.members && v.members["probability"].JNumber? &&
      "confidence" in v.members && v.members["confidence"].JNumber? &&
      "timeline" in v.members && v.members["timeline"].JString? &&
      "keyFactors" in v.members && v.members["keyFactors"].JArray? &&
      "actionSteps" in v.members && v.members["actionSteps"].JArray?
  {
    Truthy(Some(v)) && IsObjectType(v) &&
    HasString(v, "title") &&
    HasTag(v) &&
    HasString(v, "description") &&
    HasNumber(v, "probability") &&
    HasNumber(v, "confidence") &&
    HasString(v, "timeline") &&
    HasArray(v, "keyFactors") &&
    HasArray(v, "actionSteps")
  }

  /** Three encoded scenarios all pass the validation. */
  lemma EncodedTripleValid(x: Scenario, y: Scenario, z: Scenario)
    ensures forall i :: 0 <= i < 3 ==> ValidateScenario([Encode(x), Encode(y), Encode(z)][i])
  {
    EncodedScenarioValid(x);
    EncodedScenarioValid(y);
    EncodedScenarioValid(z);
  }

  /** Every well-typed scenario passes the validation. */
  lemma EncodedScenarioValid(s: Scenario)
    ensures ValidateScenario(Encode(s))
  {
    TagNameRoundTrip(s.tag);
  }

  /** The result handed back to callers. */
  datatype PredictionResult = PredictionResult(
    question: string,
    scenarios: seq<Json>,
    generatedAt: string)

  // ---------------------------------------------------------------------
  // Fallback scenarios
  // ---------------------------------------------------------------------

  /** The three fixed scenarios returned whenever the model cannot be used. */
  const OptimisticFallback: Scenario := Scenario(
    "Optimistische uitkomst",
    Optimistic,
    "In dit scenario verloopt alles volgens plan en bereik je je doelen sneller dan verwacht.",
    25.0, 70.0, "3-6 maanden",
    ["Gunstige omstandigheden", "Goede timing", "Sterke motivatie"],
    ["Focus op je sterke punten", "Neem initiatief", "Blijf positief"])

  const RealisticFallback: Scenario := Scenario(
    "Realistische uitkomst",
    Realistic,
    "Dit is het meest waarschijnlijke scenario met normale ups en downs onderweg naar je doel.",
    50.0, 85.0, "6-12 maanden",
    ["Normale marktomstandigheden", "Gemiddelde vooruitgang", "Standaard uitdagingen"],
    ["Maak een concrete planning", "Blijf consistent", "Zoek ondersteuning"])

  const PessimisticFallback: Scenario := Scenario(
    "Uitdagende uitkomst",
    Pessimistic,
    "In dit scenario kom je meer obstakels tegen dan verwacht, maar met doorzettingsvermogen kun je alsnog slagen.",
    25.0, 75.0, "12-18 maanden",
    ["Onvoorziene obstakels", "Langere leercurve", "Extra geduld vereist"],
    ["Bereid je voor op uitdagingen", "Zoek alternatieven", "Houd vol"])

  /**
   * `getFallbackScenarios`: the fixed scenarios for `question`, stamped
   * with `generatedAt`, the only part that depends on the clock.
   */
  function Fallback(question: string, generatedAt: string): (r: PredictionResult)
    ensures r.question == question && r.generatedAt == generatedAt
    ensures |r.scenarios| == 3
    ensures forall i :: 0 <= i < 3 ==> ValidateScenario(r.scenarios[i])
  {
    EncodedTripleValid(OptimisticFallback, RealisticFallback, PessimisticFallback);
    PredictionResult(question, [Encode(OptimisticFallback), Encode(RealisticFallback),
                                Encode(PessimisticFallback)], generatedAt)
  }

  /**
   * The fallback scenarios are tagged optimistic, realistic and pessimistic,
   * in that order; their probabilities are 25/50/25 and sum to 100, the confidences
   * are 70/85/75, and the timelines run 3-6, 6-12 and 12-18 months; only the
   * timestamp differs between two fallback results for one question.
   */
  lemma FallbackFigures(question: string, at1: string, at2: string)
    ensures var s := Fallback(question, at1).scenarios;
      Prop(s[0], "scenario") == Some(JString("optimistic")) &&
      Prop(s[1], "scenario") == Some(JString("realistic")) &&
      Prop(s[2], "scenario") == Some(JString("pessimistic")) &&
      Prop(s[0], "probability") == Some(JNumber(25.0)) &&
      Prop(s[1], "probability") == Some(JNumber(50.0)) &&
      Prop(s[2], "probability") == Some(JNumber(25.0)) &&
      Prop(s[0], "confidence") == Some(JNumber(70.0)) &&
      Prop(s[1], "confidence") == Some(JNumber(85.0)) &&
      Prop(s[2], "confidence") == Some(JNumber(75.0)) &&
      Prop(s[0], "timeline") == Some(JString("3-6 maanden")) &&
      Prop(s[1], "timeline") == Some(JString("6-12 maanden")) &&
      Prop(s[2], "timeline") == Some(JString("12-18 maanden"))
    ensures OptimisticFallback.probability + RealisticFallback.probability
              + PessimisticFallback.probability == 100.0
    ensures Fallback(question, at1).scenarios == Fallback(question, at2).scenarios
  {
  }

  // ---------------------------------------------------------------------
  // The prompt
  // ---------------------------------------------------------------------

  const PromptHead: string := "Analyseer deze vraag en genereer 3 toekomstscenario's:\n\n\""

  const PromptTail: string :=
    "\"\n\nGeef exact 3 scenario's:\n" +
    "1. OPTIMISTISCH (beste uitkomst)\n" +
    "2. REALISTISCH (waarschijnlijke uitkomst)\n" +
    "3. PESSIMISTISCH (moeilijke uitkomst)\n\n" +
    "Antwoord met ALLEEN deze JSON structuur:\n" +
    "{\n" +
    "  \"scenarios\": [\n" +
    "    {\n" +
    "      \"title\": \"Korte titel\",\n" +
    "      \"scenario\": \"optimistic\",\n" +
    "      \"description\": \"Uitgebreide beschrijving van dit scenario\",\n" +
    "      \"probability\": 30,\n" +
    "      \"confidence\": 75,\n" +
    "      \"timeline\": \"6-12 maanden\",\n" +
    "      \"keyFactors\": [\"Factor 1\", \"Factor 2\", \"Factor 3\"],\n" +
    "      \"actionSteps\": [\"Stap 1\", \"Stap 2\", \"Stap 3\"]\n" +
    "    }\n" +
    "  ]\n" +
    "}"

  /** The prompt sent to the model, with the question quoted inside it. */
  function Prompt(question: string): (p: string)
    ensures |p| == |PromptHead| + |question| + |PromptTail|
    ensures p[|PromptHead|..|PromptHead| + |question|] == question
  {
    PromptHead + question + PromptTail
  }

  /** The question occurs, verbatim, in the prompt. */
  lemma PromptEmbedsQuestion(question: string)
    ensures Includes(Prompt(question), question)
  {
    assert OccursAt(Prompt(question), question, |PromptHead|);
  }

  // ---------------------------------------------------------------------
  // Cleaning the reply text
  // ---------------------------------------------------------------------

  /** `s` begins with `p`. */
  predicate StartsWith(s: string, p: string)
  {
    |p| <= |s| && s[..|p|] == p
  }

  /** `s.replace(/```json\n?/g, '')`. */
  function StripJsonFences(s: string): (r: string)
    ensures |r| <= |s|
    decreases |s|
  {
    if s == [] then []
    else if StartsWith(s, "```json") then
      StripJsonFences(s[if |s| > 7 && s[7] == '\n' then 8 else 7..])
    else [s[0]] + StripJsonFences(s[1..])
  }

  /** `s.replace(/```\n?/g, '')`. */
  function StripFences(s: string): (r: string)
    ensures |r| <= |s|
    ensures s != [] && s[0] != '`' ==> r != [] && r[0] == s[0]
    decreases |s|
  {
    if s == [] then []
    else if StartsWith(s, "```") then
      StripFences(s[if |s| > 3 && s[3] == '\n' then 4 else 3..])
    else [s[0]] + StripFences(s[1..])
  }

  /** The cleaning applied to the model's text before it is parsed. */
  function CleanFences(text: string): (r: string)
    ensures |r| <= |text|
  {
    StripFences(StripJsonFences(Trim(text)))
  }

  /** No three backticks in a row. */
  predicate NoTripleBacktick(s: string)
  {
    forall i :: 0 <= i < |s| - 2 ==> !(s[i] == '`' && s[i + 1] == '`' && s[i + 2] == '`')
  }

  /**
   * Removing every "```" leaves none behind: a backtick that is kept is
   * never followed by a removed fence, so no three kept backticks meet.
   */
  lemma {:induction false} StripFencesLeavesNoFence(s: string)
    ensures NoTripleBacktick(StripFences(s))
    decreases |s|
  {
    if s == [] {
    } else if StartsWith(s, "```") {
      StripFencesLeavesNoFence(s[if |s| > 3 && s[3] == '\n' then 4 else 3..]);
    } else {
      StripFencesLeavesNoFence(s[1..]);
      var rest := StripFences(s[1..]);
      assert StripFences(s) == [s[0]] + rest;
      if s[0] == '`' && |rest| >= 2 && rest[0] == '`' {
        assert s[1] == '`';
        assert !StartsWith(s[1..], "```");
        assert rest == [s[1]] + StripFences(s[2..]);
        assert s[2] != '`';
        assert rest[1] == s[2];
      }
    }
  }

  /** The cleaned text never contains "```". */
  lemma CleanedHasNoFence(text: string)
    ensures NoTripleBacktick(CleanFences(text))
  {
    StripFencesLeavesNoFence(StripJsonFences(Trim(text)));
  }

  /** A backtick-free prefix passes through the first replacement. */
  lemma {:induction false} StripJsonFencesPrefix(p: string, rest: string)
    requires '`' !in p
    ensures StripJsonFences(p + rest) == p + StripJsonFences(rest)
    decreases |p|
  {
    if p == [] {
      assert p + rest == rest;
    } else {
      var s := p + rest;
      assert s[0] == p[0] && s[1..] == p[1..] + rest;
      StripJsonFencesCons(s);
      assert '`' !in p[1..];
      StripJsonFencesPrefix(p[1..], rest);
      assert [p[0]] + (p[1..] + StripJsonFences(rest)) == p + StripJsonFences(rest);
    }
  }

  /** A backtick-free prefix passes through the second replacement. */
  lemma {:induction false} StripFencesPrefix(p: string, rest: string)
    requires '`' !in p
    ensures StripFences(p + rest) == p + StripFences(rest)
    decreases |p|
  {
    if p == [] {
      assert p + rest == rest;
    } else {
      var s := p + rest;
      assert s[0] == p[0] && s[1..] == p[1..] + rest;
      StripFencesCons(s);
      assert '`' !in p[1..];
      StripFencesPrefix(p[1..], rest);
      assert [p[0]] + (p[1..] + StripFences(rest)) == p + StripFences(rest);
    }
  }

  /** A character other than a backtick starts no fence and is kept. */
  lemma StripJsonFencesCons(s: string)
    requires s != [] && s[0] != '`'
    ensures StripJsonFences(s) == [s[0]] + StripJsonFences(s[1..])
  {
    assert !StartsWith(s, "```json") by {
      if |s| >= 7 {
        assert s[..7][0] == s[0];
      }
    }
  }

  /** The same for the second replacement. */
  lemma StripFencesCons(s: string)
    requires s != [] && s[0] != '`'
    ensures StripFences(s) == [s[0]] + StripFences(s[1..])
  {
    assert !StartsWith(s, "```") by {
      if |s| >= 3 {
        assert s[..3][0] == s[0];
      }
    }
  }

  /** Text shorter than "```json" is left alone by the first replacement. */
  lemma {:induction false} StripJsonFencesShort(s: string)
    requires |s| < 7
    ensures StripJsonFences(s) == s
    decreases |s|
  {
    if s != [] {
      StripJsonFencesShort(s[1..]);
    }
  }

  /** Text without backticks is only trimmed. */
  lemma CleanWithoutBackticks(text: string)
    requires '`' !in text
    ensures CleanFences(text) == Trim(text)
  {
    var t := Trim(text);
    assert '`' !in t by {
      var a := |text| - |TrimStart(text)|;
      assert t == text[a..a + |t|];
    }
    StripJsonFencesPrefix(t, []);
    assert t + [] == t;
    StripFencesPrefix(t, []);
  }

  /** The "```json" opener with its newline is removed in one step. */
  lemma JsonOpenerRemoved(s: string)
    requires |s| >= 8 && s[..8] == "```json\n"
    ensures StripJsonFences(s) == StripJsonFences(s[8..])
  {
    assert s[..7] == s[..8][..7];
  }

  /** The "```" closer at the very end is removed. */
  lemma CloserRemoved()
    ensures StripFences("```") == []
  {
    assert StartsWith("```", "```");
  }

  /** The first replacement removes the opener and keeps the rest. */
  lemma FencedReplyFirstPass(body: string)
    requires '`' !in body
    ensures StripJsonFences("```json\n" + body + "\n```") == body + "\n```"
  {
    var opener, closer := "```json\n", "\n```";
    var text := opener + body + closer;
    assert text[..8] == opener;
    JsonOpenerRemoved(text);
    assert text[8..] == body + closer;
    StripJsonFencesPrefix(body, closer);
    StripJsonFencesShort(closer);
  }

  /** The second replacement removes the closer and keeps the newline before it. */
  lemma FencedReplySecondPass(body: string)
    requires '`' !in body
    ensures StripFences(body + "\n```") == body + "\n"
  {
    var nl, closer := "\n", "```";
    assert body + "\n```" == (body + nl) + closer;
    StripFencesPrefix(body + nl, closer);
    CloserRemoved();
    assert (body + nl) + [] == body + nl;
  }

  /** A reply fenced as "```json\n" + body + "\n```" is cleaned to body + "\n". */
  lemma FencedReplyCleaned(body: string)
    requires '`' !in body
    ensures CleanFences("```json\n" + body + "\n```") == body + "\n"
  {
    var text := "```json\n" + body + "\n```";
    assert text[0] == '`' && text[|text| - 1] == '`';
    TrimUnchanged(text);
    FencedReplyFirstPass(body);
    FencedReplySecondPass(body);
  }

  // ---------------------------------------------------------------------
  // Accepting a parsed reply
  // ---------------------------------------------------------------------

  /**
   * The structure checks on the parsed reply: the scenarios to return, or
   * `None` when the generator must fall back.
   */
  function Accepted(parsed: Option<Json>): (r: Option<seq<Json>>)
    ensures r.Some? ==> |r.value| == 3 && forall i :: 0 <= i < 3 ==> ValidateScenario(r.value[i])
  {
    if parsed.None? then None
    else
      var p := parsed.value;
      if !Truthy(Some(p)) || !IsObjectType(p) || Prop(p, "scenarios").None? then None
      else
        var scenarios := Prop(p, "scenarios").value;
        if !scenarios.JArray? || |scenarios.elems| != 3 then None
        else if !(forall i :: 0 <= i < |scenarios.elems| ==> ValidateScenario(scenarios.elems[i])) then None
        else Some(scenarios.elems)
  }

  /**
   * A reply is accepted exactly when it parsed to an object whose
   * `scenarios` member is an array of three valid scenarios, and then those
   * three are returned as they are.
   */
  lemma AcceptedIff(parsed: Option<Json>)
    ensures Accepted(parsed).Some? <==>
      parsed.Some? && parsed.value.JObject? && "scenarios" in parsed.value.members &&
      parsed.value.members["scenarios"].JArray? &&
      |parsed.value.members["scenarios"].elems| == 3 &&
      forall i :: 0 <= i < 3 ==> ValidateScenario(parsed.value.members["scenarios"].elems[i])
    ensures Accepted(parsed).Some? ==> Accepted(parsed).value == parsed.value.members["scenarios"].elems
  {
  }

  /** The tags are not required to differ: three optimistic scenarios pass. */
  lemma DuplicateTagsAccepted(s: Scenario)
    ensures var e := Encode(s);
      Accepted(Some(JObject(map["scenarios" := JArray([e, e, e])]))) == Some([e, e, e])
  {
    EncodedScenarioValid(s);
  }

  // ---------------------------------------------------------------------
  // Errors and the generator
  // ---------------------------------------------------------------------

  /** What the model call produced: its content blocks, or what it threw. */
  datatype ContentBlock = TextBlock(text: string) | OtherBlock
  datatype Thrown = ErrorValue(message: string) | OtherValue
  datatype ModelReply = Reply(content: seq<ContentBlock>) | Threw(thrown: Thrown)

  /** The two errors the generator passes on to its caller. */
  datatype GenerationError = RateLimitExceeded | AuthenticationFailed

  /** The wording of the `TypeError` a JavaScript engine (V8) raises when a
    * property `key` is read from `receiver`. */
  function ReadPropertyMessage(receiver: string, key: string): string
  {
    "Cannot read properties of " + receiver + " (reading '" + key + "')"
  }

  /**
   * The message of the `TypeError` raised when the reply has no content
   * block and the first block's `type` is read.
   */
  const MissingBlockMessage: string := ReadPropertyMessage("undefined", "type")

  /**
   * The `catch` branch: a rate-limit message wins over an authentication
   * one; every other error, and every thrown non-`Error`, falls back.
   */
  function Classify(thrown: Thrown, question: string, generatedAt: string)
    : (r: Result<PredictionResult, GenerationError>)
    ensures r.Success? ==> r.value == Fallback(question, generatedAt)
    ensures r == Failure(RateLimitExceeded) <==>
              thrown.ErrorValue? && Includes(thrown.message, "rate_limit")
    ensures r == Failure(AuthenticationFailed) <==>
              thrown.ErrorValue? && !Includes(thrown.message, "rate_limit") &&
              (Includes(thrown.message, "authentication") || Includes(thrown.message, "api_key"))
  {
    match thrown
    case ErrorValue(message) =>
      if Includes(message, "rate_limit") then Failure(RateLimitExceeded)
      else if Includes(message, "authentication") || Includes(message, "api_key")
      then Failure(AuthenticationFailed)
      else Success(Fallback(question, generatedAt))
    case OtherValue => Success(Fallback(question, generatedAt))
  }

  /** A character of `p` that `s` lacks keeps `p` out of `s`. */
  lemma MissingCharNotIncluded(s: string, p: string, c: char)
    requires c in p && c !in s
    ensures !Includes(s, p)
  {
    var k :| 0 <= k < |p| && p[k] == c;
    forall i | 0 <= i && i + |p| <= |s|
      ensures !OccursAt(s, p, i)
    {
      assert s[i..i + |p|][k] == s[i + k];
    }
  }

  /** An empty content list ends, through the `TypeError`, in the fallback. */
  lemma MissingBlockFallsBack(question: string, generatedAt: string)
    ensures Classify(ErrorValue(MissingBlockMessage), question, generatedAt)
              == Success(Fallback(question, generatedAt))
  {
    assert '_' !in "Cannot read properties of " && 'h' !in "Cannot read properties of ";
    assert '_' !in "undefined" && 'h' !in "undefined";
    assert '_' !in " (reading '" && 'h' !in " (reading '";
    assert '_' !in "type" && 'h' !in "type";
    assert '_' !in "')" && 'h' !in "')";
    MissingCharNotIncluded(MissingBlockMessage, "rate_limit", '_');
    MissingCharNotIncluded(MissingBlockMessage, "authentication", 'h');
    MissingCharNotIncluded(MissingBlockMessage, "api_key", '_');
  }

  /**
   * What the generator does with the model's reply once the call has been
   * made (the body of the `try` and its `catch`).
   */
  function Interpret(question: string, reply: ModelReply, parse: string -> Option<Json>,
                     generatedAt: string): (r: Result<PredictionResult, GenerationError>)
    ensures r.Success? ==> r.value.question == question && |r.value.scenarios| == 3
    ensures r.Success? ==> forall i :: 0 <= i < 3 ==> ValidateScenario(r.value.scenarios[i])
    ensures r.Success? ==> r.value.generatedAt == generatedAt
  {
    match reply
    case Threw(thrown) => Classify(thrown, question, generatedAt)
    case Reply(content) =>
      if content == [] then Classify(ErrorValue(MissingBlockMessage), question, generatedAt)
      else
        match content[0]
        case OtherBlock => Success(Fallback(question, generatedAt))
        case TextBlock(text) =>
          match Accepted(parse(CleanFences(text)))
          case Some(scenarios) => Success(PredictionResult(question, scenarios, generatedAt))
          case None => Success(Fallback(question, generatedAt))
  }

  /** Everything outside the generator that it depends on. */
  datatype Environment = Environment(
    apiKeyConfigured: bool,
    model: string -> ModelReply,
    parse: string -> Option<Json>,
    generatedAt: string)

  /**
   * `generatePredictions`: without a configured key the fallback, otherwise
   * the model's reply to the prompt, interpreted. Whatever it returns holds
   * three valid scenarios and echoes the question.
   */
  function GeneratePredictions(question: string, env: Environment)
    : (r: Result<PredictionResult, GenerationError>)
    ensures r.Success? ==> r.value.question == question && |r.value.scenarios| == 3
    ensures r.Success? ==> forall i :: 0 <= i < 3 ==> ValidateScenario(r.value.scenarios[i])
    ensures r.Success? ==> r.value.generatedAt == env.generatedAt
    ensures !env.apiKeyConfigured ==> r == Success(Fallback(question, env.generatedAt))
  {
    if !env.apiKeyConfigured then Success(Fallback(question, env.generatedAt))
    else Interpret(question, env.model(Prompt(question)), env.parse, env.generatedAt)
  }

  /** Without a key the model is never consulted: any model gives the same result. */
  lemma NoKeyIgnoresModel(question: string, env: Environment, other: string -> ModelReply)
    requires !env.apiKeyConfigured
    ensures GeneratePredictions(question, env) == GeneratePredictions(question, env.(model := other))
  {
  }

  /** A first content block that is not text gives the fallback. */
  lemma NonTextBlockFallsBack(question: string, env: Environment, rest: seq<ContentBlock>)
    requires env.model(Prompt(question)) == Reply([OtherBlock] + rest)
    ensures GeneratePredictions(question, env) == Success(Fallback(question, env.generatedAt))
  {
  }

  /**
   * With a key and a text reply, the model's scenarios are returned exactly
   * when the cleaned text parses to an acceptable structure; otherwise
   * (a parse failure included) the fallback is.
   */
  lemma TextReplyOutcome(question: string, env: Environment, text: string, rest: seq<ContentBlock>)
    requires env.apiKeyConfigured
    requires env.model(Prompt(question)) == Reply([TextBlock(text)] + rest)
    ensures var parsed := env.parse(CleanFences(text));
      GeneratePredictions(question, env) ==
        if Accepted(parsed).Some?
        then Success(PredictionResult(question, Accepted(parsed).value, env.generatedAt))
        else Success(Fallback(question, env.generatedAt))
    ensures env.parse(CleanFences(text)).None? ==>
      GeneratePredictions(question, env) == Success(Fallback(question, env.generatedAt))
  {
    var reply := env.model(Prompt(question));
    assert reply.content[0] == TextBlock(text);
    assert GeneratePredictions(question, env) == Interpret(question, reply, env.parse, env.generatedAt);
  }

  /** A thrown error mentioning `rate_limit` is reported as such, whatever else it says. */
  lemma RateLimitTakesPrecedence(question: string, env: Environment, message: string)
    requires env.apiKeyConfigured
    requires env.model(Prompt(question)) == Threw(ErrorValue(message))
    requires Includes(message, "rate_limit")
    ensures GeneratePredictions(question, env) == Failure(RateLimitExceeded)
  {
  }

  /** The generator fails only when the model call threw a classified error. */
  lemma FailureOnlyFromThrownError(question: string, env: Environment)
    requires GeneratePredictions(question, env).Failure?
    ensures env.apiKeyConfigured
    ensures env.model(Prompt(question)).Threw?
    ensures env.model(Prompt(question)).thrown.ErrorValue?
  {
    if env.model(Prompt(question)).Reply? {
      var content := env.model(Prompt(question)).content;
      if content == [] {
        MissingBlockFallsBack(question, env.generatedAt);
      }
    }
  }
}
