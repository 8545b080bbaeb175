/**
 * The converter endpoint: six handlers that run a conversion or a
 * validation and package its outcome in a response envelope
 * `{result: "success", <payload>}`, `{result: "failure", errors: [...]}`,
 * or, when a rendering throws after "success" was written, `result`
 * holding "success" then "failure", followed by `errors: [...]`.
 *
 * The parsers, the converter, the validator and the renderers are not part
 * of this model: each enters as a parameter giving its outcome (a value or
 * a thrown exception). Each handler is a method that fills a fresh
 * `JsonObject` step by step, as the Java handler does, and returns its entries;
 * the function beside it states the envelope it must produce.
 */
module ModelConverterAction {
  import opened Json
  import opened Outcomes
  import opened Lines

  const SuccessValue: JsonValue := JString("success")
  const FailureValue: JsonValue := JString("failure")
  const NoResult: string := "No result."

  /** The diagnostics a parser collected, in the order they were recorded. */
  datatype ErrorCollector = ErrorCollector(errorsAsStrings: seq<string>) {
    function ErrorCount(): nat { |errorsAsStrings| }
  }

  /** What a JSON parse of a whole pipeline leaves behind: the tree and its collector. */
  datatype Parsed<T> = Parsed(tree: T, collector: ErrorCollector)

  /**
   * What one element of a step list contributes: the parsed step (None for
   * a null parse or a skipped element) and the diagnostics recorded while
   * parsing and validating it.
   */
  datatype StepParse<S> = StepParse(step: Option<S>, recorded: seq<string>)

  /** The steps kept by the parsing loop and the parser's collector after it. */
  datatype Collection<S> = Collection(steps: seq<S>, collector: ErrorCollector)

  // ---------------------------------------------------------------------
  // Failure envelopes: collectErrors and the three reportFailure overloads
  // ---------------------------------------------------------------------

  /** A message as a JSON array element: a null message becomes JSON null. */
  function MessageValue(message: Option<string>): JsonValue {
    match message
    case Some(s) => JString(s)
    case None => JNull
  }

  /** The cause messages of the syntax-error messages, in order; other kinds are dropped. */
  function SyntaxCauses(messages: seq<CompilerMessage>): seq<JsonValue> {
    if messages == [] then []
    else
      var last := messages[|messages| - 1];
      SyntaxCauses(messages[..|messages| - 1]) +
        (if last.SyntaxErrorMessage? then [MessageValue(last.causeMessage)] else [])
  }

  /** The error list reported for an exception. */
  function ExceptionErrors(e: Failure): seq<JsonValue> {
    match e
    case MultipleCompilationErrors(messages) => SyntaxCauses(messages)
    case OtherException(message) => [MessageValue(message)]
  }

  /** `m` after "failure" is accumulated under "result" and the error list under "errors". */
  function Failed(m: Entries, errors: seq<JsonValue>): Entries {
    Accumulated(Accumulated(m, "result", FailureValue), "errors", JArray(errors))
  }

  /** reportFailure(result, JSONArray errors) */
  method ReportFailure(result: JsonObject, errors: seq<JsonValue>)
    modifies result
    ensures result.entries == Failed(old(result.entries), errors)
  {
    result.Accumulate("result", FailureValue);
    result.Accumulate("errors", JArray(errors));
  }

  /** reportFailure(result, String message) */
  method ReportFailureMessage(result: JsonObject, message: string)
    modifies result
    ensures result.entries == Failed(old(result.entries), [JString(message)])
  {
    var errors := [JString(message)];
    ReportFailure(result, errors);
  }

  /** reportFailure(result, Exception e) */
  method ReportFailureException(result: JsonObject, e: Failure)
    modifies result
    ensures result.entries == Failed(old(result.entries), ExceptionErrors(e))
  {
    var errors: seq<JsonValue> := [];
    match e {
      case MultipleCompilationErrors(messages) =>
        for i := 0 to |messages|
          invariant errors == SyntaxCauses(messages[..i])
          invariant result.entries == old(result.entries)
        {
          assert messages[..i + 1][..i] == messages[..i];
          if messages[i].SyntaxErrorMessage? {
            errors := errors + [MessageValue(messages[i].causeMessage)];
          }
        }
        assert messages[..|messages|] == messages;
      case OtherException(message) =>
        errors := [MessageValue(message)];
    }
    ReportFailure(result, errors);
  }

  /**
   * collectErrors: reports the collector's errors as a failure when there
   * are any, and says whether it did.
   */
  method CollectErrors(result: JsonObject, collector: ErrorCollector) returns (collected: bool)
    modifies result
    ensures collected <==> collector.ErrorCount() > 0
    ensures collected ==> result.entries == Failed(old(result.entries), Strings(collector.errorsAsStrings))
    ensures !collected ==> result.entries == old(result.entries)
  {
    if collector.ErrorCount() > 0 {
      var errors: seq<JsonValue> := [];
      for i := 0 to |collector.errorsAsStrings|
        invariant errors == Strings(collector.errorsAsStrings[..i])
        invariant result.entries == old(result.entries)
      {
        StringsSnoc(collector.errorsAsStrings[..i], collector.errorsAsStrings[i]);
        assert collector.errorsAsStrings[..i + 1] == collector.errorsAsStrings[..i] + [collector.errorsAsStrings[i]];
        errors := errors + [JString(collector.errorsAsStrings[i])];
      }
      assert collector.errorsAsStrings[..|collector.errorsAsStrings|] == collector.errorsAsStrings;
      ReportFailure(result, errors);
      return true;
    }
    return false;
  }

  lemma StringsSnoc(xs: seq<string>, x: string)
    ensures Strings(xs + [x]) == Strings(xs) + [JString(x)]
  {
  }

  // ---------------------------------------------------------------------
  // doToJenkinsfile: JSON pipeline to Jenkinsfile
  // ---------------------------------------------------------------------

  /**
   * `parsed` is the outcome of reading the JSON text and parsing it into a
   * pipeline; `toPrettyGroovy` renders the pipeline.
   */
  function ToJenkinsfileResponse<P>(parsed: Attempt<Parsed<P>>, toPrettyGroovy: P -> Attempt<string>): Entries {
    match parsed
    case Threw(e) => Failed(map[], ExceptionErrors(e))
    case Returned(Parsed(pipelineDef, collector)) =>
      if collector.ErrorCount() > 0 then Failed(map[], Strings(collector.errorsAsStrings))
      else
        var succeeded := Accumulated(map[], "result", SuccessValue);
        match toPrettyGroovy(pipelineDef)
        case Threw(e) => Failed(succeeded, ExceptionErrors(e))
        case Returned(text) => Accumulated(succeeded, "jenkinsfile", JString(text))
  }

  method ToJenkinsfile<P>(parsed: Attempt<Parsed<P>>, toPrettyGroovy: P -> Attempt<string>) returns (response: Entries)
    ensures response == ToJenkinsfileResponse(parsed, toPrettyGroovy)
  {
    var result := new JsonObject();
    match parsed {
      case Threw(e) =>
        ReportFailureException(result, e);
      case Returned(Parsed(pipelineDef, collector)) =>
        var collected := CollectErrors(result, collector);
        if !collected {
          result.Accumulate("result", SuccessValue);
          var rendered := toPrettyGroovy(pipelineDef);
          match rendered {
            case Threw(e) => ReportFailureException(result, e);
            case Returned(text) => result.Accumulate("jenkinsfile", JString(text));
          }
        }
    }
    response := result.entries;
  }

  // ---------------------------------------------------------------------
  // doToJson: Jenkinsfile to JSON pipeline
  // ---------------------------------------------------------------------

  /** `converted` is the outcome of converting the script to a pipeline; `toJson` renders it. */
  function ToJsonResponse<P>(converted: Attempt<P>, toJson: P -> Attempt<JsonValue>): Entries {
    match converted
    case Threw(e) => Failed(map[], ExceptionErrors(e))
    case Returned(pipelineDef) =>
      var succeeded := Accumulated(map[], "result", SuccessValue);
      match toJson(pipelineDef)
      case Threw(e) => Failed(succeeded, ExceptionErrors(e))
      case Returned(json) => Accumulated(succeeded, "json", json)
  }

  method ToJson<P>(converted: Attempt<P>, toJson: P -> Attempt<JsonValue>) returns (response: Entries)
    ensures response == ToJsonResponse(converted, toJson)
  {
    var result := new JsonObject();
    match converted {
      case Threw(e) =>
        ReportFailureException(result, e);
      case Returned(pipelineDef) =>
        result.Accumulate("result", SuccessValue);
        var json := toJson(pipelineDef);
        match json {
          case Threw(e) => ReportFailureException(result, e);
          case Returned(value) => result.Accumulate("json", value);
        }
    }
    response := result.entries;
  }

  // ---------------------------------------------------------------------
  // doStepsToJson: Jenkinsfile steps to a JSON array of steps
  // ---------------------------------------------------------------------

  /** `converted` is the outcome of converting the script to plain steps. */
  function StepsToJsonResponse<S>(converted: Attempt<seq<S>>, toJson: S -> Attempt<JsonValue>): Entries {
    match converted
    case Threw(e) => Failed(map[], ExceptionErrors(e))
    case Returned(steps) =>
      match MapAttempt(steps, toJson)
      case Threw(e) => Failed(map[], ExceptionErrors(e))
      case Returned(items) =>
        Accumulated(Accumulated(map[], "result", SuccessValue), "json", JArray(items))
  }

  method StepsToJson<S>(converted: Attempt<seq<S>>, toJson: S -> Attempt<JsonValue>) returns (response: Entries)
    ensures response == StepsToJsonResponse(converted, toJson)
  {
    var result := new JsonObject();
    if converted.Threw? {
      ReportFailureException(result, converted.failure);
      return result.entries;
    }
    var steps := converted.value;
    var jsonArray: seq<JsonValue> := [];
    for i := 0 to |steps|
      invariant MapAttempt(steps[..i], toJson) == Returned(jsonArray)
      invariant result.entries == map[]
    {
      MapAttemptStep(steps, i, toJson, jsonArray);
      var json := toJson(steps[i]);
      if json.Threw? {
        ReportFailureException(result, json.failure);
        return result.entries;
      }
      jsonArray := jsonArray + [json.value];
    }
    assert steps[..|steps|] == steps;
    result.Accumulate("result", SuccessValue);
    result.Accumulate("json", JArray(jsonArray));
    response := result.entries;
  }

  // ---------------------------------------------------------------------
  // doStepsToJenkinsfile: JSON steps to Jenkinsfile steps
  // ---------------------------------------------------------------------

  /** The step list: an array as it is, any other JSON value as a one-element list. */
  function Elements(json: JsonValue): seq<JsonValue> {
    if json.JArray? then json.items else [json]
  }

  /**
   * What one element contributes to the parsing loop. An element that is
   * not a JSON object is skipped; a step that parses is validated and kept;
   * a null parse keeps only the diagnostics it recorded.
   */
  function ElementOutcome<S>(
    element: JsonValue,
    parseStep: map<string, JsonValue> -> Attempt<StepParse<S>>,
    validate: S -> Attempt<seq<string>>
  ): Attempt<StepParse<S>>
  {
    match element
    case JObject(members) =>
      (match parseStep(members)
       case Threw(e) => Threw(e)
       case Returned(StepParse(None, recorded)) => Returned(StepParse(None, recorded))
       case Returned(StepParse(Some(step), recorded)) =>
         match validate(step)
         case Threw(e) => Threw(e)
         case Returned(found) => Returned(StepParse(Some(step), recorded + found)))
    case _ => Returned(StepParse(None, []))
  }

  function ElementOutcomes<S>(
    parseStep: map<string, JsonValue> -> Attempt<StepParse<S>>,
    validate: S -> Attempt<seq<string>>
  ): JsonValue -> Attempt<StepParse<S>>
  {
    element => ElementOutcome(element, parseStep, validate)
  }

  /** The parsed steps among the outcomes, in order. */
  function KeptSteps<S>(outcomes: seq<StepParse<S>>): seq<S> {
    if outcomes == [] then []
    else
      var last := outcomes[|outcomes| - 1];
      KeptSteps(outcomes[..|outcomes| - 1]) + (if last.step.Some? then [last.step.value] else [])
  }

  /** Every diagnostic recorded, in order. */
  function Recorded<S>(outcomes: seq<StepParse<S>>): seq<string> {
    if outcomes == [] then []
    else Recorded(outcomes[..|outcomes| - 1]) + outcomes[|outcomes| - 1].recorded
  }

  /** The parsing loop over the step list. */
  function Collected<S>(
    elements: seq<JsonValue>,
    parseStep: map<string, JsonValue> -> Attempt<StepParse<S>>,
    validate: S -> Attempt<seq<string>>
  ): Attempt<Collection<S>>
  {
    match MapAttempt(elements, ElementOutcomes(parseStep, validate))
    case Threw(e) => Threw(e)
    case Returned(outcomes) => Returned(Collection(KeptSteps(outcomes), ErrorCollector(Recorded(outcomes))))
  }

  /** The rendering loop: the Jenkinsfile text, or the first exception a step's rendering throws. */
  function Rendered<S>(steps: seq<S>, toGroovy: S -> Attempt<string>): Attempt<string> {
    match MapAttempt(steps, toGroovy)
    case Threw(e) => Threw(e)
    case Returned(renderings) => Returned(Build(renderings))
  }

  /** `json` is the outcome of reading the request's JSON text. */
  function StepsToJenkinsfileResponse<S>(
    json: Attempt<JsonValue>,
    parseStep: map<string, JsonValue> -> Attempt<StepParse<S>>,
    validate: S -> Attempt<seq<string>>,
    toGroovy: S -> Attempt<string>
  ): Entries
  {
    match json
    case Threw(e) => Failed(map[], ExceptionErrors(e))
    case Returned(value) =>
      match Collected(Elements(value), parseStep, validate)
      case Threw(e) => Failed(map[], ExceptionErrors(e))
      case Returned(Collection(steps, collector)) =>
        if collector.ErrorCount() > 0 then Failed(map[], Strings(collector.errorsAsStrings))
        else if steps == [] then Failed(map[], [JString(NoResult)])
        else
          var succeeded := Accumulated(map[], "result", SuccessValue);
          match Rendered(steps, toGroovy)
          case Threw(e) => Failed(succeeded, ExceptionErrors(e))
          case Returned(text) => Accumulated(succeeded, "jenkinsfile", JString(text))
  }

  /**
   * The parsing loop of doStepsToJenkinsfile: skips elements that are not
   * JSON objects, keeps and validates every step that parses, and lets the
   * parser's collector gather what parsing and validation record.
   */
  method ParseSteps<S>(
    jsonSteps: seq<JsonValue>,
    parseStep: map<string, JsonValue> -> Attempt<StepParse<S>>,
    validate: S -> Attempt<seq<string>>
  ) returns (collection: Attempt<Collection<S>>)
    ensures collection == Collected(jsonSteps, parseStep, validate)
  {
    ghost var outcome := ElementOutcomes(parseStep, validate);
    ghost var outcomes: seq<StepParse<S>> := [];
    var recorded: seq<string> := [];
    var astSteps: seq<S> := [];
    for i := 0 to |jsonSteps|
      invariant MapAttempt(jsonSteps[..i], outcome) == Returned(outcomes)
      invariant astSteps == KeptSteps(outcomes) && recorded == Recorded(outcomes)
    {
      var jsonStep := jsonSteps[i];
      MapAttemptStep(jsonSteps, i, outcome, outcomes);
      assert outcome(jsonStep) == ElementOutcome(jsonStep, parseStep, validate);
      ghost var before := outcomes;
      if !jsonStep.JObject? {
        outcomes := outcomes + [StepParse(None, [])];
        assert outcomes[..|outcomes| - 1] == before;
        continue;
      }
      var parsed := parseStep(jsonStep.members);
      if parsed.Threw? {
        return Threw(parsed.failure);
      }
      var astStep := parsed.value.step;
      recorded := recorded + parsed.value.recorded;
      ghost var contribution := parsed.value.recorded;
      if astStep.Some? {
        var validated := validate(astStep.value);
        if validated.Threw? {
          return Threw(validated.failure);
        }
        contribution := contribution + validated.value;
        recorded := recorded + validated.value;
        astSteps := astSteps + [astStep.value];
      }
      outcomes := outcomes + [StepParse(astStep, contribution)];
      assert outcomes[..|outcomes| - 1] == before;
    }
    assert jsonSteps[..|jsonSteps|] == jsonSteps;
    collection := Returned(Collection(astSteps, ErrorCollector(recorded)));
  }

  /**
   * The rendering loop of doStepsToJenkinsfile: a builder that receives a
   * '\n' before each rendering whenever it already holds text.
   */
  method RenderSteps<S>(astSteps: seq<S>, toGroovy: S -> Attempt<string>) returns (jenkinsfile: Attempt<string>)
    ensures jenkinsfile == Rendered(astSteps, toGroovy)
  {
    var built: string := "";
    ghost var renderings: seq<string> := [];
    for k := 0 to |astSteps|
      invariant MapAttempt(astSteps[..k], toGroovy) == Returned(renderings)
      invariant built == Build(renderings)
    {
      MapAttemptStep(astSteps, k, toGroovy, renderings);
      if |built| > 0 {
        built := built + "\n";
      }
      var rendered := toGroovy(astSteps[k]);
      if rendered.Threw? {
        return Threw(rendered.failure);
      }
      built := built + rendered.value;
      ghost var done := renderings;
      renderings := renderings + [rendered.value];
      assert renderings[..|renderings| - 1] == done;
    }
    assert astSteps[..|astSteps|] == astSteps;
    jenkinsfile := Returned(built);
  }

  method StepsToJenkinsfile<S>(
    json: Attempt<JsonValue>,
    parseStep: map<string, JsonValue> -> Attempt<StepParse<S>>,
    validate: S -> Attempt<seq<string>>,
    toGroovy: S -> Attempt<string>
  ) returns (response: Entries)
    ensures response == StepsToJenkinsfileResponse(json, parseStep, validate, toGroovy)
  {
    var result := new JsonObject();
    if json.Threw? {
      ReportFailureException(result, json.failure);
      return result.entries;
    }
    var jsonSteps: seq<JsonValue>;
    if json.value.JArray? {
      jsonSteps := json.value.items;
    } else {
      jsonSteps := [json.value];
    }
    var collection := ParseSteps(jsonSteps, parseStep, validate);
    if collection.Threw? {
      ReportFailureException(result, collection.failure);
      return result.entries;
    }
    var astSteps := collection.value.steps;
    var collectedSomeErrors := CollectErrors(result, collection.value.collector);
    if !collectedSomeErrors && |astSteps| == 0 {
      ReportFailureMessage(result, NoResult);
    } else if !collectedSomeErrors {
      result.Accumulate("result", SuccessValue);
      var jenkinsfile := RenderSteps(astSteps, toGroovy);
      if jenkinsfile.Threw? {
        ReportFailureException(result, jenkinsfile.failure);
      } else {
        result.Accumulate("jenkinsfile", JString(jenkinsfile.value));
      }
    }
    response := result.entries;
  }

  // ---------------------------------------------------------------------
  // doValidateJenkinsfile and doValidateJson
  // ---------------------------------------------------------------------

  /** `converted` is the outcome of converting the script to a pipeline. */
  function ValidateJenkinsfileResponse<P>(converted: Attempt<P>): Entries {
    match converted
    case Threw(e) => Failed(map[], ExceptionErrors(e))
    case Returned(_) => Accumulated(map[], "result", SuccessValue)
  }

  method ValidateJenkinsfile<P>(converted: Attempt<P>) returns (response: Entries)
    ensures response == ValidateJenkinsfileResponse(converted)
  {
    var result := new JsonObject();
    match converted {
      case Threw(e) => ReportFailureException(result, e);
      case Returned(_) => result.Accumulate("result", SuccessValue);
    }
    response := result.entries;
  }

  /** `parsed` is the outcome of reading the JSON text and parsing it into a pipeline. */
  function ValidateJsonResponse<P>(parsed: Attempt<Parsed<P>>): Entries {
    match parsed
    case Threw(e) => Failed(map[], ExceptionErrors(e))
    case Returned(Parsed(_, collector)) =>
      if collector.ErrorCount() > 0 then Failed(map[], Strings(collector.errorsAsStrings))
      else Accumulated(map[], "result", SuccessValue)
  }

  method ValidateJson<P>(parsed: Attempt<Parsed<P>>) returns (response: Entries)
    ensures response == ValidateJsonResponse(parsed)
  {
    var result := new JsonObject();
    match parsed {
      case Threw(e) =>
        ReportFailureException(result, e);
      case Returned(Parsed(_, collector)) =>
        var collected := CollectErrors(result, collector);
        if !collected {
          result.Accumulate("result", SuccessValue);
        }
    }
    response := result.entries;
  }
}
