/**
 * What the converter endpoint promises about its response envelopes, proved
 * of the functions that specify its handlers.
 */
module ConverterProperties {
  import opened Json
  import opened Outcomes
  import opened Lines
  import opened ModelConverterAction

  // ---------------------------------------------------------------------
  // The envelope every handler produces
  // ---------------------------------------------------------------------

  /**
   * Every response has a "result"; it holds "success", "failure", or
   * "success" then "failure" when the work failed after success was
   * written. "errors" is there exactly when the last result is "failure",
   * and a payload only beside a clean "success".
   */
  predicate Enveloped(r: Entries) {
    && "result" in r
    && (r["result"] == [SuccessValue] || r["result"] == [FailureValue] ||
        r["result"] == [SuccessValue, FailureValue])
    && ("errors" in r <==> r["result"][|r["result"]| - 1] == FailureValue)
    && ("errors" in r ==> |r["errors"]| == 1 && r["errors"][0].JArray?)
    && (forall key :: key in r && key != "result" && key != "errors" ==>
          r["result"] == [SuccessValue] && |r[key]| == 1)
  }

  /** The failure envelope written into a fresh response. */
  lemma {:induction false} FailedFresh(errors: seq<JsonValue>)
    ensures Failed(map[], errors) == map["result" := [FailureValue], "errors" := [JArray(errors)]]
    ensures Enveloped(Failed(map[], errors))
  {
    var r := Failed(map[], errors);
    assert r.Keys == {"result", "errors"};
    assert r["result"] == [] + [FailureValue] == [FailureValue];
    assert r["errors"] == [] + [JArray(errors)] == [JArray(errors)];
  }

  /** The failure envelope written after "success". */
  lemma {:induction false} FailedAfterSuccess(errors: seq<JsonValue>)
    ensures Failed(Accumulated(map[], "result", SuccessValue), errors) ==
      map["result" := [SuccessValue, FailureValue], "errors" := [JArray(errors)]]
  {
    var r := Failed(Accumulated(map[], "result", SuccessValue), errors);
    assert r.Keys == {"result", "errors"};
    assert r["result"] == ([] + [SuccessValue]) + [FailureValue] == [SuccessValue, FailureValue];
    assert r["errors"] == [] + [JArray(errors)] == [JArray(errors)];
  }

  /** The success envelope with one payload. */
  lemma {:induction false} SucceededWith(key: string, payload: JsonValue)
    requires key != "result" && key != "errors"
    ensures Accumulated(Accumulated(map[], "result", SuccessValue), key, payload) ==
      map["result" := [SuccessValue], key := [payload]]
    ensures Enveloped(map["result" := [SuccessValue], key := [payload]])
  {
    var r := Accumulated(Accumulated(map[], "result", SuccessValue), key, payload);
    assert r.Keys == {"result", key};
    assert r["result"] == [] + [SuccessValue] == [SuccessValue];
    assert r[key] == [] + [payload] == [payload];
  }

  // ---------------------------------------------------------------------
  // The exception overload of reportFailure
  // ---------------------------------------------------------------------

  /** Reporting the messages of two lists is reporting those of the first, then the second. */
  lemma {:induction false} SyntaxCausesAppend(a: seq<CompilerMessage>, b: seq<CompilerMessage>)
    ensures SyntaxCauses(a + b) == SyntaxCauses(a) + SyntaxCauses(b)
  {
    if b == [] {
      assert a + b == a;
    } else {
      var n := |b|;
      assert (a + b)[..|a + b| - 1] == a + b[..n - 1];
      assert (a + b)[|a + b| - 1] == b[n - 1];
      SyntaxCausesAppend(a, b[..n - 1]);
    }
  }

  /**
   * A compilation-errors exception whose messages are all syntax errors is
   * reported as one entry per message, in the collector's order.
   */
  lemma {:induction false} AllSyntaxMessagesReported(messages: seq<CompilerMessage>)
    requires forall i :: 0 <= i < |messages| ==> messages[i].SyntaxErrorMessage?
    ensures |SyntaxCauses(messages)| == |messages|
    ensures forall i :: 0 <= i < |messages| ==>
      SyntaxCauses(messages)[i] == MessageValue(messages[i].causeMessage)
  {
    if messages != [] {
      var n := |messages|;
      AllSyntaxMessagesReported(messages[..n - 1]);
    }
  }

  /**
   * Messages of any other kind are dropped: a compilation-errors exception
   * without syntax errors yields a failure with an empty error list.
   */
  lemma {:induction false} OtherMessagesDropped(messages: seq<CompilerMessage>)
    requires forall i :: 0 <= i < |messages| ==> !messages[i].SyntaxErrorMessage?
    ensures ExceptionErrors(MultipleCompilationErrors(messages)) == []
  {
    if messages != [] {
      OtherMessagesDropped(messages[..|messages| - 1]);
    }
  }

  /** Any other exception is reported as exactly its message. */
  lemma OtherExceptionReported(message: Option<string>)
    ensures ExceptionErrors(OtherException(message)) == [MessageValue(message)]
    ensures message.Some? ==> ExceptionErrors(OtherException(message)) == [JString(message.value)]
  {
  }

  // ---------------------------------------------------------------------
  // doToJenkinsfile and doValidateJson
  // ---------------------------------------------------------------------

  /** Success is written exactly when the JSON parsed and the collector stayed empty. */
  lemma ToJenkinsfileSuccessWritten<P>(parsed: Attempt<Parsed<P>>, toPrettyGroovy: P -> Attempt<string>)
    ensures Enveloped(ToJenkinsfileResponse(parsed, toPrettyGroovy))
    ensures SuccessValue in ToJenkinsfileResponse(parsed, toPrettyGroovy)["result"] <==>
      parsed.Returned? && parsed.value.collector.ErrorCount() == 0
  {
  }

  /**
   * The three ways doToJenkinsfile can end once the JSON parsed: the
   * collector's errors in order, the rendering, or "success" followed by
   * the failure of the rendering.
   */
  lemma ToJenkinsfileOutcomes<P>(tree: P, collector: ErrorCollector, toPrettyGroovy: P -> Attempt<string>)
    ensures var r := ToJenkinsfileResponse(Returned(Parsed(tree, collector)), toPrettyGroovy);
      && (collector.ErrorCount() > 0 ==>
            r == map["result" := [FailureValue], "errors" := [JArray(Strings(collector.errorsAsStrings))]])
      && (collector.ErrorCount() == 0 && toPrettyGroovy(tree).Returned? ==>
            r == map["result" := [SuccessValue], "jenkinsfile" := [JString(toPrettyGroovy(tree).value)]])
      && (collector.ErrorCount() == 0 && toPrettyGroovy(tree).Threw? ==>
            r == map["result" := [SuccessValue, FailureValue],
                      "errors" := [JArray(ExceptionErrors(toPrettyGroovy(tree).failure))]])
  {
    FailedFresh(Strings(collector.errorsAsStrings));
    if toPrettyGroovy(tree).Returned? {
      SucceededWith("jenkinsfile", JString(toPrettyGroovy(tree).value));
    } else {
      FailedAfterSuccess(ExceptionErrors(toPrettyGroovy(tree).failure));
    }
  }

  /** doValidateJson succeeds, with nothing beside "success", exactly when the collector stayed empty. */
  lemma ValidateJsonOutcomes<P>(parsed: Attempt<Parsed<P>>)
    ensures Enveloped(ValidateJsonResponse(parsed))
    ensures ValidateJsonResponse(parsed) == map["result" := [SuccessValue]] <==>
      parsed.Returned? && parsed.value.collector.ErrorCount() == 0
    ensures parsed.Returned? && parsed.value.collector.ErrorCount() > 0 ==>
      ValidateJsonResponse(parsed) ==
        map["result" := [FailureValue], "errors" := [JArray(Strings(parsed.value.collector.errorsAsStrings))]]
  {
    match parsed
    case Threw(e) =>
      FailedFresh(ExceptionErrors(e));
      assert "errors" in ValidateJsonResponse(parsed);
    case Returned(Parsed(_, collector)) =>
      FailedFresh(Strings(collector.errorsAsStrings));
  }

  // ---------------------------------------------------------------------
  // doToJson, doStepsToJson and doValidateJenkinsfile
  // ---------------------------------------------------------------------

  /**
   * doToJson succeeds exactly when both the conversion and the rendering
   * return; a rendering that throws leaves "success" then "failure".
   */
  lemma ToJsonOutcomes<P>(converted: Attempt<P>, toJson: P -> Attempt<JsonValue>)
    ensures Enveloped(ToJsonResponse(converted, toJson))
    ensures ToJsonResponse(converted, toJson)["result"] == [SuccessValue] <==>
      converted.Returned? && toJson(converted.value).Returned?
    ensures converted.Returned? && toJson(converted.value).Returned? ==>
      ToJsonResponse(converted, toJson) ==
        map["result" := [SuccessValue], "json" := [toJson(converted.value).value]]
    ensures converted.Returned? && toJson(converted.value).Threw? ==>
      ToJsonResponse(converted, toJson) ==
        map["result" := [SuccessValue, FailureValue],
            "errors" := [JArray(ExceptionErrors(toJson(converted.value).failure))]]
  {
    match converted
    case Threw(_) =>
    case Returned(pipelineDef) =>
      match toJson(pipelineDef)
      case Threw(e) => FailedAfterSuccess(ExceptionErrors(e));
      case Returned(json) => SucceededWith("json", json);
  }

  /**
   * doStepsToJson writes "success" only after every step rendered, so a
   * failing step leaves a clean failure; on success "json" holds one
   * rendering per step, in order.
   */
  lemma StepsToJsonOutcomes<S>(converted: Attempt<seq<S>>, toJson: S -> Attempt<JsonValue>)
    ensures Enveloped(StepsToJsonResponse(converted, toJson))
    ensures SuccessValue in StepsToJsonResponse(converted, toJson)["result"] ==>
      StepsToJsonResponse(converted, toJson)["result"] == [SuccessValue]
    ensures converted.Threw? ==>
      StepsToJsonResponse(converted, toJson) ==
        map["result" := [FailureValue], "errors" := [JArray(ExceptionErrors(converted.failure))]]
    ensures converted.Returned? && MapAttempt(converted.value, toJson).Threw? ==>
      StepsToJsonResponse(converted, toJson) ==
        map["result" := [FailureValue],
            "errors" := [JArray(ExceptionErrors(MapAttempt(converted.value, toJson).failure))]]
    ensures converted.Returned? ==>
      (StepsToJsonResponse(converted, toJson)["result"] == [SuccessValue] <==>
        forall i :: 0 <= i < |converted.value| ==> toJson(converted.value[i]).Returned?)
    ensures converted.Returned? && MapAttempt(converted.value, toJson).Returned? ==>
      var items := MapAttempt(converted.value, toJson).value;
      && StepsToJsonResponse(converted, toJson) == map["result" := [SuccessValue], "json" := [JArray(items)]]
      && |items| == |converted.value|
      && forall i :: 0 <= i < |items| ==> toJson(converted.value[i]) == Returned(items[i])
  {
    match converted
    case Threw(e) => FailedFresh(ExceptionErrors(e));
    case Returned(steps) =>
      MapAttemptReturned(steps, toJson);
      match MapAttempt(steps, toJson)
      case Threw(e) => FailedFresh(ExceptionErrors(e));
      case Returned(items) => SucceededWith("json", JArray(items));
  }

  lemma ValidateJenkinsfileOutcomes<P>(converted: Attempt<P>)
    ensures Enveloped(ValidateJenkinsfileResponse(converted))
    ensures ValidateJenkinsfileResponse(converted) == map["result" := [SuccessValue]] <==> converted.Returned?
  {
  }

  // ---------------------------------------------------------------------
  // doStepsToJenkinsfile: the parsing loop
  // ---------------------------------------------------------------------

  lemma {:induction false} KeptStepsAppend<S>(a: seq<StepParse<S>>, b: seq<StepParse<S>>)
    ensures KeptSteps(a + b) == KeptSteps(a) + KeptSteps(b)
    ensures Recorded(a + b) == Recorded(a) + Recorded(b)
  {
    if b == [] {
      assert a + b == a;
    } else {
      var n := |b|;
      assert (a + b)[..|a + b| - 1] == a + b[..n - 1];
      assert (a + b)[|a + b| - 1] == b[n - 1];
      KeptStepsAppend(a, b[..n - 1]);
    }
  }

  /** The elements that are JSON objects, in order. */
  function ObjectsIn(elements: seq<JsonValue>): seq<JsonValue> {
    if elements == [] then []
    else (if elements[0].JObject? then [elements[0]] else []) + ObjectsIn(elements[1..])
  }

  /** The step an element parses to, if it is a JSON object whose parse is not null. */
  function ParsedStep<S>(element: JsonValue, parseStep: map<string, JsonValue> -> Attempt<StepParse<S>>): seq<S> {
    if element.JObject? && parseStep(element.members).Returned? && parseStep(element.members).value.step.Some?
    then [parseStep(element.members).value.step.value]
    else []
  }

  /** Reference reading of the kept steps: every non-null parse of an object element, in input order. */
  function ParsedSteps<S>(elements: seq<JsonValue>, parseStep: map<string, JsonValue> -> Attempt<StepParse<S>>): seq<S> {
    if elements == [] then []
    else ParsedStep(elements[0], parseStep) + ParsedSteps(elements[1..], parseStep)
  }

  /** How the loop over `[element] + rest` splits into the element and the rest. */
  lemma CollectedCons<S>(
    element: JsonValue,
    rest: seq<JsonValue>,
    parseStep: map<string, JsonValue> -> Attempt<StepParse<S>>,
    validate: S -> Attempt<seq<string>>
  )
    ensures var f := ElementOutcomes(parseStep, validate);
      Collected([element] + rest, parseStep, validate) ==
        match f(element)
        case Threw(e) => Threw(e)
        case Returned(o) =>
          match Collected(rest, parseStep, validate)
          case Threw(e) => Threw(e)
          case Returned(c) =>
            Returned(Collection(KeptSteps([o]) + c.steps,
                                ErrorCollector(Recorded([o]) + c.collector.errorsAsStrings)))
  {
    var f := ElementOutcomes(parseStep, validate);
    var xs := [element] + rest;
    assert xs[0] == element && xs[1..] == rest;
    match f(element)
    case Threw(e) =>
    case Returned(o) =>
      match MapAttempt(rest, f)
      case Threw(e) =>
      case Returned(os) =>
        KeptStepsAppend([o], os);
  }

  /** Elements that are not JSON objects are skipped: only the objects matter, in order. */
  lemma {:induction false} NonObjectsSkipped<S>(
    elements: seq<JsonValue>,
    parseStep: map<string, JsonValue> -> Attempt<StepParse<S>>,
    validate: S -> Attempt<seq<string>>
  )
    ensures Collected(elements, parseStep, validate) == Collected(ObjectsIn(elements), parseStep, validate)
  {
    if elements != [] {
      var element, rest := elements[0], elements[1..];
      assert elements == [element] + rest;
      NonObjectsSkipped(rest, parseStep, validate);
      CollectedCons(element, rest, parseStep, validate);
      if element.JObject? {
        assert ObjectsIn(elements) == [element] + ObjectsIn(rest);
        CollectedCons(element, ObjectsIn(rest), parseStep, validate);
      } else {
        assert ObjectsIn(elements) == ObjectsIn(rest);
        var skipped: StepParse<S> := StepParse(None, []);
        assert ElementOutcomes(parseStep, validate)(element) == Returned(skipped);
        assert KeptSteps([skipped]) == [];
        assert Recorded([skipped]) == [];
        match Collected(rest, parseStep, validate)
        case Threw(e) =>
        case Returned(c) =>
          assert [] + c.steps == c.steps;
          assert [] + c.collector.errorsAsStrings == c.collector.errorsAsStrings;
          assert Collection([] + c.steps, ErrorCollector([] + c.collector.errorsAsStrings)) == c;
      }
    }
  }

  /**
   * The kept steps are exactly the non-null parses of the object elements,
   * in input order: null parses and other elements leave no step behind.
   */
  lemma {:induction false} KeptStepsInInputOrder<S>(
    elements: seq<JsonValue>,
    parseStep: map<string, JsonValue> -> Attempt<StepParse<S>>,
    validate: S -> Attempt<seq<string>>
  )
    requires Collected(elements, parseStep, validate).Returned?
    ensures Collected(elements, parseStep, validate).value.steps == ParsedSteps(elements, parseStep)
  {
    if elements != [] {
      var element, rest := elements[0], elements[1..];
      assert elements == [element] + rest;
      CollectedCons(element, rest, parseStep, validate);
      KeptStepsInInputOrder(rest, parseStep, validate);
      var o := ElementOutcomes(parseStep, validate)(element).value;
      assert KeptSteps([o]) == ParsedStep(element, parseStep);
    }
  }

  /** The parsing loop throws exactly when parsing or validating some object element throws. */
  lemma CollectedThrows<S>(
    elements: seq<JsonValue>,
    parseStep: map<string, JsonValue> -> Attempt<StepParse<S>>,
    validate: S -> Attempt<seq<string>>
  )
    ensures Collected(elements, parseStep, validate).Threw? <==>
      exists i :: 0 <= i < |elements| && ElementOutcome(elements[i], parseStep, validate).Threw?
    ensures forall i :: 0 <= i < |elements| && ElementOutcome(elements[i], parseStep, validate).Threw? ==>
      elements[i].JObject?
  {
    var f := ElementOutcomes(parseStep, validate);
    MapAttemptReturned(elements, f);
    assert forall i :: 0 <= i < |elements| ==> f(elements[i]) == ElementOutcome(elements[i], parseStep, validate);
  }

  // ---------------------------------------------------------------------
  // doStepsToJenkinsfile: the envelope
  // ---------------------------------------------------------------------

  /** A JSON value that is not an array is processed exactly as the one-element array holding it. */
  lemma SingleValueIsOneElementArray<S>(
    value: JsonValue,
    parseStep: map<string, JsonValue> -> Attempt<StepParse<S>>,
    validate: S -> Attempt<seq<string>>,
    toGroovy: S -> Attempt<string>
  )
    requires !value.JArray?
    ensures StepsToJenkinsfileResponse(Returned(value), parseStep, validate, toGroovy) ==
      StepsToJenkinsfileResponse(Returned(JArray([value])), parseStep, validate, toGroovy)
  {
  }

  /** Every envelope of doStepsToJenkinsfile has the common shape. */
  lemma StepsToJenkinsfileEnveloped<S>(
    json: Attempt<JsonValue>,
    parseStep: map<string, JsonValue> -> Attempt<StepParse<S>>,
    validate: S -> Attempt<seq<string>>,
    toGroovy: S -> Attempt<string>
  )
    ensures Enveloped(StepsToJenkinsfileResponse(json, parseStep, validate, toGroovy))
  {
    match json
    case Threw(e) => FailedFresh(ExceptionErrors(e));
    case Returned(value) =>
      match Collected(Elements(value), parseStep, validate)
      case Threw(e) => FailedFresh(ExceptionErrors(e));
      case Returned(Collection(steps, collector)) =>
        if collector.ErrorCount() > 0 {
          FailedFresh(Strings(collector.errorsAsStrings));
        } else if steps == [] {
          FailedFresh([JString(NoResult)]);
        } else {
          match Rendered(steps, toGroovy)
          case Threw(e) => FailedAfterSuccess(ExceptionErrors(e));
          case Returned(text) => SucceededWith("jenkinsfile", JString(text));
        }
  }

  /**
   * Once the step list has been parsed: collected errors win over parsed
   * steps and are reported in order; with neither errors nor steps the
   * failure is "No result."; an exception while rendering leaves "success"
   * followed by "failure".
   */
  lemma StepsToJenkinsfileFailures<S>(
    value: JsonValue,
    parseStep: map<string, JsonValue> -> Attempt<StepParse<S>>,
    validate: S -> Attempt<seq<string>>,
    toGroovy: S -> Attempt<string>,
    steps: seq<S>,
    collector: ErrorCollector
  )
    requires Collected(Elements(value), parseStep, validate) == Returned(Collection(steps, collector))
    ensures var r := StepsToJenkinsfileResponse(Returned(value), parseStep, validate, toGroovy);
      && (collector.ErrorCount() > 0 ==>
            r == map["result" := [FailureValue], "errors" := [JArray(Strings(collector.errorsAsStrings))]])
      && (collector.ErrorCount() == 0 && steps == [] ==>
            r == map["result" := [FailureValue], "errors" := [JArray([JString("No result.")])]])
      && (collector.ErrorCount() == 0 && steps != [] && Rendered(steps, toGroovy).Threw? ==>
            r == map["result" := [SuccessValue, FailureValue],
                      "errors" := [JArray(ExceptionErrors(Rendered(steps, toGroovy).failure))]])
  {
    FailedFresh(Strings(collector.errorsAsStrings));
    FailedFresh([JString(NoResult)]);
    if Rendered(steps, toGroovy).Threw? {
      FailedAfterSuccess(ExceptionErrors(Rendered(steps, toGroovy).failure));
    }
  }

  /**
   * The success envelope: exactly when no exception is thrown, nothing is
   * collected and some step is kept. Its "jenkinsfile" is the renderings of
   * the kept steps in order, one '\n' between neighbours when the first
   * rendering is not empty (a lone step yields just its rendering), and the
   * text splits back into the renderings when each is a single line.
   */
  lemma StepsToJenkinsfileSuccess<S>(
    value: JsonValue,
    parseStep: map<string, JsonValue> -> Attempt<StepParse<S>>,
    validate: S -> Attempt<seq<string>>,
    toGroovy: S -> Attempt<string>,
    steps: seq<S>,
    renderings: seq<string>
  )
    requires Collected(Elements(value), parseStep, validate) == Returned(Collection(steps, ErrorCollector([])))
    requires steps != []
    requires MapAttempt(steps, toGroovy) == Returned(renderings)
    ensures |renderings| == |steps|
    ensures forall i :: 0 <= i < |steps| ==> toGroovy(steps[i]) == Returned(renderings[i])
    ensures var r := StepsToJenkinsfileResponse(Returned(value), parseStep, validate, toGroovy);
      r == map["result" := [SuccessValue], "jenkinsfile" := [JString(Build(renderings))]]
    ensures renderings[0] != "" ==> Build(renderings) == Join(renderings)
    ensures renderings[0] != "" && (forall i :: 0 <= i < |renderings| ==> SingleLine(renderings[i])) ==>
      Split(Build(renderings)) == renderings
  {
    MapAttemptReturned(steps, toGroovy);
    SucceededWith("jenkinsfile", JString(Build(renderings)));
    if renderings[0] != "" {
      BuildIsJoin(renderings);
      if forall i :: 0 <= i < |renderings| ==> SingleLine(renderings[i]) {
        SplitJoin(renderings);
      }
    }
  }

  /** The only successful envelope of doStepsToJenkinsfile is the one above. */
  lemma StepsToJenkinsfileSucceedsOnlyThen<S>(
    json: Attempt<JsonValue>,
    parseStep: map<string, JsonValue> -> Attempt<StepParse<S>>,
    validate: S -> Attempt<seq<string>>,
    toGroovy: S -> Attempt<string>
  )
    ensures var r := StepsToJenkinsfileResponse(json, parseStep, validate, toGroovy);
      "jenkinsfile" in r <==>
        && json.Returned?
        && Collected(Elements(json.value), parseStep, validate).Returned?
        && Collected(Elements(json.value), parseStep, validate).value.collector.ErrorCount() == 0
        && Collected(Elements(json.value), parseStep, validate).value.steps != []
        && Rendered(Collected(Elements(json.value), parseStep, validate).value.steps, toGroovy).Returned?
  {
    StepsToJenkinsfileEnveloped(json, parseStep, validate, toGroovy);
  }
}
