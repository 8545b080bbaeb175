# Pipeline model converter endpoint, modelled in Dafny

This project models `ModelConverterAction`, the HTTP endpoint of the
declarative pipeline plugin. The endpoint converts pipelines between the
Jenkinsfile script form and their JSON form, and validates both. Each
of its six handlers runs a conversion inside one `try`/`catch`. It then
packages the outcome in a JSON response envelope of one of three shapes:
`{result: "success", <payload>}`, `{result: "failure", errors: [...]}`,
or, when a rendering throws after "success" was written, `result` holding
"success" then "failure", followed by `errors: [...]`.

The model covers the handlers' own logic:

- the rules that turn collected errors and exceptions into a failure
  envelope (`collectErrors` and the three `reportFailure` overloads);
- the order in which each handler writes `result` and its payload;
- the step-list path of `doStepsToJenkinsfile`. It wraps a single value
  into a list, skips elements that are not objects, drops null parses,
  reports `"No result."`, and joins the renderings with a builder.

The conversion machinery is not part of this model: the JSON parser, the
script converter, the validator, the renderers and the error collector.
Each enters as a parameter that gives its outcome, either a value or a
thrown exception (`Outcomes.Attempt`).

Files:

- `json.dfy` (module `Json`): JSON values, and `JsonObject`, the response
  under construction. Its `entries` map each key to the list of values
  accumulated under it, in order. So writing `result` twice keeps both
  values, as `JSONObject.accumulate` does.
- `outcomes.dfy` (module `Outcomes`): exceptions, collaborator outcomes,
  and `MapAttempt`, a loop over a list that stops at the first exception.
- `lines.dfy` (module `Lines`): `Build`, the `StringBuilder` loop that
  writes a `'\n'` only when the builder already holds text. Also `Join`
  (one separator between neighbours) and `Split`, which undoes `Join` for
  any non-empty list of single-line strings (`Lines.SplitJoin`).
- `model_converter_action.dfy` (module `ModelConverterAction`): the
  failure-reporting methods and the six handlers. Each handler is a method
  that fills a fresh `JsonObject` step by step and returns its entries. It
  is proved equal to the function beside it that states the envelope.
- `converter_properties.dfy` (module `ConverterProperties`): what the
  envelopes promise, proved of those functions.

Two behaviours of the code worth knowing:

- The builder adds a `'\n'` before a rendering only when it already holds text.
  So leading empty renderings vanish without a separator
  (`Lines.BuildSkipsLeadingEmpty`). When the first rendering is not empty,
  the text is exactly the renderings with one `'\n'` between neighbours
  (`Lines.BuildIsJoin`).
- A failure response does not always read `{result: "failure", ...}`.
  `doToJenkinsfile`, `doToJson` and `doStepsToJenkinsfile` write
  `"success"` before rendering. If the rendering then throws, `"failure"`
  is accumulated after it under the same key, so `result` holds both.

## Model

| member | source | states |
|---|---|---|
| `Json.JsonObject.Accumulate` | pipeline-model-definition/src/main/java/org/jenkinsci/plugins/pipeline/modeldefinition/endpoints/ModelConverterAction.java:95-96 | accumulating adds the value after those already under the key and leaves every other key as it was |
| `ModelConverterAction.ReportFailure` | pipeline-model-definition/src/main/java/org/jenkinsci/plugins/pipeline/modeldefinition/endpoints/ModelConverterAction.java:309-312 | the response gains "failure" under `result` and the given list under `errors`, after whatever was there |
| `ModelConverterAction.ReportFailureMessage` | pipeline-model-definition/src/main/java/org/jenkinsci/plugins/pipeline/modeldefinition/endpoints/ModelConverterAction.java:297-301 | a single message is reported as a one-element error list |
| `ModelConverterAction.ReportFailureException` | pipeline-model-definition/src/main/java/org/jenkinsci/plugins/pipeline/modeldefinition/endpoints/ModelConverterAction.java:276-289 | the error list of an exception is built message by message, in collector order, keeping only syntax-error messages for a compilation-errors exception |
| `ModelConverterAction.CollectErrors` | pipeline-model-definition/src/main/java/org/jenkinsci/plugins/pipeline/modeldefinition/endpoints/ModelConverterAction.java:258-268 | returns true exactly when the collector holds errors; then the response gains "failure" and the collector's strings in order, nothing added or dropped; otherwise the response is unchanged |
| `ModelConverterAction.ToJenkinsfile` | pipeline-model-definition/src/main/java/org/jenkinsci/plugins/pipeline/modeldefinition/endpoints/ModelConverterAction.java:80-103 | the response built step by step is the envelope that `ToJenkinsfileResponse` states |
| `ModelConverterAction.ToJson` | pipeline-model-definition/src/main/java/org/jenkinsci/plugins/pipeline/modeldefinition/endpoints/ModelConverterAction.java:107-123 | the response built step by step is the envelope that `ToJsonResponse` states |
| `ModelConverterAction.StepsToJson` | pipeline-model-definition/src/main/java/org/jenkinsci/plugins/pipeline/modeldefinition/endpoints/ModelConverterAction.java:127-147 | the loop that renders each step to JSON stops at the first exception, and the response is the envelope that `StepsToJsonResponse` states |
| `ModelConverterAction.ParseSteps` | pipeline-model-definition/src/main/java/org/jenkinsci/plugins/pipeline/modeldefinition/endpoints/ModelConverterAction.java:166-177 | the parsing loop with `continue` yields the kept steps and the collector's contents that `Collected` states, or the first exception thrown |
| `ModelConverterAction.RenderSteps` | pipeline-model-definition/src/main/java/org/jenkinsci/plugins/pipeline/modeldefinition/endpoints/ModelConverterAction.java:185-191 | the builder loop yields `Build` of the renderings in step order, or the first exception a rendering throws |
| `ModelConverterAction.StepsToJenkinsfile` | pipeline-model-definition/src/main/java/org/jenkinsci/plugins/pipeline/modeldefinition/endpoints/ModelConverterAction.java:151-199 | the response built step by step is the envelope that `StepsToJenkinsfileResponse` states |
| `ModelConverterAction.ValidateJenkinsfile` | pipeline-model-definition/src/main/java/org/jenkinsci/plugins/pipeline/modeldefinition/endpoints/ModelConverterAction.java:203-218 | the response is "success" when the conversion returns, else the failure for its exception |
| `ModelConverterAction.ValidateJson` | pipeline-model-definition/src/main/java/org/jenkinsci/plugins/pipeline/modeldefinition/endpoints/ModelConverterAction.java:222-245 | the response built step by step is the envelope that `ValidateJsonResponse` states |
| `Outcomes.MapAttemptAppend` | pipeline-model-definition/src/main/java/org/jenkinsci/plugins/pipeline/modeldefinition/endpoints/ModelConverterAction.java:137-139 | a loop that stops at the first exception, run over two lists, is the loop over the first followed by the loop over the second |
| `Outcomes.MapAttemptReturned` | pipeline-model-definition/src/main/java/org/jenkinsci/plugins/pipeline/modeldefinition/endpoints/ModelConverterAction.java:137-139 | such a loop completes exactly when no call throws, and then yields every call's result in order |
| `Outcomes.MapAttemptFirstThrow` | pipeline-model-definition/src/main/java/org/jenkinsci/plugins/pipeline/modeldefinition/endpoints/ModelConverterAction.java:142-144 | when some call throws, the exception caught is that of the first call that throws |
| `Lines.BuildStartsWithFirst` | pipeline-model-definition/src/main/java/org/jenkinsci/plugins/pipeline/modeldefinition/endpoints/ModelConverterAction.java:185-191 | the built text always begins with the first rendering, so no separator precedes it |
| `Lines.BuildIsJoin` | pipeline-model-definition/src/main/java/org/jenkinsci/plugins/pipeline/modeldefinition/endpoints/ModelConverterAction.java:185-191 | when the first rendering is not empty, the built text is the renderings with exactly one '\n' between neighbours and none before or after; a lone rendering is returned as it is |
| `Lines.BuildSkipsLeadingEmpty` | pipeline-model-definition/src/main/java/org/jenkinsci/plugins/pipeline/modeldefinition/endpoints/ModelConverterAction.java:187-189 | a leading empty rendering contributes neither text nor separator |
| `Lines.SplitJoin` | pipeline-model-definition/src/main/java/org/jenkinsci/plugins/pipeline/modeldefinition/endpoints/ModelConverterAction.java:185-192 | cutting the joined text at its separators gives back the single-line renderings (the inverse of the join) |
| `ConverterProperties.FailedFresh` | pipeline-model-definition/src/main/java/org/jenkinsci/plugins/pipeline/modeldefinition/endpoints/ModelConverterAction.java:309-312 | a failure reported into an empty response gives exactly `{result: ["failure"], errors: [list]}`, a well-formed envelope |
| `ConverterProperties.FailedAfterSuccess` | pipeline-model-definition/src/main/java/org/jenkinsci/plugins/pipeline/modeldefinition/endpoints/ModelConverterAction.java:184-195 | a failure reported after "success" gives `result` holding "success" then "failure", beside the error list |
| `ConverterProperties.SucceededWith` | pipeline-model-definition/src/main/java/org/jenkinsci/plugins/pipeline/modeldefinition/endpoints/ModelConverterAction.java:95-96 | "success" followed by one payload gives exactly `{result: ["success"], key: [payload]}`, a well-formed envelope |
| `ConverterProperties.SyntaxCausesAppend` | pipeline-model-definition/src/main/java/org/jenkinsci/plugins/pipeline/modeldefinition/endpoints/ModelConverterAction.java:280-284 | the error list of a compilation-errors exception distributes over its message list, so order is the collector's |
| `ConverterProperties.AllSyntaxMessagesReported` | pipeline-model-definition/src/main/java/org/jenkinsci/plugins/pipeline/modeldefinition/endpoints/ModelConverterAction.java:280-284 | when every message is a syntax error, there is one entry per message, each its cause's message, in order |
| `ConverterProperties.OtherMessagesDropped` | pipeline-model-definition/src/main/java/org/jenkinsci/plugins/pipeline/modeldefinition/endpoints/ModelConverterAction.java:281-283 | messages of other kinds are dropped: without syntax errors the error list is empty |
| `ConverterProperties.OtherExceptionReported` | pipeline-model-definition/src/main/java/org/jenkinsci/plugins/pipeline/modeldefinition/endpoints/ModelConverterAction.java:285-287 | any other exception gives exactly one entry, its message |
| `ConverterProperties.ToJenkinsfileSuccessWritten` | pipeline-model-definition/src/main/java/org/jenkinsci/plugins/pipeline/modeldefinition/endpoints/ModelConverterAction.java:94-97 | the envelope is well formed, and "success" is written exactly when the JSON parsed and the error count is 0 |
| `ConverterProperties.ToJenkinsfileOutcomes` | pipeline-model-definition/src/main/java/org/jenkinsci/plugins/pipeline/modeldefinition/endpoints/ModelConverterAction.java:92-100 | once parsed: the collector's errors in order and no `jenkinsfile`, or the rendering as `jenkinsfile`, or "success" then "failure" when rendering throws |
| `ConverterProperties.ValidateJsonOutcomes` | pipeline-model-definition/src/main/java/org/jenkinsci/plugins/pipeline/modeldefinition/endpoints/ModelConverterAction.java:234-241 | the response is exactly `{result: ["success"]}` if and only if the JSON parsed with an error count of 0; otherwise collected errors are reported in order |
| `ConverterProperties.ToJsonOutcomes` | pipeline-model-definition/src/main/java/org/jenkinsci/plugins/pipeline/modeldefinition/endpoints/ModelConverterAction.java:114-120 | the envelope is well formed; it is a clean success exactly when both the conversion and the JSON rendering return, and then it is exactly `{result: ["success"], json: [rendering]}`; a rendering that throws gives `result` holding "success" then "failure", beside the error list |
| `ConverterProperties.StepsToJsonOutcomes` | pipeline-model-definition/src/main/java/org/jenkinsci/plugins/pipeline/modeldefinition/endpoints/ModelConverterAction.java:134-144 | success is written only after every step rendered, so `result` never holds "success" beside "failure": a failing conversion or a step whose rendering throws gives exactly `{result: ["failure"], errors: [...]}` with that exception's errors; success holds iff every step renders, and then `json` holds one rendering per step, in order |
| `ConverterProperties.ValidateJenkinsfileOutcomes` | pipeline-model-definition/src/main/java/org/jenkinsci/plugins/pipeline/modeldefinition/endpoints/ModelConverterAction.java:210-215 | the response is exactly `{result: ["success"]}` if and only if the conversion returns |
| `ConverterProperties.KeptStepsAppend` | pipeline-model-definition/src/main/java/org/jenkinsci/plugins/pipeline/modeldefinition/endpoints/ModelConverterAction.java:172-175 | kept steps and recorded errors of consecutive element runs are concatenated in order |
| `ConverterProperties.NonObjectsSkipped` | pipeline-model-definition/src/main/java/org/jenkinsci/plugins/pipeline/modeldefinition/endpoints/ModelConverterAction.java:168-171 | elements that are not JSON objects are skipped: the loop over the list equals the loop over its objects alone |
| `ConverterProperties.KeptStepsInInputOrder` | pipeline-model-definition/src/main/java/org/jenkinsci/plugins/pipeline/modeldefinition/endpoints/ModelConverterAction.java:168-177 | the kept steps are exactly the non-null parses of the object elements, in input order |
| `ConverterProperties.CollectedThrows` | pipeline-model-definition/src/main/java/org/jenkinsci/plugins/pipeline/modeldefinition/endpoints/ModelConverterAction.java:168-177 | the parsing loop throws if and only if parsing or validating some element throws, and only object elements are parsed |
| `ConverterProperties.SingleValueIsOneElementArray` | pipeline-model-definition/src/main/java/org/jenkinsci/plugins/pipeline/modeldefinition/endpoints/ModelConverterAction.java:159-165 | a JSON value that is not an array gets the same response as the one-element array holding it |
| `ConverterProperties.StepsToJenkinsfileEnveloped` | pipeline-model-definition/src/main/java/org/jenkinsci/plugins/pipeline/modeldefinition/endpoints/ModelConverterAction.java:151-199 | every response of the step-list path is a well-formed envelope |
| `ConverterProperties.StepsToJenkinsfileFailures` | pipeline-model-definition/src/main/java/org/jenkinsci/plugins/pipeline/modeldefinition/endpoints/ModelConverterAction.java:179-183 | collected errors win over parsed steps, with no "success" and no `jenkinsfile`; with neither errors nor steps the response is exactly `["No result."]`; a rendering exception leaves "success" then "failure" |
| `ConverterProperties.StepsToJenkinsfileSuccess` | pipeline-model-definition/src/main/java/org/jenkinsci/plugins/pipeline/modeldefinition/endpoints/ModelConverterAction.java:183-192 | on success the response is exactly `result` and `jenkinsfile`, whose text is built from one rendering per kept step in order, newline-joined when the first rendering is not empty, and splitting back into single-line renderings |
| `ConverterProperties.StepsToJenkinsfileSucceedsOnlyThen` | pipeline-model-definition/src/main/java/org/jenkinsci/plugins/pipeline/modeldefinition/endpoints/ModelConverterAction.java:179-193 | `jenkinsfile` is present if and only if nothing threw, nothing was collected, some step was kept and every rendering returned |

## Left out

- HTTP plumbing is not modelled: URL name, icon, display name, request
  parameter reads and `HttpResponses.okJSON`. A handler returns the
  entries of its response object instead.
- The `READ` permission checks are calls into Jenkins that are not part
  of this model. So is `doSchema`, which only serves a file.
- Reading JSON text (`JSONObject.fromObject`, `JSONSerializer.toJSON`) is
  modelled only by its outcome: a JSON value or an exception. For
  `doToJenkinsfile` and `doValidateJson`, reading the text and running
  `JSONParser.parse` are one outcome: a tree with its collector, or an
  exception.
- The internals of `JSONParser`, `Converter`, `ModelASTStep.validate`,
  `toGroovy`, `toJSON`, `toPrettyGroovy` and `ErrorCollector` are not part
  of this model. They enter as function parameters, so no round-trip, AST
  or validator property is stated.
- `ErrorCollector` is its list of error strings. The error count is taken
  to be the length of that list, and message formatting is not modelled.
- `parseStep` is a function of the element alone. The parser's only state
  carried across elements is its collector.
- The response is a map from key to the list of accumulated values.
  json-lib stores a lone value bare, turns a second value into an array,
  and appends into an array already stored. That encoding is not
  modelled; the map-of-lists view keeps the order of the values under
  each key; the order of the keys, which json-lib keeps in its output, is
  lost.
- A null exception message is carried as JSON null. JSON numbers are
  carried as their literal text; floating point is not modelled.
- Only `Exception`s are caught by the handlers. Other `Throwable`s, and
  exceptions raised by `accumulate` itself, are not modelled.
