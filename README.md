# windmill routing core, modelled in Dafny

windmill is a small Rust web framework. This project models its routing engine and the pure pipelines around the engine:

- **Path tokenizer and segment comparisons** (`RawRoute::from_path` and the four `PartialEq` impls).
- **Router**: a method table that `add` fills and `lookup` searches. `lookup` takes the first route that matches, collects the path parameters and falls back to 404 `"not found"`.
- **The two route-literal macros**: `route!` of codegen and the earlier one of enzyme_macro. Each is a token loop that numbers literals (static segments) and identifiers (dynamic segments) with one counter.
- **The `#[endpoint]` attribute**: the list of props it collects, the hidden wrapper's name, and what running that wrapper does.
- **Outcome to response pipelines**: the `Endpoint::new` closure, the example `service` and `auth_service`, `read_body`'s Content-Length decision, and the example `Props` extractors and handlers.

Modules, one per source file or concern:

- `Wrappers`: `Option` and `Result`.
- `Http`: methods, status codes, JSON values, requests, responses, `Error { code, msg }` and `Req<B>`.
- `Segments`: src/route.rs, which src/router.rs repeats verbatim; it is modelled once.
- `Routing`: src/router.rs. `class Router` owns the `table` map and its `Add` method updates it in place. `Lookup` is a function of the table.
- `MacroSyntax`: the tokens and the position-counter facts shared by both macros.
- `Codegen`: codegen/src/lib.rs.
- `EnzymeMacro`: enzyme_macro/src/lib.rs.
- `Util`: src/util.rs.
- `Endpoint`: src/endpoint.rs.
- `Service`: example/example1/src/service.rs.
- `Decimal`: `u64::from_str` and `u64::to_string`. Both examples parse the `id` parameter with `u64::from_str`.
- `ExampleProps`: examples/example1/main.rs.
- `ExampleHandlers`: example/example1/src/main.rs.
- `Scenarios`: the `/"greeting"/name` route run through `route!`, `add` and `lookup`.

These stand in for what the model cannot run:

- **Macro input**: a list of abstract tokens (`Slash`, `Lit`, `Ident`, `Eq`, `Gt`, `Colon`, `Other`).
- **Macro output**: the segment and position lists it builds, not Rust text.
- **Handler closures** that `add` stores: opaque `Handler` values. `Lookup` returns which handler it invokes, and with which request and parameters.
- **serde**: parameters. `decode` stands for `serde_json::from_slice` and `encode` for `serde_json::to_vec`.
- **Reading a request body**: the request carries its read as a value, the bytes read and the error it stopped on.
- **A JSON body** (`to_vec(..).unwrap()`): the JSON value it encodes.

Where the two `add` signatures differ (the library's `add(method, route, endpoint)` and the example's four-argument call), only the table effect is modelled.

## Model

| member | source | states |
|---|---|---|
| Segments.StaticEq | src/route.rs:51-55 | `StaticSegment == RawSegment`: the positions are equal and the values are equal. A definition without `ensures`; Routing.StaticMatches and Routing.MatchesPath state its use |
| Segments.DynamicEq | src/route.rs:57-61 | `DynamicSegment == RawSegment`: only the positions are compared. A definition without `ensures`; its property is Segments.DynamicEqIgnoresValue |
| Segments.RawEqStatic | src/route.rs:63-67 | `RawSegment == StaticSegment` is the static comparison with its arguments swapped. A definition without `ensures` |
| Segments.RawEqDynamic | src/route.rs:69-73 | `RawSegment == DynamicSegment` is the dynamic comparison with its arguments swapped. A definition without `ensures` |
| Segments.DynamicEqIgnoresValue | src/route.rs:57-61 | a dynamic segment equals a token iff the positions are equal; the token's value never changes the answer |
| Segments.Split | src/route.rs:38-39 | `split("/")` gives one more piece than there are `/` characters, and no piece contains `/` |
| Segments.JoinSplit | src/route.rs:38-39 | joining the pieces of a split with `/` gives back the original string |
| Segments.SplitJoin | src/route.rs:38-39 | splitting a `/`-join of pieces that contain no `/` gives back those pieces |
| Segments.FromPath | src/route.rs:36-48 | the token count is the number of `/` in the path; token i has position i; no token contains `/`; the token values are the split pieces after the first |
| Segments.FromPathRoundTrip | src/router.rs:209-221 | for a path starting with `/`, `"/" + join(tokens, "/")` is the path |
| Segments.FromPathOfJoin | src/route.rs:36-48 | tokens without `/`, joined behind a leading `/`, tokenize back to themselves |
| Segments.FromPathEdgeCases | src/route.rs:38-41 | `from_path("")` gives no tokens; `from_path("/")` gives one empty token at position 0 |
| Http.ErrorResponse | src/endpoint.rs:51-56 | the given status, no content type, the message as the JSON body. A definition without `ensures`; Endpoint.AlwaysJson and Http.SuccessIsErrorAtOk state its properties |
| Http.SuccessResponse | src/endpoint.rs:58-63 | status 200, no content type, the message as the JSON body. A definition without `ensures`; see Http.SuccessIsErrorAtOk |
| Http.SuccessIsErrorAtOk | src/router.rs:248-258 | `success_response(m)` is `error_response(m, 200)`, and an error response equals it only when its code is 200 |
| Routing.WellFormedInBounds | src/router.rs:166-181 | a route whose static and dynamic positions partition 0..count-1 has every position below the segment count, which is what indexing `raw_segments[position]` needs |
| Routing.StaticMatches | src/router.rs:167-172 | the static fold is true iff every static segment equals the token at its position |
| Routing.DynamicMatches | src/router.rs:174-181 | the dynamic fold is true iff the token at each dynamic segment's position carries that position |
| Routing.PathsMatch | src/router.rs:165-187 | a route matches iff the arity is exact, every static segment equals its token, and every dynamic segment's token sits at its position |
| Routing.ArityMismatchNeverMatches | src/router.rs:166-186 | when the token count differs from static count plus dynamic count, the route never matches, whatever the tokens hold |
| Routing.MatchesPath | src/router.rs:165-187 | on a real path, a route matches iff the path has one token per segment and every static value equals the token at its position; dynamic segments check no value |
| Routing.StaticExactness | src/router.rs:224-228 | changing the value of the token a static segment claims breaks the match |
| Routing.DynamicPermissiveness | src/router.rs:230-234 | any value at a position no static segment claims leaves the match unchanged |
| Routing.ParamsOf | src/router.rs:145-156 | the parameter map's keys are exactly the dynamic segments' names; static segments add no key |
| Routing.ParamsValue | src/router.rs:145-156 | each name maps to the token at the position of the last dynamic segment with that name (a later insert overwrites an earlier one) |
| Routing.ParamsComplete | src/router.rs:145-156 | with distinct names, every dynamic segment's name maps to its own token's value |
| Routing.FirstMatch | src/router.rs:135-139 | the chosen index matches and nothing before it does; if none is chosen, no route matches |
| Routing.LaterMatchNeverChosen | src/router.rs:136-139 | the first match is unique: a later matching route is never the one chosen |
| Routing.NotFound | src/router.rs:189-195 | `not_found` is `error_response("not found", 404)` |
| Routing.Lookup | src/router.rs:129-162 | answers are: a 404 "not found" response; or a handler is invoked iff the method has a matching route, with the original request, the handler of the first match and the parameters of that route |
| Routing.LookupDependsOnlyOnMethodAndPath | src/router.rs:133-134 | headers and body never change whether a handler runs, which one, or with which parameters |
| Routing.Registered | src/router.rs:98-126 | the table after `add`: the method's list is the old list (empty if it was absent) with the route appended, its handler set to `Some`; every other method's list is unchanged |
| Routing.RegisteredValid | src/router.rs:125-126 | `add` keeps the table invariant: every stored route has a handler and in-bounds positions |
| Routing.FirstRegisteredWins | src/router.rs:135-139 | after registering r1 and then r2 for one method, a request both match (and no earlier route matches) goes to r1's handler with r1's parameters |
| Routing.Router.constructor | src/router.rs:83-87 | `Router::new` starts with an empty table, which satisfies the invariant |
| Routing.Router.Add | src/router.rs:89-127 | `add` updates the table in place to `Registered(old table, ...)` and keeps the invariant |
| MacroSyntax.PositionsPairTexts | codegen/src/lib.rs:57-72 | the positions handed to one kind increase strictly, are exactly the indices of the segments of that kind, and the k-th one points at the k-th text of that kind |
| MacroSyntax.PositionsPartition | codegen/src/lib.rs:57-72 | static and dynamic positions are disjoint and together are exactly 0..count-1 |
| MacroSyntax.StaticZip | codegen/src/lib.rs:120-127 | the static push repetition pairs the k-th literal with the k-th position, as far as both lists go |
| Codegen.ParseSpec | codegen/src/lib.rs:54-87 | what `Route::parse` returns: the slash error, the first rejected token, or the counted segments. A definition without `ensures`; see Codegen.Parse and Codegen.ParsedPositionsCover |
| Codegen.FirstUnexpected | codegen/src/lib.rs:63-77 | it finds the first token the loop rejects, with every token before it a literal, identifier or `/`; if it finds none, every token is one of those |
| Codegen.CollectMeetsSpec | codegen/src/lib.rs:63-78 | the loop stops at the first rejected token, or collects one segment per literal or identifier of the whole input |
| Codegen.Parse | codegen/src/lib.rs:54-87 | the `while` loop with its counter computes `ParseSpec`: no leading `/` is an error, any other token is an error at its index, and otherwise the segments come back in input order with the counter's positions |
| Codegen.SegmentsOfConcat | codegen/src/lib.rs:63-78 | segments keep input order: the segments of `a ++ b` are those of `a` followed by those of `b` |
| Codegen.SlashesOnlySeparate | codegen/src/lib.rs:73-74 | a `/` adds no segment: the segments of `a / b` are those of `a` followed by those of `b` |
| Codegen.ParsedPositionsCover | codegen/src/lib.rs:57-72 | a successful parse gives strictly increasing, disjoint static and dynamic positions covering 0..count-1, with one position per literal and per identifier |
| Codegen.DynamicZip | codegen/src/lib.rs:151-158 | the dynamic push repetition pairs the k-th identifier with the k-th dynamic position |
| Codegen.StaticSegments | codegen/src/lib.rs:107-136 | the loop collects the literals in order and pairs them with the static positions |
| Codegen.DynamicSegments | codegen/src/lib.rs:138-167 | the loop collects the identifiers in order and pairs them with the dynamic positions |
| Codegen.RouteLiteral | codegen/src/lib.rs:182-197 | the route value `route!` expands to. A definition without `ensures`; see Codegen.RouteLiteralWellFormed and Codegen.RouteLiteralMatches |
| Codegen.ExpandRoute | codegen/src/lib.rs:182-197 | `route!` computes `RouteLiteral` and always yields `handler: None` |
| Codegen.LeadingSlashRequired | codegen/src/lib.rs:55 | without a leading `/` the macro fails with the slash error |
| Codegen.BuiltPositions | codegen/src/lib.rs:106-167 | the positions in the built route's two segment lists are exactly the counter values of each kind |
| Codegen.BuildWellFormed | codegen/src/lib.rs:106-197 | a route built from a counted parse is well formed and in bounds, with one place per segment |
| Codegen.RouteLiteralWellFormed | codegen/src/lib.rs:182-197 | every route `route!` produces satisfies the precondition `Router::add` and `paths_match` rely on |
| Codegen.BuiltStatics | codegen/src/lib.rs:120-127 | a built route's static checks are exactly "the token at each literal's index equals that literal" |
| Codegen.RouteLiteralMatches | codegen/src/lib.rs:182-197 | a `route!` route matches a path iff the path has one token per segment and each literal equals the token at its index; identifiers accept any token |
| Codegen.PropsOf | codegen/src/lib.rs:221-234 | the props loop: one prop per typed identifier argument with a path type. A definition without `ensures`; see Codegen.PropsOfConcat and Codegen.ParseEndpoint |
| Codegen.PropsOfConcat | codegen/src/lib.rs:221-234 | props keep declaration order across a split of the argument list |
| Codegen.HiddenName | codegen/src/lib.rs:261 | `prepend(name, "___")`. A definition without `ensures`; see Codegen.HiddenNameDistinct |
| Codegen.HiddenNameDistinct | codegen/src/lib.rs:261 | `___name` never equals `name`, and different functions get different hidden names |
| Codegen.ParseEndpoint | codegen/src/lib.rs:210-287 | one prop per typed argument whose pattern is an identifier and type a path, in declaration order; the wrapper is `___` + name; one call argument per prop, in order |
| Codegen.RunProps | codegen/src/lib.rs:239-255 | the prop calls are threaded in order, each receiving the pair the previous one returned, and a successful run yields one value per prop |
| Codegen.FirstFailingPropWins | codegen/src/lib.rs:243-246 | a failed run fails at some prop, every prop before it succeeded, and the run's error is that prop's error |
| Codegen.PropsRunInOrder | codegen/src/lib.rs:239-255 | in a successful run, the k-th value is what the k-th prop returned on the pair the first k left |
| Codegen.Wrapper | codegen/src/lib.rs:239-271 | the hidden wrapper: run the props, then the endpoint on their values. A definition without `ensures`; see Codegen.PropFailureSkipsEndpoint and Codegen.EndpointGetsEveryProp |
| Codegen.PropFailureSkipsEndpoint | codegen/src/lib.rs:244-258 | when a prop fails, the wrapper returns that error and the endpoint never runs |
| Codegen.EndpointGetsEveryProp | codegen/src/lib.rs:257-259 | when every prop succeeds, the wrapper's result is the endpoint's result on the props' values, in order |
| EnzymeMacro.Parse | enzyme_macro/src/lib.rs:36-83 | the `while` loop computes `ParseSpec`: leading `/`; segments until `=` or a `>` one ahead; `name : Type` parameters; then `=> context => handler` |
| EnzymeMacro.ParseSpec | enzyme_macro/src/lib.rs:36-83 | what `Route::parse` returns: the slash error, a rejected token's index, or the segments with the context and handler. A definition without `ensures`; see EnzymeMacro.Parse and the EnzymeMacro lemmas |
| EnzymeMacro.Scan | enzyme_macro/src/lib.rs:46-61 | the segment loop as a tail-recursive function of the index and the segments so far. A definition without `ensures`; see EnzymeMacro.ScanStops, EnzymeMacro.BareIdentifierRejected and EnzymeMacro.OtherTokenRejected |
| EnzymeMacro.Tail | enzyme_macro/src/lib.rs:65-73 | the `=> context => handler` tail. A definition without `ensures`; see EnzymeMacro.TailShape |
| EnzymeMacro.LeadingSlashRequired | enzyme_macro/src/lib.rs:38 | without a leading `/` the parse fails with the slash error |
| EnzymeMacro.ScanStops | enzyme_macro/src/lib.rs:46 | the segment loop only moves forward and stops where its condition says: end of input, `=`, or `>` one ahead |
| EnzymeMacro.TailShape | enzyme_macro/src/lib.rs:65-73 | a successful parse ends with exactly `=`, `>`, the context, `=`, `>`, the handler |
| EnzymeMacro.DynamicsAreTyped | enzyme_macro/src/lib.rs:93-101 | every dynamic segment of a parse was written `name : Type` in the input |
| EnzymeMacro.BareIdentifierRejected | enzyme_macro/src/lib.rs:93-99 | wherever the segment loop reaches an identifier not followed by `:`, in any segment, the parse fails at the token after that identifier |
| EnzymeMacro.SecondSegmentBareIdentifier | enzyme_macro/src/lib.rs:93-99 | `/"a"/x => c => h` fails at index 4, the token after the bare `x` of the second segment |
| EnzymeMacro.OtherTokenRejected | enzyme_macro/src/lib.rs:56-60 | wherever the segment loop reaches a token that is not a literal, identifier or `/` (and the segment list has not ended), the parse fails at that token's index |
| EnzymeMacro.ParsedPositionsCover | enzyme_macro/src/lib.rs:40-61 | static and dynamic positions increase strictly, are disjoint, and cover 0..count-1 |
| EnzymeMacro.StaticSegments | enzyme_macro/src/lib.rs:104-142 | the loops pair literals with static positions in order and copy the dynamic positions |
| EnzymeMacro.ExpansionSpec | enzyme_macro/src/lib.rs:146-170 | the value `route!` expands to. A definition without `ensures`; see EnzymeMacro.ExpandRoute and EnzymeMacro.ExpansionPairsInOrder |
| EnzymeMacro.ExpandRoute | enzyme_macro/src/lib.rs:146-170 | `route!` computes `ExpansionSpec`: the pushes, the handler and the context |
| EnzymeMacro.ExpansionPairsInOrder | enzyme_macro/src/lib.rs:104-142 | one static push per literal, carrying that literal and its index among all segments; one position-only push per parameter, pointing at a parameter |
| Util.ReadBody | src/util.rs:1-15 | `read_body`: the bytes read when there is a body, nothing otherwise. A definition without `ensures`; see the Util lemmas |
| Util.DecodeBody | example/example1/src/service.rs:14 | `from_slice(&read_body(..)).unwrap_or_else(\|_\| None)`: the decoded body, or `None` when it does not decode. A definition without `ensures`; see Service.DecodeFailureCallsWithNone and ExampleProps.BodyNeverFails |
| Util.HasBody | src/util.rs:4-8 | a body is read iff a Content-Length header is present and its first value is not `"0"` |
| Util.NoLengthNoBody | src/util.rs:4-14 | no Content-Length header, or one with no value, means no read and an empty body |
| Util.ZeroLengthNoBody | src/util.rs:6-11 | Content-Length `"0"` means an empty body, whatever the stream holds |
| Util.LengthGivenReadsStream | src/util.rs:10-14 | any other first value makes the body exactly the bytes read |
| Util.NonEmptyOnlyWithBody | src/util.rs:10-14 | a non-empty result only comes with `has_body`, and from the stream |
| Util.ReadErrorIgnored | src/util.rs:12 | a read error is ignored: only the bytes read before it count |
| Endpoint.Respond | src/endpoint.rs:23-44 | the closure's outcome: a response for a read error, a decode error, a handler error or a serialised result, and a panic for a result that does not serialise. A definition without `ensures`; the Endpoint lemmas below state its properties |
| Endpoint.ReadFailureIs500 | src/endpoint.rs:42 | a failed body read is a 500 carrying the read error's description |
| Endpoint.DecodeFailureIs400 | src/endpoint.rs:30-39 | a body that does not decode is a 400 carrying the decoder's description |
| Endpoint.HandlerOnlyAfterDecode | src/endpoint.rs:28-42 | before both the read and the decode succeed, replacing the handler changes nothing: it is not invoked |
| Endpoint.HandlerOutcomeIsResponse | src/endpoint.rs:33-36 | after a decode, `Ok(res)` is 200 with `res` encoded (a panic when `res` does not serialise), and `Err(e)` is `e.code` with `e.msg` |
| Endpoint.PanicsExactly | src/endpoint.rs:58-59 | the closure panics exactly when the read, the decode and the handler all succeed and the handler's result does not serialise |
| Endpoint.StatusIsOkExactly | src/endpoint.rs:23-44 | the closure answers 200 exactly when the read, the decode and the handler succeed and the result serialises, or when the handler's own error carries 200 |
| Endpoint.AlwaysJson | src/endpoint.rs:51-63 | every response the closure gives carries a JSON body and no explicit content type |
| Service.Reply | example/example1/src/service.rs:21-37 | the `match maybe_bytes`: the encoded result as a 200, an encode error as a 500, an endpoint error with its own code, all with the JSON content type. A definition without `ensures`; see the Service lemmas |
| Service.Serve | example/example1/src/service.rs:5-38 | `service`: decode the body leniently, call the endpoint on `Req::new(req, body, params)`, reply. A definition without `ensures`; see the Service lemmas |
| Service.AuthServe | example/example1/src/service.rs:40-54 | `auth_service`: a bare 400 without `authorization`, `service` otherwise. A definition without `ensures`; see Service.MissingAuthorizationShortCircuits and Service.AuthorizedDelegates |
| Service.DecodeFailureCallsWithNone | example/example1/src/service.rs:14-17 | a body that fails to decode is no error: the endpoint is called with no body, the request and the parameters |
| Service.NoLengthDecodesNothing | example/example1/src/service.rs:14 | without Content-Length the endpoint sees what the decoder makes of no bytes |
| Service.EncodedResultIs200 | example/example1/src/service.rs:22-26 | an `Ok` result that encodes is a 200 JSON response with exactly the encoded bytes |
| Service.EncodeFailureIs500 | example/example1/src/service.rs:27-31 | an `Ok` result that fails to encode is a 500 JSON response with the error's text |
| Service.EndpointErrorPassesThrough | example/example1/src/service.rs:32-36 | an error is answered with its own code and message, whatever the encoder |
| Service.ServeIsJson | example/example1/src/service.rs:21-37 | every response `service` builds has the JSON content type and a body |
| Service.MissingAuthorizationShortCircuits | example/example1/src/service.rs:50-52 | without `authorization`, `auth_service` is a bare 400 and its endpoint, decoder and encoder make no difference |
| Service.AuthorizedDelegates | example/example1/src/service.rs:53 | with the header, `auth_service` is `service` unchanged |
| Service.ShortCircuitIsDistinct | example/example1/src/service.rs:50-53 | the response has no content type exactly when the header was missing |
| Decimal.Accumulate | examples/example1/main.rs:99-106 | the digit loop of `u64::from_str`, checked against `u64::MAX`. A definition without `ensures`; see Decimal.AccumulateSpec |
| Decimal.ParseU64 | examples/example1/main.rs:99-106 | `u64::from_str`: an optional `+`, then the digit loop. A definition without `ensures`; see Decimal.ParseU64Spec |
| Decimal.AccumulateSpec | examples/example1/main.rs:99-106 | the digit loop, started on an accepted prefix, succeeds iff the whole string is digits whose value fits in 64 bits, and then yields that value |
| Decimal.ParseU64Spec | examples/example1/main.rs:99-106 | `u64::from_str` succeeds exactly on an optional `+` followed by digits whose value fits, and yields that value |
| Decimal.EmptyExactly | examples/example1/main.rs:99-106 | the `Empty` error is reported exactly for `""` and a lone `+` |
| Decimal.InvalidDigitFirst | examples/example1/main.rs:99-106 | a non-digit reached before any overflow reports `InvalidDigit` |
| Decimal.OverflowReported | examples/example1/main.rs:99-106 | digits whose value exceeds `u64::MAX` report `PosOverflow` |
| Decimal.ParseOverflow | examples/example1/main.rs:99-106 | `from_str` on an oversized numeral reports overflow |
| Decimal.ParseInvalidDigit | examples/example1/main.rs:99-106 | `from_str` on digits broken by a non-digit, with the value so far fitting, reports an invalid digit |
| Decimal.ToDecimal | examples/example1/main.rs:99-106 | printing a number gives digits, no leading zero, whose value is the number |
| Decimal.RoundTrip | examples/example1/main.rs:99-106 | parsing a printed `u64` gives the number back |
| ExampleProps.ParseHeader | examples/example1/main.rs:55-70 | `parse_header`: the first value of a present header. A definition without `ensures`; see ExampleProps.AuthSpec |
| ExampleProps.AuthProps | examples/example1/main.rs:72-88 | `Auth::call`. A definition without `ensures`; see ExampleProps.AuthSpec |
| ExampleProps.IdProps | examples/example1/main.rs:94-111 | `Id::call`. A definition without `ensures`; see ExampleProps.IdSpec and ExampleProps.IdRoundTrip |
| ExampleProps.BodyProps | examples/example1/main.rs:117-127 | `Body::call`. A definition without `ensures`; see ExampleProps.BodyNeverFails |
| ExampleProps.HiddenExampleRoute | examples/example1/main.rs:27-43 | the hand-chained `___example_route`. A definition without `ensures`; see ExampleProps.ExampleRouteOutcome |
| ExampleProps.AuthSpec | examples/example1/main.rs:55-88 | without the header, `Auth` fails with 400 "authorization required"; with it, the token is the first value and the request and parameters pass through unchanged |
| ExampleProps.IdSpec | examples/example1/main.rs:94-111 | a missing `id` is 500 "param does not exist"; a non-u64 one is 400 with the parser's message; otherwise the parsed value with the request and parameters unchanged |
| ExampleProps.IdRoundTrip | examples/example1/main.rs:99-108 | a printed `u64` as the `id` parameter is extracted as that number |
| ExampleProps.BodyNeverFails | examples/example1/main.rs:117-127 | `Body` never fails and passes the request and parameters on; a body that does not decode is `None` |
| ExampleProps.ExampleRouteOutcome | examples/example1/main.rs:27-43 | the extractors run in order and the first failure wins; with all three succeeding, a missing body is 400 "body required" and a present one is a bare 200 |
| ExampleProps.ExampleSignatureProps | examples/example1/main.rs:27-32 | `#[endpoint]` reads the three arguments as three props in order and names the wrapper `___example_route` |
| ExampleProps.RunThree | codegen/src/lib.rs:239-255 | running three props is three chained calls, each on the pair the one before returned, ending in their three values |
| ExampleProps.GeneratedWrapperIsExampleRoute | examples/example1/main.rs:27-43 | the general `#[endpoint]` wrapper, on this signature with this program's extractors, is the hand-chained `___example_route` |
| ExampleHandlers.ExampleRoute | example/example1/src/main.rs:29-46 | `example_route`. A definition without `ensures`; see ExampleHandlers.ExampleRouteSucceeds and ExampleHandlers.IdCheckedBeforeBody |
| ExampleHandlers.Hello | example/example1/src/main.rs:48-57 | `hello`. A definition without `ensures`; see ExampleHandlers.HelloSpec |
| ExampleHandlers.ExampleRouteSucceeds | example/example1/src/main.rs:29-46 | `example_route` succeeds iff `id` is a u64 numeral and a body was decoded, and then returns `(id, "")` |
| ExampleHandlers.IdCheckedBeforeBody | example/example1/src/main.rs:31-43 | a missing id is 500 and a bad id is 400 with the parser's message, body or not; "body required" comes only with a good id and no body |
| ExampleHandlers.MessagesDiffer | example/example1/src/main.rs:35-43 | no parser message reads "body required", so the two 400s are told apart |
| ExampleHandlers.HelloSpec | example/example1/src/main.rs:48-57 | `hello` fails, with 500 "param does not exist", exactly when `name` is missing, and otherwise returns the greeting for that name |
| ExampleHandlers.GreetingInjective | example/example1/src/main.rs:56 | different names give different greetings |
| ExampleHandlers.GreetingServed | example/example1/src/main.rs:48-57 | `hello` behind `service`, given a name, is a 200 JSON response whose body is the encoded greeting |
| ExampleHandlers.ExampleRouteServed | example/example1/src/main.rs:21 | `example_route` behind `auth_service`: no header is a bare 400, and a missing id is its JSON 500 before the body is looked at |
| Scenarios.GreetingSegments | example/example1/src/main.rs:22 | `/"greeting"/name` parses into one literal and then one identifier |
| Scenarios.GreetingCounters | example/example1/src/main.rs:22 | the literal gets position 0 and the identifier position 1 |
| Scenarios.GreetingLiteral | example/example1/src/main.rs:22 | `route!(/"greeting"/name)` is the route with static `"greeting"` at 0 and dynamic `name` at 1, with no handler |
| Scenarios.GreetingDispatch | src/router.rs:129-162 | with that route registered for GET, `GET /greeting/<name>` invokes its handler with `name` bound to the token |
| Scenarios.GreetingNoMatch | src/router.rs:161 | a GET for a path the greeting route does not match is a 404 |
| Scenarios.TrailingSlashMisses | src/router.rs:166 | `GET /greeting/<name>/` has one token too many and is a 404 |
| Scenarios.OtherLiteralMisses | src/router.rs:171 | `GET /hello/<name>` fails the static check and is a 404 |

## Left out

- TCP listening, connection handling and task spawning (src/server.rs): socket I/O.
- async/await, futures, `Arc` sharing and `Send`/`Sync`: every stage is a sequential function over outcome values.
- The handler closure `Router::add` builds (src/router.rs:103-123). It is unfinished code: it tests `== "0"`, the inverse of src/util.rs, `unwrap`s the read and the decode, and always answers 404. `add` is modelled by its table effect with an opaque handler. The `#[test]` in src/router.rs asserts nothing.
- Running a stored handler: `Lookup` says which handler is invoked, with which request and parameters, not what the handler then does.
- serde_json decoding and encoding: parameters with error outcomes. The JSON grammar is not modelled. `to_vec(..).unwrap()` of a message (a JSON value) is taken as always succeeding; `to_vec(&res).unwrap()` of a handler's result in src/endpoint.rs may fail, and that panic is the `Panicked` outcome of Endpoint.Respond.
- `syn`/`quote`: tokens are abstract and the output is the value it builds. syn's error messages (such as the lookahead error) are replaced by the index of the rejected token.
- `Endpoint::parse`: visibility, `async`, generics and parenthesised-argument parse errors are not modelled. A signature is given as a name and a list of arguments. The code that skips the rest of the input is not modelled.
- EnzymeMacro.Parse: a parameter's type is one identifier token. syn's multi-token types and the rule that keywords are not identifiers are not modelled.
- `set_body`'s content-type defaulting in http_types: a response keeps only the content type set explicitly.
- `HeaderName::from_str("authorization")` failing: it cannot fail for that constant, so the 500 "bad header name" branch is not modelled.
- Header name case-insensitivity in http_types: header names are kept in lower case.
- Consuming the body stream: reading is taken as a value on the request, so a second read is not modelled.
- Decimal.ParseU64: a lone `+` is reported as `Empty`, as the standard library of that time did. Later Rust releases changed this one case.
- ExampleProps.ParseHeader: an `authorization` header present with no value panics at `unwrap`. This is modelled as a precondition, which AuthProps and the wrapper carry too.
- ExampleProps.ExampleCall: the `UNRESOLVED` answer stands for a props type with no implementation (a compile error) and never arises on the signature modelled.
- Contracts on the definitions themselves: the rows marked "a definition without `ensures`" (the segment comparisons, the response builders, the pipelines, the extractors and handlers) carry none, and their properties are the lemmas named beside them.
- Config storage, `main` wiring, the type-only files (error, req, props, context, state, service trait) and the demo business stubs: no behaviour of their own.
