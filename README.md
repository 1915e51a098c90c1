# tlog: a verified model of a tag-based log router

This project models two JavaScript loggers. Both route each log call to configured targets by tag.

- **tlog.js** normalises a configuration object of `file`, `console` and `http` targets (`parseStreams`). It looks targets up by tag with nested loops, one copy per equal (target tag, query tag) pair, ordered file, console, http. `log` writes to the targets tagged `"all"`. `logt` writes to the tag-matched targets and then to the `"all"` targets, once per target id per call. When an HTTP request fails, its error handler sends the original arguments, behind the prefix `"error writing to http: "`, to the targets named by the failing target's `errorTags`. It skips ids it has already seen and the failing target's own id.
- **log4jesus.js** is the earlier variant. It uses a built-in default configuration when no configuration file can be read. It wraps scalar tags into lists inside the lookup, writing the wrapped list back into the configuration. Its `logt` writes once per match, duplicates included, with no `"all"` pass.

Modules:

- `ConfigModel` (config_model.dfy): the configuration entries and the `Config` object that `parseStreams` changes in place. Also the shared method and header defaults, and `ParseError`, the first fatal entry of `parseStreams`.
- `Lookup` (lookup.dfy): the nested-loop lookup. `Matches` gives the copies for one kind and `Resolve` concatenates the three kinds. The lemmas cover soundness, completeness, multiplicity and order.
- `Sink` (sink.dfy): what one `write` does (a stream write, an HTTP request or nothing) and the writes of a loop of them.
- `TLog` (tlog.dfy): `parseStreams`, the lookup methods, per-call de-duplication by id, and a `Logger` class. The class holds the write trace and the HTTP requests still in flight; `OnRequestError` is the request-error event.
- `Log4Jesus` (log4jesus.dfy): configuration loading with the default configuration, the lookup that wraps tags in place, `log`, and two versions of `logt`, as written and as evidently intended.

Inputs the programs take from their environment are parameters:

- the random ids of file and http targets (`fileIds`, `httpIds`);
- the indices of file targets whose stream cannot be opened (`unopenable`);
- what the configuration file held (`ConfigSource`);
- the failure of an HTTP request (the index passed to `TLog.Logger.OnRequestError`).

A write is recorded as `Write(copy, channel, args)`. The rendered text (timestamp and `util.format`) is not modelled.

## Model

| member | source | states |
|---|---|---|
| ConfigModel.Items | tlog.js:112-114 | what the loops see through `tags.length` and `tags[j]`: a list's items, or a string's characters one by one |
| ConfigModel.DefaultMethod | tlog.js:71-73 | the method after loading is always present; a present method is kept, and a missing or empty one becomes POST |
| ConfigModel.DefaultHeaders | tlog.js:83-87 | the headers after loading always carry a content-type; headers that have one are kept, all others are replaced as a whole by a plain-text content-type |
| ConfigModel.ParseError | tlog.js:26-98 | loading is free of fatal errors exactly when every file stream opens, every console names stdout, stderr or stdin, and every http target has a url |
| ConfigModel.ParseErrorAt | tlog.js:26-98 | the fatal error names the first unopenable file, else the first console with a bad stdstream, else the first http target without a url (the loops run file, console, http and stop at the first bad entry) |
| Lookup.QueryOf | tlog.js:191-193 | a single tag becomes a one-tag query and an array is used as it is; every `logt` and lookup contract takes its query through it |
| Lookup.Matches | tlog.js:106-121 | the specification of one kind's lookup: for each target of the array, in order, one copy stamped with the kind per equal (target tag, query tag) pair; both lookup methods are proved equal to it, and its properties are the Matches lemmas below |
| Lookup.MatchesAppend | tlog.js:106-121 | the lookup keeps configuration order: the matches of a concatenation of target arrays are the matches of the first part followed by those of the second |
| Lookup.Resolve | tlog.js:123-129 | the specification of the combined lookup: the file matches, then the console matches, then the http matches |
| Lookup.CountIsMultiplicity | tlog.js:113-117 | the innermost loop pushes once per occurrence of the target tag among the query tags |
| Lookup.HitsShares | tlog.js:112-118 | a target gets at least one copy exactly when it shares a tag with the query |
| Lookup.PushMatches | tlog.js:112-118 | the two inner loops append one copy of the target per equal (target tag, query tag) pair, to whatever was already in `out` |
| Lookup.MatchesSound | tlog.js:106-121 | every copy returned for a kind is stamped with that kind, comes from that kind's array, and shares a tag with the query |
| Lookup.MatchesComplete | tlog.js:106-121 | every target of the queried kind that shares a tag with the query is returned, stamped with the kind |
| Lookup.MatchesMultiplicity | tlog.js:106-121 | a target occurring m times in its array appears m times the number of equal tag pairs |
| Lookup.ResolveSound | tlog.js:123-129 | every copy of the combined lookup comes from its kind's array and shares a tag with the query |
| Lookup.ResolveOrdered | tlog.js:123-129 | the combined lookup lists all file copies, then all console copies, then all http copies |
| Lookup.ResolveExactly | tlog.js:123-129 | a copy is in the combined lookup if and only if its target is in its kind's array and shares a tag with the query |
| Sink.WriteOf | tlog.js:168-175 | a write goes to the stream when the target has one, else to an HTTP request for an http target, else nowhere; it carries the call's arguments |
| Sink.Writes | tlog.js:178-182 | the specification of a write loop: one `WriteOf` per copy, in the order of the copies; `Log`, `Logt`, `WriteUnused`, `WriteFallback` and the log4jesus.js `Log` are proved to append exactly it to the trace |
| Sink.WritesSound | tlog.js:178-182 | a write loop issues at most one write per copy, each to one of the copies, each with the call's arguments |
| Sink.PendingAreRequests | tlog.js:168-175 | the requests a write loop leaves in flight are exactly the request-channel writes among its writes, in order |
| Sink.PendingHas | tlog.js:172-173 | every http copy without a stream in a write loop gets a request of its own |
| Sink.WritesOnePerCopy | log4jesus.js:191-200 | when every copy can be written to, the loop issues exactly one write per copy, in order |
| TLog.ArrayifyTags | tlog.js:18-24 | a non-empty scalar becomes a one-element list with the same tag; a list, a missing field and an empty string stay as they are; the result is iterable exactly when the input is |
| TLog.ArrayifyIdempotent | tlog.js:18-24 | normalising tags twice is normalising them once |
| TLog.NormaliseErrorTags | tlog.js:89-94 | errorTags always become a list: missing or empty gives [], a scalar a one-element list, and a list is kept |
| TLog.Parse | tlog.js:17-101 | the configuration after a parse with no fatal entry: each file entry with its given id, a stream and normalised tags, each console entry with its stdstream as id and a stream, each http entry with its given id and defaulted method, headers, errorTags and tags; ParseStreams is proved to produce it and ParsedShape states what it guarantees |
| TLog.ParsedShape | tlog.js:26-98 | after a successful parse, a file target has its given id, a stream and normalised tags; a console target's id is its stdstream and it has a stream; an http target has its given id, a method, a content-type, list errorTags and normalised tags |
| TLog.ParsedLoaded | tlog.js:17-132 | parsing neither creates nor removes missing tags, so the load-time `"all"` lookup fails exactly when a configured target has no tags; otherwise the parsed configuration has the shape the router relies on |
| TLog.ParseFiles | tlog.js:26-43 | the file loop stops at the first entry whose stream cannot be opened, and otherwise gives every entry its id, a stream and normalised tags; the other arrays are unchanged |
| TLog.ParseConsoles | tlog.js:45-63 | the console loop stops at the first entry whose stdstream is not a standard stream, and otherwise sets each id to the stdstream and attaches the stream |
| TLog.ParseHttps | tlog.js:65-98 | the http loop stops at the first entry without a url, and otherwise applies the id, method, header, errorTags and tag normalisations |
| TLog.ParseStreams | tlog.js:17-101 | the fatal error is `ParseError` of the original configuration, and on success the object holds `Parse` of it |
| TLog.GetTargetsOfTypeAndTags | tlog.js:106-121 | the nested loops return `Matches` of the kind's array |
| TLog.GetTargetsByTags | tlog.js:123-129 | the lookup returns the file, console and http matches concatenated |
| TLog.FirstById | tlog.js:195-218 | the specification of a de-duplicating loop: a copy is let through when its key is neither already used nor carried by an earlier copy; WriteUnused and WriteFallback are proved to write exactly its selection |
| TLog.FirstByIdSound | tlog.js:195-206 | a de-duplicating pass keeps only copies of its input, covers every key not already used, and never repeats a key |
| TLog.FirstByIdFirst | tlog.js:197-206 | a de-duplicating pass keeps the first copy of each key: every selected copy is the first in the input with its key, and the first copy of every unused key is selected |
| TLog.FirstByIdSorted | tlog.js:197-206 | a de-duplicating pass keeps its input's order: a list in file, console, http order stays in that order |
| TLog.FirstByIdAppend | tlog.js:195-218 | two passes that share one `usedTargets` dictionary select what one pass over both lists selects |
| TLog.LogtTargets | tlog.js:186-219 | the specification of what `logt` writes to: one de-duplicating pass over the matched copies followed by the `"all"` copies, starting with no id used |
| TLog.LogtExactlyOnce | tlog.js:186-219 | each id among the tag-matched and the `"all"` targets is selected exactly once per `logt` call, and no other id is |
| TLog.LogtWritesOnePerTarget | tlog.js:195-218 | on a loaded configuration `logt` issues exactly one write per selected copy, in order, so each selected id is written exactly once |
| TLog.LogtPassesOrdered | tlog.js:186-219 | `logt` writes to the matched copies in file, console, http order, then to the remaining `"all"` copies in file, console, http order |
| TLog.LogtMatchedFirst | tlog.js:186-219 | `logt` writes to the matched targets first, then to the `"all"` targets whose id the matched pass did not use |
| TLog.LogtWithoutMatchesIsLog | tlog.js:178-219 | with no matching target and distinct ids among the `"all"` targets, `logt` writes to exactly what `log` writes to |
| TLog.FallbackTargets | tlog.js:146-161 | the specification of what the error handler writes to: the copies matching the failing copy's errorTags, in one de-duplicating pass that starts with the failing copy's id already used |
| TLog.FallbackExactlyOnce | tlog.js:145-162 | the error handler selects each id resolved from the failing target's errorTags other than the failing target's own exactly once, and never selects the failing target's own id |
| TLog.FallbackWritesOnePerTarget | tlog.js:149-161 | on a loaded configuration the error handler issues exactly one prefixed write per selected copy, in order |
| TLog.FallbackIssuesRequests | tlog.js:145-175 | every http fallback target without a stream gets a request of its own, so a fallback can fail and trigger the handler again |
| TLog.LoadedHasId | tlog.js:26-98 | every target of a loaded configuration has an id |
| TLog.SameKeySameId | tlog.js:152-158 | between targets with ids, the dictionary key tells ids apart |
| TLog.LoadedDeliverable | tlog.js:168-175 | every copy found in a loaded configuration is written to: a stream for file and console targets, a request for http targets |
| TLog.Logger.constructor | tlog.js:132 | `alwaysTargets` is the `"all"` lookup of the parsed configuration; the trace and the in-flight requests start empty |
| TLog.Logger.WriteTo | tlog.js:168-175 | one write appends `WriteOf` to the trace, and its request (if any) to the in-flight requests |
| TLog.Logger.Log | tlog.js:178-182 | `log` appends one write per `"all"` copy, in order, without de-duplication |
| TLog.Logger.WriteUnused | tlog.js:195-206 | one de-duplicating loop writes to each copy whose id is not yet in the dictionary, in order, and marks every id it passes |
| TLog.Logger.Logt | tlog.js:186-219 | `logt` appends the writes of `LogtTargets`: the matched targets, then the `"all"` targets, each id once |
| TLog.Logger.WriteFallback | tlog.js:148-161 | the handler's loop marks each id on first sight and writes to it unless it is the failing target's id |
| TLog.Logger.OnRequestError | tlog.js:145-162 | a failed request leaves the in-flight requests; the handler appends the prefixed writes to the fallback targets, and their requests join the in-flight requests |
| TLog.Load | tlog.js:17-132 | loading ends with the first fatal entry of `parseStreams`, else fails when a target has no tags, else yields a logger over the parsed configuration |
| Log4Jesus.DefaultConfig | log4jesus.js:88-122 | the built-in configuration: one file target tagged "all"; consoles tagged error on stderr and warn, info, verbose and ["all", "log"] on stdout; one http target tagged "none" at http://localhost:8080 (its loaded form is stated by DefaultLoadedIs) |
| Log4Jesus.Parse | log4jesus.js:16-72 | the configuration after a parse with no fatal entry: every file and console entry holds a stream, and every http entry has a defaulted method and content-type; ParseStreams is proved to produce it and ParsedShape states what it guarantees |
| Log4Jesus.ParsedShape | log4jesus.js:16-72 | after a successful parse, every file and console target has a stream and every http target a url, a method and a content-type; apart from the stream of a file or console target and the method and headers of an http target, every target is the one configured |
| Log4Jesus.ParseFiles | log4jesus.js:17-30 | the file loop stops at the first entry whose stream cannot be opened, and otherwise attaches a stream to every entry |
| Log4Jesus.ParseConsoles | log4jesus.js:32-47 | the console loop stops at the first entry whose stdstream is not a standard stream, and otherwise attaches the stream |
| Log4Jesus.ParseHttps | log4jesus.js:49-71 | the http loop stops at the first entry without a url, and otherwise defaults the method and the content-type |
| Log4Jesus.ParseStreams | log4jesus.js:16-72 | the fatal error is `ParseError` of the original configuration, and on success the object holds `Parse` of it |
| Log4Jesus.ConfigOutcome | log4jesus.js:74-128 | loading fails with invalid JSON exactly when the file's contents do not parse, and succeeds exactly when there is a configuration whose entries are all valid |
| Log4Jesus.LoadAndParseConfig | log4jesus.js:74-128 | loading returns a fresh configuration object holding the parsed file contents, or the parsed default configuration when there is no file, exactly when `ConfigOutcome` is no error |
| Log4Jesus.DefaultConfigLoads | log4jesus.js:85-125 | the default configuration has no fatal entry once its file stream opens, and it is used exactly when there is no configuration file (or the file holds the same configuration) |
| Log4Jesus.WrapTags | log4jesus.js:139-141 | a lookup turns any tags into a list: a list is kept, a scalar (even the empty string) becomes a one-element list, and the tags it holds are unchanged |
| Log4Jesus.WrapIdempotent | log4jesus.js:139-141 | wrapping tags twice is wrapping them once |
| Log4Jesus.Wrapped | log4jesus.js:136-141 | after a lookup, every target of the kind has list tags, and there are as many as before |
| Log4Jesus.WrappedAt | log4jesus.js:136-141 | wrapping keeps each target in its place |
| Log4Jesus.WrapAll | log4jesus.js:136-141 | the configuration after a lookup of every kind: every entry's tags are a list, so every entry can be iterated |
| Log4Jesus.WrapAllFixed | log4jesus.js:139-141 | only the first lookup changes the configuration: wrapping a wrapped configuration changes nothing, and a configuration is left as it is exactly when all its tags are lists |
| Log4Jesus.WrappedEntries | log4jesus.js:139-146 | wrapping changes nothing but the tags, and a copy's tags hold what the configured field held |
| Log4Jesus.GetStreamsOfTypeAndTags | log4jesus.js:133-152 | the kind's array in the configuration object is replaced by its wrapped form, the other arrays are untouched, and the result is `Matches` of the wrapped array |
| Log4Jesus.GetStreamsByTags | log4jesus.js:154-164 | a scalar query becomes a one-tag list, every target's tags end up wrapped in the configuration object, and the result is the file, console and http matches in order |
| Log4Jesus.WrappedLookup | log4jesus.js:133-164 | a configured target is found exactly when it has tags and shares one with the query, a scalar being one tag |
| Log4Jesus.Logger.constructor | log4jesus.js:167 | `alwaysStreams` is the `"all"` lookup of the wrapped configuration; the trace starts empty |
| Log4Jesus.Logger.WriteTo | log4jesus.js:194-199 | a write goes to the stream when the copy has one, else to an HTTP request for an http copy |
| Log4Jesus.Logger.WriteAll | log4jesus.js:216-225 | the loop writes once per copy, in order, duplicates included |
| Log4Jesus.Logger.Log | log4jesus.js:188-201 | `log` writes once per `"all"` copy, in order |
| Log4Jesus.Logger.Logt | log4jesus.js:205-226 | corrected `logt` writes once per copy the tag lookup returns, duplicates included, with no `"all"` pass, and leaves the configuration as it was |
| Log4Jesus.Logger.LogtAsWritten | log4jesus.js:215-225 | `logt` as written writes nothing, and throws exactly when the lookup returns a copy that would be written to |
| Log4Jesus.Load | log4jesus.js:130-167 | loading ends with `ConfigOutcome`, and on success yields a logger over the parsed configuration with every tag wrapped by the load-time `"all"` lookup |
| Log4Jesus.DefaultLoadedIs | log4jesus.js:85-127 | the default configuration after loading: every file and console target has a stream, the http target has POST and a plain-text content-type, and every target's tags are a list |
| Log4Jesus.DefaultReadyShaped | log4jesus.js:88-122 | the loaded default configuration has, target by target, the tags of the default targets, a stream on the file and on each of the five consoles, and no stream on the http target |
| Log4Jesus.DefaultAlwaysStreams | log4jesus.js:88-167 | with the default configuration, `log` goes to the file and to the console tagged ["all", "log"], and to no other console and not to the http target |
| Log4Jesus.DefaultConsoleOnce | log4jesus.js:94-115 | the console tagged ["all", "log"] occurs once among the default consoles |
| Log4Jesus.LogtKeepsDuplicates | log4jesus.js:205-226 | with the default configuration, `logt(["all", "log"])` writes twice to the console tagged ["all", "log"] |
| Log4Jesus.AsWrittenThrowsOnAnyMatch | log4jesus.js:215-225 | on any parsed configuration, `logt` as written throws exactly when the lookup finds anything |
| Log4Jesus.ParsedCopyDeliverable | log4jesus.js:16-47 | every copy found in a parsed configuration is written to |
| Log4Jesus.WrappedStream | log4jesus.js:139-141 | wrapping keeps stream handles |
| Log4Jesus.DefaultErrorLogtThrows | log4jesus.js:215-225 | with the default configuration, `logt("error")` finds the stderr console and so throws |

## Left out

- Rendering of the payload (`timestamp`, `formatOutput`, `util.format`): a write carries the call's arguments. The error handler's prefix is modelled as one more leading argument.
- Opening files (`fs.createWriteStream`), the process's standard streams, and stream writes. A target "has a stream" is a boolean, and a failed open is the `unopenable` parameter. The default file path when `path` is missing is not modelled.
- The HTTP client: URL parsing, the `https` protocol check, and `content-length`, which is set by mutating the target's headers. An HTTP write is an issued request. Its failure is the event `TLog.Logger.OnRequestError`, which can fire for any request still in flight and in any order. Responses and the order of asynchronous completion are not modelled.
- `crypto.randomBytes` ids: they are the parameters `fileIds` and `httpIds`. The model does not assume them distinct.
- `process.exit(1)` and the console messages: a fatal entry ends loading with a `LoadError`. Changes made to earlier entries before the exit are not part of the result. The GET-method warning has no effect on routing and is left out.
- Module-load side effects (`require("./tlog.conf.js")`, `console.log(config)`, the path of `log4jesus.json`). tlog.conf.js and test.js are not part of this model.
- A configuration that lacks one of the three arrays (`if (config.file)`): the model always has all three, possibly empty. The lookups would throw on a missing array, so such configurations fail at load time in both programs.
- A configuration file whose JSON is not an object with these arrays: `ConfigSource` holds either a well-formed registry or invalid JSON.
- Query tags that are not strings (`undefined`, numbers): queries are sequences of strings.
- Log4Jesus.WrapTags: a missing `tags` field becomes `[undefined]` in the source and `[]` here. The two match the same string queries.
- The `if (!args)` guards of both `logt` functions: rest parameters are always arrays, so the guards never fire.
- ConfigModel.Items: a string's items are modelled as its characters (Unicode scalar values), not as the UTF-16 code units that `length` and `[j]` count; neither program reaches such a loop with a non-empty string, since both wrap such a scalar in a list before any lookup reads it.
- `usedTargets` is a dictionary that only ever maps ids to `true`, so it is modelled as the set of ids it holds. The key of a target without an id is the string "undefined", as JavaScript property keys are. An id equal to a name that every object inherits ("constructor", "toString") already reads as truthy in a fresh `{}`, so the source would skip such a target on its first occurrence while the model selects it; the program itself never gives a target such an id (console ids are "stdout", "stderr" or "stdin"), but the file and http ids in the model are arbitrary strings.
- The three loops of `parseStreams` are three methods, run in order, sharing one configuration object.
- Log4Jesus.DefaultAlwaysStreams, Log4Jesus.LogtKeepsDuplicates and Log4Jesus.DefaultErrorLogtThrows are stated for every registry with the default configuration's tags and streams (`DefaultShaped`). `DefaultLoadedIs` and `DefaultReadyShaped` connect them to the loaded default configuration. This keeps the proofs away from unfolding the lookup on a literal configuration.

Two behaviours of the code are worth stating directly:

- The error fallback is not single-hop. The handler writes through `write`, so an http fallback target issues a request of its own with a handler of its own (`TLog.FallbackIssuesRequests`, `TLog.Logger.OnRequestError`).
- A console target's id is its stream name, so several consoles on stdout share one id. `logt` and the fallback write to only the first of them per call (`TLog.LogtExactlyOnce`, `TLog.FirstByIdFirst`).

## Findings

| source | as written | input that shows it | evidently intended | confidence | as-written member | corrected member |
|---|---|---|---|---|---|---|
| log4jesus.js:215-225 | `logt` passes `output`, which is not declared in `logt` or the module, to `s.stream.write(output)` (log4jesus.js:220) and `httpRequest(s, output)` (log4jesus.js:223), so it throws a ReferenceError at the first copy it writes to | `logt("error", "x")` with the default configuration: the stderr console matches (`Log4Jesus.DefaultErrorLogtThrows`), and on any parsed configuration it throws whenever a target matches (`Log4Jesus.AsWrittenThrowsOnAnyMatch`) | render `formatOutput(...args)` and write it once per matched copy, as `log` does | not executed | Log4Jesus.Logger.LogtAsWritten | Log4Jesus.Logger.Logt |
