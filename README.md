# log.Wrapper of baseplate.go, in Dafny

Package `log` of baseplate.go defines `Wrapper`, a last-resort logging function
`func(ctx, msg)` that library code calls when something unexpected but
recoverable happens. This project models:

- the wrappers the package can build: `NopWrapper`, `StdWrapper`,
  `TestWrapper`, `ZapWrapper`, `ErrorWithSentryWrapper` and `CounterWrapper`;
- the nil-safe `Log` call, where a nil wrapper stands for `DefaultWrapper`, and
  the thrift-logger adapters;
- `(*Wrapper).UnmarshalText`, which picks a wrapper from configuration text.

Each Go function value that package `log` itself builds is a constructor of the
datatype `LogWrapper.Wrapper` holding what the closure captures; wrappers built
elsewhere are not represented (see "Left out"). Calling a wrapper (`LogWrapper.Call`, and
the nil-safe `LogWrapper.Log`) gives the sequence of effects the backends
observe: a standard-library print, a zap record at some severity with its
key/value list, a Sentry capture on the context's hub or the global one, a test
failure, or an addition to a metrics counter.

Modules:

- `Optional` (optional.dfy): `Option`, for Go values that may be nil (a Sentry
  hub, a logger, an error).
- `GoStrings` (gostrings.dfy): the pieces of Go's `strings` package the parser
  uses (`HasPrefix`, `Index`, `Split`, `TrimSpace`, `ToLower`) and their laws.
- `LogWrapper` (wrapper.dfy): the wrappers, `Log`, `ToThriftLogger`, and
  `ZapWrapper`'s flattening loop. That loop is a method over Go's unordered map
  iteration, specified by the predicate `IsFlattening`.
- `LogCounter` (counter.dfy): what CounterWrapper does to counters. The class
  `World` performs a call step by step, mutating the counter values in place,
  and is proved equal to the pure `Log`.
- `LogUnmarshal` (unmarshal.dfy): the configuration grammar as the function
  `Parse`, the pair loop as the method `CollectPairs`, and `UnmarshalText` as a
  method on a `WrapperVar` (the `*Wrapper` it writes through).

## Model

| member | source | states |
|---|---|---|
| `GoStrings.HasPrefix` | log/wrapper.go:131 | A text with the prefix is at least as long as the prefix and is the prefix followed by the rest |
| `GoStrings.IndexOf` | log/wrapper.go:142 | No position exactly when the character is absent; otherwise the position holds it and nothing before it does |
| `GoStrings.Split` | log/wrapper.go:132 | At least one piece; no piece holds the separator; joining the pieces with it gives back the input |
| `GoStrings.SplitLength` | log/wrapper.go:132-133 | The number of pieces is one more than the number of separators |
| `GoStrings.SplitAtFirst` | log/wrapper.go:132 | A separator-free prefix followed by a separator becomes the first piece |
| `GoStrings.SplitJoin` | log/wrapper.go:132 | Split undoes Join when no piece holds the separator |
| `GoStrings.TrailingSeparator` | log/wrapper.go:138 | A trailing separator adds exactly one empty last piece |
| `GoStrings.TrimSpace` | log/wrapper.go:141 | The result is empty or neither starts nor ends with white space |
| `GoStrings.TrimSpaceStrips` | log/wrapper.go:141 | The trimmed text is the slice of the input between a white-space prefix and a white-space suffix |
| `GoStrings.TrimSpaceKeeps` | log/wrapper.go:141-142 | A non-space character (such as '=') is in the trimmed text iff it is in the original |
| `GoStrings.ToLower` | log/wrapper.go:155 | Same length, every character lower-cased |
| `GoStrings.ToLowerUnchanged` | log/wrapper.go:155 | A level without upper-case letters is kept as it is |
| `LogWrapper.SeverityOf` | log/wrapper.go:232-245 | The closure emits at info exactly when the level is none of debug, warn, error, panic, fatal |
| `LogWrapper.LevelOf` | log/wrapper.go:234-245 | Every severity has a non-nop level the switch sends back to it |
| `LogWrapper.FlatteningExtend` | log/wrapper.go:226-227 | Appending one new key and its value to a flattening of `m` gives a flattening of `m` with that binding |
| `LogWrapper.FlatteningLength` | log/wrapper.go:225-228 | The flattened list has two entries per pair and one key per pair |
| `LogWrapper.FlatteningPairs` | log/wrapper.go:225-228 | Entry 2i is a key of the map and entry 2i+1 is that key's value |
| `LogWrapper.FlatteningKeys` | log/wrapper.go:225-228 | The keys listed are exactly the map's keys, each listed once |
| `LogWrapper.FlatteningReadsBack` | log/wrapper.go:225-228 | Reading the flattened list back as key/value pairs gives the original map |
| `LogWrapper.ZapWrapper` | log/wrapper.go:220-248 | The nop level gives NopWrapper; any other level gives a zap wrapper at that level whose list flattens the pairs, in whatever order the map is iterated |
| `LogWrapper.SentryTargetOf` | log/wrapper.go:268-272 | The capture goes to the global hub exactly when the context carries no hub, and otherwise to the context's hub |
| `LogWrapper.Call` | log/wrapper.go:191-311 | Calling any wrapper other than a CounterWrapper adds nothing to any counter |
| `LogWrapper.ErrorWithSentryWrapper` | log/wrapper.go:263-274 | Each call emits one error-level record, then captures the message on the context's hub, or on the global hub when there is none |
| `LogWrapper.DefaultIsErrorWithSentry` | log/wrapper.go:24 | DefaultWrapper is the value ErrorWithSentryWrapper returns |
| `LogWrapper.Log` | log/wrapper.go:85-90 | The nil-safe call is total, and adds to no counter unless the wrapper is a CounterWrapper |
| `LogWrapper.NopWrapperSilent` | log/wrapper.go:191 | NopWrapper has no effect on any context or message |
| `LogWrapper.NilIsNotNop` | log/wrapper.go:85-90 | Logging through a nil wrapper has two effects while NopWrapper has none, so the zero Wrapper does not behave as a NopWrapper |
| `LogWrapper.LogNilIsDefault` | log/wrapper.go:85-90 | Logging through a nil wrapper is logging through DefaultWrapper: an error record plus a Sentry capture |
| `LogWrapper.StdWrapper` | log/wrapper.go:194-201 | A nil logger gives NopWrapper; otherwise every call prints the message once on that logger |
| `LogWrapper.TestWrapper` | log/wrapper.go:206-211 | Every call reports exactly one test failure carrying the message |
| `LogWrapper.CounterWrapper` | log/wrapper.go:307-311 | Every call adds 1 to the counter, then has exactly the delegate's nil-safe effects |
| `LogWrapper.ZapEmitsOneRecord` | log/wrapper.go:230-247 | A zap wrapper emits exactly one record per call, at its level's severity, with the captured list; unknown levels give info |
| `LogWrapper.ThriftLog` | log/wrapper.go:97-100 | Calling the thrift logger is the nil-safe Log of its wrapper with a background context |
| `LogWrapper.ToThriftLogger` | log/wrapper.go:93-101 | The thrift logger never holds nil, and logs each message as the nil-safe Log does with a background context |
| `LogWrapper.WrapToThriftLogger` | log/wrapper.go:183-185 | Same as ToThriftLogger |
| `LogCounter.TallyTotal` | log/wrapper.go:280-282 | A counter's value after some effects is its old value plus the amounts those effects add to it |
| `LogCounter.LogCounts` | log/wrapper.go:307-311 | One call adds 1 to a counter per CounterWrapper layer counting into it; with no such layer the effects are left untouched when additions are stripped |
| `LogCounter.LogManyCounts` | log/wrapper.go:307-311 | N calls of a wrapper add N times its number of CounterWrapper layers counting into a counter |
| `LogCounter.CounterWrapperCountsCalls` | log/wrapper.go:307-311 | N calls through CounterWrapper add N to its counter for its own layer plus N per layer of the delegate counting into the same counter; exactly N when the delegate has no such layer |
| `LogCounter.StripUncounted` | log/wrapper.go:307-311 | A wrapper with no layer counting into a counter produces no addition to it, so stripping those additions changes nothing |
| `LogCounter.CounterWrapperDelegates` | log/wrapper.go:307-311 | With the additions to its counter removed, N calls through CounterWrapper have the effects of N delegate calls, in order, for any delegate the package builds; exactly the delegate's effects when the delegate does not count into the same counter |
| `LogCounter.CounterWrapperTotal` | log/wrapper.go:307-311 | From any starting values, N calls leave the counter higher by N times its number of counting layers; exactly N higher when the delegate does not count into it too |
| `LogCounter.World.Add` | log/wrapper.go:281 | `counter.Add(amount)` raises that counter alone by the amount and records the addition |
| `LogCounter.World.Deliver` | log/wrapper.go:85-90 | Performing the nil-safe call step by step changes history and counters exactly as the pure Log says |
| `LogCounter.World.Record` | log/wrapper.go:191-274 | A non-counter wrapper's call appends its effects and leaves every counter unchanged |
| `LogCounter.World.Invoke` | log/wrapper.go:307-311 | Performing a call in place, with a CounterWrapper adding before delegating, matches the pure Call |
| `LogUnmarshal.CutPair` | log/wrapper.go:141-147 | An item has no cut exactly when it holds no '='; a cut's key has no '=' and key, '=', value rebuild the trimmed item |
| `LogUnmarshal.CutPairUnique` | log/wrapper.go:142-147 | The cut is at the first '=': a value keeps any further '=' |
| `LogUnmarshal.Insert` | log/wrapper.go:140-152 | Reference definition of the pair loop that the Insert lemmas speak about; it fails only with a missing '=' or a repeated key, and on success keeps every earlier binding |
| `LogUnmarshal.InsertOkIff` | log/wrapper.go:140-152 | The pair loop succeeds iff every item holds '=', no two items share a key, and no key is already present |
| `LogUnmarshal.InsertContents` | log/wrapper.go:140-152 | On success every item's key is bound to its own value, earlier bindings stay, no other key appears, and the size grows by the number of items |
| `LogUnmarshal.InsertError` | log/wrapper.go:143-150 | On failure the error is that of the first rejected item: the trimmed item without '=', or the repeated key |
| `LogUnmarshal.ParsePairs` | log/wrapper.go:137-152 | The pairs of a comma-separated list, starting from an empty map; on success one binding per item |
| `LogUnmarshal.ZapPrefixSplit` | log/wrapper.go:131-132 | A "zap:" text splits into "zap" followed by the pieces of the rest |
| `LogUnmarshal.Parse` | log/wrapper.go:126-178 | Reference definition of the configuration grammar that the Parse lemmas speak about; an accepted "zap:" text configures zap, and any other text is accepted exactly when it is one of the listed names |
| `LogUnmarshal.ParseTooManyColons` | log/wrapper.go:131-135 | A "zap:" text is rejected for too many ':' iff it has more than two |
| `LogUnmarshal.ParseUnsupported` | log/wrapper.go:161-163 | The unsupported error occurs exactly for texts that are neither a "zap:" form nor a listed name, and it quotes the text |
| `LogUnmarshal.ParseLiterals` | log/wrapper.go:164-176 | "", "nop", "std", "zap" and "sentry" choose DefaultWrapper, NopWrapper, the stderr StdWrapper, zap at the empty level without pairs, and ErrorWithSentryWrapper |
| `LogUnmarshal.ParseLevelOnly` | log/wrapper.go:136-157 | "zap:L" with no further ':' selects zap at lower-cased L with no pairs |
| `LogUnmarshal.ParseLevelAndList` | log/wrapper.go:136-157 | "zap:L:P" selects zap at lower-cased L with the pairs of P's comma-separated items, or fails with the pair loop's error |
| `LogUnmarshal.ParseEmptyList` | log/wrapper.go:138-145 | "zap:L:" is rejected: its one empty item has no '=' |
| `LogUnmarshal.ListRejected` | log/wrapper.go:137-153 | A pair list the loop rejects makes the whole text rejected |
| `LogUnmarshal.ParseTrailingComma` | log/wrapper.go:138-145 | A pair list ending in ',' is rejected |
| `LogUnmarshal.ParseZapAccepts` | log/wrapper.go:136-157 | "zap:L:P" is accepted iff every item of P holds '=' and no two items share a key |
| `LogUnmarshal.ParseZapContents` | log/wrapper.go:136-157 | An accepted "zap:L:P" is zap at lower-cased L whose pairs are exactly the items' bindings, one per item |
| `LogUnmarshal.ParseZapRejects` | log/wrapper.go:140-152 | A rejected "zap:L:P" returns the error of the first item the loop rejects |
| `LogUnmarshal.Builds` | log/wrapper.go:154-176 | Reference relation between a configuration and the wrapper UnmarshalText stores for it: the wrapper for each choice, never a nil one |
| `LogUnmarshal.ZapConfigLogs` | log/wrapper.go:154-157 | A wrapper built from a zap configuration is silent at the nop level; at any other level each call emits one record at that severity carrying every configured pair exactly once |
| `LogUnmarshal.ExampleZapError` | log/wrapper.go:119-120 | "zap:error" selects zap at the error level with no pairs |
| `LogUnmarshal.ExampleZapUpperNop` | log/wrapper.go:155 | "zap:NOP" is lower-cased to the nop level and builds NopWrapper |
| `LogUnmarshal.ExampleZapInfoPair` | log/wrapper.go:120-121 | "zap:info:key1=value1" selects zap at the info level with the pair key1 = value1 |
| `LogUnmarshal.ExampleDuplicateKey` | log/wrapper.go:148-150 | "zap:info:k=a,k=b" is rejected naming the key "k" |
| `LogUnmarshal.ExampleMissingEquals` | log/wrapper.go:141-145 | "zap:info: badpair " is rejected quoting the trimmed item "badpair" |
| `LogUnmarshal.ExampleRejected` | log/wrapper.go:131-163 | "zap:a:b:c" has too many ':' and "bogus" is unsupported |
| `LogUnmarshal.CollectPairs` | log/wrapper.go:138-152 | The loop over the items returns exactly what the pair function `ParsePairs` gives: the map, or the first item's error |
| `LogUnmarshal.WrapperVar.UnmarshalText` | log/wrapper.go:126-178 | On an error, returns it and leaves the variable as it was; otherwise returns no error and stores a wrapper built for the configuration Parse selects |

## Left out

- The level constants (`NopLevel`, `DebugLevel`, ...) are declared in another file of the package, which is not part of this model. They are taken to be the distinct lower-case names "nop", "debug", "info", "warn", "error", "panic" and "fatal".
- `TrimSpace` and `ToLower` are modelled on ASCII only. Unicode white space and case folding are not captured, and the input bytes are read as characters.
- The key/value values are `interface{}` in Go but strings here, since the parser only ever stores strings.
- A nil pairs map is modelled as the empty map; Go ranges over both alike.
- Error texts are modelled as variants of `ParseError` carrying the quoted part. The exact `fmt` message wording and `%q` quoting are not modelled.
- The zap logger from `C(ctx)` is modelled as the record it receives (severity, message, list). Zap's own behaviour is not modelled, including that `Panicw` panics and `Fatalw` exits the process.
- Sentry is modelled only as the hub choice (the context's hub or the global one) and the captured message. The `errors.New` value and Sentry's transport are not modelled.
- `tb.Helper()` has no modelled effect; `tb.Errorf` is one `TestFailed` event.
- `Counter.Add` takes a float64 in Go; the model uses integers, which is exact for the increment of 1 that CounterWrapper makes.
- `DefaultWrapper` is a package variable that programs may reassign. The model fixes it at its initial value, `ErrorWithSentryWrapper()`. Concurrent calls and reassignment are not modelled.
- `context.Context` is reduced to the Sentry hub it may carry. The zap logger that `C(ctx)` finds in the context (log/wrapper.go:231 and :265) is not modelled: every record is taken to reach the one backend.
- A `Wrapper` is any Go function of its type, and other packages supply their own (such as the metricsbp wrapper mentioned at log/wrapper.go:71-72). Wrappers built outside package `log` are not represented: `LogWrapper.Wrapper` holds only the package's own closures, so the lemmas about `Log`, `Call` and CounterWrapper (including its delegate) speak about those wrappers only.
- `thrift.Logger` is modelled as the wrapper it calls; the Thrift library itself is not part of this model.
- Calling a nil `Wrapper` directly (not through `Log`) panics in Go. `LogWrapper.Call` therefore requires a non-nil wrapper.
- `CounterWrapper(d, nil)` and `TestWrapper(nil)` build wrappers that panic when called (log/wrapper.go:309 and :208-209). The model has no nil counter or nil test handle: `CounterId` and `TestHandle` stand for real ones only, so those panics are not modelled.
- NopWrapper's doc comment (log/wrapper.go:190) calls the zero `Wrapper` essentially a NopWrapper. The model follows the code of `Log`, where a nil wrapper is replaced by DefaultWrapper; `LogWrapper.NilIsNotNop` states the difference.
