/** Package `log`'s `Wrapper`: a last-resort logging function `(ctx, msg)`.

    Go represents a wrapper as a function value; here each function package `log`
    itself can build is a constructor of the datatype `Wrapper` holding what the Go
    closure captures, and calling a wrapper is the function `Call`, which yields
    the sequence of `Event`s the backends (the standard-library logger, zap,
    Sentry, the test framework, a metrics counter) observe. */
module LogWrapper {
  import opened Optional
  import opened GoStrings

  /** A zap level name (Go: `type Level string`). */
  type Level = string

  // The level constants are declared in another file of the package, which is
  // not part of this model; they are taken to be these distinct lower-case names.
  const NopLevel: Level := "nop"
  const DebugLevel: Level := "debug"
  const InfoLevel: Level := "info"
  const WarnLevel: Level := "warn"
  const ErrorLevel: Level := "error"
  const PanicLevel: Level := "panic"
  const FatalLevel: Level := "fatal"

  /** The emit method of zap's sugared logger a record goes through. */
  datatype Severity = Debug | Info | Warn | Error | Panic | Fatal

  /** A standard-library `*log.Logger` that is not nil: the one `"std"` configures
      (writing to standard error with the standard flags) or one handed in. */
  datatype StdLogger = StderrLogger | StdHandle(id: nat)

  /** A `testing.TB`. */
  datatype TestHandle = TestHandle(id: nat)

  /** A metrics counter (`Counter`). */
  datatype CounterId = CounterId(id: nat)

  /** What a wrapper reads from its context: the Sentry hub attached to it, if any. */
  datatype Context = Context(hub: Option<nat>)

  /** `context.Background()`: no hub attached. */
  function Background(): Context {
    Context(None)
  }

  /** The function values a `Wrapper` can hold, with what each closure captures. */
  datatype Wrapper =
    | Nil                                       // the zero value of the func type
    | Nop                                       // NopWrapper
    | Std(logger: StdLogger)                    // StdWrapper over a non-nil logger
    | Zap(level: Level, kv: seq<string>)        // ZapWrapper: level and flattened pairs
    | ErrorWithSentry                           // ErrorWithSentryWrapper()
    | Test(tb: TestHandle)                      // TestWrapper(tb)
    | Counted(delegate: Wrapper, counter: CounterId)  // CounterWrapper(delegate, counter)

  /** Where Sentry's `CaptureException` goes: the context's hub, or the global one. */
  datatype SentryTarget = Hub(id: nat) | GlobalHub

  /** One effect a wrapper has on a backend. */
  datatype Event =
    | Printed(logger: StdLogger, msg: string)               // logger.Print(msg)
    | Emitted(severity: Severity, msg: string, kv: seq<string>)  // zap record
    | Captured(target: SentryTarget, msg: string)           // CaptureException(errors.New(msg))
    | TestFailed(tb: TestHandle, msg: string)               // tb.Errorf("logger called with msg: %q", msg)
    | Added(counter: CounterId, amount: int)                // counter.Add(amount)

  /** `ZapWrapperArgs`: the level and the key/value pairs attached to every record. */
  datatype ZapWrapperArgs = ZapWrapperArgs(level: Level, kvPairs: map<string, string>)

  /** The level-to-emit-method switch inside ZapWrapper's closure. */
  function SeverityOf(level: Level): (s: Severity)
    ensures s == Info <==> level !in {DebugLevel, WarnLevel, ErrorLevel, PanicLevel, FatalLevel}
  {
    if level == DebugLevel then Debug
    else if level == WarnLevel then Warn
    else if level == ErrorLevel then Error
    else if level == PanicLevel then Panic
    else if level == FatalLevel then Fatal
    else Info
  }

  /** A level name for each severity; the switch sends it back to that severity. */
  function LevelOf(s: Severity): (l: Level)
    ensures SeverityOf(l) == s
    ensures l != NopLevel
  {
    match s
    case Debug => DebugLevel
    case Info => InfoLevel
    case Warn => WarnLevel
    case Error => ErrorLevel
    case Panic => PanicLevel
    case Fatal => FatalLevel
  }

  /** The key of the `i`-th pair of a flattened list. */
  function KeyAt(kv: seq<string>, i: nat): string
    requires 2 * i + 1 < |kv|
  {
    kv[2 * i]
  }

  /** The value of the `i`-th pair of a flattened list. */
  function ValueAt(kv: seq<string>, i: nat): string
    requires 2 * i + 1 < |kv|
  {
    kv[2 * i + 1]
  }

  /** `kv` lists every pair of `pairs` exactly once, as a key immediately followed
      by its value, in some order. */
  ghost predicate IsFlattening(kv: seq<string>, pairs: map<string, string>)
    decreases |kv|
  {
    if kv == [] then pairs == map[]
    else
      && |kv| >= 2
      && kv[0] in pairs && pairs[kv[0]] == kv[1]
      && IsFlattening(kv[2..], pairs - {kv[0]})
  }

  /** What ZapWrapper(args) returns: NopWrapper for the Nop level, otherwise a zap
      wrapper at that level over some flattening of the pairs. */
  ghost predicate IsZapWrapperOf(args: ZapWrapperArgs, w: Wrapper) {
    if args.level == NopLevel then w == Nop
    else w.Zap? && w.level == args.level && IsFlattening(w.kv, args.kvPairs)
  }

  /** Appending one new pair to a flattening of `m` flattens `m` with that pair added. */
  lemma {:induction false} FlatteningExtend(kv: seq<string>, m: map<string, string>, k: string, v: string)
    requires IsFlattening(kv, m) && k !in m
    ensures IsFlattening(kv + [k, v], m[k := v])
    decreases |kv|
  {
    var m' := m[k := v];
    if kv == [] {
      assert [k, v][2..] == [];
      assert m' - {k} == map[];
    } else {
      var a := kv[0];
      FlatteningExtend(kv[2..], m - {a}, k, v);
      assert (kv + [k, v])[2..] == kv[2..] + [k, v];
      assert m' - {a} == (m - {a})[k := v];
    }
  }

  /** The keys of a flattened list, in list order. */
  function KeysOf(kv: seq<string>): seq<string>
    decreases |kv|
  {
    if |kv| < 2 then [] else [kv[0]] + KeysOf(kv[2..])
  }

  /** Reads a flattened list back into a map (the first binding of a key wins). */
  function Unflatten(kv: seq<string>): map<string, string>
    decreases |kv|
  {
    if |kv| < 2 then map[] else Unflatten(kv[2..])[kv[0] := kv[1]]
  }

  /** A flattening of `m` has two entries per pair. */
  lemma {:induction false} FlatteningLength(kv: seq<string>, m: map<string, string>)
    requires IsFlattening(kv, m)
    ensures |kv| == 2 * |m| && |KeysOf(kv)| == |m|
    decreases |kv|
  {
    if kv != [] {
      FlatteningLength(kv[2..], m - {kv[0]});
    }
  }

  /** In a flattening of `m`, the `i`-th key is a key of `m` and its own value
      comes right after it. */
  lemma {:induction false} FlatteningPairs(kv: seq<string>, m: map<string, string>)
    requires IsFlattening(kv, m)
    ensures |kv| == 2 * |m|
    ensures forall i :: 0 <= i < |m| ==> KeyAt(kv, i) in m && ValueAt(kv, i) == m[KeyAt(kv, i)]
    decreases |kv|
  {
    FlatteningLength(kv, m);
    if kv != [] {
      var rest, m' := kv[2..], m - {kv[0]};
      FlatteningPairs(rest, m');
      forall i | 0 <= i < |m|
        ensures KeyAt(kv, i) in m && ValueAt(kv, i) == m[KeyAt(kv, i)]
      {
        if i > 0 {
          assert KeyAt(kv, i) == KeyAt(rest, i - 1);
          assert ValueAt(kv, i) == ValueAt(rest, i - 1);
        }
      }
    }
  }

  /** A flattening of `m` names each key of `m`, and nothing else, exactly once. */
  lemma {:induction false} FlatteningKeys(kv: seq<string>, m: map<string, string>)
    requires IsFlattening(kv, m)
    ensures forall k :: k in m <==> k in KeysOf(kv)
    ensures forall i, j :: 0 <= i < j < |KeysOf(kv)| ==> KeysOf(kv)[i] != KeysOf(kv)[j]
    decreases |kv|
  {
    if kv != [] {
      var a, rest := kv[0], kv[2..];
      FlatteningKeys(rest, m - {a});
      var ks := KeysOf(kv);
      assert ks == [a] + KeysOf(rest);
      forall i, j | 0 <= i < j < |ks| ensures ks[i] != ks[j] {
        if i == 0 {
          assert ks[j] == KeysOf(rest)[j - 1];
        } else {
          assert ks[i] == KeysOf(rest)[i - 1] && ks[j] == KeysOf(rest)[j - 1];
        }
      }
    }
  }

  /** Reading a flattening of `m` back gives `m`: no pair is lost or changed. */
  lemma {:induction false} FlatteningReadsBack(kv: seq<string>, m: map<string, string>)
    requires IsFlattening(kv, m)
    ensures Unflatten(kv) == m
    decreases |kv|
  {
    if kv != [] {
      var m' := m - {kv[0]};
      FlatteningReadsBack(kv[2..], m');
      assert m == m'[kv[0] := kv[1]];
    }
  }

  /** ZapWrapper: the Nop level short-circuits; otherwise the pairs are flattened
      once, in map iteration order (which Go leaves unspecified, hence the choice
      of an arbitrary remaining key), into the list the closure captures. */
  method ZapWrapper(args: ZapWrapperArgs) returns (w: Wrapper)
    ensures IsZapWrapperOf(args, w)
  {
    if args.level == NopLevel {
      return Nop;
    }
    var pairs := args.kvPairs;
    var kv: seq<string> := [];
    var rest := pairs.Keys;
    ghost var done: map<string, string> := map[];
    while rest != {}
      invariant rest !! done.Keys && rest + done.Keys == pairs.Keys
      invariant forall k :: k in done ==> done[k] == pairs[k]
      invariant IsFlattening(kv, done)
      decreases rest
    {
      var k :| k in rest;
      FlatteningExtend(kv, done, k, pairs[k]);
      kv := kv + [k, pairs[k]];
      rest := rest - {k};
      done := done[k := pairs[k]];
    }
    assert done == pairs;
    return Zap(args.level, kv);
  }

  /** The nesting depth of counter decorators, which bounds the dispatch recursion. */
  function Depth(w: Wrapper): nat {
    if w.Counted? then 1 + Depth(w.delegate) else 0
  }

  /** ErrorWithSentryWrapper's hub choice: the context's hub if there is one. */
  function SentryTargetOf(ctx: Context): (t: SentryTarget)
    ensures t == GlobalHub <==> ctx.hub.None?
    ensures ctx.hub.Some? ==> t == Hub(ctx.hub.value)
  {
    match ctx.hub
    case Some(h) => Hub(h)
    case None => GlobalHub
  }

  /** Calling the function a wrapper holds: the effects on the backends, in order.
      A direct call of the nil function panics in Go, so callers must not make it. */
  function Call(w: Wrapper, ctx: Context, msg: string): (effects: seq<Event>)
    requires !w.Nil?
    ensures !w.Counted? ==> forall i :: 0 <= i < |effects| ==> !effects[i].Added?
    decreases Depth(w), 0
  {
    match w
    case Nop => []
    case Std(logger) => [Printed(logger, msg)]
    case Zap(level, kv) => [Emitted(SeverityOf(level), msg, kv)]
    case ErrorWithSentry => [Emitted(Error, msg, []), Captured(SentryTargetOf(ctx), msg)]
    case Test(tb) => [TestFailed(tb, msg)]
    case Counted(delegate, counter) => [Added(counter, 1)] + Log(delegate, ctx, msg)
  }

  /** ErrorWithSentryWrapper(): a zap record at error level, then a Sentry report. */
  function ErrorWithSentryWrapper(): (w: Wrapper)
    ensures !w.Nil?
    ensures forall ctx, msg :: Log(w, ctx, msg) == [Emitted(Error, msg, []), Captured(SentryTargetOf(ctx), msg)]
  {
    ErrorWithSentry
  }

  /** The package-wide DefaultWrapper, as initialised: the value
      ErrorWithSentryWrapper() returns (see DefaultIsErrorWithSentry). It names the
      constructor rather than calling the function because the function's contract
      speaks about `Log`, which reads DefaultWrapper. */
  const DefaultWrapper: Wrapper := ErrorWithSentry

  lemma DefaultIsErrorWithSentry()
    ensures DefaultWrapper == ErrorWithSentryWrapper()
  {
  }

  /** `Wrapper.Log`, the nil-safe call: a nil wrapper is replaced by DefaultWrapper.
      It has no precondition: logging through it never fails. */
  function Log(w: Wrapper, ctx: Context, msg: string): (effects: seq<Event>)
    ensures !w.Counted? ==> forall i :: 0 <= i < |effects| ==> !effects[i].Added?
    decreases Depth(w), 1
  {
    if w.Nil? then Call(DefaultWrapper, ctx, msg) else Call(w, ctx, msg)
  }

  /** A no-op wrapper has no effect, whatever it is called with. */
  lemma NopWrapperSilent(ctx: Context, msg: string)
    ensures Log(Nop, ctx, msg) == []
  {
  }

  /** A nil wrapper behaves as DefaultWrapper, for every context and message. */
  lemma LogNilIsDefault(ctx: Context, msg: string)
    ensures Log(Nil, ctx, msg) == Log(DefaultWrapper, ctx, msg)
    ensures Log(Nil, ctx, msg) == [Emitted(Error, msg, []), Captured(SentryTargetOf(ctx), msg)]
  {
  }

  /** NopWrapper's doc comment calls the zero Wrapper "essentially a NopWrapper",
      but `Log` sends nil to DefaultWrapper, which is not silent. */
  lemma NilIsNotNop(ctx: Context, msg: string)
    ensures Log(Nil, ctx, msg) != Log(Nop, ctx, msg)
    ensures |Log(Nil, ctx, msg)| == 2 && Log(Nop, ctx, msg) == []
  {
    LogNilIsDefault(ctx, msg);
  }

  /** StdWrapper: a nil logger gives NopWrapper, any other prints each message. */
  function StdWrapper(logger: Option<StdLogger>): (w: Wrapper)
    ensures logger.None? ==> w == Nop
    ensures forall ctx, msg :: Log(w, ctx, msg) == if logger.None? then [] else [Printed(logger.value, msg)]
  {
    match logger
    case None => Nop
    case Some(l) => Std(l)
  }

  /** TestWrapper: each call reports one test failure carrying the message. */
  function TestWrapper(tb: TestHandle): (w: Wrapper)
    ensures forall ctx, msg :: Log(w, ctx, msg) == [TestFailed(tb, msg)]
  {
    Test(tb)
  }

  /** CounterWrapper: each call first adds 1 to the counter, then logs the same
      message through the delegate's nil-safe Log. */
  function CounterWrapper(delegate: Wrapper, counter: CounterId): (w: Wrapper)
    ensures Depth(w) == Depth(delegate) + 1
    ensures forall ctx, msg :: Log(w, ctx, msg) == [Added(counter, 1)] + Log(delegate, ctx, msg)
  {
    Counted(delegate, counter)
  }

  /** A zap wrapper emits exactly one record per call, at the severity its level
      selects, carrying the captured pairs; levels outside the switch select info. */
  lemma ZapEmitsOneRecord(level: Level, kv: seq<string>, ctx: Context, msg: string)
    ensures Log(Zap(level, kv), ctx, msg) == [Emitted(SeverityOf(level), msg, kv)]
    ensures level !in {DebugLevel, WarnLevel, ErrorLevel, PanicLevel, FatalLevel} ==>
              Log(Zap(level, kv), ctx, msg)[0].severity == Info
  {
  }

  /** `thrift.Logger` as ToThriftLogger builds it: a function of the message alone
      that calls the (already resolved) wrapper with a background context. */
  datatype ThriftLogger = ThriftLogger(target: Wrapper)

  /** Calling a thrift logger. */
  function ThriftLog(t: ThriftLogger, msg: string): (effects: seq<Event>)
    requires !t.target.Nil?
    ensures effects == Log(t.target, Background(), msg)
  {
    Call(t.target, Background(), msg)
  }

  /** `Wrapper.ToThriftLogger`: a nil wrapper is replaced by DefaultWrapper, so the
      result logs each message as the nil-safe Log does with a background context. */
  function ToThriftLogger(w: Wrapper): (t: ThriftLogger)
    ensures !t.target.Nil?
    ensures forall msg :: ThriftLog(t, msg) == Log(w, Background(), msg)
  {
    if w.Nil? then ThriftLogger(DefaultWrapper) else ThriftLogger(w)
  }

  /** `WrapToThriftLogger`, the free-function form of ToThriftLogger. */
  function WrapToThriftLogger(w: Wrapper): (t: ThriftLogger)
    ensures !t.target.Nil?
    ensures forall msg :: ThriftLog(t, msg) == Log(w, Background(), msg)
  {
    ToThriftLogger(w)
  }
}
