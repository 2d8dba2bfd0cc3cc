/** The state the wrappers act on, and what CounterWrapper does to it.

    `World` holds what is outside package `log`: the history of effects the
    backends observed and the value of every metrics counter. Its methods perform
    a nil-safe `Log` call step by step, the way the Go closures do, mutating the
    counters in place; the pure functions of module `LogWrapper` are their specification. */
module LogCounter {
  import opened LogWrapper

  /** The value of counter `c` in `totals` (a counter never added to holds 0). */
  function Total(totals: map<CounterId, int>, c: CounterId): int {
    if c in totals then totals[c] else 0
  }

  /** The counter values after the `Added` events of `events`, in order. */
  function Tally(totals: map<CounterId, int>, events: seq<Event>): map<CounterId, int>
    decreases |events|
  {
    if events == [] then totals
    else
      var e := events[0];
      var next := if e.Added? then totals[e.counter := Total(totals, e.counter) + e.amount] else totals;
      Tally(next, events[1..])
  }

  /** The sum of what `events` add to counter `c`. */
  function AddedTo(events: seq<Event>, c: CounterId): int
    decreases |events|
  {
    if events == [] then 0
    else (if events[0].Added? && events[0].counter == c then events[0].amount else 0) + AddedTo(events[1..], c)
  }

  /** `events` without the additions to counter `c`. */
  function Strip(events: seq<Event>, c: CounterId): seq<Event>
    decreases |events|
  {
    if events == [] then []
    else (if events[0].Added? && events[0].counter == c then [] else [events[0]]) + Strip(events[1..], c)
  }

  /** How many CounterWrapper layers of `w` count into `c`. */
  function Layers(w: Wrapper, c: CounterId): nat {
    if w.Counted? then (if w.counter == c then 1 else 0) + Layers(w.delegate, c) else 0
  }

  /** The effects of calling `w.Log` once per message, in order. */
  function LogMany(w: Wrapper, ctx: Context, msgs: seq<string>): seq<Event>
    decreases |msgs|
  {
    if msgs == [] then [] else Log(w, ctx, msgs[0]) + LogMany(w, ctx, msgs[1..])
  }

  lemma {:induction false} TallyAppend(t: map<CounterId, int>, a: seq<Event>, b: seq<Event>)
    ensures Tally(t, a + b) == Tally(Tally(t, a), b)
    decreases |a|
  {
    if a == [] {
      assert a + b == b;
    } else {
      assert (a + b)[0] == a[0] && (a + b)[1..] == a[1..] + b;
      var e := a[0];
      TallyAppend(if e.Added? then t[e.counter := Total(t, e.counter) + e.amount] else t, a[1..], b);
    }
  }

  /** A counter's value after some events is its value before plus what they add to it. */
  lemma {:induction false} TallyTotal(t: map<CounterId, int>, events: seq<Event>, c: CounterId)
    ensures Total(Tally(t, events), c) == Total(t, c) + AddedTo(events, c)
    decreases |events|
  {
    if events != [] {
      var e := events[0];
      TallyTotal(if e.Added? then t[e.counter := Total(t, e.counter) + e.amount] else t, events[1..], c);
    }
  }

  lemma {:induction false} AddedToAppend(a: seq<Event>, b: seq<Event>, c: CounterId)
    ensures AddedTo(a + b, c) == AddedTo(a, c) + AddedTo(b, c)
    decreases |a|
  {
    if a == [] {
      assert a + b == b;
    } else {
      assert (a + b)[0] == a[0] && (a + b)[1..] == a[1..] + b;
      AddedToAppend(a[1..], b, c);
    }
  }

  lemma {:induction false} StripAppend(a: seq<Event>, b: seq<Event>, c: CounterId)
    ensures Strip(a + b, c) == Strip(a, c) + Strip(b, c)
    decreases |a|
  {
    if a == [] {
      assert a + b == b;
    } else {
      assert (a + b)[0] == a[0] && (a + b)[1..] == a[1..] + b;
      StripAppend(a[1..], b, c);
    }
  }

  /** Events that add to no counter leave every counter and every stripped history as is. */
  lemma {:induction false} NoAdditions(t: map<CounterId, int>, events: seq<Event>, c: CounterId)
    requires forall i :: 0 <= i < |events| ==> !events[i].Added?
    ensures Tally(t, events) == t && AddedTo(events, c) == 0 && Strip(events, c) == events
    decreases |events|
  {
    if events != [] {
      NoAdditions(t, events[1..], c);
      assert [events[0]] + events[1..] == events;
    }
  }

  /** One nil-safe call of `w` adds 1 to `c` per CounterWrapper layer counting into
      `c`; stripping those additions leaves the effects of the innermost call alone
      when no layer counts into `c`. */
  lemma {:induction false} LogCounts(w: Wrapper, ctx: Context, msg: string, c: CounterId)
    ensures AddedTo(Log(w, ctx, msg), c) == Layers(w, c)
    ensures Layers(w, c) == 0 ==> Strip(Log(w, ctx, msg), c) == Log(w, ctx, msg)
    decreases Depth(w)
  {
    if w.Counted? {
      var d := w.delegate;
      assert Log(w, ctx, msg) == [Added(w.counter, 1)] + Log(d, ctx, msg);
      LogCounts(d, ctx, msg, c);
      AddedToAppend([Added(w.counter, 1)], Log(d, ctx, msg), c);
      StripAppend([Added(w.counter, 1)], Log(d, ctx, msg), c);
    } else {
      var events := Log(w, ctx, msg);
      NoAdditions(map[], events, c);
    }
  }

  lemma MultiplySucc(n: nat, k: nat)
    ensures (n + 1) * k == k + n * k
  {
  }

  /** N calls of `w` add N times its number of layers counting into `c`. */
  lemma {:induction false} LogManyCounts(w: Wrapper, c: CounterId, ctx: Context, msgs: seq<string>)
    ensures AddedTo(LogMany(w, ctx, msgs), c) == |msgs| * Layers(w, c)
    decreases |msgs|
  {
    if msgs != [] {
      var head, tail := Log(w, ctx, msgs[0]), LogMany(w, ctx, msgs[1..]);
      var n, k := |msgs[1..]|, Layers(w, c);
      assert LogMany(w, ctx, msgs) == head + tail;
      LogCounts(w, ctx, msgs[0], c);
      LogManyCounts(w, c, ctx, msgs[1..]);
      AddedToAppend(head, tail, c);
      assert AddedTo(LogMany(w, ctx, msgs), c) == k + n * k;
      MultiplySucc(n, k);
    }
  }

  /** N calls through CounterWrapper(d, c) add N to `c` for the wrapper's own layer,
      plus N for every layer of `d` counting into `c`: exactly N when `d` does not
      count into `c` itself. */
  lemma CounterWrapperCountsCalls(d: Wrapper, c: CounterId, ctx: Context, msgs: seq<string>)
    ensures AddedTo(LogMany(CounterWrapper(d, c), ctx, msgs), c) == |msgs| * (Layers(d, c) + 1)
    ensures Layers(d, c) == 0 ==> AddedTo(LogMany(CounterWrapper(d, c), ctx, msgs), c) == |msgs|
  {
    LogManyCounts(CounterWrapper(d, c), c, ctx, msgs);
    assert Layers(CounterWrapper(d, c), c) == Layers(d, c) + 1;
  }

  /** Stripping the additions to `c` leaves the calls of a wrapper that never
      counts into `c` as they are. */
  lemma {:induction false} StripUncounted(d: Wrapper, c: CounterId, ctx: Context, msgs: seq<string>)
    requires Layers(d, c) == 0
    ensures Strip(LogMany(d, ctx, msgs), c) == LogMany(d, ctx, msgs)
    decreases |msgs|
  {
    if msgs != [] {
      var head, tail := Log(d, ctx, msgs[0]), LogMany(d, ctx, msgs[1..]);
      assert LogMany(d, ctx, msgs) == head + tail;
      LogCounts(d, ctx, msgs[0], c);
      StripUncounted(d, c, ctx, msgs[1..]);
      StripAppend(head, tail, c);
    }
  }

  /** With the additions to `c` removed, N calls through CounterWrapper(d, c) have
      the effects of N calls of the delegate with the same messages, in the same
      order (with its own additions to `c` removed too); when the delegate does
      not count into `c`, exactly its effects. */
  lemma {:induction false} CounterWrapperDelegates(d: Wrapper, c: CounterId, ctx: Context, msgs: seq<string>)
    ensures Strip(LogMany(CounterWrapper(d, c), ctx, msgs), c) == Strip(LogMany(d, ctx, msgs), c)
    ensures Layers(d, c) == 0 ==> Strip(LogMany(CounterWrapper(d, c), ctx, msgs), c) == LogMany(d, ctx, msgs)
    decreases |msgs|
  {
    if msgs != [] {
      var w, m, rest := CounterWrapper(d, c), msgs[0], msgs[1..];
      var inner := Log(d, ctx, m);
      var head, tail := Log(w, ctx, m), LogMany(w, ctx, rest);
      assert LogMany(w, ctx, msgs) == head + tail;
      assert LogMany(d, ctx, msgs) == inner + LogMany(d, ctx, rest);
      assert head == [Added(c, 1)] + inner;
      StripOnce(c, inner);
      CounterWrapperDelegates(d, c, ctx, rest);
      StripAppend(head, tail, c);
      StripAppend(inner, LogMany(d, ctx, rest), c);
    }
    if Layers(d, c) == 0 {
      StripUncounted(d, c, ctx, msgs);
    }
  }

  /** Stripping drops a leading addition to the stripped counter. */
  lemma StripOnce(c: CounterId, events: seq<Event>)
    ensures Strip([Added(c, 1)] + events, c) == Strip(events, c)
  {
    StripAppend([Added(c, 1)], events, c);
  }

  /** From any starting values, N calls through CounterWrapper(d, c) leave counter
      `c` higher by N times the number of layers counting into it: exactly N when
      the delegate does not count into `c` itself. */
  lemma CounterWrapperTotal(t: map<CounterId, int>, d: Wrapper, c: CounterId, ctx: Context, msgs: seq<string>)
    ensures Total(Tally(t, LogMany(CounterWrapper(d, c), ctx, msgs)), c) == Total(t, c) + |msgs| * (Layers(d, c) + 1)
    ensures Layers(d, c) == 0 ==> Total(Tally(t, LogMany(CounterWrapper(d, c), ctx, msgs)), c) == Total(t, c) + |msgs|
  {
    TallyTotal(t, LogMany(CounterWrapper(d, c), ctx, msgs), c);
    CounterWrapperCountsCalls(d, c, ctx, msgs);
  }

  /** The backends and counters outside the package. */
  class World {
    /** Every effect the backends have observed, oldest first. */
    var history: seq<Event>
    /** The value of each metrics counter. */
    var totals: map<CounterId, int>

    constructor ()
      ensures history == [] && totals == map[]
    {
      history := [];
      totals := map[];
    }

    /** `counter.Add(amount)`. */
    method Add(c: CounterId, amount: int)
      modifies this
      ensures totals == old(totals)[c := Total(old(totals), c) + amount]
      ensures history == old(history) + [Added(c, amount)]
    {
      totals := totals[c := Total(totals, c) + amount];
      history := history + [Added(c, amount)];
    }

    /** `w.Log(ctx, msg)`: resolves a nil wrapper to DefaultWrapper, then calls it. */
    method Deliver(w: Wrapper, ctx: Context, msg: string)
      modifies this
      ensures history == old(history) + LogWrapper.Log(w, ctx, msg)
      ensures totals == Tally(old(totals), LogWrapper.Log(w, ctx, msg))
      decreases Depth(w), 1
    {
      var target := w;
      if target.Nil? {
        target := DefaultWrapper;
      }
      Invoke(target, ctx, msg);
    }

    /** A backend observes the effects of a wrapper that is not a counter decorator. */
    method Record(w: Wrapper, ctx: Context, msg: string)
      requires !w.Nil? && !w.Counted?
      modifies this
      ensures history == old(history) + LogWrapper.Call(w, ctx, msg)
      ensures totals == Tally(old(totals), LogWrapper.Call(w, ctx, msg))
      ensures totals == old(totals)
    {
      NoAdditions(totals, LogWrapper.Call(w, ctx, msg), CounterId(0));
      history := history + LogWrapper.Call(w, ctx, msg);
    }

    /** Calls the function a non-nil wrapper holds. A CounterWrapper closure adds 1
        to its counter and only then logs through its delegate; every other
        wrapper hands its effects to the backends, leaving the counters alone. */
    method Invoke(w: Wrapper, ctx: Context, msg: string)
      requires !w.Nil?
      modifies this
      ensures history == old(history) + LogWrapper.Call(w, ctx, msg)
      ensures totals == Tally(old(totals), LogWrapper.Call(w, ctx, msg))
      decreases Depth(w), 0
    {
      match w {
        case Counted(delegate, counter) =>
          ghost var t0 := totals;
          assert LogWrapper.Call(w, ctx, msg) == [Added(counter, 1)] + LogWrapper.Log(delegate, ctx, msg);
          Add(counter, 1);
          Deliver(delegate, ctx, msg);
          TallyAppend(t0, [Added(counter, 1)], LogWrapper.Log(delegate, ctx, msg));
        case Nop => Record(w, ctx, msg);
        case Std(_) => Record(w, ctx, msg);
        case Zap(_, _) => Record(w, ctx, msg);
        case ErrorWithSentry => Record(w, ctx, msg);
        case Test(_) => Record(w, ctx, msg);
      }
    }
  }
}
