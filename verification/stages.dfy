/**
  The item-by-item stages of src/transformers.ts that are not built on `reduce`: `map` (and
  `flat`, built on it), `filter`, `tap`, `validate`, `unique` and `uniqueBy`.
 */
module Stages {
  import opened Streams
  import opened Errors

  // ---------------------------------------------------------------------------
  // map

  /** map's callback `fn(val, index, emit, done)`; what it returns is ignored. */
  type MapStep<!T, U> = (T, nat) -> Outcome<U>

  /** Local state of a map run: index `i`, the `emittable` queue and the `done` flag. */
  datatype MapState<U> = MapState(index: nat, queue: seq<U>, done: bool)

  /** A map run together with its call log. */
  datatype MapTrace<U> = MapTrace(out: Stream<U>, calls: seq<Outcome<U>>)

  /**
    The state after call `o`: a call that returned has had its queue flushed and advances the
    index; a call that threw leaves its emissions queued and its `done` request pending.
   */
  function MapNext<U>(st: MapState<U>, o: Outcome<U>): MapState<U>
  {
    match o
    case Returned(_, _, _) => MapState(st.index + 1, [], false)
    case Threw(_, em, d) => MapState(st.index, st.queue + em, st.done || d)
  }

  /** The loop goes on after call `o` on item `x`. */
  predicate MapContinues<T, U>(st: MapState<U>, o: Outcome<U>, x: T, policy: Option<ErrorMap<T, U>>)
  {
    match o
    case Returned(_, _, d) => !(st.done || d)
    case Threw(err, _, _) => Handle(policy, err, x).Recovered?
  }

  /** What call `o` on item `x` makes the stage yield: the queue when it returned, else the handler's value. */
  function MapFlush<T, U>(st: MapState<U>, o: Outcome<U>, x: T, policy: Option<ErrorMap<T, U>>): seq<U>
  {
    match o
    case Returned(_, em, _) => st.queue + em
    case Threw(err, _, _) =>
      match Handle(policy, err, x)
      case Recovered(v) => OptSeq(v)
      case Rethrown(_) => []
  }

  /** The `for await` loop of `map` over the items still to be pulled. */
  function MapLoop<T, U>(items: seq<T>, end: End, st: MapState<U>, fn: MapStep<T, U>,
                         policy: Option<ErrorMap<T, U>>): (r: MapTrace<U>)
    ensures |r.calls| <= |items|
    decreases |items|
  {
    if |items| == 0 then MapTrace(Stream([], end), [])
    else
      var x := items[0];
      var o := fn(x, st.index);
      var rest :=
        if MapContinues(st, o, x, policy) then MapLoop(items[1..], end, MapNext(st, o), fn, policy)
        else match o
          // `done` was requested: break after yielding
          case Returned(_, _, _) => MapTrace(Stream([], Exhausted), [])
          // the handler threw
          case Threw(err, _, _) => MapTrace(Stream([], Failed(Handle(policy, err, x).err)), []);
      MapTrace(Stream(MapFlush(st, o, x, policy) + rest.out.items, rest.out.end), [o] + rest.calls)
  }

  /** map(source, fn, errorMap) with its call log. */
  function MapTraceOf<T, U>(src: Stream<T>, fn: MapStep<T, U>, policy: Option<ErrorMap<T, U>>): MapTrace<U>
  {
    MapLoop(src.items, src.end, MapState(0, [], false), fn, policy)
  }

  /** map(source, fn, errorMap); one call of `fn` per pulled item. */
  function Map<T, U>(src: Stream<T>, fn: MapStep<T, U>, policy: Option<ErrorMap<T, U>>): (r: Run<U>)
    ensures r.pulled <= |src.items|
  {
    var t := MapTraceOf(src, fn, policy);
    Run(t.out, |t.calls|)
  }

  lemma MapHeadContinues<T, U>(items: seq<T>, end: End, st: MapState<U>, fn: MapStep<T, U>,
                               policy: Option<ErrorMap<T, U>>)
    requires |items| > 0
    requires MapContinues(st, fn(items[0], st.index), items[0], policy)
    ensures var t := MapLoop(items, end, st, fn, policy);
      var o := fn(items[0], st.index);
      var rest := MapLoop(items[1..], end, MapNext(st, o), fn, policy);
      && t.calls == [o] + rest.calls && t.calls[0] == o && t.calls[1..] == rest.calls
      && t.out == Stream(MapFlush(st, o, items[0], policy) + rest.out.items, rest.out.end)
  {
  }

  lemma MapHeadStops<T, U>(items: seq<T>, end: End, st: MapState<U>, fn: MapStep<T, U>,
                           policy: Option<ErrorMap<T, U>>)
    requires |items| > 0
    requires !MapContinues(st, fn(items[0], st.index), items[0], policy)
    ensures var t := MapLoop(items, end, st, fn, policy);
      var o := fn(items[0], st.index);
      && t.calls == [o]
      && t.out.items == MapFlush(st, o, items[0], policy)
      && (o.Returned? ==> t.out.end == Exhausted)
      && (o.Threw? ==> t.out.end == Failed(Handle(policy, o.err, items[0]).err))
  {
  }

  /** The inputs of map's calls: the item at the call's position and the count of earlier calls that returned. */
  ghost predicate MapInputs<T, U>(calls: seq<Outcome<U>>, items: seq<T>, index: nat, fn: MapStep<T, U>)
    requires |calls| <= |items|
  {
    forall j :: 0 <= j < |calls| ==> calls[j] == fn(items[j], index + Successes(calls[..j]))
  }

  lemma MapInputAt<T, U>(o: Outcome<U>, rest: seq<Outcome<U>>, items: seq<T>, st: MapState<U>, fn: MapStep<T, U>, j: nat)
    requires 0 < |items| && |rest| < |items| && j <= |rest|
    requires o == fn(items[0], st.index)
    requires MapInputs(rest, items[1..], MapNext(st, o).index, fn)
    ensures ([o] + rest)[j] == fn(items[j], st.index + Successes(([o] + rest)[..j]))
  {
    var pre := ([o] + rest)[..j];
    if j == 0 {
      assert pre == [];
    } else {
      var k := j - 1;
      assert rest[k] == fn(items[1..][k], MapNext(st, o).index + Successes(rest[..k]));
      assert pre[0] == o && pre[1..] == rest[..k];
      assert st.index + Successes(pre) == MapNext(st, o).index + Successes(rest[..k]);
    }
  }

  lemma MapInputsCons<T, U>(o: Outcome<U>, rest: seq<Outcome<U>>, items: seq<T>, st: MapState<U>, fn: MapStep<T, U>)
    requires 0 < |items| && |rest| < |items|
    requires o == fn(items[0], st.index)
    requires MapInputs(rest, items[1..], MapNext(st, o).index, fn)
    ensures MapInputs([o] + rest, items, st.index, fn)
  {
    forall j | 0 <= j < |[o] + rest|
      ensures ([o] + rest)[j] == fn(items[j], st.index + Successes(([o] + rest)[..j]))
    {
      MapInputAt(o, rest, items, st, fn, j);
    }
  }

  lemma {:induction false} MapLoopInputs<T, U>(items: seq<T>, end: End, st: MapState<U>, fn: MapStep<T, U>,
                                               policy: Option<ErrorMap<T, U>>)
    ensures MapInputs(MapLoop(items, end, st, fn, policy).calls, items, st.index, fn)
    decreases |items|
  {
    if |items| > 0 {
      var o := fn(items[0], st.index);
      if MapContinues(st, o, items[0], policy) {
        MapHeadContinues(items, end, st, fn, policy);
        MapLoopInputs(items[1..], end, MapNext(st, o), fn, policy);
        MapInputsCons(o, MapLoop(items[1..], end, MapNext(st, o), fn, policy).calls, items, st, fn);
      } else {
        MapHeadStops(items, end, st, fn, policy);
        MapInputsCons(o, [], items, st, fn);
      }
    }
  }

  /** Once `done` was requested, the first call that returns is the last one. */
  lemma {:induction false} MapLoopStopsAfterDone<T, U>(items: seq<T>, end: End, st: MapState<U>, fn: MapStep<T, U>,
                                                       policy: Option<ErrorMap<T, U>>)
    ensures var t := MapLoop(items, end, st, fn, policy);
      && (st.done ==> forall j :: 0 <= j < |t.calls| - 1 ==> !t.calls[j].Returned?)
      && (forall i, j :: 0 <= i <= j < |t.calls| - 1 ==> !(t.calls[i].calledDone && t.calls[j].Returned?))
    decreases |items|
  {
    var t := MapLoop(items, end, st, fn, policy);
    if |items| > 0 {
      var o := fn(items[0], st.index);
      if MapContinues(st, o, items[0], policy) {
        MapHeadContinues(items, end, st, fn, policy);
        var st' := MapNext(st, o);
        var rest := MapLoop(items[1..], end, st', fn, policy);
        MapLoopStopsAfterDone(items[1..], end, st', fn, policy);
        forall j | 0 <= j < |t.calls| - 1 && st.done
          ensures !t.calls[j].Returned?
        {
          if j > 0 {
            assert t.calls[j] == rest.calls[j-1];
          }
        }
        forall i, j | 0 <= i <= j < |t.calls| - 1
          ensures !(t.calls[i].calledDone && t.calls[j].Returned?)
        {
          if i == 0 && o.calledDone && 0 < j {
            assert st'.done;
            assert t.calls[j] == rest.calls[j-1];
          } else if 0 < i {
            assert t.calls[i] == rest.calls[i-1] && t.calls[j] == rest.calls[j-1];
          }
        }
      } else {
        MapHeadStops(items, end, st, fn, policy);
      }
    }
  }

  /** Every item is read unless `done` was requested or the run failed. */
  lemma {:induction false} MapLoopReadsAll<T, U>(items: seq<T>, end: End, st: MapState<U>, fn: MapStep<T, U>,
                                                 policy: Option<ErrorMap<T, U>>)
    requires !st.done
    ensures var t := MapLoop(items, end, st, fn, policy);
      |t.calls| == |items| || t.out.end.Failed? || DoneCalled(t.calls)
    decreases |items|
  {
    var t := MapLoop(items, end, st, fn, policy);
    if |items| > 0 {
      var o := fn(items[0], st.index);
      if !MapContinues(st, o, items[0], policy) {
        MapHeadStops(items, end, st, fn, policy);
        assert t.calls[0] == o;
      } else if o.calledDone {
        MapHeadContinues(items, end, st, fn, policy);
        assert t.calls[0].calledDone;
      } else {
        MapHeadContinues(items, end, st, fn, policy);
        var st' := MapNext(st, o);
        MapLoopReadsAll(items[1..], end, st', fn, policy);
        var rest := MapLoop(items[1..], end, st', fn, policy);
        if DoneCalled(rest.calls) {
          var i :| 0 <= i < |rest.calls| && rest.calls[i].calledDone;
          assert t.calls[i + 1] == rest.calls[i];
        }
      }
    }
  }

  /**
    What one call makes the stage yield when no emission is left queued: the values it passed
    to `emit`/`done` if it returned, else the value its handler recovered with, if any.
   */
  function CallYield<T, U>(o: Outcome<U>, x: T, policy: Option<ErrorMap<T, U>>): seq<U>
  {
    match o
    case Returned(_, em, _) => em
    case Threw(err, _, _) =>
      match Handle(policy, err, x)
      case Recovered(v) => OptSeq(v)
      case Rethrown(_) => []
  }

  /** The concatenated yields of the calls of a log, each paired with the item at its position. */
  function Yields<T, U>(calls: seq<Outcome<U>>, items: seq<T>, policy: Option<ErrorMap<T, U>>): seq<U>
    requires |calls| <= |items|
  {
    if |calls| == 0 then [] else CallYield(calls[0], items[0], policy) + Yields(calls[1..], items[1..], policy)
  }

  /** No throwing call of the log emitted anything before it threw. */
  predicate ThrowsClean<U>(calls: seq<Outcome<U>>)
  {
    forall j :: 0 <= j < |calls| && calls[j].Threw? ==> calls[j].emitted == []
  }

  /** Yields of a map run whose throwing calls emitted nothing, read off its call log. */
  ghost predicate YieldLaw<T, U>(t: MapTrace<U>, items: seq<T>, policy: Option<ErrorMap<T, U>>)
  {
    |t.calls| <= |items| && (ThrowsClean(t.calls) ==> t.out.items == Yields(t.calls, items, policy))
  }

  lemma YieldLawCons<T, U>(o: Outcome<U>, rest: MapTrace<U>, items: seq<T>, st: MapState<U>,
                           policy: Option<ErrorMap<T, U>>)
    requires 0 < |items| && st.queue == []
    requires |rest.calls| < |items|
    requires ThrowsClean([o] + rest.calls) ==> YieldLaw(rest, items[1..], policy)
    ensures YieldLaw(MapTrace(Stream(MapFlush(st, o, items[0], policy) + rest.out.items, rest.out.end), [o] + rest.calls),
                     items, policy)
  {
    var calls := [o] + rest.calls;
    assert calls[0] == o && calls[1..] == rest.calls;
    if ThrowsClean(calls) {
      assert o.Threw? ==> o.emitted == [];
      assert ThrowsClean(rest.calls) by {
        forall j | 0 <= j < |rest.calls| && rest.calls[j].Threw?
          ensures rest.calls[j].emitted == []
        {
          assert rest.calls[j] == calls[j + 1];
        }
      }
      assert MapFlush(st, o, items[0], policy) == CallYield(o, items[0], policy);
    }
  }

  lemma {:induction false} MapLoopOutput<T, U>(items: seq<T>, end: End, st: MapState<U>, fn: MapStep<T, U>,
                                               policy: Option<ErrorMap<T, U>>)
    requires st.queue == []
    ensures YieldLaw(MapLoop(items, end, st, fn, policy), items, policy)
    decreases |items|
  {
    if |items| > 0 {
      var o := fn(items[0], st.index);
      if MapContinues(st, o, items[0], policy) {
        MapHeadContinues(items, end, st, fn, policy);
        var rest := MapLoop(items[1..], end, MapNext(st, o), fn, policy);
        if o.Returned? || o.emitted == [] {
          MapLoopOutput(items[1..], end, MapNext(st, o), fn, policy);
        }
        YieldLawCons(o, rest, items, st, policy);
      } else {
        MapHeadStops(items, end, st, fn, policy);
        YieldLawCons(o, MapTrace(Stream([], MapLoop(items, end, st, fn, policy).out.end), []), items, st, policy);
      }
    }
  }

  /**
    Each call of `fn` receives the item at its position and the index counting the earlier
    calls that returned: a call that threw does not advance the index.
   */
  lemma MapCallInputs<T, U>(src: Stream<T>, fn: MapStep<T, U>, policy: Option<ErrorMap<T, U>>)
    ensures var t := MapTraceOf(src, fn, policy);
      && |t.calls| <= |src.items|
      && forall j :: 0 <= j < |t.calls| ==> t.calls[j] == fn(src.items[j], Successes(t.calls[..j]))
  {
    MapLoopInputs(src.items, src.end, MapState(0, [], false), fn, policy);
  }

  /**
    After a call requests `done`, no item past the next call that returns is read; without a
    `done` request or a failure every item is read.
   */
  lemma MapAbort<T, U>(src: Stream<T>, fn: MapStep<T, U>, policy: Option<ErrorMap<T, U>>)
    ensures var t := MapTraceOf(src, fn, policy);
      && (forall i, j :: 0 <= i <= j < |t.calls| - 1 ==> !(t.calls[i].calledDone && t.calls[j].Returned?))
      && (|t.calls| == |src.items| || t.out.end.Failed? || DoneCalled(t.calls))
  {
    MapLoopStopsAfterDone(src.items, src.end, MapState(0, [], false), fn, policy);
    MapLoopReadsAll(src.items, src.end, MapState(0, [], false), fn, policy);
  }

  /**
    When no throwing call emitted before throwing, map yields, call by call, the values passed
    to `emit`/`done` by the calls that returned and the non-`undefined` recovery values of the
    calls that threw; `fn`'s own return values are never yielded.
   */
  lemma MapOutput<T, U>(src: Stream<T>, fn: MapStep<T, U>, policy: Option<ErrorMap<T, U>>)
    ensures var t := MapTraceOf(src, fn, policy);
      ThrowsClean(t.calls) ==> t.out.items == Yields(t.calls, src.items, policy)
  {
    MapLoopOutput(src.items, src.end, MapState(0, [], false), fn, policy);
  }

  lemma {:induction false} YieldsOfReturns<T, U>(calls: seq<Outcome<U>>, items: seq<T>, policy: Option<ErrorMap<T, U>>)
    requires |calls| <= |items|
    requires AllReturned(calls)
    ensures Yields(calls, items, policy) == Emissions(calls)
    decreases |calls|
  {
    if |calls| > 0 {
      YieldsOfReturns(calls[1..], items[1..], policy);
    }
  }

  /**
    When no call throws, map yields exactly the values passed to `emit`/`done`, in call order;
    without a `done` request it reads every item and ends as its source did, with one it ends
    normally.
   */
  lemma MapWithoutThrows<T, U>(src: Stream<T>, fn: MapStep<T, U>, policy: Option<ErrorMap<T, U>>)
    ensures var t := MapTraceOf(src, fn, policy);
      AllReturned(t.calls) ==>
        && t.out.items == Emissions(t.calls)
        && (!DoneCalled(t.calls) ==> |t.calls| == |src.items| && t.out.end == src.end)
        && (DoneCalled(t.calls) ==> t.out.end == Exhausted)
  {
    var t := MapTraceOf(src, fn, policy);
    MapLoopEnd(src.items, src.end, MapState(0, [], false), fn, policy);
    if AllReturned(t.calls) {
      MapOutput(src, fn, policy);
      assert ThrowsClean(t.calls);
      YieldsOfReturns(t.calls, src.items, policy);
    }
  }

  /** Every call of the log returned. */
  predicate AllReturned<U>(calls: seq<Outcome<U>>)
  {
    forall j :: 0 <= j < |calls| ==> calls[j].Returned?
  }

  /** How a map run in which every call returned ends, read off its call log. */
  ghost predicate EndLaw<U>(t: MapTrace<U>, n: nat, end: End)
  {
    AllReturned(t.calls) ==>
      && (!DoneCalled(t.calls) ==> |t.calls| == n && t.out.end == end)
      && (DoneCalled(t.calls) ==> t.out.end == Exhausted)
  }

  lemma EndLawCons<U>(o: Outcome<U>, rest: MapTrace<U>, out: seq<U>, n: nat, end: End)
    requires 0 < n && (o.Returned? ==> !o.calledDone)
    requires EndLaw(rest, n - 1, end)
    ensures EndLaw(MapTrace(Stream(out, rest.out.end), [o] + rest.calls), n, end)
  {
    var calls := [o] + rest.calls;
    assert calls[0] == o && calls[1..] == rest.calls;
    if AllReturned(calls) {
      assert AllReturned(rest.calls) by {
        forall j | 0 <= j < |rest.calls|
          ensures rest.calls[j].Returned?
        {
          assert rest.calls[j] == calls[j + 1];
        }
      }
      if DoneCalled(rest.calls) {
        var i :| 0 <= i < |rest.calls| && rest.calls[i].calledDone;
        assert calls[i + 1].calledDone;
      }
      if DoneCalled(calls) {
        var i :| 0 <= i < |calls| && calls[i].calledDone;
        assert i > 0 && rest.calls[i - 1].calledDone;
      }
    }
  }

  lemma {:induction false} MapLoopEnd<T, U>(items: seq<T>, end: End, st: MapState<U>, fn: MapStep<T, U>,
                                            policy: Option<ErrorMap<T, U>>)
    requires !st.done
    ensures EndLaw(MapLoop(items, end, st, fn, policy), |items|, end)
    decreases |items|
  {
    if |items| > 0 {
      var o := fn(items[0], st.index);
      var t := MapLoop(items, end, st, fn, policy);
      if MapContinues(st, o, items[0], policy) {
        MapHeadContinues(items, end, st, fn, policy);
        var rest := MapLoop(items[1..], end, MapNext(st, o), fn, policy);
        if o.Returned? {
          MapLoopEnd(items[1..], end, MapNext(st, o), fn, policy);
          EndLawCons(o, rest, t.out.items, |items|, end);
        } else {
          assert !t.calls[0].Returned?;
        }
      } else {
        MapHeadStops(items, end, st, fn, policy);
        assert t.calls[0] == o;
        if o.Returned? {
          assert DoneCalled(t.calls);
        }
      }
    }
  }

  // ---------------------------------------------------------------------------
  // flat

  /** One level of spreading: an array's elements, any other value by itself. */
  function Expand(v: Value): seq<Value>
  {
    if v.List? then v.elems else [v]
  }

  /** flat's callback: emit every element of an array item, or the item itself. */
  function FlatStep(): MapStep<Value, Value>
  {
    (v: Value, i: nat) => Returned(None, Expand(v), false)
  }

  /**
    flat(source) = map(source, spread): the elements of array items one level deep and every
    other item as is, in order; it reads its whole source and ends as the source did.
   */
  function Flat(src: Stream<Value>): (r: Run<Value>)
    ensures r == Run(Stream(Flatten(Apply(src.items, Expand)), src.end), |src.items|)
  {
    var t := MapTraceOf(src, FlatStep(), None);
    MapCallInputs(src, FlatStep(), None);
    assert forall j :: 0 <= j < |t.calls| ==> t.calls[j] == Returned(None, Expand(src.items[j]), false);
    assert AllReturned(t.calls);
    assert !DoneCalled(t.calls);
    MapWithoutThrows(src, FlatStep(), None);
    EmissionsPointwise(t.calls, Apply(src.items, Expand));
    Map(src, FlatStep(), None)
  }

  lemma {:induction false} EmissionsPointwise<U>(calls: seq<Outcome<U>>, parts: seq<seq<U>>)
    requires |calls| == |parts|
    requires forall j :: 0 <= j < |calls| ==> calls[j].emitted == parts[j]
    ensures Emissions(calls) == Flatten(parts)
    decreases |calls|
  {
    if |calls| > 0 {
      EmissionsPointwise(calls[1..], parts[1..]);
    }
  }

  // ---------------------------------------------------------------------------
  // Callbacks that may throw, settled by an error map

  /** A callback result that either succeeded or whose error the policy recovered from. */
  predicate Settled<T, R, U>(r: Try<R>, x: T, policy: Option<ErrorMap<T, U>>)
  {
    r.Ok? || Handle(policy, r.err, x).Recovered?
  }

  // ---------------------------------------------------------------------------
  // filter

  /** filter's predicate `fn(val, index)`; its result is read for truthiness. */
  type Predicate<!T> = (T, nat) -> Try<bool>

  /**
    The loop of `filter`. Without an error map the first throw propagates; with one, the
    handler's non-`undefined` value replaces the item. Only a call that did not throw advances
    the index.
   */
  function FilterLoop<T>(items: seq<T>, end: End, index: nat, pred: Predicate<T>,
                         policy: Option<ErrorMap<T, T>>): (r: Stream<T>)
    ensures |r.items| <= |items|
    ensures r.end == end || r.end.Failed?
    decreases |items|
  {
    if |items| == 0 then Stream([], end)
    else
      var x := items[0];
      match pred(x, index)
      case Ok(keep) =>
        var rest := FilterLoop(items[1..], end, index + 1, pred, policy);
        Stream((if keep then [x] else []) + rest.items, rest.end)
      case Thrown(err) =>
        match Handle(policy, err, x)
        case Rethrown(e) => Stream([], Failed(e))
        case Recovered(v) =>
          var rest := FilterLoop(items[1..], end, index, pred, policy);
          Stream(OptSeq(v) + rest.items, rest.end)
  }

  /**
    filter(source, fn, errorMap): never more items than its source. When the predicate never
    throws, exactly the items for which it holds at their position, ending as the source did.
   */
  function Filter<T>(src: Stream<T>, pred: Predicate<T>, policy: Option<ErrorMap<T, T>>): (r: Stream<T>)
    ensures |r.items| <= |src.items|
    ensures (forall j :: 0 <= j < |src.items| ==> pred(src.items[j], j).Ok?) ==>
              r == Stream(Selected(src.items, 0, pred), src.end)
  {
    if forall j :: 0 <= j < |src.items| ==> pred(src.items[j], j).Ok? then
      FilterSelects(src.items, src.end, 0, pred, policy);
      FilterLoop(src.items, src.end, 0, pred, policy)
    else
      FilterLoop(src.items, src.end, 0, pred, policy)
  }

  /** Pairs each element with its index, counted from `from`. */
  function Enumerate<T>(s: seq<T>, from: nat): (r: seq<(T, nat)>)
    ensures |r| == |s|
    ensures forall j :: 0 <= j < |s| ==> r[j] == (s[j], from + j)
  {
    seq(|s|, j requires 0 <= j < |s| => (s[j], from + j))
  }

  function Firsts<T>(ps: seq<(T, nat)>): (r: seq<T>)
    ensures |r| == |ps|
    ensures forall j :: 0 <= j < |ps| ==> r[j] == ps[j].0
  {
    seq(|ps|, j requires 0 <= j < |ps| => ps[j].0)
  }

  /** The elements at whose position, counted from `from`, the predicate holds. */
  function Selected<T>(s: seq<T>, from: nat, pred: Predicate<T>): seq<T>
  {
    Firsts(Where(Enumerate(s, from), (e: (T, nat)) => pred(e.0, e.1) == Ok(true)))
  }

  lemma SelectedCons<T>(s: seq<T>, from: nat, pred: Predicate<T>)
    requires |s| > 0
    ensures Selected(s, from, pred) == (if pred(s[0], from) == Ok(true) then [s[0]] else []) + Selected(s[1..], from + 1, pred)
  {
    var p := (e: (T, nat)) => pred(e.0, e.1) == Ok(true);
    var en := Enumerate(s, from);
    assert en == [(s[0], from)] + Enumerate(s[1..], from + 1);
    WhereAppend([(s[0], from)], Enumerate(s[1..], from + 1), p);
    var head := Where([(s[0], from)], p);
    var tail := Where(Enumerate(s[1..], from + 1), p);
    assert Firsts(head + tail) == Firsts(head) + Firsts(tail);
  }

  /**
    When the predicate never throws, filter yields exactly the in-order subsequence of items
    for which it holds at the item's position, and ends as its source did.
   */
  lemma {:induction false} FilterSelects<T>(items: seq<T>, end: End, index: nat, pred: Predicate<T>,
                                            policy: Option<ErrorMap<T, T>>)
    requires forall j :: 0 <= j < |items| ==> pred(items[j], index + j).Ok?
    ensures FilterLoop(items, end, index, pred, policy) == Stream(Selected(items, index, pred), end)
    decreases |items|
  {
    if |items| > 0 {
      assert pred(items[0], index + 0).Ok?;
      assert forall j :: 0 <= j < |items[1..]| ==> items[1..][j] == items[j + 1];
      FilterSelects(items[1..], end, index + 1, pred, policy);
      SelectedCons(items, index, pred);
    }
  }

  /** What filter makes of one item under an index-free predicate whose errors are settled. */
  function Verdict<T>(p: T -> Try<bool>, policy: Option<ErrorMap<T, T>>, x: T): seq<T>
  {
    match p(x)
    case Ok(keep) => if keep then [x] else []
    case Thrown(err) =>
      match Handle(policy, err, x)
      case Recovered(v) => OptSeq(v)
      case Rethrown(_) => []
  }

  /**
    With a predicate that ignores the index and whose every error is recovered, filter acts on
    each item independently: a kept item is yielded, a failing item is replaced by its
    handler's value unless that is `undefined`.
   */
  lemma {:induction false} FilterPerItem<T>(items: seq<T>, end: End, index: nat, p: T -> Try<bool>,
                                            policy: Option<ErrorMap<T, T>>)
    requires forall j :: 0 <= j < |items| ==> Settled(p(items[j]), items[j], policy)
    ensures FilterLoop(items, end, index, (x: T, i: nat) => p(x), policy)
              == Stream(Flatten(Apply(items, x => Verdict(p, policy, x))), end)
    decreases |items|
  {
    if |items| > 0 {
      var pred := (x: T, i: nat) => p(x);
      assert Settled(p(items[0]), items[0], policy);
      assert forall j :: 0 <= j < |items[1..]| ==> items[1..][j] == items[j + 1];
      FilterPerItem(items[1..], end, index, p, policy);
      FilterPerItem(items[1..], end, index + 1, p, policy);
      ApplyCons(items, x => Verdict(p, policy, x));
    }
  }

  // ---------------------------------------------------------------------------
  // tap

  /**
    The loop of `tap`: every item is passed through after `fn` has seen it; a throw that the
    policy does not recover ends the run before that item is yielded.
   */
  function TapLoop<T, U>(items: seq<T>, end: End, fn: T -> Try<U>, policy: Option<ErrorMap<T, U>>): (r: Run<T>)
    ensures |r.out.items| <= r.pulled <= |items|
    ensures r.out.items == items[..|r.out.items|]
    ensures forall j :: 0 <= j < |r.out.items| ==> Settled(fn(items[j]), items[j], policy)
    ensures |r.out.items| == |items| ==> r.out.end == end && r.pulled == |items|
    ensures |r.out.items| < |items| ==>
              var x := items[|r.out.items|];
              && !Settled(fn(x), x, policy)
              && r.out.end == Failed(Handle(policy, fn(x).err, x).err)
              && r.pulled == |r.out.items| + 1
    decreases |items|
  {
    if |items| == 0 then Run(Stream([], end), 0)
    else
      var x := items[0];
      if !Settled(fn(x), x, policy) then Run(Stream([], Failed(Handle(policy, fn(x).err, x).err)), 1)
      else
        var rest := TapLoop(items[1..], end, fn, policy);
        Run(Stream([x] + rest.out.items, rest.out.end), rest.pulled + 1)
  }

  /**
    tap(source, fn, errorMap): a prefix of its source, every yielded item settled by `fn`; the
    whole source, ending as it did, exactly when every item is settled.
   */
  function Tap<T, U>(src: Stream<T>, fn: T -> Try<U>, policy: Option<ErrorMap<T, U>>): (r: Run<T>)
    ensures |r.out.items| <= r.pulled <= |src.items|
    ensures r.out.items == src.items[..|r.out.items|]
    ensures forall j :: 0 <= j < |r.out.items| ==> Settled(fn(src.items[j]), src.items[j], policy)
    ensures |r.out.items| == |src.items| ==> r.out.end == src.end && r.pulled == |src.items|
    ensures |r.out.items| < |src.items| ==>
              !Settled(fn(src.items[|r.out.items|]), src.items[|r.out.items|], policy) && r.out.end.Failed?
  {
    TapLoop(src.items, src.end, fn, policy)
  }

  /** When every call of `fn` succeeds or is recovered, tap yields its source unchanged, calling `fn` once per item. */
  lemma TapPassesThrough<T, U>(src: Stream<T>, fn: T -> Try<U>, policy: Option<ErrorMap<T, U>>)
    requires forall j :: 0 <= j < |src.items| ==> Settled(fn(src.items[j]), src.items[j], policy)
    ensures Tap(src, fn, policy) == Run(src, |src.items|)
  {
    var r := Tap(src, fn, policy);
    assert |r.out.items| == |src.items|;
    assert r.out.items == src.items;
  }

  // ---------------------------------------------------------------------------
  // validate

  /** A validate run: its output, the items `errFn` was called on, and how many items were read. */
  datatype Validation<T> = Validation(out: Stream<T>, rejected: seq<T>, pulled: nat)

  /**
    The loop of `validate`: each item for which `fn` is falsy is first passed to `errFn`; every
    item is then yielded. A throw from either callback ends the run.
   */
  function ValidateLoop<T>(items: seq<T>, end: End, fn: T -> Try<bool>, errFn: T -> Try<()>): (r: Validation<T>)
    ensures |r.out.items| <= r.pulled <= |items|
    ensures r.out.items == items[..|r.out.items|]
    ensures r.rejected == Where(items[..r.pulled], x => fn(x) == Ok(false))
    ensures |r.out.items| == |items| ==> r.out.end == end && r.pulled == |items|
    ensures |r.out.items| < |items| ==>
              var x := items[|r.out.items|];
              && r.pulled == |r.out.items| + 1
              && ((fn(x).Thrown? && r.out.end == Failed(fn(x).err)) ||
                  (fn(x) == Ok(false) && errFn(x).Thrown? && r.out.end == Failed(errFn(x).err)))
    decreases |items|
  {
    if |items| == 0 then Validation(Stream([], end), [], 0)
    else
      var x := items[0];
      assert items[..1] == [x];
      match fn(x)
      case Thrown(e) => Validation(Stream([], Failed(e)), [], 1)
      case Ok(valid) =>
        if !valid && errFn(x).Thrown? then Validation(Stream([], Failed(errFn(x).err)), [x], 1)
        else
          var rest := ValidateLoop(items[1..], end, fn, errFn);
          PrefixCons(items, rest.pulled);
          WhereAppend([x], items[1..][..rest.pulled], y => fn(y) == Ok(false));
          Validation(Stream([x] + rest.out.items, rest.out.end), (if valid then [] else [x]) + rest.rejected, rest.pulled + 1)
  }

  /**
    validate(source, fn, errFn): a prefix of its source, with `errFn` called on exactly the
    items read that `fn` rejects; the whole source, ending as it did, unless a callback threw.
   */
  function Validate<T>(src: Stream<T>, fn: T -> Try<bool>, errFn: T -> Try<()>): (r: Validation<T>)
    ensures |r.out.items| <= r.pulled <= |src.items|
    ensures r.out.items == src.items[..|r.out.items|]
    ensures r.rejected == Where(src.items[..r.pulled], x => fn(x) == Ok(false))
    ensures |r.out.items| == |src.items| ==> r.out.end == src.end && r.pulled == |src.items|
    ensures |r.out.items| < |src.items| ==>
              var x := src.items[|r.out.items|];
              && r.pulled == |r.out.items| + 1
              && ((fn(x).Thrown? && r.out.end == Failed(fn(x).err)) ||
                  (fn(x) == Ok(false) && errFn(x).Thrown? && r.out.end == Failed(errFn(x).err)))
  {
    ValidateLoop(src.items, src.end, fn, errFn)
  }

  /**
    When neither callback throws, validate yields its source unchanged and calls `errFn`
    exactly on the items `fn` rejects, in order.
   */
  lemma ValidatePassesThrough<T>(src: Stream<T>, fn: T -> Try<bool>, errFn: T -> Try<()>)
    requires forall j :: 0 <= j < |src.items| ==> fn(src.items[j]).Ok? && errFn(src.items[j]).Ok?
    ensures var r := Validate(src, fn, errFn);
      r.out == src && r.rejected == Where(src.items, x => fn(x) == Ok(false))
  {
    var r := Validate(src, fn, errFn);
    assert |r.out.items| == |src.items|;
    assert r.out.items == src.items;
    assert src.items[..r.pulled] == src.items;
  }

  // ---------------------------------------------------------------------------
  // unique and uniqueBy

  /** The keys of the elements of `s`. */
  function KeysOf<T, K(==)>(s: seq<T>, k: T -> K): set<K>
  {
    set j | 0 <= j < |s| :: k(s[j])
  }

  /** The in-order subsequence of first occurrences by key: an element is kept when no earlier one has its key. */
  function FirstBy<T, K(==)>(s: seq<T>, k: T -> K): seq<T>
    decreases |s|
  {
    if |s| == 0 then []
    else
      var p := s[..|s| - 1];
      FirstBy(p, k) + (if k(s[|s| - 1]) in KeysOf(p, k) then [] else [s[|s| - 1]])
  }

  /** The loop of `uniqueBy`; `seen` is the set of keys met so far. A throwing key function ends the run. */
  function UniqueByLoop<T, K(==)>(items: seq<T>, end: End, seen: set<K>, key: T -> Try<K>): (r: Stream<T>)
    ensures |r.items| <= |items|
    ensures r.end == end || r.end.Failed?
    ensures forall j :: 0 <= j < |r.items| ==> key(r.items[j]).Ok? && key(r.items[j]).value !in seen
    ensures forall i, j :: 0 <= i < j < |r.items| ==> key(r.items[i]) != key(r.items[j])
    decreases |items|
  {
    if |items| == 0 then Stream([], end)
    else
      match key(items[0])
      case Thrown(e) => Stream([], Failed(e))
      case Ok(k) =>
        var rest := UniqueByLoop(items[1..], end, seen + {k}, key);
        Stream((if k in seen then [] else [items[0]]) + rest.items, rest.end)
  }

  /** uniqueBy(source, fn): never two items with the same key, nor more items than the source. */
  function UniqueBy<T, K(==)>(src: Stream<T>, key: T -> Try<K>): (r: Stream<T>)
    ensures |r.items| <= |src.items|
    ensures r.end == src.end || r.end.Failed?
    ensures forall i, j :: 0 <= i < j < |r.items| ==> key(r.items[i]).Ok? && key(r.items[i]) != key(r.items[j])
  {
    UniqueByLoop(src.items, src.end, {}, key)
  }

  /** The loop of `unique`, over the set of items met so far. */
  function UniqueLoop<T(==)>(items: seq<T>, end: End, seen: set<T>): (r: Stream<T>)
    ensures |r.items| <= |items| && r.end == end
    ensures forall j :: 0 <= j < |r.items| ==> r.items[j] !in seen
    ensures forall i, j :: 0 <= i < j < |r.items| ==> r.items[i] != r.items[j]
    decreases |items|
  {
    if |items| == 0 then Stream([], end)
    else
      var rest := UniqueLoop(items[1..], end, seen + {items[0]});
      Stream((if items[0] in seen then [] else [items[0]]) + rest.items, rest.end)
  }

  /** unique(source): no item twice, never more items than the source, ending as it did. */
  function Unique<T(==)>(src: Stream<T>): (r: Stream<T>)
    ensures |r.items| <= |src.items| && r.end == src.end
    ensures forall i, j :: 0 <= i < j < |r.items| ==> r.items[i] != r.items[j]
  {
    UniqueLoop(src.items, src.end, {})
  }

  lemma KeysOfSnoc<T, K>(p: seq<T>, x: T, k: T -> K)
    ensures KeysOf(p + [x], k) == KeysOf(p, k) + {k(x)}
  {
    var q := p + [x];
    forall y | y in KeysOf(q, k)
      ensures y in KeysOf(p, k) + {k(x)}
    {
      var j :| 0 <= j < |q| && k(q[j]) == y;
      if j < |p| {
        assert q[j] == p[j];
      }
    }
    forall y | y in KeysOf(p, k)
      ensures y in KeysOf(q, k)
    {
      var j :| 0 <= j < |p| && k(p[j]) == y;
      assert q[j] == p[j];
    }
    assert k(q[|p|]) in KeysOf(q, k);
  }

  lemma FirstBySnoc<T, K>(p: seq<T>, x: T, k: T -> K)
    ensures FirstBy(p + [x], k) == FirstBy(p, k) + (if k(x) in KeysOf(p, k) then [] else [x])
  {
    var s := p + [x];
    assert s[..|s| - 1] == p && s[|s| - 1] == x;
  }

  lemma UniqueByLoopHead<T, K>(s: seq<T>, end: End, seen: set<K>, key: T -> Try<K>, kx: K)
    requires |s| > 0 && key(s[0]) == Ok(kx)
    ensures UniqueByLoop(s, end, seen, key).items
              == (if kx in seen then [] else [s[0]]) + UniqueByLoop(s[1..], end, seen + {kx}, key).items
    ensures UniqueByLoop(s, end, seen, key).end == UniqueByLoop(s[1..], end, seen + {kx}, key).end
  {
  }

  /** The loop after a consumed prefix `p` continues the first-occurrence list of `p`. */
  lemma {:induction false} UniqueByLoopExtends<T, K>(p: seq<T>, s: seq<T>, end: End, key: T -> Try<K>, k: T -> K)
    requires forall j :: 0 <= j < |s| ==> key(s[j]) == Ok(k(s[j]))
    ensures FirstBy(p, k) + UniqueByLoop(s, end, KeysOf(p, k), key).items == FirstBy(p + s, k)
    ensures UniqueByLoop(s, end, KeysOf(p, k), key).end == end
    decreases |s|
  {
    if |s| == 0 {
      assert p + s == p;
    } else {
      var x := s[0];
      assert key(x) == Ok(k(x));
      var p' := p + [x];
      KeysOfSnoc(p, x, k);
      FirstBySnoc(p, x, k);
      UniqueByLoopHead(s, end, KeysOf(p, k), key, k(x));
      assert forall j :: 0 <= j < |s[1..]| ==> s[1..][j] == s[j + 1];
      UniqueByLoopExtends(p', s[1..], end, key, k);
      assert [x] + s[1..] == s;
      AppendAssoc(p, [x], s[1..]);
      var h := if k(x) in KeysOf(p, k) then [] else [x];
      AppendAssoc(FirstBy(p, k), h, UniqueByLoop(s[1..], end, KeysOf(p', k), key).items);
    }
  }

  lemma {:induction false} FirstByMembers<T, K>(s: seq<T>, k: T -> K)
    ensures forall x :: x in FirstBy(s, k) ==> x in s
    decreases |s|
  {
    if |s| > 0 {
      var p := s[..|s| - 1];
      FirstByMembers(p, k);
      assert forall x :: x in p ==> x in s;
      assert s[|s| - 1] in s;
    }
  }

  lemma {:induction false} FirstByDistinct<T, K>(s: seq<T>, k: T -> K)
    ensures var r := FirstBy(s, k); forall i, j :: 0 <= i < j < |r| ==> k(r[i]) != k(r[j])
    decreases |s|
  {
    if |s| > 0 {
      var p := s[..|s| - 1];
      var x := s[|s| - 1];
      FirstByDistinct(p, k);
      FirstByMembers(p, k);
      var head := FirstBy(p, k);
      assert s == p + [x];
      FirstBySnoc(p, x, k);
      if k(x) !in KeysOf(p, k) {
        var r := head + [x];
        forall i, j | 0 <= i < j < |r|
          ensures k(r[i]) != k(r[j])
        {
          if j < |head| {
            assert r[i] == head[i] && r[j] == head[j];
          } else {
            assert r[i] == head[i] && head[i] in p;
            var m :| 0 <= m < |p| && p[m] == head[i];
            assert k(p[m]) in KeysOf(p, k);
          }
        }
      }
    }
  }

  /**
    When the key function never throws, uniqueBy yields exactly the in-order subsequence of
    items whose key no earlier item had, no two of them with the same key, and ends as its
    source did.
   */
  lemma UniqueByKeepsFirst<T, K>(src: Stream<T>, key: T -> Try<K>, k: T -> K)
    requires forall j :: 0 <= j < |src.items| ==> key(src.items[j]) == Ok(k(src.items[j]))
    ensures UniqueBy(src, key) == Stream(FirstBy(src.items, k), src.end)
    ensures var r := UniqueBy(src, key).items; forall i, j :: 0 <= i < j < |r| ==> k(r[i]) != k(r[j])
  {
    UniqueByLoopExtends([], src.items, src.end, key, k);
    assert KeysOf([], k) == {};
    assert [] + src.items == src.items;
    FirstByDistinct(src.items, k);
  }

  lemma {:induction false} UniqueLoopIsKeyed<T>(items: seq<T>, end: End, seen: set<T>)
    ensures UniqueLoop(items, end, seen) == UniqueByLoop(items, end, seen, (x: T) => Ok(x))
    decreases |items|
  {
    if |items| > 0 {
      UniqueLoopIsKeyed(items[1..], end, seen + {items[0]});
    }
  }

  /**
    unique is uniqueBy with the item as its own key: it yields the first occurrence of every
    item, in order, with no repeats.
   */
  lemma UniqueKeepsFirst<T>(src: Stream<T>)
    ensures Unique(src) == UniqueBy(src, (x: T) => Ok(x))
    ensures Unique(src) == Stream(FirstBy(src.items, (x: T) => x), src.end)
    ensures var r := Unique(src).items; forall i, j :: 0 <= i < j < |r| ==> r[i] != r[j]
  {
    UniqueLoopIsKeyed(src.items, src.end, {});
    UniqueByKeepsFirst(src, (x: T) => Ok(x), (x: T) => x);
  }
}
