/**
  The fold primitive `reduce` (src/transformers.ts): a reduce whose step may `emit` values
  downstream and call `done` to stop reading, with a finisher `onDone` run in explicit mode.

  A run is in implicit mode while no step has called `emit`; at the end an implicit run yields
  its final accumulator once. After the first `emit` the run is in explicit mode for good: it
  yields only emitted values, each item's emissions flushed before the next item is read, and
  then whatever the finisher emits.
 */
module Fold {
  import opened Streams
  import opened Errors

  /** The two emission modes of a run (the source's `isEmittingManually` flag). */
  datatype Mode = Implicit | Explicit

  /** Local state of one run: accumulator, index `i`, the `emittable` queue, mode, `aborted`. */
  datatype FoldState<U> = FoldState(acc: U, index: nat, queue: seq<U>, mode: Mode, aborted: bool)

  /** What the finisher did: the values it emitted, or the error it threw. */
  datatype FinisherOutcome<U> = Finished(emitted: seq<U>) | FinisherThrew(err: Error)

  /** A run together with its call log: the outcome of every step call, in call order. */
  datatype FoldTrace<U> = FoldTrace(out: Stream<U>, calls: seq<Outcome<U>>)

  /** The step `fn(acc, val, index, done, emit)` and the finisher `onDone(acc, emit)`. */
  type Step<!T, !U> = (U, T, nat) -> Outcome<U>
  type Finisher<!U> = U -> FinisherOutcome<U>

  /** The default finisher: it does nothing, so emits nothing. */
  function NoFinisher<U>(): Finisher<U>
  {
    _ => Finished([])
  }

  function Start<U>(init: U): FoldState<U>
  {
    FoldState(init, 0, [], Implicit, false)
  }

  /** Only an explicit-mode run has anything queued. */
  predicate Consistent<U>(st: FoldState<U>)
  {
    st.mode == Implicit ==> st.queue == []
  }

  /** Records one step call's emissions and `done` request. */
  function Absorb<U>(st: FoldState<U>, emitted: seq<U>, calledDone: bool): FoldState<U>
  {
    st.(queue := st.queue + emitted,
        mode := if emitted == [] then st.mode else Explicit,
        aborted := st.aborted || calledDone)
  }

  /** After the loop: the accumulator in implicit mode, else the finisher's emissions after the queue. */
  function Finish<U>(st: FoldState<U>, onDone: Finisher<U>): Stream<U>
  {
    match st.mode
    case Implicit => Stream([st.acc], Exhausted)
    case Explicit =>
      match onDone(st.acc)
      case Finished(em) => Stream(st.queue + em, Exhausted)
      case FinisherThrew(e) => Stream([], Failed(e))
  }

  /** The state after one step call on an item: emissions queued, and on a normal return the
      accumulator replaced (unless `undefined` was returned), the index advanced and the queue flushed. */
  function After<U>(st: FoldState<U>, o: Outcome<U>): FoldState<U>
  {
    var st1 := Absorb(st, o.emitted, o.calledDone);
    if o.Returned? then st1.(acc := Replace(st.acc, o), index := st.index + 1, queue := []) else st1
  }

  /** The loop goes on to the next item after call `o` on item `x`. */
  predicate Continues<T, U>(st: FoldState<U>, o: Outcome<U>, x: T, policy: Option<ErrorMap<T, T>>)
  {
    match o
    case Returned(_, _, _) => !After(st, o).aborted
    case Threw(err, _, _) => Handle(policy, err, x).Recovered?
  }

  /** What call `o` flushes downstream: the whole queue when it returned, nothing when it threw. */
  function Flush<U>(st: FoldState<U>, o: Outcome<U>): seq<U>
  {
    if o.Returned? then st.queue + o.emitted else []
  }

  /** The `for await` loop of `reduce` over the items still to be pulled. */
  function Loop<T, U>(items: seq<T>, end: End, st: FoldState<U>, step: Step<T, U>,
                      policy: Option<ErrorMap<T, T>>, onDone: Finisher<U>): (r: FoldTrace<U>)
    ensures |r.calls| <= |items|
    decreases |items|
  {
    if |items| == 0 then
      match end
      case Exhausted => FoldTrace(Finish(st, onDone), [])
      case Failed(e) => FoldTrace(Stream([], Failed(e)), [])
    else
      var x := items[0];
      var o := step(st.acc, x, st.index);
      var rest :=
        if Continues(st, o, x, policy) then Loop(items[1..], end, After(st, o), step, policy, onDone)
        else match o
          // `done` was called: break out of the loop and finish
          case Returned(_, _, _) => FoldTrace(Finish(After(st, o), onDone), [])
          // the handler threw: the run fails
          case Threw(err, _, _) => FoldTrace(Stream([], Failed(Handle(policy, err, x).err)), []);
      FoldTrace(Stream(Flush(st, o) + rest.out.items, rest.out.end), [o] + rest.calls)
  }

  /** reduce(source, fn, initialValue, errorMap, onDone) with its call log. */
  function ReduceTrace<T, U>(src: Stream<T>, step: Step<T, U>, init: U,
                             policy: Option<ErrorMap<T, T>>, onDone: Finisher<U>): FoldTrace<U>
  {
    Loop(src.items, src.end, Start(init), step, policy, onDone)
  }

  /** reduce(source, fn, initialValue, errorMap, onDone); one step call per pulled item. */
  function Reduce<T, U>(src: Stream<T>, step: Step<T, U>, init: U,
                        policy: Option<ErrorMap<T, T>>, onDone: Finisher<U>): (r: Run<U>)
    ensures r.pulled <= |src.items|
  {
    var t := ReduceTrace(src, step, init, policy, onDone);
    Run(t.out, |t.calls|)
  }

  // ---------------------------------------------------------------------------
  // Reading a call log

  /** The accumulator a call replaces `acc` with: its return value unless it was `undefined` or it threw. */
  function Replace<U>(acc: U, o: Outcome<U>): U
  {
    if o.Returned? && o.ret.Some? then o.ret.value else acc
  }

  /** The accumulator after the calls of a log, starting from `acc`. */
  function AccAfter<U>(acc: U, calls: seq<Outcome<U>>): U
  {
    if |calls| == 0 then acc else AccAfter(Replace(acc, calls[0]), calls[1..])
  }

  /** What is still queued after the calls, starting with queue `q`: each returning call flushes the queue. */
  function Unflushed<U>(q: seq<U>, calls: seq<Outcome<U>>): seq<U>
    decreases |calls|
  {
    if |calls| == 0 then q
    else Unflushed(if calls[0].Returned? then [] else q + calls[0].emitted, calls[1..])
  }

  // ---------------------------------------------------------------------------
  // Properties of the loop, from an arbitrary state

  /** One unfolding of the loop on a non-empty input whose first call lets the loop go on. */
  lemma LoopHeadContinues<T, U>(items: seq<T>, end: End, st: FoldState<U>, step: Step<T, U>,
                                policy: Option<ErrorMap<T, T>>, onDone: Finisher<U>)
    requires |items| > 0
    requires Continues(st, step(st.acc, items[0], st.index), items[0], policy)
    ensures var t := Loop(items, end, st, step, policy, onDone);
      var o := step(st.acc, items[0], st.index);
      var rest := Loop(items[1..], end, After(st, o), step, policy, onDone);
      && t.calls == [o] + rest.calls && t.calls[0] == o && t.calls[1..] == rest.calls
      && t.out == Stream(Flush(st, o) + rest.out.items, rest.out.end)
  {
  }

  /** One unfolding of the loop on a non-empty input whose first call ends the loop. */
  lemma LoopHeadStops<T, U>(items: seq<T>, end: End, st: FoldState<U>, step: Step<T, U>,
                            policy: Option<ErrorMap<T, T>>, onDone: Finisher<U>)
    requires |items| > 0
    requires !Continues(st, step(st.acc, items[0], st.index), items[0], policy)
    ensures var t := Loop(items, end, st, step, policy, onDone);
      var o := step(st.acc, items[0], st.index);
      && t.calls == [o]
      && (o.Returned? ==>
            t.out == Stream(Flush(st, o) + Finish(After(st, o), onDone).items, Finish(After(st, o), onDone).end))
      && (o.Threw? ==> t.out == Stream([], Failed(Handle(policy, o.err, items[0]).err)))
  {
  }

  /** The inputs of the calls of a log, read through `After` one call at a time. */
  ghost predicate CallInputs<T, U>(calls: seq<Outcome<U>>, items: seq<T>, st: FoldState<U>, step: Step<T, U>)
    requires |calls| <= |items|
  {
    forall j :: 0 <= j < |calls| ==>
      calls[j] == step(AccAfter(st.acc, calls[..j]), items[j], st.index + Successes(calls[..j]))
  }

  /** Call `j` of a log with head `o` sees, for `j > 0`, what call `j - 1` of its tail sees from the state after `o`. */
  lemma CallInputAt<T, U>(o: Outcome<U>, rest: seq<Outcome<U>>, items: seq<T>, st: FoldState<U>, step: Step<T, U>, j: nat)
    requires 0 < |items| && |rest| < |items| && j <= |rest|
    requires o == step(st.acc, items[0], st.index)
    requires CallInputs(rest, items[1..], After(st, o), step)
    ensures ([o] + rest)[j] == step(AccAfter(st.acc, ([o] + rest)[..j]), items[j], st.index + Successes(([o] + rest)[..j]))
  {
    var pre := ([o] + rest)[..j];
    if j == 0 {
      assert pre == [];
    } else {
      var k := j - 1;
      assert rest[k] == step(AccAfter(After(st, o).acc, rest[..k]), items[1..][k], After(st, o).index + Successes(rest[..k]));
      assert pre[0] == o && pre[1..] == rest[..k];
      assert AccAfter(st.acc, pre) == AccAfter(After(st, o).acc, rest[..k]);
      assert st.index + Successes(pre) == After(st, o).index + Successes(rest[..k]);
    }
  }

  lemma CallInputsCons<T, U>(o: Outcome<U>, rest: seq<Outcome<U>>, items: seq<T>, st: FoldState<U>, step: Step<T, U>)
    requires 0 < |items| && |rest| < |items|
    requires o == step(st.acc, items[0], st.index)
    requires CallInputs(rest, items[1..], After(st, o), step)
    ensures CallInputs([o] + rest, items, st, step)
  {
    forall j | 0 <= j < |[o] + rest|
      ensures ([o] + rest)[j] == step(AccAfter(st.acc, ([o] + rest)[..j]), items[j], st.index + Successes(([o] + rest)[..j]))
    {
      CallInputAt(o, rest, items, st, step, j);
    }
  }

  /** Each call sees the accumulator left by the earlier calls and the count of earlier successful calls. */
  lemma {:induction false} LoopCallInputs<T, U>(items: seq<T>, end: End, st: FoldState<U>, step: Step<T, U>,
                                                policy: Option<ErrorMap<T, T>>, onDone: Finisher<U>)
    ensures CallInputs(Loop(items, end, st, step, policy, onDone).calls, items, st, step)
    decreases |items|
  {
    if |items| > 0 {
      var o := step(st.acc, items[0], st.index);
      if Continues(st, o, items[0], policy) {
        LoopHeadContinues(items, end, st, step, policy, onDone);
        LoopCallInputs(items[1..], end, After(st, o), step, policy, onDone);
        CallInputsCons(o, Loop(items[1..], end, After(st, o), step, policy, onDone).calls, items, st, step);
      } else {
        LoopHeadStops(items, end, st, step, policy, onDone);
        CallInputsCons(o, [], items, st, step);
      }
    }
  }

  /** After a call has asked to stop, the first call that returns normally is the last one. */
  lemma {:induction false} LoopStopsAfterDone<T, U>(items: seq<T>, end: End, st: FoldState<U>, step: Step<T, U>,
                                                    policy: Option<ErrorMap<T, T>>, onDone: Finisher<U>)
    ensures var t := Loop(items, end, st, step, policy, onDone);
      && (st.aborted ==> forall j :: 0 <= j < |t.calls| - 1 ==> !t.calls[j].Returned?)
      && (forall i, j :: 0 <= i <= j < |t.calls| - 1 ==> !(t.calls[i].calledDone && t.calls[j].Returned?))
    decreases |items|
  {
    var t := Loop(items, end, st, step, policy, onDone);
    if |items| > 0 {
      var o := step(st.acc, items[0], st.index);
      if Continues(st, o, items[0], policy) {
        LoopHeadContinues(items, end, st, step, policy, onDone);
        var st' := After(st, o);
        var rest := Loop(items[1..], end, st', step, policy, onDone);
        LoopStopsAfterDone(items[1..], end, st', step, policy, onDone);
        forall j | 0 <= j < |t.calls| - 1 && st.aborted
          ensures !t.calls[j].Returned?
        {
          if j > 0 {
            assert t.calls[j] == rest.calls[j-1];
          }
        }
        forall i, j | 0 <= i <= j < |t.calls| - 1
          ensures !(t.calls[i].calledDone && t.calls[j].Returned?)
        {
          if i == 0 && o.calledDone && 0 < j {
            assert st'.aborted;
            assert t.calls[j] == rest.calls[j-1];
          } else if 0 < i {
            assert t.calls[i] == rest.calls[i-1] && t.calls[j] == rest.calls[j-1];
          }
        }
      } else {
        LoopHeadStops(items, end, st, step, policy, onDone);
      }
    }
  }

  /** Every item is read unless a call asked to stop or the run failed. */
  lemma {:induction false} LoopReadsAll<T, U>(items: seq<T>, end: End, st: FoldState<U>, step: Step<T, U>,
                                              policy: Option<ErrorMap<T, T>>, onDone: Finisher<U>)
    requires !st.aborted
    ensures var t := Loop(items, end, st, step, policy, onDone);
      |t.calls| == |items| || t.out.end.Failed? || DoneCalled(t.calls)
    decreases |items|
  {
    var t := Loop(items, end, st, step, policy, onDone);
    if |items| > 0 {
      var o := step(st.acc, items[0], st.index);
      if !Continues(st, o, items[0], policy) {
        LoopHeadStops(items, end, st, step, policy, onDone);
        assert t.calls[0] == o;
      } else if o.calledDone {
        LoopHeadContinues(items, end, st, step, policy, onDone);
        assert t.calls[0].calledDone;
      } else {
        LoopHeadContinues(items, end, st, step, policy, onDone);
        var st' := After(st, o);
        LoopReadsAll(items[1..], end, st', step, policy, onDone);
        var rest := Loop(items[1..], end, st', step, policy, onDone);
        if DoneCalled(rest.calls) {
          var i :| 0 <= i < |rest.calls| && rest.calls[i].calledDone;
          assert t.calls[i + 1] == rest.calls[i];
        }
      }
    }
  }

  /** How the log readers unfold over a log whose first call is `o`. */
  lemma LogCons<U>(o: Outcome<U>, rest: seq<Outcome<U>>, st: FoldState<U>)
    ensures Emissions([o] + rest) == o.emitted + Emissions(rest)
    ensures AccAfter(st.acc, [o] + rest) == AccAfter(After(st, o).acc, rest)
    ensures Unflushed(st.queue, [o] + rest) == Unflushed(After(st, o).queue, rest)
  {
    assert ([o] + rest)[0] == o && ([o] + rest)[1..] == rest;
  }

  /** Implicit mode: a completed run without emissions yields its final accumulator. */
  ghost predicate ImplicitLaw<U>(out: Stream<U>, calls: seq<Outcome<U>>, st: FoldState<U>)
  {
    out.end.Exhausted? && st.mode == Implicit && Emissions(calls) == [] ==>
      out.items == [AccAfter(st.acc, calls)]
  }

  /** Explicit mode: a completed run yields the queue, every emission, then the finisher's emissions. */
  ghost predicate ExplicitLaw<U>(out: Stream<U>, calls: seq<Outcome<U>>, st: FoldState<U>, onDone: Finisher<U>)
  {
    var accF := AccAfter(st.acc, calls);
    out.end.Exhausted? && !(st.mode == Implicit && Emissions(calls) == []) ==>
      onDone(accF).Finished? && out.items == st.queue + Emissions(calls) + onDone(accF).emitted
  }

  /** A failed run has yielded the queue and every emission except those still unflushed. */
  ghost predicate FailedLaw<U>(out: Stream<U>, calls: seq<Outcome<U>>, st: FoldState<U>)
  {
    out.end.Failed? ==> out.items + Unflushed(st.queue, calls) == st.queue + Emissions(calls)
  }

  /** The output of a run from state `st`, read off its call log. */
  ghost predicate OutputLaw<U>(out: Stream<U>, calls: seq<Outcome<U>>, st: FoldState<U>, onDone: Finisher<U>)
  {
    ImplicitLaw(out, calls, st) && ExplicitLaw(out, calls, st, onDone) && FailedLaw(out, calls, st)
  }

  lemma ImplicitLawCons<U>(o: Outcome<U>, rest: FoldTrace<U>, st: FoldState<U>)
    requires Consistent(st)
    requires ImplicitLaw(rest.out, rest.calls, After(st, o))
    ensures ImplicitLaw(Stream(Flush(st, o) + rest.out.items, rest.out.end), [o] + rest.calls, st)
  {
    LogCons(o, rest.calls, st);
  }

  lemma ExplicitLawCons<U>(o: Outcome<U>, rest: FoldTrace<U>, st: FoldState<U>, onDone: Finisher<U>)
    requires Consistent(st)
    requires ImplicitLaw(rest.out, rest.calls, After(st, o))
    requires ExplicitLaw(rest.out, rest.calls, After(st, o), onDone)
    ensures ExplicitLaw(Stream(Flush(st, o) + rest.out.items, rest.out.end), [o] + rest.calls, st, onDone)
  {
    LogCons(o, rest.calls, st);
    var st' := After(st, o);
    var accF := AccAfter(st'.acc, rest.calls);
    if rest.out.end.Exhausted? && !(st.mode == Implicit && Emissions([o] + rest.calls) == []) {
      if st'.mode == Implicit && Emissions(rest.calls) == [] {
        // only possible when `st` was already explicit, with an empty queue flushed by `o`
        assert false;
      }
      assert rest.out.items == st'.queue + Emissions(rest.calls) + onDone(accF).emitted;
      if o.Returned? {
        assert Flush(st, o) + rest.out.items == st.queue + (o.emitted + Emissions(rest.calls)) + onDone(accF).emitted;
      } else {
        assert Flush(st, o) + rest.out.items == st.queue + (o.emitted + Emissions(rest.calls)) + onDone(accF).emitted;
      }
    }
  }

  lemma FailedLawCons<U>(o: Outcome<U>, rest: FoldTrace<U>, st: FoldState<U>)
    requires FailedLaw(rest.out, rest.calls, After(st, o))
    ensures FailedLaw(Stream(Flush(st, o) + rest.out.items, rest.out.end), [o] + rest.calls, st)
  {
    LogCons(o, rest.calls, st);
    if rest.out.end.Failed? {
      var u := Unflushed(After(st, o).queue, rest.calls);
      if o.Returned? {
        assert After(st, o).queue == [] && Flush(st, o) == st.queue + o.emitted;
        assert rest.out.items + u == Emissions(rest.calls);
        assert Flush(st, o) + rest.out.items + u == st.queue + o.emitted + (rest.out.items + u);
      } else {
        assert After(st, o).queue == st.queue + o.emitted && Flush(st, o) == [];
        assert Flush(st, o) + rest.out.items + u == st.queue + o.emitted + Emissions(rest.calls);
      }
    }
  }

  lemma OutputLawLast<U>(o: Outcome<U>, out: Stream<U>, st: FoldState<U>, onDone: Finisher<U>)
    requires Consistent(st)
    requires o.Returned? ==> out == Stream(Flush(st, o) + Finish(After(st, o), onDone).items, Finish(After(st, o), onDone).end)
    requires o.Threw? ==> out.items == [] && out.end.Failed?
    ensures OutputLaw(out, [o], st, onDone)
  {
    LogCons(o, [], st);
    assert [o] + [] == [o];
  }

  lemma {:induction false} LoopOutput<T, U>(items: seq<T>, end: End, st: FoldState<U>, step: Step<T, U>,
                                            policy: Option<ErrorMap<T, T>>, onDone: Finisher<U>)
    requires Consistent(st)
    ensures var t := Loop(items, end, st, step, policy, onDone); OutputLaw(t.out, t.calls, st, onDone)
    decreases |items|
  {
    if |items| > 0 {
      var o := step(st.acc, items[0], st.index);
      if Continues(st, o, items[0], policy) {
        LoopHeadContinues(items, end, st, step, policy, onDone);
        LoopOutput(items[1..], end, After(st, o), step, policy, onDone);
        var rest := Loop(items[1..], end, After(st, o), step, policy, onDone);
        ImplicitLawCons(o, rest, st);
        ExplicitLawCons(o, rest, st, onDone);
        FailedLawCons(o, rest, st);
      } else {
        LoopHeadStops(items, end, st, step, policy, onDone);
        OutputLawLast(o, Loop(items, end, st, step, policy, onDone).out, st, onDone);
      }
    }
  }

  /** The call log, and therefore an implicit-mode output, does not depend on the finisher. */
  lemma {:induction false} LoopFinisherIrrelevant<T, U>(items: seq<T>, end: End, st: FoldState<U>, step: Step<T, U>,
                                                        policy: Option<ErrorMap<T, T>>, f: Finisher<U>, g: Finisher<U>)
    ensures Loop(items, end, st, step, policy, f).calls == Loop(items, end, st, step, policy, g).calls
    ensures st.mode == Implicit && Emissions(Loop(items, end, st, step, policy, f).calls) == [] ==>
              Loop(items, end, st, step, policy, f).out == Loop(items, end, st, step, policy, g).out
    decreases |items|
  {
    if |items| > 0 {
      var o := step(st.acc, items[0], st.index);
      var st' := After(st, o);
      var t := Loop(items, end, st, step, policy, f);
      if Continues(st, o, items[0], policy) {
        LoopHeadContinues(items, end, st, step, policy, f);
        LoopHeadContinues(items, end, st, step, policy, g);
        LoopFinisherIrrelevant(items[1..], end, st', step, policy, f, g);
        assert Emissions(t.calls) == o.emitted + Emissions(t.calls[1..]);
      } else {
        LoopHeadStops(items, end, st, step, policy, f);
        LoopHeadStops(items, end, st, step, policy, g);
        assert Emissions(t.calls) == o.emitted;
      }
    }
  }

  // ---------------------------------------------------------------------------
  // Properties of a whole run

  /**
    Each step call receives the accumulator left by the earlier calls (a throwing call or one
    returning `undefined` leaves it unchanged) and the index counting the earlier calls that
    returned (a throwing call does not advance it), for the item at its position.
   */
  lemma ReduceStepInputs<T, U>(src: Stream<T>, step: Step<T, U>, init: U,
                               policy: Option<ErrorMap<T, T>>, onDone: Finisher<U>)
    ensures var t := ReduceTrace(src, step, init, policy, onDone);
      && |t.calls| <= |src.items|
      && forall j :: 0 <= j < |t.calls| ==>
           t.calls[j] == step(AccAfter(init, t.calls[..j]), src.items[j], Successes(t.calls[..j]))
  {
    LoopCallInputs(src.items, src.end, Start(init), step, policy, onDone);
    var t := ReduceTrace(src, step, init, policy, onDone);
    assert CallInputs(t.calls, src.items, Start(init), step);
  }

  /**
    After a step calls `done`, no item past the next normally returning call is read; without
    a `done` call or a failure every item is read.
   */
  lemma ReduceAbort<T, U>(src: Stream<T>, step: Step<T, U>, init: U,
                          policy: Option<ErrorMap<T, T>>, onDone: Finisher<U>)
    ensures var t := ReduceTrace(src, step, init, policy, onDone);
      && (forall i, j :: 0 <= i <= j < |t.calls| - 1 ==> !(t.calls[i].calledDone && t.calls[j].Returned?))
      && (|t.calls| == |src.items| || t.out.end.Failed? || DoneCalled(t.calls))
  {
    LoopStopsAfterDone(src.items, src.end, Start(init), step, policy, onDone);
    LoopReadsAll(src.items, src.end, Start(init), step, policy, onDone);
  }

  /**
    Implicit mode: when no step call emitted, a completed run yields exactly one item, the final
    accumulator, and the finisher plays no part.
   */
  lemma ReduceImplicitMode<T, U>(src: Stream<T>, step: Step<T, U>, init: U,
                                 policy: Option<ErrorMap<T, T>>, onDone: Finisher<U>, other: Finisher<U>)
    ensures var t := ReduceTrace(src, step, init, policy, onDone);
      Emissions(t.calls) == [] ==>
        && (t.out.end.Exhausted? ==> t.out.items == [AccAfter(init, t.calls)])
        && (t.out.end.Failed? ==> t.out.items == [])
        && ReduceTrace(src, step, init, policy, other) == t
  {
    var t := ReduceTrace(src, step, init, policy, onDone);
    LoopOutput(src.items, src.end, Start(init), step, policy, onDone);
    LoopFinisherIrrelevant(src.items, src.end, Start(init), step, policy, onDone, other);
    if Emissions(t.calls) == [] && t.out.end.Failed? {
      assert |t.out.items + Unflushed([], t.calls)| == 0;
    }
  }

  /**
    Explicit mode: once some step call emitted, a completed run yields exactly the emitted
    values in call order followed by the finisher's emissions; the accumulator is never yielded
    by itself. A failed run has yielded a prefix of the emitted values: all of them except
    those emitted by the throwing calls since the last call that returned.
   */
  lemma ReduceExplicitMode<T, U>(src: Stream<T>, step: Step<T, U>, init: U,
                                 policy: Option<ErrorMap<T, T>>, onDone: Finisher<U>)
    ensures var t := ReduceTrace(src, step, init, policy, onDone);
      var accF := AccAfter(init, t.calls);
      && (t.out.end.Exhausted? && Emissions(t.calls) != [] ==>
            onDone(accF).Finished? && t.out.items == Emissions(t.calls) + onDone(accF).emitted)
      && (t.out.end.Failed? ==> t.out.items + Unflushed([], t.calls) == Emissions(t.calls))
  {
    var st := Start(init);
    LoopOutput(src.items, src.end, st, step, policy, onDone);
    var t := ReduceTrace(src, step, init, policy, onDone);
    assert ExplicitLaw(t.out, t.calls, st, onDone) && FailedLaw(t.out, t.calls, st);
    assert st.queue == [] && st.mode == Implicit && st.acc == init;
    assert [] + Emissions(t.calls) == Emissions(t.calls);
  }

  /** With an exhausted source, handlers that recover and a finisher that does not throw, the run completes. */
  lemma {:induction false} LoopCompletes<T, U>(items: seq<T>, st: FoldState<U>, step: Step<T, U>,
                                               policy: Option<ErrorMap<T, T>>, onDone: Finisher<U>)
    requires forall e, x :: Handle(policy, e, x).Recovered?
    requires forall a :: onDone(a).Finished?
    ensures Loop(items, Exhausted, st, step, policy, onDone).out.end == Exhausted
    decreases |items|
  {
    if |items| > 0 {
      var o := step(st.acc, items[0], st.index);
      if Continues(st, o, items[0], policy) {
        LoopHeadContinues(items, Exhausted, st, step, policy, onDone);
        LoopCompletes(items[1..], After(st, o), step, policy, onDone);
      } else {
        LoopHeadStops(items, Exhausted, st, step, policy, onDone);
        assert onDone(After(st, o).acc).Finished?;
      }
    } else {
      assert onDone(st.acc).Finished?;
    }
  }

  /** Two steps that agree on the items of the source give the same run. */
  lemma {:induction false} LoopCongruent<T, U>(items: seq<T>, end: End, st: FoldState<U>, step: Step<T, U>, other: Step<T, U>,
                                               policy: Option<ErrorMap<T, T>>, onDone: Finisher<U>)
    requires forall a, j, i :: 0 <= j < |items| ==> step(a, items[j], i) == other(a, items[j], i)
    ensures Loop(items, end, st, step, policy, onDone) == Loop(items, end, st, other, policy, onDone)
    decreases |items|
  {
    if |items| > 0 {
      var o := step(st.acc, items[0], st.index);
      assert o == other(st.acc, items[0], st.index);
      if Continues(st, o, items[0], policy) {
        assert forall j :: 0 <= j < |items[1..]| ==> items[1..][j] == items[j + 1];
        LoopCongruent(items[1..], end, After(st, o), step, other, policy, onDone);
        LoopHeadContinues(items, end, st, step, policy, onDone);
        LoopHeadContinues(items, end, st, other, policy, onDone);
      } else {
        LoopHeadStops(items, end, st, step, policy, onDone);
        LoopHeadStops(items, end, st, other, policy, onDone);
      }
    }
  }

  // ---------------------------------------------------------------------------
  // Plain reducers

  /** A step that neither emits nor stops nor throws: it returns `f(acc, val)`. */
  function Plain<T, U>(f: (U, T) -> U): Step<T, U>
  {
    (acc: U, x: T, i: nat) => Returned(Some(f(acc, x)), [], false)
  }

  /** Left fold of `f` over `s` from `a`. */
  function FoldLeft<T, U>(f: (U, T) -> U, a: U, s: seq<T>): U
    decreases |s|
  {
    if |s| == 0 then a else FoldLeft(f, f(a, s[0]), s[1..])
  }

  lemma {:induction false} LoopPlain<T, U>(items: seq<T>, end: End, st: FoldState<U>, f: (U, T) -> U,
                                           policy: Option<ErrorMap<T, T>>, onDone: Finisher<U>)
    requires st.mode == Implicit && st.queue == [] && !st.aborted
    ensures var t := Loop(items, end, st, Plain(f), policy, onDone);
      && |t.calls| == |items|
      && t.out == (if end.Exhausted? then Stream([FoldLeft(f, st.acc, items)], Exhausted) else Stream([], end))
    decreases |items|
  {
    if |items| > 0 {
      var o := Plain(f)(st.acc, items[0], st.index);
      assert o == Returned(Some(f(st.acc, items[0])), [], false);
      LoopHeadContinues(items, end, st, Plain(f), policy, onDone);
      LoopPlain(items[1..], end, After(st, o), f, policy, onDone);
    }
  }

  /**
    A reducer whose step only returns a new accumulator reads its whole source and yields
    exactly one item, the left fold of its step over the items, or nothing if the source
    failed; the finisher plays no part.
   */
  lemma ReducePlain<T, U>(src: Stream<T>, f: (U, T) -> U, init: U,
                          policy: Option<ErrorMap<T, T>>, onDone: Finisher<U>)
    ensures Reduce(src, Plain(f), init, policy, onDone)
              == Run(if src.end.Exhausted? then Stream([FoldLeft(f, init, src.items)], Exhausted) else Stream([], src.end),
                     |src.items|)
  {
    LoopPlain(src.items, src.end, Start(init), f, policy, onDone);
  }
}
