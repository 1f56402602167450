/**
  Terminal consumers of src/consumers.ts: piping into writable destinations (all of them,
  or the first whose condition holds), `each`, and `result`.

  A destination is observed through the calls made on it: writes, waits for `drain`, and
  the final `end()`. What a write returns depends on the destination's buffer, which is
  outside the model: `accepted(k)` is the value the `k`-th write to it returns.
 */
module Consumers {
  import opened Streams
  import opened Errors
  import opened Stages

  /** A pipe destination: a bare writable, or a writable guarded by a condition on items. */
  datatype Destination<!T> =
    | Writable(accepted: nat -> bool)
    | Guarded(condition: T -> bool, accepted: nat -> bool)

  /** The condition processPipeDestinations attaches: always true for a bare writable. */
  predicate Accepts<T>(d: Destination<T>, x: T)
  {
    d.Writable? || d.condition(x)
  }

  /** The items destination `i` of a list takes when every destination is offered every item. */
  function Takes<T>(ds: seq<Destination<T>>, i: nat): T -> bool
  {
    x => i < |ds| && Accepts(ds[i], x)
  }

  /** A call made on a destination. */
  datatype Event<T> = Write(item: T) | AwaitDrain | EndCall

  /** How the returned promise settled. */
  datatype Settlement = Resolved | Rejected(err: Error)

  /** What a pipe did: the calls on each destination, the number of items read, and how it settled. */
  datatype Delivery<T> = Delivery(traces: seq<seq<Event<T>>>, pulled: nat, settled: Settlement)

  /** Writing one item as the `k`-th write: the write, then a wait for `drain` if the write returned false. */
  function Deliver<T>(d: Destination<T>, x: T, k: nat): seq<Event<T>>
  {
    [Write(x)] + (if d.accepted(k) then [] else [AwaitDrain])
  }

  /**
    Writing a list of items one after the other, starting with the `k`-th write: exactly the
    given items are written, once each and in order, with one wait for `drain` per write that
    returned false.
   */
  function Feed<T>(d: Destination<T>, xs: seq<T>, k: nat): (r: seq<Event<T>>)
    ensures Written(r) == xs
    ensures Drains(r) == Refusals(d, k, |xs|)
    decreases |xs|
  {
    if |xs| == 0 then []
    else
      var head := Deliver(d, xs[0], k);
      var rest := Feed(d, xs[1..], k + 1);
      WrittenAppend(head, rest);
      assert head[1..] == (if d.accepted(k) then [] else [AwaitDrain]);
      assert Written(head) == [xs[0]] + Written(head[1..]);
      assert !d.accepted(k) ==> head[1..][1..] == [];
      head + rest
  }

  /** The `end()` calls once the source is exhausted; none when it failed. */
  function Closing<T>(end: End): seq<Event<T>>
  {
    if end.Exhausted? then [EndCall] else []
  }

  function SettlementOf(end: End): Settlement
  {
    match end
    case Exhausted => Resolved
    case Failed(e) => Rejected(e)
  }

  /** The items written by a sequence of calls, in order. */
  function Written<T>(es: seq<Event<T>>): seq<T>
  {
    if |es| == 0 then [] else (if es[0].Write? then [es[0].item] else []) + Written(es[1..])
  }

  /** How many waits for `drain` a sequence of calls holds. */
  function Drains<T>(es: seq<Event<T>>): nat
  {
    if |es| == 0 then 0 else (if es[0].AwaitDrain? then 1 else 0) + Drains(es[1..])
  }

  lemma {:induction false} WrittenAppend<T>(a: seq<Event<T>>, b: seq<Event<T>>)
    ensures Written(a + b) == Written(a) + Written(b)
    ensures Drains(a + b) == Drains(a) + Drains(b)
  {
    WrittenAppendItems(a, b);
    DrainsAppend(a, b);
  }

  lemma WrittenCons<T>(es: seq<Event<T>>)
    requires |es| > 0
    ensures Written(es) == (if es[0].Write? then [es[0].item] else []) + Written(es[1..])
  {
  }

  lemma {:induction false} WrittenAppendItems<T>(a: seq<Event<T>>, b: seq<Event<T>>)
    ensures Written(a + b) == Written(a) + Written(b)
    decreases |a|
  {
    if |a| == 0 {
      assert a + b == b;
    } else {
      AppendTail(a, b);
      WrittenCons(a + b);
      WrittenCons(a);
      WrittenAppendItems(a[1..], b);
      AppendAssoc(if a[0].Write? then [a[0].item] else [], Written(a[1..]), Written(b));
    }
  }

  lemma {:induction false} DrainsAppend<T>(a: seq<Event<T>>, b: seq<Event<T>>)
    ensures Drains(a + b) == Drains(a) + Drains(b)
    decreases |a|
  {
    if |a| == 0 {
      assert a + b == b;
    } else {
      AppendTail(a, b);
      DrainsAppend(a[1..], b);
    }
  }

  /** How many of the writes `k` .. `k + n - 1` return false. */
  function Refusals<T>(d: Destination<T>, k: nat, n: nat): nat
    decreases n
  {
    if n == 0 then 0 else (if d.accepted(k) then 0 else 1) + Refusals(d, k + 1, n - 1)
  }

  lemma FeedCons<T>(d: Destination<T>, xs: seq<T>, k: nat)
    requires |xs| > 0
    ensures Feed(d, xs, k) == Deliver(d, xs[0], k) + Feed(d, xs[1..], k + 1)
  {
  }

  lemma {:induction false} FeedAppend<T>(d: Destination<T>, xs: seq<T>, ys: seq<T>, k: nat)
    ensures Feed(d, xs + ys, k) == Feed(d, xs, k) + Feed(d, ys, k + |xs|)
    decreases |xs|
  {
    if |xs| == 0 {
      assert xs + ys == ys;
    } else {
      AppendTail(xs, ys);
      FeedCons(d, xs + ys, k);
      FeedCons(d, xs, k);
      FeedAppend(d, xs[1..], ys, k + 1);
      AppendAssoc(Deliver(d, xs[0], k), Feed(d, xs[1..], k + 1), Feed(d, ys, k + |xs|));
    }
  }

  /** Feeding one more item adds its delivery as the next write. */
  lemma FeedSnoc<T>(d: Destination<T>, xs: seq<T>, x: T, k: nat)
    ensures Feed(d, xs + [x], k) == Feed(d, xs, k) + Deliver(d, x, k + |xs|)
  {
    FeedAppend(d, xs, [x], k);
    FeedCons(d, [x], k + |xs|);
    assert [x][1..] == [];
    assert Deliver(d, x, k + |xs|) + [] == Deliver(d, x, k + |xs|);
  }

  /** Writing one more item of a list extends the calls made for the items before it. */
  lemma FeedPrefix<T>(d: Destination<T>, items: seq<T>, i: nat)
    requires i < |items|
    ensures Feed(d, items[..i + 1], 0) == Feed(d, items[..i], 0) + Deliver(d, items[i], i)
  {
    assert items[..i + 1] == items[..i] + [items[i]];
    FeedSnoc(d, items[..i], items[i], 0);
  }

  /** Offering item `j` to a destination that takes the items satisfying `p`. */
  lemma FeedStep<T>(d: Destination<T>, items: seq<T>, j: nat, p: T -> bool)
    requires j < |items|
    ensures Feed(d, Where(items[..j + 1], p), 0) ==
              Feed(d, Where(items[..j], p), 0) + (if p(items[j]) then Deliver(d, items[j], |Where(items[..j], p)|) else [])
    ensures |Where(items[..j + 1], p)| == |Where(items[..j], p)| + (if p(items[j]) then 1 else 0)
  {
    assert items[..j + 1] == items[..j] + [items[j]];
    WhereAppend(items[..j], [items[j]], p);
    var last := if p(items[j]) then [items[j]] else [];
    assert Where([items[j]], p) == last + Where([], p);
    assert last + Where([], p) == last;
    FeedAppend(d, Where(items[..j], p), last, 0);
    var n := |Where(items[..j], p)|;
    if p(items[j]) {
      assert Feed(d, last, n) == Deliver(d, items[j], n) + Feed(d, [], n + 1);
      assert Feed(d, last, n) == Deliver(d, items[j], n);
    } else {
      assert Feed(d, last, n) == [];
    }
  }

  // ---------------------------------------------------------------------------
  // pipe

  /** The index of the first item the destination's condition refuses, `|items|` when it takes them all. */
  function FirstRefusal<T>(d: Destination<T>, items: seq<T>): (k: nat)
    ensures k <= |items|
    ensures k < |items| ==> !Accepts(d, items[k])
    ensures forall j :: 0 <= j < k ==> Accepts(d, items[j])
    decreases |items|
  {
    if |items| == 0 || !Accepts(d, items[0]) then 0 else 1 + FirstRefusal(d, items[1..])
  }

  /**
    pipe with a single destination: each item is written while the condition holds; the
    first item failing the condition ends the pipe without ending the destination.
   */
  method PipeOne<T>(src: Stream<T>, d: Destination<T>) returns (r: Delivery<T>)
    ensures (forall j :: 0 <= j < |src.items| ==> Accepts(d, src.items[j])) ==>
              r == Delivery([Feed(d, src.items, 0) + Closing(src.end)], |src.items|, SettlementOf(src.end))
    ensures var m := FirstRefusal(d, src.items);
      m < |src.items| ==> r == Delivery([Feed(d, src.items[..m], 0)], m + 1, Resolved)
  {
    var items := src.items;
    var trace: seq<Event<T>> := [];
    var i := 0;
    while i < |items|
      invariant 0 <= i <= |items|
      invariant i <= FirstRefusal(d, items)
      invariant trace == Feed(d, items[..i], 0)
    {
      if !Accepts(d, items[i]) {
        assert FirstRefusal(d, items) == i;
        return Delivery([trace], i + 1, Resolved);
      }
      FeedPrefix(d, items, i);
      trace := trace + Deliver(d, items[i], i);
      i := i + 1;
    }
    assert items[..i] == items;
    r := Delivery([trace + Closing(src.end)], i, SettlementOf(src.end));
  }

  /**
    The calls made on each destination of a list after the items `xs` were offered, when
    destination `i` takes the items satisfying `take(i)`; `writes[i]` counts its writes.
   */
  ghost predicate Delivered<T>(ds: seq<Destination<T>>, xs: seq<T>, take: nat -> T -> bool,
                         traces: seq<seq<Event<T>>>, writes: seq<nat>)
  {
    && |traces| == |ds| && |writes| == |ds|
    && forall i :: 0 <= i < |ds| ==> traces[i] == Feed(ds[i], Where(xs, take(i)), 0) && writes[i] == |Where(xs, take(i))|
  }

  /** Offering item `j` to every destination in turn, each writing it when it takes it. */
  method Offer<T>(ds: seq<Destination<T>>, items: seq<T>, j: nat, take: nat -> T -> bool,
                  traces: seq<seq<Event<T>>>, writes: seq<nat>)
    returns (nextTraces: seq<seq<Event<T>>>, nextWrites: seq<nat>)
    requires j < |items| && Delivered(ds, items[..j], take, traces, writes)
    ensures Delivered(ds, items[..j + 1], take, nextTraces, nextWrites)
  {
    var x := items[j];
    var k := 0;
    nextTraces := traces;
    nextWrites := writes;
    while k < |ds|
      invariant 0 <= k <= |ds|
      invariant |nextTraces| == |ds| == |nextWrites|
      invariant forall i :: 0 <= i < k ==>
                  nextTraces[i] == Feed(ds[i], Where(items[..j + 1], take(i)), 0) && nextWrites[i] == |Where(items[..j + 1], take(i))|
      invariant forall i :: k <= i < |ds| ==> nextTraces[i] == traces[i] && nextWrites[i] == writes[i]
    {
      FeedStep(ds[k], items, j, take(k));
      var t := if take(k)(x) then traces[k] + Deliver(ds[k], x, writes[k]) else traces[k];
      var w := if take(k)(x) then writes[k] + 1 else writes[k];
      assert t == Feed(ds[k], Where(items[..j + 1], take(k)), 0) && w == |Where(items[..j + 1], take(k))|;
      nextTraces := nextTraces[k := t];
      nextWrites := nextWrites[k := w];
      k := k + 1;
    }
  }

  /** Offering every item of a source, one item at a time; every destination is ended once the source is exhausted. */
  method OfferAll<T>(src: Stream<T>, ds: seq<Destination<T>>, take: nat -> T -> bool) returns (r: Delivery<T>)
    ensures |r.traces| == |ds| && r.pulled == |src.items| && r.settled == SettlementOf(src.end)
    ensures forall i :: 0 <= i < |ds| ==> r.traces[i] == Feed(ds[i], Where(src.items, take(i)), 0) + Closing(src.end)
  {
    var items := src.items;
    var traces: seq<seq<Event<T>>> := seq(|ds|, i => []);
    var writes: seq<nat> := seq(|ds|, i => 0);
    var j := 0;
    assert items[..0] == [];
    while j < |items|
      invariant 0 <= j <= |items|
      invariant Delivered(ds, items[..j], take, traces, writes)
    {
      traces, writes := Offer(ds, items, j, take, traces, writes);
      j := j + 1;
    }
    assert items[..j] == items;
    r := Delivery(seq(|ds|, i requires 0 <= i < |ds| => traces[i] + Closing(src.end)), j, SettlementOf(src.end));
  }

  /**
    pipe with several destinations: every item is offered to every destination, each writing
    the items its condition accepts; once the source is exhausted every destination is ended.
   */
  method PipeAll<T>(src: Stream<T>, ds: seq<Destination<T>>) returns (r: Delivery<T>)
    ensures |r.traces| == |ds| && r.pulled == |src.items| && r.settled == SettlementOf(src.end)
    ensures forall i :: 0 <= i < |ds| ==>
              r.traces[i] == Feed(ds[i], Where(src.items, Takes(ds, i)), 0) + Closing(src.end)
  {
    r := OfferAll(src, ds, i => Takes(ds, i));
  }

  /** pipe(source, destinations): nothing at all without destinations. */
  method Pipe<T>(src: Stream<T>, ds: seq<Destination<T>>) returns (r: Delivery<T>)
    ensures |ds| == 0 ==> r == Delivery([], 0, Resolved)
    ensures |ds| == 1 && (forall j :: 0 <= j < |src.items| ==> Accepts(ds[0], src.items[j])) ==>
              r == Delivery([Feed(ds[0], src.items, 0) + Closing(src.end)], |src.items|, SettlementOf(src.end))
    ensures |ds| == 1 ==> var m := FirstRefusal(ds[0], src.items);
              m < |src.items| ==> r == Delivery([Feed(ds[0], src.items[..m], 0)], m + 1, Resolved)
    ensures |ds| >= 2 ==> |r.traces| == |ds| && r.pulled == |src.items| && r.settled == SettlementOf(src.end)
    ensures |ds| >= 2 ==> forall i :: 0 <= i < |ds| ==>
              r.traces[i] == Feed(ds[i], Where(src.items, Takes(ds, i)), 0) + Closing(src.end)
  {
    if |ds| == 0 {
      return Delivery([], 0, Resolved);
    }
    if |ds| == 1 {
      r := PipeOne(src, ds[0]);
      return;
    }
    r := PipeAll(src, ds);
  }

  /**
    When its condition holds for every item, a single destination receives the calls it
    would receive as a member of a longer list: the single-destination path only differs in
    stopping at the first refused item.
   */
  lemma PipeOneAgreesWithAll<T>(items: seq<T>, d: Destination<T>, ds: seq<Destination<T>>, i: nat)
    requires i < |ds| && ds[i] == d
    requires forall j :: 0 <= j < |items| ==> Accepts(d, items[j])
    ensures Feed(ds[i], Where(items, Takes(ds, i)), 0) == Feed(d, items, 0)
  {
    WhereAll(items, Takes(ds, i));
  }

  lemma {:induction false} WhereAll<T>(s: seq<T>, p: T -> bool)
    requires forall j :: 0 <= j < |s| ==> p(s[j])
    ensures Where(s, p) == s
    decreases |s|
  {
    if |s| > 0 {
      assert forall j :: 0 <= j < |s[1..]| ==> s[1..][j] == s[j + 1];
      WhereAll(s[1..], p);
    }
  }

  lemma {:induction false} WhereNone<T>(s: seq<T>, p: T -> bool)
    requires forall j :: 0 <= j < |s| ==> !p(s[j])
    ensures Where(s, p) == []
    decreases |s|
  {
    if |s| > 0 {
      assert forall j :: 0 <= j < |s[1..]| ==> s[1..][j] == s[j + 1];
      WhereNone(s[1..], p);
    }
  }

  // ---------------------------------------------------------------------------
  // pipeFirst

  /** The destination pipeFirst gives an item to: the first whose condition holds, `|ds|` if none. */
  function Route<T>(ds: seq<Destination<T>>, x: T): (r: nat)
    ensures r <= |ds|
    ensures r < |ds| ==> Accepts(ds[r], x)
    ensures forall k :: 0 <= k < r ==> !Accepts(ds[k], x)
    decreases |ds|
  {
    if |ds| == 0 then 0
    else if Accepts(ds[0], x) then 0
    else 1 + Route(ds[1..], x)
  }

  function RoutedTo<T>(ds: seq<Destination<T>>, i: nat): T -> bool
  {
    x => Route(ds, x) == i
  }

  /**
    pipeFirst(source, ...destinations): each item goes to the first destination whose
    condition holds, or nowhere; once the source is exhausted every destination is ended.
   */
  method PipeFirst<T>(src: Stream<T>, ds: seq<Destination<T>>) returns (r: Delivery<T>)
    ensures |r.traces| == |ds| && r.pulled == |src.items| && r.settled == SettlementOf(src.end)
    ensures forall i :: 0 <= i < |ds| ==>
              r.traces[i] == Feed(ds[i], Where(src.items, RoutedTo(ds, i)), 0) + Closing(src.end)
  {
    r := OfferAll(src, ds, i => RoutedTo(ds, i));
  }

  /**
    When no item satisfies two conditions, pipeFirst hands every destination the same items
    as pipe does.
   */
  lemma PipeFirstOnExclusiveConditions<T>(items: seq<T>, ds: seq<Destination<T>>)
    requires forall j, a, b :: 0 <= j < |items| && 0 <= a < b < |ds| ==> !(Accepts(ds[a], items[j]) && Accepts(ds[b], items[j]))
    ensures forall i :: 0 <= i < |ds| ==> Where(items, RoutedTo(ds, i)) == Where(items, Takes(ds, i))
  {
    forall i | 0 <= i < |ds|
      ensures Where(items, RoutedTo(ds, i)) == Where(items, Takes(ds, i))
    {
      forall j | 0 <= j < |items|
        ensures RoutedTo(ds, i)(items[j]) == Takes(ds, i)(items[j])
      {
        var r := Route(ds, items[j]);
      }
      WhereCongruent(items, RoutedTo(ds, i), Takes(ds, i));
    }
  }

  /** A bare writable placed first takes every item, leaving nothing for the destinations after it. */
  lemma PipeFirstWritableFirst<T>(items: seq<T>, ds: seq<Destination<T>>)
    requires |ds| > 0 && ds[0].Writable?
    ensures Where(items, RoutedTo(ds, 0)) == items
    ensures forall i :: 0 < i < |ds| ==> Where(items, RoutedTo(ds, i)) == []
  {
    assert forall x :: Route(ds, x) == 0;
    WhereAll(items, RoutedTo(ds, 0));
    forall i | 0 < i < |ds|
      ensures Where(items, RoutedTo(ds, i)) == []
    {
      WhereNone(items, RoutedTo(ds, i));
    }
  }

  // ---------------------------------------------------------------------------
  // each, result

  /** What `each` did: how many times `fn` was called, and how the returned promise settled. */
  datatype Consumed = Consumed(calls: nat, settled: Settlement)

  /**
    each(source, fn, errorMap): `fn` runs on every item in order; an error it throws goes to
    the error map, and the run rejects when the map does not recover it.
   */
  method Each<T, U>(src: Stream<T>, fn: T -> Try<U>, policy: Option<ErrorMap<T, U>>) returns (r: Consumed)
    ensures (forall j :: 0 <= j < |src.items| ==> Settled(fn(src.items[j]), src.items[j], policy)) ==>
              r == Consumed(|src.items|, SettlementOf(src.end))
    ensures forall m :: 0 <= m < |src.items| && !Settled(fn(src.items[m]), src.items[m], policy) &&
                        (forall j :: 0 <= j < m ==> Settled(fn(src.items[j]), src.items[j], policy)) ==>
              r == Consumed(m + 1, Rejected(Handle(policy, fn(src.items[m]).err, src.items[m]).err))
  {
    var items := src.items;
    var i := 0;
    while i < |items|
      invariant 0 <= i <= |items|
      invariant forall j :: 0 <= j < i ==> Settled(fn(items[j]), items[j], policy)
    {
      var x := items[i];
      var outcome := fn(x);
      if outcome.Thrown? {
        var handled := Handle(policy, outcome.err, x);
        if handled.Rethrown? {
          return Consumed(i + 1, Rejected(handled.err));
        }
      }
      i := i + 1;
    }
    r := Consumed(i, SettlementOf(src.end));
  }

  /** `each` calls `fn` exactly as often as `tap` would, and settles as a drained `tap` ends. */
  lemma EachIsDrainedTap<T, U>(src: Stream<T>, fn: T -> Try<U>, policy: Option<ErrorMap<T, U>>)
    ensures var t := Tap(src, fn, policy);
      (forall j :: 0 <= j < |src.items| ==> Settled(fn(src.items[j]), src.items[j], policy)) <==>
        (t.out.items == src.items && t.out.end == src.end)
    ensures var t := Tap(src, fn, policy);
      forall m :: 0 <= m < |src.items| && !Settled(fn(src.items[m]), src.items[m], policy) &&
                  (forall j :: 0 <= j < m ==> Settled(fn(src.items[j]), src.items[j], policy)) ==>
        t.pulled == m + 1 && t.out.end == Failed(Handle(policy, fn(src.items[m]).err, src.items[m]).err)
  {
    var t := Tap(src, fn, policy);
    if forall j :: 0 <= j < |src.items| ==> Settled(fn(src.items[j]), src.items[j], policy) {
      TapPassesThrough(src, fn, policy);
    }
    forall m | 0 <= m < |src.items| && !Settled(fn(src.items[m]), src.items[m], policy) &&
               (forall j :: 0 <= j < m ==> Settled(fn(src.items[j]), src.items[j], policy))
      ensures t.pulled == m + 1 && t.out.end == Failed(Handle(policy, fn(src.items[m]).err, src.items[m]).err)
    {
      assert |t.out.items| == m;
    }
  }

  /** result(source): every item, once the source is exhausted; the source's error otherwise. */
  method Result<T>(src: Stream<T>) returns (r: Try<seq<T>>)
    ensures src.end.Exhausted? ==> r == Ok(src.items)
    ensures src.end.Failed? ==> r == Thrown(src.end.err)
  {
    var res: seq<T> := [];
    var i := 0;
    while i < |src.items|
      invariant 0 <= i <= |src.items|
      invariant res == src.items[..i]
    {
      res := res + [src.items[i]];
      i := i + 1;
    }
    assert src.items[..i] == src.items;
    match src.end
    case Exhausted => r := Ok(res);
    case Failed(e) => r := Thrown(e);
  }
}
