/**
  The chaining facade of src/pipeline.ts over dynamically typed values.

  A pipeline holds one current generator. Every chaining method replaces it by a stage reading
  from it; terminal methods hand it to a consumer; `fork()` turns the generator current at its
  first call into a forkable source, once. A generator is read once, so a stage chained after a
  consumer was handed the generator reads only what that consumer left, which the model does not
  determine. The forkable's multicast behaviour (fork.ts) is not part of this model: a fork is
  seen only as the generator it was created from.
 */
module Facade {
  import opened Streams
  import opened Errors
  import opened Fold
  import opened Stages
  import opened FoldStages

  /** A chaining call, with its arguments. */
  datatype Stage =
    | SplitWith(parts: Value -> Try<seq<string>>)
    | JoinWith(show: Value -> string, delimiter: Option<string>)
    | MapWith(fn: MapStep<Value, Value>, policy: Option<ErrorMap<Value, Value>>)
    | FilterWith(pred: Predicate<Value>, policy: Option<ErrorMap<Value, Value>>)
    | ReduceWith(step: Step<Value, Value>, init: Value, policy: Option<ErrorMap<Value, Value>>)
    | ChunkOf(size: int)
    | TakeFirst(count: int)
    | Flattened
    | FlatMapWith(fn: MapStep<Value, Value>)
    | TapWith(effect: Value -> Try<Value>, policy: Option<ErrorMap<Value, Value>>)
    | Distinct
    | DistinctBy(identity: Value -> Try<Value>)
    | GroupWith(key: Value -> Try<string>, policy: Option<ErrorMap<Value, Value>>)
    | ValidateWith(check: Value -> Try<bool>, errFn: Value -> Try<()>)

  /** A method called on a pipeline. */
  datatype Call =
    | Chain(stage: Stage)
    | Terminal(kind: Sink)
    | Fork

  /** The methods that consume the current sequence: each, pipe, pipeFirst, toGenerator, toStream. */
  datatype Sink = EachSink | PipeSink | PipeFirstSink | GeneratorSink | StreamSink

  // ---------------------------------------------------------------------------
  // groupBy

  type Groups = map<string, seq<Value>>

  /** The items filed under a key so far; none for a key not yet met. */
  function Lookup(m: Groups, k: string): seq<Value>
  {
    if k in m then m[k] else []
  }

  /** Appends an item to the list filed under its key, starting a new list for a key not met before. */
  function File(m: Groups, k: string, x: Value): Groups
  {
    m[k := Lookup(m, k) + [x]]
  }

  /** groupBy's step: file the item under its key; a throwing key function throws. */
  function GroupStep(key: Value -> Try<string>): Step<Value, Groups>
  {
    (acc: Groups, x: Value, i: nat) =>
      match key(x)
      case Ok(k) => Returned(Some(File(acc, k, x)), [], false)
      case Thrown(e) => Threw(e, [], false)
  }

  /**
    groupBy(fn, errorMap): reduce with the filing step, from an empty record, without a
    finisher. It yields only records. When the key function never throws, it yields exactly
    one record (nothing if the source failed): its keys are the keys of the items, and under
    each key lie the items with that key in arrival order.
   */
  function GroupBy(src: Stream<Value>, key: Value -> Try<string>, policy: Option<ErrorMap<Value, Value>>): (r: Stream<Value>)
    ensures forall j :: 0 <= j < |r.items| ==> r.items[j].Record?
    ensures (forall j :: 0 <= j < |src.items| ==> key(src.items[j]).Ok?) ==>
      && (src.end.Failed? ==> r == Stream([], src.end))
      && (src.end.Exhausted? ==>
            && |r.items| == 1 && r.end == Exhausted
            && var m := r.items[0].fields;
              && (forall k :: k in m <==> exists j :: 0 <= j < |src.items| && key(src.items[j]) == Ok(k))
              && (forall k :: k in m ==> m[k] == Where(src.items, KeyIs(key, k))))
  {
    GroupFold(src, key, policy);
    FileAll(key, src.items);
    Lift(Reduce(src, GroupStep(key), map[], policy, NoFinisher()).out, (m: Groups) => Record(m))
  }

  function KeyIs(key: Value -> Try<string>, k: string): Value -> bool
  {
    x => key(x) == Ok(k)
  }

  function FileBy(key: Value -> Try<string>): (Groups, Value) -> Groups
  {
    (m: Groups, x: Value) => if key(x).Ok? then File(m, key(x).value, x) else m
  }

  /** Filing an item appends it under its own key and nowhere else. */
  lemma FileOne(key: Value -> Try<string>, m: Groups, x: Value, k: string)
    ensures Lookup(FileBy(key)(m, x), k) == Lookup(m, k) + (if key(x) == Ok(k) then [x] else [])
    ensures k in FileBy(key)(m, x) <==> k in m || key(x) == Ok(k)
  {
  }

  /** After filing a run of items, a key holds what it held plus the run's items with that key, in order. */
  lemma {:induction false} FileLookup(key: Value -> Try<string>, m: Groups, s: seq<Value>, k: string)
    ensures Lookup(FoldLeft(FileBy(key), m, s), k) == Lookup(m, k) + Where(s, KeyIs(key, k))
    decreases |s|
  {
    if |s| > 0 {
      var m1 := FileBy(key)(m, s[0]);
      FileLookup(key, m1, s[1..], k);
      FileOne(key, m, s[0], k);
      assert KeyIs(key, k)(s[0]) == (key(s[0]) == Ok(k));
    }
  }

  /** After filing a run of items, the keys present are the old ones and the keys of the run's items. */
  lemma {:induction false} FileKeys(key: Value -> Try<string>, m: Groups, s: seq<Value>, k: string)
    ensures k in FoldLeft(FileBy(key), m, s) <==> k in m || exists j :: 0 <= j < |s| && key(s[j]) == Ok(k)
    decreases |s|
  {
    if |s| > 0 {
      var m1 := FileBy(key)(m, s[0]);
      FileKeys(key, m1, s[1..], k);
      FileOne(key, m, s[0], k);
      if exists j :: 0 <= j < |s[1..]| && key(s[1..][j]) == Ok(k) {
        var j :| 0 <= j < |s[1..]| && key(s[1..][j]) == Ok(k);
        assert key(s[j + 1]) == Ok(k);
      }
      if exists j :: 0 <= j < |s| && key(s[j]) == Ok(k) {
        var j :| 0 <= j < |s| && key(s[j]) == Ok(k);
        if j > 0 {
          assert key(s[1..][j - 1]) == Ok(k);
        }
      }
    }
  }

  /** Filing a whole run from an empty record: the keys of the items, each holding its items in order. */
  lemma FileAll(key: Value -> Try<string>, s: seq<Value>)
    ensures var m := FoldLeft(FileBy(key), map[], s);
      && (forall k :: k in m <==> exists j :: 0 <= j < |s| && key(s[j]) == Ok(k))
      && (forall k :: k in m ==> m[k] == Where(s, KeyIs(key, k)))
  {
    var m := FoldLeft(FileBy(key), map[], s);
    forall k
      ensures k in m <==> exists j :: 0 <= j < |s| && key(s[j]) == Ok(k)
      ensures k in m ==> m[k] == Where(s, KeyIs(key, k))
    {
      FileKeys(key, map[], s, k);
      FileLookup(key, map[], s, k);
    }
  }

  /** With a key function that never throws, the groupBy reduce is the plain fold of the filing step. */
  lemma GroupFold(src: Stream<Value>, key: Value -> Try<string>, policy: Option<ErrorMap<Value, Value>>)
    ensures (forall j :: 0 <= j < |src.items| ==> key(src.items[j]).Ok?) ==>
      Reduce(src, GroupStep(key), map[], policy, NoFinisher()).out ==
        (if src.end.Exhausted? then Stream([FoldLeft(FileBy(key), map[], src.items)], Exhausted) else Stream([], src.end))
  {
    if forall j :: 0 <= j < |src.items| ==> key(src.items[j]).Ok? {
      LoopCongruent(src.items, src.end, Start<Groups>(map[]), GroupStep(key), Plain(FileBy(key)), policy, NoFinisher());
      ReducePlain(src, FileBy(key), map[], policy, NoFinisher());
    }
  }

  // ---------------------------------------------------------------------------
  // Stages over values

  /**
    What a chaining call does to the current sequence. split and join yield texts, chunk and
    take lists, groupBy records; join and take yield at most one item; flat spreads one level
    and keeps how its source ended; filter, unique and uniqueBy never add items, unique never
    repeats one; tap and validate yield a prefix of their source.
   */
  function ApplyStage(stage: Stage, s: Stream<Value>): (r: Stream<Value>)
    ensures stage.SplitWith? || stage.JoinWith? ==> forall j :: 0 <= j < |r.items| ==> r.items[j].Text?
    ensures stage.ChunkOf? || stage.TakeFirst? ==> forall j :: 0 <= j < |r.items| ==> r.items[j].List?
    ensures stage.GroupWith? ==> forall j :: 0 <= j < |r.items| ==> r.items[j].Record?
    ensures stage.JoinWith? || stage.TakeFirst? ==> |r.items| <= 1
    ensures stage.Flattened? ==> r == Stream(Flatten(Apply(s.items, Expand)), s.end)
    ensures stage.FilterWith? || stage.Distinct? || stage.DistinctBy? ==> |r.items| <= |s.items|
    ensures stage.Distinct? ==> r.end == s.end && forall i, j :: 0 <= i < j < |r.items| ==> r.items[i] != r.items[j]
    ensures stage.TapWith? || stage.ValidateWith? ==> |r.items| <= |s.items| && r.items == s.items[..|r.items|]
  {
    match stage
    case SplitWith(parts) => Lift(Split(s, parts).out, (t: string) => Text(t))
    case JoinWith(show, delimiter) =>
      Lift(Join(s, show, if delimiter.Some? then delimiter.value else "").out, (t: string) => Text(t))
    case MapWith(fn, policy) => Map(s, fn, policy).out
    case FilterWith(pred, policy) => Filter(s, pred, policy)
    case ReduceWith(step, init, policy) => Reduce(s, step, init, policy, NoFinisher()).out
    case ChunkOf(size) => Lift(Chunk(s, size).out, (c: seq<Value>) => List(c))
    case TakeFirst(count) => Lift(Take(s, count).out, (c: seq<Value>) => List(c))
    case Flattened => Flat(s).out
    case FlatMapWith(fn) => Flat(Map(s, fn, None).out).out
    case TapWith(fn, policy) => Tap(s, fn, policy).out
    case Distinct => Unique(s)
    case DistinctBy(key) => UniqueBy(s, key)
    case GroupWith(key, policy) => GroupBy(s, key, policy)
    case ValidateWith(fn, errFn) => Validate(s, fn, errFn).out
  }

  /**
    A list of stages applied in order, each reading the output of the one before: the first
    stage reads the source, and the rest read what it yields.
   */
  function Compose(stages: seq<Stage>, s: Stream<Value>): (r: Stream<Value>)
    ensures |stages| == 0 ==> r == s
    ensures |stages| > 0 ==> r == Compose(stages[1..], ApplyStage(stages[0], s))
    decreases |stages|
  {
    if |stages| == 0 then s
    else
      var init := stages[..|stages| - 1];
      if |init| == 0 then
        assert stages[1..] == [];
        ApplyStage(stages[|stages| - 1], Compose(init, s))
      else
        assert stages[1..][..|stages| - 2] == init[1..];
        assert init[0] == stages[0];
        ApplyStage(stages[|stages| - 1], Compose(init, s))
  }

  /** The stages named by the chaining calls of a call list, in call order. */
  function StagesOf(calls: seq<Call>): seq<Stage>
    decreases |calls|
  {
    if |calls| == 0 then []
    else StagesOf(calls[..|calls| - 1]) + (if calls[|calls| - 1].Chain? then [calls[|calls| - 1].stage] else [])
  }

  /** Composing two lists of stages is applying the second to the result of the first. */
  lemma {:induction false} ComposeAppend(a: seq<Stage>, b: seq<Stage>, s: Stream<Value>)
    ensures Compose(a + b, s) == Compose(b, Compose(a, s))
    decreases |b|
  {
    if |b| == 0 {
      assert a + b == a;
    } else {
      var n := |b| - 1;
      assert (a + b)[..|a + b| - 1] == a + b[..n];
      assert (a + b)[|a + b| - 1] == b[n];
      ComposeAppend(a, b[..n], s);
    }
  }

  /** The stages of a call list split where the list is split. */
  lemma {:induction false} StagesOfAppend(a: seq<Call>, b: seq<Call>)
    ensures StagesOf(a + b) == StagesOf(a) + StagesOf(b)
    decreases |b|
  {
    if |b| == 0 {
      assert a + b == a;
    } else {
      var n := |b| - 1;
      assert (a + b)[..|a + b| - 1] == a + b[..n];
      assert (a + b)[|a + b| - 1] == b[n];
      StagesOfAppend(a, b[..n]);
    }
  }

  // ---------------------------------------------------------------------------
  // A pipeline driven by a list of calls

  /**
    What the pipeline's current generator will yield to the next reader. A generator is read
    once: `Unread(s)` is one no consumer has been given yet, and it yields `s` from its start;
    once a terminal call or a fork has been handed the generator (or one a later stage reads
    from), what it yields next depends on how far that consumer got, which is `Shared`.
   */
  datatype Current = Unread(s: Stream<Value>) | Shared

  /**
    The state a pipeline closes over: its current generator, the forkable once created, and
    the sequence handed to the first consumer (a terminal call or a fork), which reads it from
    its start.
   */
  datatype Pipeline = Pipeline(current: Current, forked: Option<Current>, handedOver: Option<Stream<Value>>)

  /** The index of the first `fork()` call, `|calls|` if there is none. */
  function FirstFork(calls: seq<Call>): (f: nat)
    ensures f <= |calls|
    ensures f < |calls| ==> calls[f].Fork?
    ensures forall i :: 0 <= i < f ==> !calls[i].Fork?
    decreases |calls|
  {
    if |calls| == 0 then 0
    else if calls[0].Fork? then 0
    else 1 + FirstFork(calls[1..])
  }

  /** The index of the first call that hands the generator to a consumer, `|calls|` if every call chains. */
  function FirstUse(calls: seq<Call>): (f: nat)
    ensures f <= |calls|
    ensures f < |calls| ==> !calls[f].Chain?
    ensures forall i :: 0 <= i < f ==> calls[i].Chain?
    decreases |calls|
  {
    if |calls| == 0 then 0
    else if !calls[0].Chain? then 0
    else 1 + FirstUse(calls[1..])
  }

  /** One more call adds its stage when it chains, and nothing otherwise. */
  lemma StagesOfStep(calls: seq<Call>, i: nat, source: Stream<Value>)
    requires i < |calls|
    ensures calls[i].Chain? ==>
      Compose(StagesOf(calls[..i + 1]), source) == ApplyStage(calls[i].stage, Compose(StagesOf(calls[..i]), source))
    ensures !calls[i].Chain? ==> StagesOf(calls[..i + 1]) == StagesOf(calls[..i])
  {
    assert calls[..i + 1][..i] == calls[..i];
    assert calls[..i + 1][i] == calls[i];
    var before := StagesOf(calls[..i]);
    if calls[i].Chain? {
      assert StagesOf(calls[..i + 1]) == before + [calls[i].stage];
      assert (before + [calls[i].stage])[..|before|] == before;
    }
  }

  /**
    What one method call does to the pipeline's state. A chaining call puts its stage in front
    of the current generator. Any other call hands the current generator to a consumer, so it
    is shared from then on; the first such call records what it was handed, and the first
    `fork()` creates the forkable from it.
   */
  function CallStep(p: Pipeline, c: Call): Pipeline
  {
    match c
    case Chain(stage) => if p.current.Unread? then p.(current := Unread(ApplyStage(stage, p.current.s))) else p
    case _ =>
      var handedOver := if p.current.Unread? && p.handedOver.None? then Some(p.current.s) else p.handedOver;
      var forked := if c.Fork? && p.forked.None? then Some(p.current) else p.forked;
      Pipeline(Shared, forked, handedOver)
  }

  /** The state after the first `i` calls, read off the calls. */
  ghost predicate DriveInv(source: Stream<Value>, calls: seq<Call>, i: nat, p: Pipeline)
    requires i <= |calls|
  {
    && (FirstUse(calls) >= i ==> p.current == Unread(Compose(StagesOf(calls[..i]), source)) && p.handedOver.None?)
    && (FirstUse(calls) < i ==>
          p.current.Shared? && p.handedOver == Some(Compose(StagesOf(calls[..FirstUse(calls)]), source)))
    && (FirstFork(calls) >= i ==> p.forked.None?)
    && (FirstFork(calls) < i && FirstUse(calls) == FirstFork(calls) ==>
          p.forked == Some(Unread(Compose(StagesOf(calls[..FirstFork(calls)]), source))))
    && (FirstFork(calls) < i && FirstUse(calls) < FirstFork(calls) ==> p.forked == Some(Shared))
  }

  lemma DriveChainStep(source: Stream<Value>, calls: seq<Call>, i: nat, p: Pipeline)
    requires i < |calls| && calls[i].Chain? && DriveInv(source, calls, i, p)
    ensures DriveInv(source, calls, i + 1, CallStep(p, calls[i]))
  {
    var u, f := FirstUse(calls), FirstFork(calls);
    assert u != i && f != i;
    var q := CallStep(p, calls[i]);
    assert q.forked == p.forked && q.handedOver == p.handedOver;
    if u > i {
      StagesOfStep(calls, i, source);
      assert q.current == Unread(ApplyStage(calls[i].stage, Compose(StagesOf(calls[..i]), source)));
    } else {
      assert q.current == Shared;
    }
  }

  lemma DriveUseStep(source: Stream<Value>, calls: seq<Call>, i: nat, p: Pipeline)
    requires i < |calls| && !calls[i].Chain? && DriveInv(source, calls, i, p)
    ensures DriveInv(source, calls, i + 1, CallStep(p, calls[i]))
  {
    var u, f := FirstUse(calls), FirstFork(calls);
    assert u <= i;
    assert u <= f by {
      if f < |calls| {
        assert !calls[f].Chain?;
      }
    }
    var q := CallStep(p, calls[i]);
    if u == i {
      assert q.handedOver == Some(p.current.s);
    } else {
      assert q.handedOver == p.handedOver;
    }
    if calls[i].Fork? && p.forked.None? {
      assert f == i;
      assert q.forked == Some(p.current);
    } else {
      assert q.forked == p.forked;
    }
  }

  /**
    pipeline(source) followed by a list of method calls. Chaining calls replace the current
    generator by their stage reading from it; they compose as long as no consumer has read
    the generator yet. The first terminal call or fork is handed the composition of the stages
    chained before it; from then on the current generator is shared. The first `fork()` creates
    the forkable from the current generator and later forks reuse it.
   */
  method Drive(source: Stream<Value>, calls: seq<Call>) returns (p: Pipeline)
    ensures FirstUse(calls) == |calls| ==> p.current == Unread(Compose(StagesOf(calls), source))
    ensures FirstUse(calls) == |calls| ==> p.handedOver.None?
    ensures FirstUse(calls) < |calls| ==> p.current.Shared?
    ensures FirstUse(calls) < |calls| ==> p.handedOver == Some(Compose(StagesOf(calls[..FirstUse(calls)]), source))
    ensures FirstFork(calls) == |calls| ==> p.forked.None?
    ensures FirstFork(calls) < |calls| && FirstUse(calls) == FirstFork(calls) ==>
      p.forked == Some(Unread(Compose(StagesOf(calls[..FirstFork(calls)]), source)))
    ensures FirstFork(calls) < |calls| && FirstUse(calls) < FirstFork(calls) ==> p.forked == Some(Shared)
  {
    p := Pipeline(Unread(source), None, None);
    var i := 0;
    while i < |calls|
      invariant 0 <= i <= |calls|
      invariant DriveInv(source, calls, i, p)
    {
      if calls[i].Chain? {
        DriveChainStep(source, calls, i, p);
      } else {
        DriveUseStep(source, calls, i, p);
      }
      p := CallStep(p, calls[i]);
      i := i + 1;
    }
    assert calls[..i] == calls;
  }

  /** A chain of calls denotes the composition of its stages in call order, however it is split. */
  lemma ChainComposes(source: Stream<Value>, a: seq<Call>, b: seq<Call>)
    ensures Compose(StagesOf(a + b), source) == Compose(StagesOf(b), Compose(StagesOf(a), source))
  {
    StagesOfAppend(a, b);
    ComposeAppend(StagesOf(a), StagesOf(b), source);
  }

  /** Terminal calls and forks add no stage: they never put a new generator in place of the current one. */
  lemma {:induction false} NonChainingCallsKeepSequence(calls: seq<Call>)
    requires forall i :: 0 <= i < |calls| ==> !calls[i].Chain?
    ensures StagesOf(calls) == []
    decreases |calls|
  {
    if |calls| > 0 {
      NonChainingCallsKeepSequence(calls[..|calls| - 1]);
    }
  }

  // ---------------------------------------------------------------------------
  // Properties of particular stages

  /**
    flatMap(fn) is flat after map(fn) without an error map: when no call of `fn` throws or
    asks to stop, it yields the spread of everything `fn` emitted, and ends as its source did.
   */
  lemma FlatMapSpreadsEmissions(s: Stream<Value>, fn: MapStep<Value, Value>)
    ensures var t := MapTraceOf(s, fn, None);
      AllReturned(t.calls) && !DoneCalled(t.calls) ==>
        ApplyStage(FlatMapWith(fn), s) == Stream(Flatten(Apply(Emissions(t.calls), Expand)), s.end)
  {
    var t := MapTraceOf(s, fn, None);
    MapWithoutThrows(s, fn, None);
  }

  /**
    The facade's reduce passes no finisher: once a step has emitted, a completed run yields
    exactly the emitted values, nothing after them.
   */
  lemma FacadeReduceHasNoFinisher(s: Stream<Value>, step: Step<Value, Value>, init: Value,
                                  policy: Option<ErrorMap<Value, Value>>)
    ensures var t := ReduceTrace(s, step, init, policy, NoFinisher());
      t.out.end.Exhausted? && Emissions(t.calls) != [] ==>
        ApplyStage(ReduceWith(step, init, policy), s).items == Emissions(t.calls)
  {
    ReduceExplicitMode(s, step, init, policy, NoFinisher());
  }

  /** join without a delimiter uses the empty one: the items' text concatenated. */
  lemma JoinDefaultsToEmpty(s: Stream<Value>, show: Value -> string)
    ensures ApplyStage(JoinWith(show, None), s) == ApplyStage(JoinWith(show, Some("")), s)
    ensures s.end.Exhausted? ==> ApplyStage(JoinWith(show, None), s).items == [Text(Flatten(Apply(s.items, Delimited(show, ""))))]
  {
  }
}
