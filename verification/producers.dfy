/**
  Sequence combinators of src/producers.ts: concatenation of arrays, of generators and of
  promises, and the round-robin `merge`.

  `merge` is modelled twice: as written, where a finished source is removed by its index in
  the round's results from an array that earlier removals of the same round have already
  shortened; and with the evidently intended removal of exactly the finished sources.
 */
module Producers {
  import opened Streams

  // ---------------------------------------------------------------------------
  // arrayGenerator, generatorGenerator, promiseGenerator

  /** arrayGenerator(...sources): every item of every array, array after array. */
  method ArrayGenerator<T>(arrays: seq<seq<T>>) returns (out: Stream<T>)
    ensures out == Stream(Flatten(arrays), Exhausted)
  {
    var items: seq<T> := [];
    var i := 0;
    while i < |arrays|
      invariant 0 <= i <= |arrays|
      invariant items == Flatten(arrays[..i])
    {
      var j := 0;
      while j < |arrays[i]|
        invariant 0 <= j <= |arrays[i]|
        invariant items == Flatten(arrays[..i]) + arrays[i][..j]
      {
        items := items + [arrays[i][j]];
        j := j + 1;
      }
      assert arrays[i][..j] == arrays[i];
      assert arrays[..i + 1] == arrays[..i] + [arrays[i]];
      FlattenAppend(arrays[..i], [arrays[i]]);
      assert Flatten([arrays[i]]) == arrays[i] + Flatten([]);
      i := i + 1;
    }
    assert arrays[..i] == arrays;
    out := Stream(items, Exhausted);
  }

  function Items<T>(s: Stream<T>): seq<T>
  {
    s.items
  }

  /** The index of the first source that fails, `|sources|` when every source completes. */
  function FirstFailed<T>(sources: seq<Stream<T>>): (k: nat)
    ensures k <= |sources|
    ensures k < |sources| ==> sources[k].end.Failed?
    ensures forall i :: 0 <= i < k ==> sources[i].end.Exhausted?
    decreases |sources|
  {
    if |sources| == 0 then 0
    else if sources[0].end.Failed? then 0
    else 1 + FirstFailed(sources[1..])
  }

  /**
    generatorGenerator(...sources): each source drained in turn. When every source completes,
    the concatenation of the sources; when source `k` is the first to fail, the sources before
    it, then that source's items, failing with its error: later sources are never read.
   */
  function GeneratorGenerator<T>(sources: seq<Stream<T>>): (r: Stream<T>)
    ensures FirstFailed(sources) == |sources| ==> r == Stream(Flatten(Apply(sources, Items)), Exhausted)
    ensures var k := FirstFailed(sources);
      k < |sources| ==> r == Stream(Flatten(Apply(sources[..k], Items)) + sources[k].items, sources[k].end)
    decreases |sources|
  {
    if |sources| == 0 then Stream([], Exhausted)
    else if sources[0].end.Failed? then
      assert sources[..0] == [];
      sources[0]
    else
      var rest := GeneratorGenerator(sources[1..]);
      var k := FirstFailed(sources);
      ConcatenatedPrefix(sources, k);
      if k < |sources| then
        assert sources[1..][k - 1] == sources[k];
        AppendAssoc(sources[0].items, Flatten(Apply(sources[1..][..k - 1], Items)), sources[k].items);
        Stream(sources[0].items + rest.items, rest.end)
      else
        assert sources[..k] == sources && sources[1..][..k - 1] == sources[1..];
        Stream(sources[0].items + rest.items, rest.end)
  }

  /** The items of the first `k` sources: the first source's items, then those of the next `k - 1`. */
  lemma ConcatenatedPrefix<T>(sources: seq<Stream<T>>, k: nat)
    requires 0 < k <= |sources|
    ensures Flatten(Apply(sources[..k], Items)) == sources[0].items + Flatten(Apply(sources[1..][..k - 1], Items))
  {
    FlattenApplyCons(sources[..k], Items);
    assert sources[..k][1..] == sources[1..][..k - 1];
  }

  /**
    Promise.all over already created promises: the values in argument order when all
    resolve, else a rejection. Settlement timing is not modelled: of several rejections the
    first in argument order is reported.
   */
  function AwaitAll<T>(ps: seq<Try<T>>): (r: Try<seq<T>>)
    ensures r.Ok? <==> forall i :: 0 <= i < |ps| ==> ps[i].Ok?
    ensures r.Ok? ==> |r.value| == |ps| && forall i :: 0 <= i < |ps| ==> r.value[i] == ps[i].value
    ensures r.Thrown? ==> exists k :: 0 <= k < |ps| && ps[k] == Thrown(r.err) && forall j :: 0 <= j < k ==> ps[j].Ok?
    decreases |ps|
  {
    if |ps| == 0 then Ok([])
    else
      match ps[0]
      case Thrown(e) => Thrown(e)
      case Ok(v) =>
        match AwaitAll(ps[1..])
        case Thrown(e) =>
          assert exists k :: 0 <= k < |ps[1..]| && ps[1..][k] == Thrown(e) && forall j :: 0 <= j < k ==> ps[1..][j].Ok?;
          var k :| 0 <= k < |ps[1..]| && ps[1..][k] == Thrown(e) && forall j :: 0 <= j < k ==> ps[1..][j].Ok?;
          assert ps[k + 1] == Thrown(e) && forall j :: 0 <= j < k + 1 ==> ps[j].Ok?;
          Thrown(e)
        case Ok(vs) => Ok([v] + vs)
  }

  /**
    promiseGenerator(...source): the resolved values in argument order and completion when
    every promise resolves; nothing at all, failing with a rejection, when any promise rejects.
   */
  function PromiseGenerator<T>(ps: seq<Try<T>>): (r: Stream<T>)
    ensures r.end.Exhausted? <==> forall i :: 0 <= i < |ps| ==> ps[i].Ok?
    ensures r.end.Exhausted? ==> |r.items| == |ps| && forall i :: 0 <= i < |ps| ==> r.items[i] == ps[i].value
    ensures r.end.Failed? ==> r.items == [] && exists k :: 0 <= k < |ps| && ps[k] == Thrown(r.end.err)
  {
    match AwaitAll(ps)
    case Ok(vs) => Stream(vs, Exhausted)
    case Thrown(e) => Stream([], Failed(e))
  }

  /** A settled promise as a one-item source. */
  function Settle<T>(p: Try<T>): Stream<T>
  {
    match p
    case Ok(v) => Stream([v], Exhausted)
    case Thrown(e) => Stream([], Failed(e))
  }

  /**
    When every promise resolves, promiseGenerator yields what generatorGenerator yields over
    the promises read one at a time; when one rejects it yields nothing at all, since
    Promise.all settles before the first value is yielded.
   */
  lemma PromiseGeneratorAwaitsAll<T>(ps: seq<Try<T>>)
    ensures (forall i :: 0 <= i < |ps| ==> ps[i].Ok?) ==>
              PromiseGenerator(ps) == GeneratorGenerator(Apply(ps, Settle))
    ensures (exists i :: 0 <= i < |ps| && ps[i].Thrown?) ==>
              PromiseGenerator(ps).items == [] && PromiseGenerator(ps).end.Failed?
  {
    if forall i :: 0 <= i < |ps| ==> ps[i].Ok? {
      var ss := Apply(ps, Settle);
      assert forall i :: 0 <= i < |ss| ==> ss[i] == Stream([ps[i].value], Exhausted);
      assert forall i :: 0 <= i < |ss| ==> ss[i].end.Exhausted?;
      SingletonsFlatten(ps);
    }
  }

  lemma {:induction false} SingletonsFlatten<T>(ps: seq<Try<T>>)
    requires forall i :: 0 <= i < |ps| ==> ps[i].Ok?
    ensures Flatten(Apply(Apply(ps, Settle), Items)) == AwaitAll(ps).value
    decreases |ps|
  {
    if |ps| > 0 {
      SingletonsFlatten(ps[1..]);
      assert Apply(Apply(ps, Settle), Items)[1..] == Apply(Apply(ps[1..], Settle), Items);
      assert AwaitAll(ps).value == [ps[0].value] + AwaitAll(ps[1..]).value;
    }
  }

  // ---------------------------------------------------------------------------
  // merge: one round

  /** `source.next()`: the next item, `None` once the source is done, or the error it throws. */
  function Pull<T>(s: Stream<T>): Try<Option<T>>
  {
    if |s.items| > 0 then Ok(Some(s.items[0]))
    else match s.end
      case Exhausted => Ok(None)
      case Failed(e) => Thrown(e)
  }

  /** A source after one `next()`. */
  function Advance<T>(s: Stream<T>): Stream<T>
  {
    if |s.items| > 0 then Stream(s.items[1..], s.end) else s
  }

  /** The values a round yields, in source-list order. */
  function RoundValues<T>(vs: seq<Option<T>>): seq<T>
  {
    Flatten(Apply(vs, OptSeq))
  }

  /** Removing the one element at position `i` in place, or nothing when `i` is past the end. */
  function RemoveAt<T>(a: seq<T>, i: nat): seq<T>
  {
    if i < |a| then a[..i] + a[i + 1..] else a
  }

  /**
    The removals of one round as written: for each position `j` of the round's results, in
    order, a finished source is spliced out at index `j` of the array as it stands.
   */
  function SpliceAsWritten<S, V>(vs: seq<Option<V>>, j: nat, U: seq<S>): seq<S>
    decreases |vs| - j
  {
    if j >= |vs| then U
    else SpliceAsWritten(vs, j + 1, if vs[j].None? then RemoveAt(U, j) else U)
  }

  /** The removals of one round as intended: exactly the finished sources leave. */
  function Live<T, V>(a: seq<T>, vs: seq<Option<V>>): seq<T>
    requires |a| == |vs|
  {
    if |a| == 0 then [] else (if vs[0].None? then [] else [a[0]]) + Live(a[1..], vs[1..])
  }

  /** What is left to pull: one per remaining item, one per remaining source. */
  function Weight<T>(ss: seq<Stream<T>>): nat
  {
    if |ss| == 0 then 0 else |ss[0].items| + 1 + Weight(ss[1..])
  }

  lemma RemoveAtCons<T>(a: seq<T>, i: nat)
    requires i < |a|
    ensures i == 0 ==> RemoveAt(a, i) == a[1..]
    ensures i > 0 ==> RemoveAt(a, i) == [a[0]] + RemoveAt(a[1..], i - 1)
  {
    if i > 0 {
      PrefixCons(a, i - 1);
      assert a[i + 1..] == a[1..][i..];
      AppendAssoc([a[0]], a[1..][..i - 1], a[1..][i..]);
    }
  }

  lemma WeightCons<T>(ss: seq<Stream<T>>)
    requires |ss| > 0
    ensures Weight(ss) == |ss[0].items| + 1 + Weight(ss[1..])
  {
  }

  lemma {:induction false} WeightRemoveAt<T>(a: seq<Stream<T>>, i: nat)
    ensures Weight(RemoveAt(a, i)) <= Weight(a)
    ensures i < |a| ==> Weight(RemoveAt(a, i)) < Weight(a)
    decreases |a|
  {
    if i < |a| {
      WeightCons(a);
      if i > 0 {
        var r := RemoveAt(a, i);
        assert r[0] == a[0];
        assert r[1..] == RemoveAt(a[1..], i - 1);
        WeightCons(r);
        WeightRemoveAt(a[1..], i - 1);
      } else {
        assert RemoveAt(a, i) == a[1..];
      }
    }
  }

  lemma {:induction false} WeightSplice<T>(vs: seq<Option<T>>, j: nat, U: seq<Stream<T>>)
    ensures Weight(SpliceAsWritten(vs, j, U)) <= Weight(U)
    ensures j == 0 < |vs| && vs[0].None? && |U| > 0 ==> Weight(SpliceAsWritten(vs, j, U)) < Weight(U)
    decreases |vs| - j
  {
    if j < |vs| {
      var U' := if vs[j].None? then RemoveAt(U, j) else U;
      WeightRemoveAt(U, j);
      WeightSplice(vs, j + 1, U');
    }
  }

  lemma {:induction false} WeightLive<T, V>(a: seq<Stream<T>>, vs: seq<Option<V>>)
    requires |a| == |vs|
    ensures Weight(Live(a, vs)) <= Weight(a)
    ensures (forall i :: 0 <= i < |vs| ==> vs[i].None?) ==> Live(a, vs) == []
    decreases |a|
  {
    if |a| > 0 {
      assert forall i :: 0 <= i < |vs[1..]| ==> vs[1..][i] == vs[i + 1];
      WeightLive(a[1..], vs[1..]);
      LiveCons(a, vs);
      if vs[0].Some? {
        var l := Live(a, vs);
        assert l[0] == a[0] && l[1..] == Live(a[1..], vs[1..]);
      }
    }
  }

  lemma {:induction false} WeightAdvance<T>(ss: seq<Stream<T>>)
    ensures Weight(Apply(ss, Advance)) <= Weight(ss)
    ensures (exists i :: 0 <= i < |ss| && |ss[i].items| > 0) ==> Weight(Apply(ss, Advance)) < Weight(ss)
    decreases |ss|
  {
    if |ss| > 0 {
      WeightAdvance(ss[1..]);
      assert Apply(ss, Advance)[1..] == Apply(ss[1..], Advance);
      if exists i :: 0 <= i < |ss| && |ss[i].items| > 0 {
        var i :| 0 <= i < |ss| && |ss[i].items| > 0;
        if i > 0 {
          assert |ss[1..][i - 1].items| > 0;
        }
      }
    }
  }

  /** The pulls of a round that did not reject: a value for every source with items left. */
  lemma RoundPulls<T>(ss: seq<Stream<T>>)
    requires AwaitAll(Apply(ss, Pull)).Ok?
    ensures var vs := AwaitAll(Apply(ss, Pull)).value;
      && |vs| == |ss|
      && (forall i :: 0 <= i < |ss| ==> (vs[i].Some? <==> |ss[i].items| > 0))
      && (forall i :: 0 <= i < |ss| ==> vs[i].Some? ==> vs[i].value == ss[i].items[0])
  {
    var vs := AwaitAll(Apply(ss, Pull)).value;
    forall i | 0 <= i < |ss|
      ensures (vs[i].Some? <==> |ss[i].items| > 0) && (vs[i].Some? ==> vs[i].value == ss[i].items[0])
    {
      assert Apply(ss, Pull)[i] == Pull(ss[i]);
    }
  }

  /** A round strictly lowers the weight, with either removal rule. */
  lemma RoundProgress<T>(ss: seq<Stream<T>>)
    requires |ss| > 0 && AwaitAll(Apply(ss, Pull)).Ok?
    ensures var vs := AwaitAll(Apply(ss, Pull)).value;
      var adv := Apply(ss, Advance);
      && |vs| == |adv|
      && Weight(SpliceAsWritten(vs, 0, adv)) < Weight(ss)
      && Weight(Live(adv, vs)) < Weight(ss)
  {
    var vs := AwaitAll(Apply(ss, Pull)).value;
    var adv := Apply(ss, Advance);
    RoundPulls(ss);
    WeightAdvance(ss);
    WeightSplice(vs, 0, adv);
    WeightLive(adv, vs);
    if exists i :: 0 <= i < |ss| && |ss[i].items| > 0 {
    } else {
      assert forall i :: 0 <= i < |ss| ==> vs[i].None?;
      assert Weight(ss) > 0;
    }
  }

  /** How the given sources end. */
  function EndsOf<T>(ss: seq<Stream<T>>): set<End>
  {
    set i | 0 <= i < |ss| :: ss[i].end
  }

  lemma EndsOfMembers<T>(a: seq<Stream<T>>, b: seq<Stream<T>>)
    requires forall x :: x in a ==> x in b
    ensures EndsOf(a) <= EndsOf(b)
  {
    forall e | e in EndsOf(a)
      ensures e in EndsOf(b)
    {
      var i :| 0 <= i < |a| && a[i].end == e;
      assert a[i] in b;
      var j :| 0 <= j < |b| && b[j] == a[i];
    }
  }

  lemma {:induction false} SpliceMembers<S, V>(vs: seq<Option<V>>, j: nat, U: seq<S>)
    ensures forall y :: y in SpliceAsWritten(vs, j, U) ==> y in U
    decreases |vs| - j
  {
    if j < |vs| {
      var U' := if vs[j].None? then RemoveAt(U, j) else U;
      SpliceMembers(vs, j + 1, U');
      if j < |U| {
        assert forall y :: y in U[..j] + U[j + 1..] ==> y in U;
      }
    }
  }

  /** A round that rejects rejects with the error of a source that fails without items left. */
  lemma RoundRejects<T>(ss: seq<Stream<T>>)
    requires AwaitAll(Apply(ss, Pull)).Thrown?
    ensures Failed(AwaitAll(Apply(ss, Pull)).err) in EndsOf(ss)
  {
    var ps := Apply(ss, Pull);
    var e := AwaitAll(ps).err;
    var k :| 0 <= k < |ps| && ps[k] == Thrown(e);
    assert Pull(ss[k]) == Thrown(e);
    assert ss[k].end == Failed(e);
  }

  /** After a round, under either removal rule, no source ends in a way none of the old ones did. */
  lemma RoundEnds<T>(ss: seq<Stream<T>>, vs: seq<Option<T>>)
    requires |vs| == |ss|
    ensures EndsOf(SpliceAsWritten(vs, 0, Apply(ss, Advance))) <= EndsOf(ss)
    ensures EndsOf(Live(Apply(ss, Advance), vs)) <= EndsOf(ss)
  {
    var adv := Apply(ss, Advance);
    forall e | e in EndsOf(adv)
      ensures e in EndsOf(ss)
    {
      var i :| 0 <= i < |adv| && adv[i].end == e;
      assert adv[i] == Advance(ss[i]);
    }
    SpliceMembers(vs, 0, adv);
    EndsOfMembers(SpliceAsWritten(vs, 0, adv), adv);
    LiveMembers(adv, vs);
    EndsOfMembers(Live(adv, vs), adv);
  }

  // ---------------------------------------------------------------------------
  // merge: whole runs

  /**
    merge(...sources) as written: each round pulls once from every remaining source, fails if
    any pull throws, yields the values in source-list order, and splices out finished
    sources by their index in the round's results. It can only fail with the error of one of
    its sources, so over sources that all complete it completes.
   */
  function MergeAsWritten<T>(ss: seq<Stream<T>>): (r: Stream<T>)
    ensures r.end.Failed? ==> r.end in EndsOf(ss)
    ensures (forall i :: 0 <= i < |ss| ==> ss[i].end.Exhausted?) ==> r.end == Exhausted
    decreases Weight(ss)
  {
    if |ss| == 0 then Stream([], Exhausted)
    else
      match AwaitAll(Apply(ss, Pull))
      case Thrown(e) =>
        RoundRejects(ss);
        Stream([], Failed(e))
      case Ok(vs) =>
        var adv := Apply(ss, Advance);
        RoundProgress(ss);
        RoundEnds(ss, vs);
        var rest := MergeAsWritten(SpliceAsWritten(vs, 0, adv));
        Stream(RoundValues(vs) + rest.items, rest.end)
  }

  /**
    merge(...sources) with the finished sources of each round removed, and only those. It can
    only fail with the error of one of its sources, so over sources that all complete it completes.
   */
  function MergeFixed<T>(ss: seq<Stream<T>>): (r: Stream<T>)
    ensures r.end.Failed? ==> r.end in EndsOf(ss)
    ensures (forall i :: 0 <= i < |ss| ==> ss[i].end.Exhausted?) ==> r.end == Exhausted
    decreases Weight(ss)
  {
    if |ss| == 0 then Stream([], Exhausted)
    else
      match AwaitAll(Apply(ss, Pull))
      case Thrown(e) =>
        RoundRejects(ss);
        Stream([], Failed(e))
      case Ok(vs) =>
        var adv := Apply(ss, Advance);
        RoundProgress(ss);
        RoundEnds(ss, vs);
        var rest := MergeFixed(Live(adv, vs));
        Stream(RoundValues(vs) + rest.items, rest.end)
  }

  // ---------------------------------------------------------------------------
  // The round-robin reference

  /** Round `r` of a round-robin over plain lists: the `r`-th item of each list long enough, in list order. */
  function Column<T>(ls: seq<seq<T>>, r: nat): seq<T>
  {
    if |ls| == 0 then [] else (if r < |ls[0]| then [ls[0][r]] else []) + Column(ls[1..], r)
  }

  function MaxLen<T>(ls: seq<seq<T>>): nat
  {
    if |ls| == 0 then 0 else
      var m := MaxLen(ls[1..]);
      if |ls[0]| > m then |ls[0]| else m
  }

  /** Rounds `r` up to `n` of the round-robin. */
  function Rounds<T>(ls: seq<seq<T>>, r: nat, n: nat): seq<T>
    decreases n - r
  {
    if r >= n then [] else Column(ls, r) + Rounds(ls, r + 1, n)
  }

  /** The round-robin interleaving of lists: round 0, round 1, ... up to the longest list. */
  function Interleave<T>(ls: seq<seq<T>>): seq<T>
  {
    Rounds(ls, 0, MaxLen(ls))
  }

  /** The lists after one round: each non-empty list without its head. */
  function Tails<T>(ls: seq<seq<T>>): seq<seq<T>>
  {
    if |ls| == 0 then [] else (if |ls[0]| > 0 then [ls[0][1..]] else []) + Tails(ls[1..])
  }

  lemma {:induction false} ColumnTails<T>(ls: seq<seq<T>>, r: nat)
    ensures Column(Tails(ls), r) == Column(ls, r + 1)
    decreases |ls|
  {
    if |ls| > 0 {
      ColumnTails(ls[1..], r);
      var t := Tails(ls);
      if |ls[0]| > 0 {
        assert t == [ls[0][1..]] + Tails(ls[1..]);
        assert t[0] == ls[0][1..] && t[1..] == Tails(ls[1..]);
        assert r < |t[0]| ==> t[0][r] == ls[0][r + 1];
        assert Column(t, r) == (if r < |t[0]| then [t[0][r]] else []) + Column(t[1..], r);
      } else {
        assert t == Tails(ls[1..]);
      }
    }
  }

  lemma {:induction false} MaxLenTails<T>(ls: seq<seq<T>>)
    ensures MaxLen(Tails(ls)) == if MaxLen(ls) > 0 then MaxLen(ls) - 1 else 0
    ensures MaxLen(ls) == 0 ==> Column(ls, 0) == [] && Tails(ls) == []
    decreases |ls|
  {
    if |ls| > 0 {
      MaxLenTails(ls[1..]);
      var t := Tails(ls);
      if |ls[0]| > 0 {
        assert t == [ls[0][1..]] + Tails(ls[1..]);
        assert t[0] == ls[0][1..] && t[1..] == Tails(ls[1..]);
        assert MaxLen(t) == if |t[0]| > MaxLen(t[1..]) then |t[0]| else MaxLen(t[1..]);
      } else {
        assert t == Tails(ls[1..]);
        assert Column(ls, 0) == Column(ls[1..], 0);
      }
    }
  }

  lemma {:induction false} RoundsTails<T>(ls: seq<seq<T>>, r: nat, n: nat)
    ensures Rounds(Tails(ls), r, n) == Rounds(ls, r + 1, n + 1)
    decreases n - r
  {
    if r < n {
      ColumnTails(ls, r);
      RoundsTails(ls, r + 1, n);
    }
  }

  /** The interleaving is the first round followed by the interleaving of what is left. */
  lemma InterleaveStep<T>(ls: seq<seq<T>>)
    ensures Interleave(ls) == Column(ls, 0) + Interleave(Tails(ls))
  {
    MaxLenTails(ls);
    var m := MaxLen(ls);
    if m > 0 {
      RoundsTails(ls, 0, m - 1);
      assert Interleave(Tails(ls)) == Rounds(Tails(ls), 0, m - 1);
      assert Interleave(ls) == Column(ls, 0) + Rounds(ls, 1, m);
    } else {
      assert Tails(ls) == [] && MaxLen<T>([]) == 0;
    }
  }

  /** Live keeps a subsequence of its input. */
  lemma {:induction false} LiveMembers<T, V>(a: seq<T>, vs: seq<Option<V>>)
    requires |a| == |vs|
    ensures forall y :: y in Live(a, vs) ==> y in a
    decreases |a|
  {
    if |a| > 0 {
      LiveMembers(a[1..], vs[1..]);
      assert forall y :: y in a[1..] ==> y in a;
    }
  }

  lemma RoundValuesCons<T>(vs: seq<Option<T>>)
    requires |vs| > 0
    ensures RoundValues(vs) == OptSeq(vs[0]) + RoundValues(vs[1..])
  {
    assert Apply(vs, OptSeq)[1..] == Apply(vs[1..], OptSeq);
  }

  /** The values of a round are the first column of the sources' items. */
  lemma {:induction false} RoundValuesColumn<T>(ss: seq<Stream<T>>, vs: seq<Option<T>>)
    requires |vs| == |ss|
    requires forall i :: 0 <= i < |ss| ==> (vs[i].Some? <==> |ss[i].items| > 0)
    requires forall i :: 0 <= i < |ss| ==> vs[i].Some? ==> vs[i].value == ss[i].items[0]
    ensures RoundValues(vs) == Column(Apply(ss, Items), 0)
    decreases |ss|
  {
    if |ss| > 0 {
      assert forall i :: 0 <= i < |ss[1..]| ==> ss[1..][i] == ss[i + 1] && vs[1..][i] == vs[i + 1];
      RoundValuesColumn(ss[1..], vs[1..]);
      RoundValuesCons(vs);
      var ls := Apply(ss, Items);
      assert ls[0] == ss[0].items && ls[1..] == Apply(ss[1..], Items);
    }
  }

  lemma LiveCons<T, V>(a: seq<T>, vs: seq<Option<V>>)
    requires |a| == |vs| > 0
    ensures vs[0].None? ==> Live(a, vs) == Live(a[1..], vs[1..])
    ensures vs[0].Some? ==> Live(a, vs) == [a[0]] + Live(a[1..], vs[1..])
  {
  }

  /** The sources the fixed merge keeps after a round hold the tails of the non-empty ones. */
  lemma {:induction false} LiveTails<T>(ss: seq<Stream<T>>, vs: seq<Option<T>>)
    requires |vs| == |ss|
    requires forall i :: 0 <= i < |ss| ==> (vs[i].Some? <==> |ss[i].items| > 0)
    ensures Apply(Live(Apply(ss, Advance), vs), Items) == Tails(Apply(ss, Items))
    decreases |ss|
  {
    if |ss| > 0 {
      assert forall i :: 0 <= i < |ss[1..]| ==> ss[1..][i] == ss[i + 1] && vs[1..][i] == vs[i + 1];
      LiveTails(ss[1..], vs[1..]);
      var ls := Apply(ss, Items);
      assert ls[0] == ss[0].items && ls[1..] == Apply(ss[1..], Items);
      var adv := Apply(ss, Advance);
      assert adv[0] == Advance(ss[0]) && adv[1..] == Apply(ss[1..], Advance);
      LiveCons(adv, vs);
      var tail := Live(adv[1..], vs[1..]);
      if vs[0].Some? {
        assert Apply([adv[0]] + tail, Items) == [ss[0].items[1..]] + Apply(tail, Items);
      }
    }
  }

  /**
    When every source completes, the fixed merge yields the round-robin interleaving of the
    sources: round `r` holds the `r`-th item of every source that has one, in source-list
    order, so every item of every source appears once, in per-source order.
   */
  lemma {:induction false} MergeFixedInterleaves<T>(ss: seq<Stream<T>>)
    requires forall i :: 0 <= i < |ss| ==> ss[i].end == Exhausted
    ensures MergeFixed(ss) == Stream(Interleave(Apply(ss, Items)), Exhausted)
    decreases Weight(ss)
  {
    var ls := Apply(ss, Items);
    if |ss| == 0 {
      assert MaxLen(ls) == 0;
    } else {
      var ps := Apply(ss, Pull);
      assert forall i :: 0 <= i < |ps| ==> ps[i] == Pull(ss[i]) && ps[i].Ok?;
      var vs := AwaitAll(ps).value;
      RoundPulls(ss);
      RoundProgress(ss);
      var adv := Apply(ss, Advance);
      var next := Live(adv, vs);
      RoundValuesColumn(ss, vs);
      LiveTails(ss, vs);
      LiveMembers(adv, vs);
      assert forall i :: 0 <= i < |next| ==> next[i].end == Exhausted by {
        forall i | 0 <= i < |next|
          ensures next[i].end == Exhausted
        {
          assert next[i] in adv;
        }
      }
      MergeFixedInterleaves(next);
      InterleaveStep(ls);
    }
  }

  // ---------------------------------------------------------------------------
  // When the as-written removal is right, and when it is not

  lemma {:induction false} SpliceNoneDone<S, V>(vs: seq<Option<V>>, j: nat, U: seq<S>)
    requires forall k :: j <= k < |vs| ==> vs[k].Some?
    ensures SpliceAsWritten(vs, j, U) == U
    decreases |vs| - j
  {
    if j < |vs| {
      SpliceNoneDone(vs, j + 1, U);
    }
  }

  lemma {:induction false} SpliceOneDone<S, V>(a: seq<S>, vs: seq<Option<V>>, i: nat, j: nat)
    requires j <= i < |vs| && |a| == |vs|
    requires vs[i].None? && forall k :: 0 <= k < |vs| && k != i ==> vs[k].Some?
    ensures SpliceAsWritten(vs, j, a) == RemoveAt(a, i)
    decreases i - j
  {
    if j < i {
      SpliceOneDone(a, vs, i, j + 1);
    } else {
      SpliceNoneDone(vs, i + 1, RemoveAt(a, i));
    }
  }

  lemma {:induction false} LiveNoneDone<T, V>(a: seq<T>, vs: seq<Option<V>>)
    requires |a| == |vs| && forall k :: 0 <= k < |vs| ==> vs[k].Some?
    ensures Live(a, vs) == a
    decreases |a|
  {
    if |a| > 0 {
      assert forall k :: 0 <= k < |vs[1..]| ==> vs[1..][k] == vs[k + 1];
      LiveCons(a, vs);
      LiveNoneDone(a[1..], vs[1..]);
    }
  }

  lemma {:induction false} LiveOneDone<T, V>(a: seq<T>, vs: seq<Option<V>>, i: nat)
    requires i < |vs| && |a| == |vs|
    requires vs[i].None? && forall k :: 0 <= k < |vs| && k != i ==> vs[k].Some?
    ensures Live(a, vs) == RemoveAt(a, i)
    decreases |a|
  {
    assert forall k :: 0 <= k < |vs[1..]| ==> vs[1..][k] == vs[k + 1];
    LiveCons(a, vs);
    RemoveAtCons(a, i);
    if i == 0 {
      LiveNoneDone(a[1..], vs[1..]);
    } else {
      LiveOneDone(a[1..], vs[1..], i - 1);
    }
  }

  /** With at most one finished source in a round, the as-written removal is the intended one. */
  lemma SpliceAgrees<S, V>(a: seq<S>, vs: seq<Option<V>>)
    requires |a| == |vs|
    requires forall k, l :: 0 <= k < l < |vs| ==> vs[k].Some? || vs[l].Some?
    ensures SpliceAsWritten(vs, 0, a) == Live(a, vs)
  {
    if exists i :: 0 <= i < |vs| && vs[i].None? {
      var i :| 0 <= i < |vs| && vs[i].None?;
      SpliceOneDone(a, vs, i, 0);
      LiveOneDone(a, vs, i);
    } else {
      SpliceNoneDone(vs, 0, a);
      LiveNoneDone(a, vs);
    }
  }

  /** No two sources have the same number of items left. */
  predicate DistinctLengths<T>(ss: seq<Stream<T>>)
  {
    forall i, j :: 0 <= i < j < |ss| ==> |ss[i].items| != |ss[j].items|
  }

  /** A length no source has plus one is a length no source has after a round. */
  lemma {:induction false} LiveAvoids<T>(ss: seq<Stream<T>>, vs: seq<Option<T>>, n: nat)
    requires |vs| == |ss|
    requires forall i :: 0 <= i < |ss| ==> (vs[i].Some? <==> |ss[i].items| > 0)
    requires forall i :: 0 <= i < |ss| ==> |ss[i].items| != n + 1
    ensures forall i :: 0 <= i < |Live(Apply(ss, Advance), vs)| ==> |Live(Apply(ss, Advance), vs)[i].items| != n
    decreases |ss|
  {
    if |ss| > 0 {
      assert forall i :: 0 <= i < |ss[1..]| ==> ss[1..][i] == ss[i + 1] && vs[1..][i] == vs[i + 1];
      LiveAvoids(ss[1..], vs[1..], n);
      var adv := Apply(ss, Advance);
      assert adv[0] == Advance(ss[0]) && adv[1..] == Apply(ss[1..], Advance);
      LiveCons(adv, vs);
    }
  }

  lemma {:induction false} LiveKeepsDistinct<T>(ss: seq<Stream<T>>, vs: seq<Option<T>>)
    requires |vs| == |ss| && DistinctLengths(ss)
    requires forall i :: 0 <= i < |ss| ==> (vs[i].Some? <==> |ss[i].items| > 0)
    ensures DistinctLengths(Live(Apply(ss, Advance), vs))
    decreases |ss|
  {
    if |ss| > 0 {
      var rest := ss[1..];
      assert forall i :: 0 <= i < |rest| ==> rest[i] == ss[i + 1] && vs[1..][i] == vs[i + 1];
      LiveKeepsDistinct(rest, vs[1..]);
      var adv := Apply(ss, Advance);
      assert adv[0] == Advance(ss[0]) && adv[1..] == Apply(rest, Advance);
      LiveCons(adv, vs);
      var tail := Live(adv[1..], vs[1..]);
      var live := Live(adv, vs);
      if vs[0].Some? {
        var n := |ss[0].items| - 1;
        assert forall i :: 0 <= i < |rest| ==> |rest[i].items| != n + 1;
        LiveAvoids(rest, vs[1..], n);
        assert |live[0].items| == n;
        forall i, j | 0 <= i < j < |live|
          ensures |live[i].items| != |live[j].items|
        {
          assert live[j] == tail[j - 1];
          if i > 0 {
            assert live[i] == tail[i - 1];
          }
        }
      }
    }
  }

  /**
    When no two sources have the same length, at most one source finishes in any round, and
    merge as written behaves as intended.
   */
  lemma {:induction false} MergeAgreesOnDistinctLengths<T>(ss: seq<Stream<T>>)
    requires DistinctLengths(ss)
    ensures MergeAsWritten(ss) == MergeFixed(ss)
    decreases Weight(ss)
  {
    if |ss| > 0 && AwaitAll(Apply(ss, Pull)).Ok? {
      var vs := AwaitAll(Apply(ss, Pull)).value;
      var adv := Apply(ss, Advance);
      RoundPulls(ss);
      RoundProgress(ss);
      assert forall k, l :: 0 <= k < l < |vs| ==> vs[k].Some? || vs[l].Some?;
      SpliceAgrees(adv, vs);
      LiveKeepsDistinct(ss, vs);
      MergeAgreesOnDistinctLengths(Live(adv, vs));
    }
  }

  lemma InterleaveTwoFour(a1: int, a2: int, b1: int, b2: int, b3: int, b4: int)
    ensures Interleave([[a1, a2], [b1, b2, b3, b4]]) == [a1, b1, a2, b2, b3, b4]
  {
    var ls := [[a1, a2], [b1, b2, b3, b4]];
    var lb: seq<seq<int>> := [[b1, b2, b3, b4]];
    assert ls[1..] == lb && lb[1..] == [];
    assert MaxLen(lb) == 4;
    assert MaxLen(ls) == 4;
    assert Column(ls, 0) == [a1] + Column(lb, 0) == [a1, b1];
    assert Column(ls, 1) == [a2] + Column(lb, 1) == [a2, b2];
    assert Column(ls, 2) == Column(lb, 2) == [b3];
    assert Column(ls, 3) == Column(lb, 3) == [b4];
    assert Rounds(ls, 3, 4) == [b4];
    assert Rounds(ls, 2, 4) == [b3, b4];
    assert Rounds(ls, 1, 4) == [a2, b2, b3, b4];
  }

  /** Two sources of lengths two and four: both removal rules give the round-robin order. */
  lemma MergeTwoSources(a1: int, a2: int, b1: int, b2: int, b3: int, b4: int)
    ensures var ss := [Stream([a1, a2], Exhausted), Stream([b1, b2, b3, b4], Exhausted)];
      && MergeFixed(ss).items == [a1, b1, a2, b2, b3, b4]
      && MergeAsWritten(ss) == MergeFixed(ss)
  {
    var ss := [Stream([a1, a2], Exhausted), Stream([b1, b2, b3, b4], Exhausted)];
    MergeFixedInterleaves(ss);
    MergeAgreesOnDistinctLengths(ss);
    assert Apply(ss, Items) == [[a1, a2], [b1, b2, b3, b4]];
    InterleaveTwoFour(a1, a2, b1, b2, b3, b4);
  }

  lemma InterleaveLate(c1: int, c2: int)
    ensures Interleave([[], [], [c1, c2]]) == [c1, c2]
  {
    var ls: seq<seq<int>> := [[], [], [c1, c2]];
    var lc: seq<seq<int>> := [[c1, c2]];
    assert ls[1..][1..] == lc && lc[1..] == [];
    assert MaxLen(lc) == 2 && MaxLen(ls[1..]) == 2 && MaxLen(ls) == 2;
    assert Column(ls, 0) == Column(ls[1..], 0) == Column(lc, 0) == [c1];
    assert Column(ls, 1) == Column(ls[1..], 1) == Column(lc, 1) == [c2];
    assert Rounds(ls, 1, 2) == [c2];
  }

  /** One round of merge as written, unfolded. */
  lemma MergeAsWrittenRound<T>(ss: seq<Stream<T>>, vs: seq<Option<T>>)
    requires |ss| > 0 && AwaitAll(Apply(ss, Pull)) == Ok(vs)
    ensures var rest := MergeAsWritten(SpliceAsWritten(vs, 0, Apply(ss, Advance)));
      MergeAsWritten(ss) == Stream(RoundValues(vs) + rest.items, rest.end)
  {
  }

  /** The sources [], [] and [c1, c2] as one list. */
  function Late(c1: int, c2: int): seq<Stream<int>>
  {
    [Stream([], Exhausted), Stream([], Exhausted), Stream([c1, c2], Exhausted)]
  }

  lemma LatePulls(c1: int, c2: int)
    ensures AwaitAll(Apply(Late(c1, c2), Pull)) == Ok([None, None, Some(c1)])
    ensures RoundValues([None, None, Some(c1)]) == [c1]
  {
    var ss := Late(c1, c2);
    var vs: seq<Option<int>> := [None, None, Some(c1)];
    assert Apply(ss, Pull) == [Ok(None), Ok(None), Ok(Some(c1))];
    var r := AwaitAll(Apply(ss, Pull));
    assert r.Ok? && r.value[0] == None && r.value[1] == None && r.value[2] == Some(c1);
    assert r.value == vs;
    RoundValuesCons(vs);
    RoundValuesCons(vs[1..]);
    RoundValuesCons(vs[2..]);
    assert RoundValues(vs[3..]) == [];
  }

  lemma LateSplice(c1: int, c2: int)
    ensures SpliceAsWritten([None, None, Some(c1)], 0, Apply(Late(c1, c2), Advance)) == [Stream([], Exhausted)]
  {
    var empty: Stream<int> := Stream([], Exhausted);
    var vs: seq<Option<int>> := [None, None, Some(c1)];
    var adv := Apply(Late(c1, c2), Advance);
    assert adv == [empty, empty, Stream([c2], Exhausted)];
    // index 0 removes the first source, index 1 then removes [c2]
    var s1: seq<Stream<int>> := [empty, Stream([c2], Exhausted)];
    var s2: seq<Stream<int>> := [empty];
    assert RemoveAt(adv, 0) == s1;
    assert RemoveAt(s1, 1) == s2;
    assert SpliceAsWritten(vs, 3, s2) == s2;
    assert SpliceAsWritten(vs, 2, s2) == s2;
    assert SpliceAsWritten(vs, 1, s1) == s2;
  }

  /** The first round of merge as written over [], [] and [c1, c2]: it yields c1 and keeps only an empty source. */
  lemma FirstRoundAsWritten(c1: int, c2: int)
    ensures MergeAsWritten(Late(c1, c2)).items == [c1] + MergeAsWritten<int>([Stream([], Exhausted)]).items
  {
    LatePulls(c1, c2);
    LateSplice(c1, c2);
    MergeAsWrittenRound(Late(c1, c2), [None, None, Some(c1)]);
  }

  /** A lone finished source ends merge as written. */
  lemma LastRoundAsWritten()
    ensures MergeAsWritten<int>([Stream([], Exhausted)]) == Stream([], Exhausted)
  {
    var s2: seq<Stream<int>> := [Stream([], Exhausted)];
    var none: seq<Option<int>> := [None];
    var nil: seq<Stream<int>> := [];
    var r2 := AwaitAll(Apply(s2, Pull));
    assert Apply(s2, Pull) == [Ok(None)];
    assert r2.Ok? && r2.value[0] == None;
    assert r2.value == none;
    assert Apply(s2, Advance) == s2;
    assert RemoveAt(s2, 0) == nil;
    assert SpliceAsWritten(none, 1, nil) == nil;
    RoundValuesCons(none);
    assert RoundValues(none[1..]) == [];
  }

  /**
    Two sources finishing in the same round make merge as written drop a live source:
    merging [], [] and [c1, c2] loses c2, which the intended removal keeps.
   */
  lemma MergeLosesItems(c1: int, c2: int)
    ensures MergeAsWritten(Late(c1, c2)).items == [c1]
    ensures MergeFixed(Late(c1, c2)).items == [c1, c2]
  {
    var ss := Late(c1, c2);
    FirstRoundAsWritten(c1, c2);
    LastRoundAsWritten();
    MergeFixedInterleaves(ss);
    assert Apply(ss, Items) == [[], [], [c1, c2]];
    InterleaveLate(c1, c2);
  }
}
