/**
  Values, finite runs of lazily pulled sequences, and the outcomes of user callbacks,
  shared by every stage of the pipeline model.

  An async generator driven over a finite input is modelled by the finite list of items it
  yields followed by how it ended: exhausted, or failed with the error it threw.
 */
module Streams {

  datatype Option<T> = None | Some(value: T)

  /** A thrown JavaScript error; dispatch in error maps looks only at its `name`. */
  datatype Error = Error(name: string, message: string)

  /** How a finite run of a sequence ended. */
  datatype End = Exhausted | Failed(err: Error)

  /** A finite run of an async generator: the items it yielded, then how it ended. */
  datatype Stream<T> = Stream(items: seq<T>, end: End)

  /** A stage's output together with the number of items it pulled from its source. */
  datatype Run<T> = Run(out: Stream<T>, pulled: nat)

  /** Outcome of a plain callback: it returned a value or threw. */
  datatype Try<R> = Ok(value: R) | Thrown(err: Error)

  /**
    What one call of a user step did: the values it passed to `emit` (and, for `map`, to
    `done`) in call order, whether it called `done`, and whether it returned (a return of
    `undefined` is `None`) or threw after those calls.
   */
  datatype Outcome<U> =
    | Returned(ret: Option<U>, emitted: seq<U>, calledDone: bool)
    | Threw(err: Error, emitted: seq<U>, calledDone: bool)

  /** How many calls returned normally (each advances the index). */
  function Successes<U>(calls: seq<Outcome<U>>): nat
  {
    if |calls| == 0 then 0 else (if calls[0].Returned? then 1 else 0) + Successes(calls[1..])
  }

  /** Every value the calls passed to `emit`, in call order. */
  function Emissions<U>(calls: seq<Outcome<U>>): seq<U>
  {
    if |calls| == 0 then [] else calls[0].emitted + Emissions(calls[1..])
  }

  /** Some call asked to stop. */
  predicate DoneCalled<U>(calls: seq<Outcome<U>>)
  {
    exists i :: 0 <= i < |calls| && calls[i].calledDone
  }

  /** A dynamically typed JavaScript value, as the pipeline facade carries it. */
  datatype Value =
    | Atom(n: int)
    | Text(s: string)
    | List(elems: seq<Value>)
    | Record(fields: map<string, seq<Value>>)

  /** `[v]` for a defined value, `[]` for `undefined`. */
  function OptSeq<T>(o: Option<T>): (r: seq<T>)
    ensures |r| <= 1
    ensures o.Some? ==> r == [o.value]
    ensures o.None? ==> r == []
  {
    match o
    case None => []
    case Some(v) => [v]
  }

  /** The head and tail of a concatenation with a non-empty left part. */
  lemma AppendTail<T>(a: seq<T>, b: seq<T>)
    requires |a| > 0
    ensures (a + b)[0] == a[0] && (a + b)[1..] == a[1..] + b
  {
  }

  /** A prefix of a non-empty list is its head followed by a prefix of its tail. */
  lemma PrefixCons<T>(s: seq<T>, n: nat)
    requires n < |s|
    ensures s[..n + 1] == [s[0]] + s[1..][..n]
  {
  }

  lemma AppendAssoc<T>(a: seq<T>, b: seq<T>, c: seq<T>)
    ensures (a + b) + c == a + (b + c)
  {
  }

  /** Concatenation of a list of lists. */
  function Flatten<T>(ss: seq<seq<T>>): seq<T>
  {
    if |ss| == 0 then [] else ss[0] + Flatten(ss[1..])
  }

  lemma {:induction false} FlattenAppend<T>(a: seq<seq<T>>, b: seq<seq<T>>)
    ensures Flatten(a + b) == Flatten(a) + Flatten(b)
    decreases |a|
  {
    if |a| == 0 {
      assert a + b == b;
    } else {
      AppendTail(a, b);
      FlattenAppend(a[1..], b);
      AppendAssoc(a[0], Flatten(a[1..]), Flatten(b));
    }
  }

  /** The in-order subsequence of `s` whose elements satisfy `p`. */
  function Where<T>(s: seq<T>, p: T -> bool): seq<T>
  {
    if |s| == 0 then [] else (if p(s[0]) then [s[0]] else []) + Where(s[1..], p)
  }

  lemma {:induction false} WhereAppend<T>(a: seq<T>, b: seq<T>, p: T -> bool)
    ensures Where(a + b, p) == Where(a, p) + Where(b, p)
    decreases |a|
  {
    if |a| == 0 {
      assert a + b == b;
    } else {
      AppendTail(a, b);
      WhereAppend(a[1..], b, p);
      AppendAssoc(if p(a[0]) then [a[0]] else [], Where(a[1..], p), Where(b, p));
    }
  }

  /** `Where` agrees for predicates that agree on the elements of `s`. */
  lemma {:induction false} WhereCongruent<T>(s: seq<T>, p: T -> bool, q: T -> bool)
    requires forall i :: 0 <= i < |s| ==> p(s[i]) == q(s[i])
    ensures Where(s, p) == Where(s, q)
    decreases |s|
  {
    if |s| > 0 {
      WhereCongruent(s[1..], p, q);
    }
  }

  /** Applies `f` to every element of a list. */
  function Apply<A, B>(s: seq<A>, f: A -> B): (r: seq<B>)
    ensures |r| == |s|
    ensures forall i :: 0 <= i < |s| ==> r[i] == f(s[i])
  {
    seq(|s|, i requires 0 <= i < |s| => f(s[i]))
  }

  lemma ApplyCons<A, B>(s: seq<A>, f: A -> B)
    requires |s| > 0
    ensures Apply(s, f) == [f(s[0])] + Apply(s[1..], f)
  {
  }

  /** Flattening a mapped list, one element at a time. */
  lemma FlattenApplyCons<A, B>(s: seq<A>, f: A -> seq<B>)
    requires |s| > 0
    ensures Flatten(Apply(s, f)) == f(s[0]) + Flatten(Apply(s[1..], f))
  {
    assert Apply(s, f)[1..] == Apply(s[1..], f);
  }

  /** Applies `f` to every item of a stream, keeping how it ended. */
  function Lift<A, B>(s: Stream<A>, f: A -> B): (r: Stream<B>)
    ensures r.end == s.end && r.items == Apply(s.items, f)
  {
    Stream(Apply(s.items, f), s.end)
  }
}
