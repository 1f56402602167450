/**
  The stages of src/transformers.ts that are defined as particular reducers: `chunk`, `take`,
  `split` and `join`.
 */
module FoldStages {
  import opened Streams
  import opened Errors
  import opened Fold

  /** The finisher of chunk and take: it emits the accumulator as it stands. */
  function EmitAcc<U>(): Finisher<U>
  {
    (acc: U) => Finished([acc])
  }

  // ---------------------------------------------------------------------------
  // chunk

  /** chunk's step: buffer the item; a full buffer is emitted and replaced by a fresh one. */
  function ChunkStep<T>(size: int): Step<T, seq<T>>
  {
    (acc: seq<T>, x: T, i: nat) =>
      var a := acc + [x];
      if |a| == size then Returned(Some([]), [a], false) else Returned(Some(a), [], false)
  }

  /**
    chunk(source, size), where `size` is compared with the buffer length for equality only.
    It reads its whole source. A completed run yields the blocks of the input: every chunk but
    the last has exactly `size` items, the last is the remainder (empty when the input length
    is a positive multiple of `size`), and concatenated they give back the input. With fewer
    than `size` items (or a size below 1) the only chunk is the whole input. A failed run has
    yielded every full chunk but not the remainder.
   */
  function Chunk<T>(src: Stream<T>, size: int): (r: Run<seq<T>>)
    ensures r.pulled == |src.items|
    ensures src.end.Exhausted? ==> r.out == Stream(Blocks(src.items, size), Exhausted)
    ensures src.end.Failed? ==> r.out == Stream(AllButLast(Blocks(src.items, size)), src.end)
    ensures src.end.Exhausted? ==> Flatten(r.out.items) == src.items
    ensures forall j :: 0 <= j < |r.out.items| - 1 ==> |r.out.items[j]| == size
    ensures src.end.Failed? ==> forall j :: 0 <= j < |r.out.items| ==> |r.out.items[j]| == size
    ensures size <= 0 || |src.items| < size ==> r.out.items == (if src.end.Exhausted? then [src.items] else [])
  {
    ChunkLoop(src.items, src.end, Start([]), size);
    assert [] + src.items == src.items;
    BlocksShape(src.items, size);
    var bl := Blocks(src.items, size);
    assert forall j :: 0 <= j < |AllButLast(bl)| ==> AllButLast(bl)[j] == bl[j];
    Reduce(src, ChunkStep(size), [], None, EmitAcc())
  }

  /**
    The blocks of `s`: consecutive runs of `size` elements followed by the remainder, which is
    empty when `size` divides a non-empty `s`. A size below 1 never splits.
   */
  function Blocks<T>(s: seq<T>, size: int): seq<seq<T>>
    decreases |s|
  {
    if size <= 0 || |s| < size then [s] else [s[..size]] + Blocks(s[size..], size)
  }

  /** Everything but the last element. */
  function AllButLast<T>(s: seq<T>): seq<T>
  {
    if |s| == 0 then [] else s[..|s| - 1]
  }

  lemma BlocksCons<T>(s: seq<T>, size: int)
    requires 0 < size <= |s|
    ensures Blocks(s, size) == [s[..size]] + Blocks(s[size..], size)
  {
  }

  lemma {:induction false} BlocksFlatten<T>(s: seq<T>, size: int)
    ensures Flatten(Blocks(s, size)) == s
    decreases |s|
  {
    if !(size <= 0 || |s| < size) {
      BlocksFlatten(s[size..], size);
      BlocksCons(s, size);
      AppendTail([s[..size]], Blocks(s[size..], size));
      assert s[..size] + s[size..] == s;
    } else {
      assert Flatten([s]) == s + Flatten([s][1..]);
      assert [s][1..] == [];
    }
  }

  lemma {:induction false} BlocksSizes<T>(s: seq<T>, size: int)
    ensures var b := Blocks(s, size);
      && |b| > 0
      && (forall j :: 0 <= j < |b| - 1 ==> |b[j]| == size)
      && (size > 0 ==> |b[|b| - 1]| < size)
    decreases |s|
  {
    if !(size <= 0 || |s| < size) {
      BlocksSizes(s[size..], size);
      BlocksCons(s, size);
      var rest := Blocks(s[size..], size);
      var b := [s[..size]] + rest;
      AppendTail([s[..size]], rest);
      forall j | 0 <= j < |b| - 1
        ensures |b[j]| == size
      {
        if j > 0 {
          assert b[j] == rest[j - 1];
        }
      }
      assert b[|b| - 1] == rest[|rest| - 1];
    }
  }

  lemma BlocksShape<T>(s: seq<T>, size: int)
    ensures var b := Blocks(s, size);
      && |b| > 0
      && Flatten(b) == s
      && (forall j :: 0 <= j < |b| - 1 ==> |b[j]| == size)
      && (size > 0 ==> |b[|b| - 1]| < size)
      && (size <= 0 || |s| < size ==> b == [s])
  {
    BlocksFlatten(s, size);
    BlocksSizes(s, size);
  }

  /** One chunk call from buffer `b`, read off the blocks of what remains. */
  lemma ChunkStepBlocks<T>(b: seq<T>, items: seq<T>, size: int)
    requires |items| > 0 && (size <= 0 || |b| < size)
    ensures var a := b + [items[0]];
      && (|a| == size ==> Blocks(b + items, size) == [a] + Blocks(items[1..], size))
      && (|a| != size ==> Blocks(b + items, size) == Blocks(a + items[1..], size))
  {
    var a := b + [items[0]];
    assert b + items == a + items[1..];
    if |a| == size {
      var s := b + items;
      assert s[..size] == a && s[size..] == items[1..];
    }
  }

  /** What chunk yields from buffer `b` over `items`, read off the blocks of `b + items`. */
  ghost predicate ChunkLaw<T>(t: FoldTrace<seq<T>>, b: seq<T>, items: seq<T>, end: End, size: int)
  {
    var bl := Blocks(b + items, size);
    && |t.calls| == |items|
    && t.out == (if end.Exhausted? then Stream(bl, Exhausted) else Stream(AllButLast(bl), end))
  }

  lemma ChunkLawCons<T>(o: Outcome<seq<T>>, rest: FoldTrace<seq<T>>, b: seq<T>, items: seq<T>, end: End, size: int)
    requires |items| > 0 && (size <= 0 || |b| < size)
    requires var a := b + [items[0]];
      ChunkLaw(rest, if |a| == size then [] else a, items[1..], end, size)
    ensures var a := b + [items[0]];
      ChunkLaw(FoldTrace(Stream((if |a| == size then [a] else []) + rest.out.items, rest.out.end), [o] + rest.calls),
               b, items, end, size)
  {
    var a := b + [items[0]];
    ChunkStepBlocks(b, items, size);
    if |a| == size {
      assert [] + items[1..] == items[1..];
      BlocksShape(items[1..], size);
      assert AllButLast([a] + Blocks(items[1..], size)) == [a] + AllButLast(Blocks(items[1..], size));
    }
  }

  lemma {:induction false} ChunkLoop<T>(items: seq<T>, end: End, st: FoldState<seq<T>>, size: int)
    requires st.queue == [] && !st.aborted && (size <= 0 || |st.acc| < size)
    ensures ChunkLaw(Loop(items, end, st, ChunkStep(size), None, EmitAcc()), st.acc, items, end, size)
    decreases |items|
  {
    if |items| == 0 {
      assert st.acc + items == st.acc;
      BlocksShape(st.acc, size);
    } else {
      var a := st.acc + [items[0]];
      var o := ChunkStep(size)(st.acc, items[0], st.index);
      assert o == if |a| == size then Returned(Some([]), [a], false) else Returned(Some(a), [], false);
      LoopHeadContinues(items, end, st, ChunkStep(size), None, EmitAcc());
      var st' := After(st, o);
      assert st'.acc == (if |a| == size then [] else a) && st'.queue == [] && !st'.aborted;
      assert Flush(st, o) == if |a| == size then [a] else [];
      ChunkLoop(items[1..], end, st', size);
      ChunkLawCons(o, Loop(items[1..], end, st', ChunkStep(size), None, EmitAcc()), st.acc, items, end, size);
    }
  }

  // ---------------------------------------------------------------------------
  // take

  /** take's step: a buffer of `count` items calls `done` instead of growing. */
  function TakeStep<T>(count: int): Step<T, seq<T>>
  {
    (acc: seq<T>, x: T, i: nat) =>
      if |acc| == count then Returned(Some(acc), [], true) else Returned(Some(acc + [x]), [], false)
  }

  /**
    take(source, count) never emits, so it yields a single list. With `0 <= count < n` it is
    the first `count` items, after reading `count + 1` items, and the run completes even if the
    source would later have failed. Otherwise (`count >= n`, or a negative count that the
    buffer length never equals) the whole source is read and the list is the whole input, or
    nothing if the source failed.
   */
  function Take<T>(src: Stream<T>, count: int): (r: Run<seq<T>>)
    ensures 0 <= count < |src.items| ==> r == Run(Stream([src.items[..count]], Exhausted), count + 1)
    ensures !(0 <= count < |src.items|) ==>
              r == Run(if src.end.Exhausted? then Stream([src.items], Exhausted) else Stream([], src.end), |src.items|)
  {
    if 0 <= count < |src.items| then
      TakeLoopStops(src.items, src.end, Start([]), count);
      assert [] + src.items[..count - 0] == src.items[..count];
      Reduce(src, TakeStep(count), [], None, EmitAcc())
    else
      TakeLoopAll(src.items, src.end, Start([]), count);
      assert [] + src.items == src.items;
      Reduce(src, TakeStep(count), [], None, EmitAcc())
  }

  /** take reading a source longer than what it still needs: it stops at the item past the count. */
  lemma {:induction false} TakeLoopStops<T>(items: seq<T>, end: End, st: FoldState<seq<T>>, count: int)
    requires st.mode == Implicit && st.queue == [] && !st.aborted
    requires 0 <= count && |st.acc| <= count < |st.acc| + |items|
    ensures var t := Loop(items, end, st, TakeStep(count), None, EmitAcc());
      |t.calls| == count - |st.acc| + 1 && t.out == Stream([st.acc + items[..count - |st.acc|]], Exhausted)
    decreases |items|, 1
  {
    var o := TakeStep(count)(st.acc, items[0], st.index);
    if |st.acc| == count {
      assert o == Returned(Some(st.acc), [], true);
      LoopHeadStops(items, end, st, TakeStep(count), None, EmitAcc());
      assert After(st, o).mode == Implicit && After(st, o).acc == st.acc;
      assert Flush(st, o) == [];
      assert st.acc + items[..0] == st.acc;
    } else {
      TakeLoopStopsCons(items, end, st, count);
    }
  }

  /** One step of TakeLoopStops when the buffer is still short of the count. */
  lemma {:induction false} TakeLoopStopsCons<T>(items: seq<T>, end: End, st: FoldState<seq<T>>, count: int)
    requires st.mode == Implicit && st.queue == [] && !st.aborted
    requires 0 <= count && |st.acc| < count < |st.acc| + |items|
    ensures var t := Loop(items, end, st, TakeStep(count), None, EmitAcc());
      |t.calls| == count - |st.acc| + 1 && t.out == Stream([st.acc + items[..count - |st.acc|]], Exhausted)
    decreases |items|, 0
  {
    var o := TakeStep(count)(st.acc, items[0], st.index);
    var a := st.acc + [items[0]];
    assert o == Returned(Some(a), [], false);
    LoopHeadContinues(items, end, st, TakeStep(count), None, EmitAcc());
    var st' := After(st, o);
    assert st'.acc == a && st'.mode == Implicit && st'.queue == [] && !st'.aborted;
    assert Flush(st, o) == [];
    TakeLoopStops(items[1..], end, st', count);
    var rest := Loop(items[1..], end, st', TakeStep(count), None, EmitAcc());
    var m := count - |a|;
    assert rest.out == Stream([a + items[1..][..m]], Exhausted);
    PrefixCons(items, m);
    AppendAssoc(st.acc, [items[0]], items[1..][..m]);
    assert a + items[1..][..m] == st.acc + items[..count - |st.acc|];
  }

  /** take reading a source no longer than what it still needs: it reads everything. */
  lemma {:induction false} TakeLoopAll<T>(items: seq<T>, end: End, st: FoldState<seq<T>>, count: int)
    requires st.mode == Implicit && st.queue == [] && !st.aborted
    requires count >= 0 ==> |st.acc| + |items| <= count
    ensures var t := Loop(items, end, st, TakeStep(count), None, EmitAcc());
      |t.calls| == |items| && t.out == (if end.Exhausted? then Stream([st.acc + items], Exhausted) else Stream([], end))
    decreases |items|
  {
    if |items| == 0 {
      assert st.acc + items == st.acc;
    } else {
      var o := TakeStep(count)(st.acc, items[0], st.index);
      var a := st.acc + [items[0]];
      assert o == Returned(Some(a), [], false);
      LoopHeadContinues(items, end, st, TakeStep(count), None, EmitAcc());
      TakeLoopAll(items[1..], end, After(st, o), count);
      assert [items[0]] + items[1..] == items;
      AppendAssoc(st.acc, [items[0]], items[1..]);
    }
  }

  // ---------------------------------------------------------------------------
  // split

  /**
    split's step: emit every part of the item and return `undefined`. Splitting an item is a
    parameter, `parts`, which throws when the item has no `split` method.
   */
  function SplitStep<T>(parts: T -> Try<seq<string>>): Step<T, string>
  {
    (acc: string, x: T, i: nat) =>
      match parts(x)
      case Ok(ps) => Returned(None, ps, false)
      case Thrown(e) => Threw(e, [], false)
  }

  /** The index of the first item that does not split, `|items|` when every item splits. */
  function FirstThrow<T>(items: seq<T>, parts: T -> Try<seq<string>>): (k: nat)
    ensures k <= |items|
    ensures k < |items| ==> parts(items[k]).Thrown?
    ensures forall j :: 0 <= j < k ==> parts(items[j]).Ok?
    decreases |items|
  {
    if |items| == 0 then 0
    else if parts(items[0]).Thrown? then 0
    else 1 + FirstThrow(items[1..], parts)
  }

  /** The parts of an item that splits; none for one that does not. */
  function PartsOf<T>(parts: T -> Try<seq<string>>): T -> seq<string>
  {
    x => if parts(x).Ok? then parts(x).value else []
  }

  /**
    split(source, separator, limit), with the per-item splitting as `parts`. When every item
    splits, it yields all parts of all items in order, reading everything; if no item produced
    a part, a completed run yields the empty initial accumulator `""` once instead. An item
    that does not split ends the run with its error, after the parts of the items before it.
   */
  function Split<T>(src: Stream<T>, parts: T -> Try<seq<string>>): (r: Run<string>)
    ensures var k := FirstThrow(src.items, parts);
      k < |src.items| ==>
        r == Run(Stream(Flatten(Apply(src.items[..k], PartsOf(parts))), Failed(parts(src.items[k]).err)), k + 1)
    ensures var all := Flatten(Apply(src.items, PartsOf(parts)));
      FirstThrow(src.items, parts) == |src.items| ==>
        r == Run(if src.end.Failed? then Stream(all, src.end)
                 else if all == [] then Stream([""], Exhausted)
                 else Stream(all, Exhausted), |src.items|)
  {
    var k := FirstThrow(src.items, parts);
    if k < |src.items| then
      SplitLoopFails(src.items, src.end, Start(""), parts, PartsOf(parts), k);
      Reduce(src, SplitStep(parts), "", None, NoFinisher())
    else
      SplitLoop(src.items, src.end, Start(""), parts, PartsOf(parts));
      assert Start("").mode == Implicit;
      Reduce(src, SplitStep(parts), "", None, NoFinisher())
  }

  /** What split yields over `items` in mode `m`, when every item splits into `ps`. */
  ghost predicate SplitLaw<T>(t: FoldTrace<string>, m: Mode, items: seq<T>, end: End, ps: T -> seq<string>)
  {
    var all := Flatten(Apply(items, ps));
    && |t.calls| == |items|
    && t.out == (if end.Failed? then Stream(all, end)
                 else if m == Implicit && all == [] then Stream([""], Exhausted)
                 else Stream(all, Exhausted))
  }

  lemma SplitLawCons<T>(o: Outcome<string>, rest: FoldTrace<string>, m: Mode, items: seq<T>, end: End,
                        ps: T -> seq<string>)
    requires |items| > 0
    requires SplitLaw(rest, if ps(items[0]) == [] then m else Explicit, items[1..], end, ps)
    ensures SplitLaw(FoldTrace(Stream(ps(items[0]) + rest.out.items, rest.out.end), [o] + rest.calls), m, items, end, ps)
  {
    ApplyCons(items, ps);
    assert Flatten(Apply(items, ps)) == ps(items[0]) + Flatten(Apply(items[1..], ps)) by {
      assert Apply(items, ps)[1..] == Apply(items[1..], ps);
    }
  }

  /** One split call on an item that splits into `y`: the parts are yielded at once and the loop goes on. */
  lemma SplitHead<T>(items: seq<T>, end: End, st: FoldState<string>, parts: T -> Try<seq<string>>, y: seq<string>)
    requires st.acc == "" && st.queue == [] && !st.aborted
    requires |items| > 0 && parts(items[0]) == Ok(y)
    ensures var o := Returned(None, y, false);
      && SplitStep(parts)(st.acc, items[0], st.index) == o
      && After(st, o).acc == "" && After(st, o).queue == [] && !After(st, o).aborted
      && After(st, o).mode == (if y == [] then st.mode else Explicit)
      && var t := Loop(items, end, st, SplitStep(parts), None, NoFinisher());
         var rest := Loop(items[1..], end, After(st, o), SplitStep(parts), None, NoFinisher());
         t == FoldTrace(Stream(y + rest.out.items, rest.out.end), [o] + rest.calls)
  {
    var o := Returned(None, y, false);
    assert SplitStep(parts)(st.acc, items[0], st.index) == o;
    var st' := After(st, o);
    assert st' == st.(index := st.index + 1, queue := [], mode := if y == [] then st.mode else Explicit);
    assert Continues(st, o, items[0], None);
    assert Flush(st, o) == y;
    LoopHeadContinues(items, end, st, SplitStep(parts), None, NoFinisher());
  }

  lemma {:induction false} SplitLoop<T>(items: seq<T>, end: End, st: FoldState<string>,
                                        parts: T -> Try<seq<string>>, ps: T -> seq<string>)
    requires st.acc == "" && st.queue == [] && !st.aborted
    requires forall j :: 0 <= j < |items| ==> parts(items[j]) == Ok(ps(items[j]))
    ensures SplitLaw(Loop(items, end, st, SplitStep(parts), None, NoFinisher()), st.mode, items, end, ps)
    decreases |items|
  {
    if |items| > 0 {
      var x := items[0];
      assert parts(x) == Ok(ps(x));
      var o := Returned(None, ps(x), false);
      SplitHead(items, end, st, parts, ps(x));
      var st' := After(st, o);
      assert forall j :: 0 <= j < |items[1..]| ==> items[1..][j] == items[j + 1];
      SplitLoop(items[1..], end, st', parts, ps);
      SplitLawCons(o, Loop(items[1..], end, st', SplitStep(parts), None, NoFinisher()), st.mode, items, end, ps);
    }
  }

  lemma {:induction false} SplitLoopFails<T>(items: seq<T>, end: End, st: FoldState<string>,
                                             parts: T -> Try<seq<string>>, ps: T -> seq<string>, k: nat)
    requires st.acc == "" && st.queue == [] && !st.aborted
    requires k < |items| && parts(items[k]).Thrown?
    requires forall j :: 0 <= j < k ==> parts(items[j]) == Ok(ps(items[j]))
    ensures var t := Loop(items, end, st, SplitStep(parts), None, NoFinisher());
      t.out == Stream(Flatten(Apply(items[..k], ps)), Failed(parts(items[k]).err)) && |t.calls| == k + 1
    decreases k
  {
    var x := items[0];
    if k == 0 {
      var o := SplitStep(parts)(st.acc, x, st.index);
      assert o == Threw(parts(x).err, [], false);
      LoopHeadStops(items, end, st, SplitStep(parts), None, NoFinisher());
      assert items[..0] == [];
    } else {
      assert parts(x) == Ok(ps(x));
      SplitHead(items, end, st, parts, ps(x));
      var st' := After(st, Returned(None, ps(x), false));
      assert forall j :: 0 <= j < k - 1 ==> items[1..][j] == items[j + 1];
      SplitLoopFails(items[1..], end, st', parts, ps, k - 1);
      assert items[..k][1..] == items[1..][..k - 1];
      FlattenApplyCons(items[..k], ps);
    }
  }

  // ---------------------------------------------------------------------------
  // join

  /**
    join's step: the text so far, then the item as text, then the delimiter; `show` is JavaScript's conversion of
    an item to a string (the identity on strings).
   */
  function JoinStep<T>(show: T -> string, delimiter: string): (U: (string, T) -> string)
  {
    (acc: string, x: T) => acc + show(x) + delimiter
  }

  /** An item followed by the delimiter. */
  function Delimited<T>(show: T -> string, delimiter: string): T -> string
  {
    (x: T) => show(x) + delimiter
  }

  /**
    join(source, delimiter) yields exactly one string: every item followed by the delimiter,
    concatenated (so with a trailing delimiter, and `""` for an empty source); nothing if the
    source failed. It reads its whole source.
   */
  function Join<T>(src: Stream<T>, show: T -> string, delimiter: string): (r: Run<string>)
    ensures r == Run(if src.end.Exhausted? then Stream([Flatten(Apply(src.items, Delimited(show, delimiter)))], Exhausted)
                     else Stream([], src.end), |src.items|)
  {
    ReducePlain(src, JoinStep(show, delimiter), "", None, NoFinisher());
    JoinFold("", src.items, show, delimiter);
    assert "" + Flatten(Apply(src.items, Delimited(show, delimiter))) == Flatten(Apply(src.items, Delimited(show, delimiter)));
    Reduce(src, Plain(JoinStep(show, delimiter)), "", None, NoFinisher())
  }

  lemma {:induction false} JoinFold<T>(a: string, s: seq<T>, show: T -> string, delimiter: string)
    ensures FoldLeft(JoinStep(show, delimiter), a, s) == a + Flatten(Apply(s, Delimited(show, delimiter)))
    decreases |s|
  {
    if |s| > 0 {
      JoinFold(a + show(s[0]) + delimiter, s[1..], show, delimiter);
      ApplyCons(s, Delimited(show, delimiter));
      assert Apply(s, Delimited(show, delimiter))[1..] == Apply(s[1..], Delimited(show, delimiter));
    }
  }
}
