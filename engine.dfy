/**
 * The pacing operator `coolit` (src/coolit.ts:18-33) as the state machine of
 * the async generator it returns. The mind is abstract here: each awaited
 * `mind.next()` is counted in `steps` and recorded as a `Wait` in the trace;
 * what a step costs in time is the business of the Mind module.
 */
module Engine {
  import opened Utils
  import opened Events
  import opened Hot

  /**
   * Where the generator is suspended: before its body has run, at a `yield`,
   * completed because the source reported done, or completed by `return()`.
   */
  datatype Phase = Start | AtYield | Exhausted | Abandoned

  /** The generator returned by `coolit(hot, { mind })`. */
  class Coolit<T> {
    const hot: Source<T>
    /** How many pulls the source had seen when it was handed over. */
    ghost const from: nat
    var phase: Phase
    /** Which loop the body took: `for await` (line 23) or `for ... of` (line 28). */
    var asyncLoop: bool
    /** `mind.next()` calls awaited so far. */
    var steps: nat
    ghost var yielded: seq<T>
    ghost var trace: seq<Event<T>>
    /** The first pull found the source already closed, so the run ended at once. */
    ghost var cut: bool

    ghost predicate Valid()
      reads this, hot
    {
      && Emits(hot.stream, from, yielded)
      && (phase == AtYield || phase == Exhausted ==> asyncLoop == IsAsyncIterableIterator(hot.shape))
      && (cut ==> phase == Exhausted && yielded == [] && hot.pos == from && hot.closed)
      && match phase
         case Start =>
           yielded == [] && hot.pos == from && steps == 0 && trace == []
         case AtYield =>
           && yielded != [] && hot.pos == from + |yielded| && !hot.closed
           && steps == |yielded| - 1 && trace == Paced(yielded)
         case Exhausted =>
           && (cut || (Pull(hot.stream, from + |yielded|) == None && hot.pos == from + |yielded| + 1))
           && steps == |yielded| && trace == Paced(yielded) + (if yielded == [] then [] else [Wait])
         case Abandoned =>
           && hot.pos == from + |yielded| && (yielded != [] ==> hot.closed == hot.closable)
           && steps == (if yielded == [] then 0 else |yielded| - 1) && trace == Paced(yielded)
    }

    /** `coolit(hot, { mind })`: creating the generator runs none of its body. */
    constructor (hot: Source<T>)
      ensures Valid() && this.hot == hot && phase == Start && from == hot.pos
    {
      this.hot := hot;
      from := hot.pos;
      phase := Start;
      asyncLoop := false;
      steps := 0;
      yielded := [];
      trace := [];
      cut := false;
    }

    /**
     * One `next()` call of the consumer. Resumed at a yield, the body first
     * awaits one mind step, then pulls; fresh, it chooses its loop and pulls
     * at once. The pulled element is yielded as pulled (`T` is the settled
     * value of a thenable element); a source that is done,
     * or was closed before the first pull, completes the generator. Both
     * loops behave alike.
     */
    method Next() returns (r: Option<T>)
      requires Valid()
      modifies this, hot
      ensures Valid() && hot.closed == old(hot.closed)
      ensures old(phase) == Start ==>
        && cut == old(hot.closed)
        && r == (if cut then None else Pull(hot.stream, from)) && steps == 0
        && asyncLoop == IsAsyncIterableIterator(hot.shape)
        && trace == (if r.Some? then [Yield(r.value)] else [])
      ensures old(phase) == AtYield ==>
        && !cut && r == Pull(hot.stream, old(hot.pos)) && steps == old(steps) + 1
        && trace == old(trace) + [Wait] + (if r.Some? then [Yield(r.value)] else [])
      ensures old(phase) == Start || old(phase) == AtYield ==>
        && hot.pos == old(hot.pos) + (if cut then 0 else 1)
        && yielded == old(yielded) + (if r.Some? then [r.value] else [])
        && phase == (if r.Some? then AtYield else Exhausted)
      ensures old(phase) == Exhausted || old(phase) == Abandoned ==>
        r == None && unchanged(this, hot)
    {
      if phase == Exhausted || phase == Abandoned {
        return None;
      }
      if phase == Start {
        asyncLoop := IsAsyncIterableIterator(hot.shape);
        cut := hot.closed;
      } else {
        steps := steps + 1;
        trace := trace + [Wait];
      }
      r := hot.Next();
      if r.Some? {
        EmitsSnoc(hot.stream, from, yielded, r.value);
        PacedSnoc(yielded, r.value);
        yielded := yielded + [r.value];
        trace := trace + [Yield(r.value)];
        phase := AtYield;
      } else {
        phase := Exhausted;
      }
    }

    /**
     * `return()`, called by a consumer that leaves its loop early. At a yield
     * it completes the body as if the `yield` returned: the loop closes the
     * source's iterator when that has a `return` method, and no mind step is
     * taken.
     */
    method Return()
      requires Valid()
      modifies this, hot
      ensures Valid()
      ensures yielded == old(yielded) && trace == old(trace) && steps == old(steps)
      ensures hot.pos == old(hot.pos)
      ensures hot.closed == (old(hot.closed) || (old(phase) == AtYield && hot.closable))
      ensures old(phase) == Start || old(phase) == AtYield ==> phase == Abandoned
      ensures old(phase) == Exhausted || old(phase) == Abandoned ==> unchanged(this, hot)
    {
      if phase == AtYield {
        hot.Return();
        phase := Abandoned;
      } else if phase == Start {
        phase := Abandoned;
      }
    }
  }

  /** `coolit()` with no source: the operator over a fresh `endless()`. */
  method DefaultCoolit() returns (c: Coolit<()>)
    ensures fresh(c) && fresh(c.hot) && c.Valid()
    ensures c.phase == Start && c.from == 0 && c.hot.stream == Repeat(())
    ensures c.hot.pos == 0 && !c.hot.closed && c.hot.closable
    ensures !IsAsyncIterableIterator(c.hot.shape)
  {
    var hot := Endless();
    c := new Coolit(hot);
  }

  /**
   * `coolit()` read k times and then left: the consumer gets k units, after
   * k - 1 mind steps.
   */
  method DefaultYieldsUnits(k: nat) returns (vs: seq<()>, steps: nat)
    ensures vs == seq(k, _ => ())
    ensures steps == if k == 0 then 0 else k - 1
  {
    var c := DefaultCoolit();
    vs := TakeThenBreak(c, k);
    steps := c.steps;
  }

  /**
   * The trace and the counters agree: the trace hands out exactly the values
   * yielded so far, and holds one `Wait` per awaited mind step.
   */
  lemma TraceAgrees<T>(c: Coolit<T>)
    requires c.Valid()
    ensures Yields(c.trace) == c.yielded && Waits(c.trace) == c.steps
  {
    YieldsOfPaced(c.yielded);
    WaitsOfPaced(c.yielded);
    if c.phase == Exhausted && c.yielded != [] {
      AppendWait(Paced(c.yielded));
    }
  }

  /**
   * No pull-ahead: the source has been pulled at most once beyond the values
   * handed out, every pull after the first waited for a mind step of its
   * own, and no mind step is taken before the consumer has had a value back.
   */
  lemma NoPullAhead<T>(c: Coolit<T>)
    requires c.Valid()
    ensures c.hot.pos - c.from <= |c.yielded| + 1
    ensures c.hot.pos - c.from <= c.steps + 1
    ensures c.steps <= |c.yielded|
    ensures c.phase != Exhausted ==> c.hot.pos - c.from == |c.yielded|
    ensures c.phase != Exhausted && c.yielded != [] ==> c.steps == |c.yielded| - 1
  {
  }

  /**
   * A finite source run to completion: the values handed out are the source's
   * remaining items, as pulled and in order; the source was pulled once more
   * to learn it was done, after one more mind step when any value was handed
   * out. A source closed before the first pull hands out nothing.
   */
  lemma DrainedYieldsSource<T>(c: Coolit<T>)
    requires c.Valid() && c.phase == Exhausted && c.hot.stream.Finite?
    ensures c.yielded == if c.cut then [] else Suffix(c.hot.stream.items, c.from)
    ensures Yields(c.trace) == c.yielded
    ensures c.steps == |c.yielded| && c.hot.pos == c.from + |c.yielded| + (if c.cut then 0 else 1)
  {
    if !c.cut {
      EmitsUntilDone(c.hot.stream.items, c.from, c.yielded);
    }
    TraceAgrees(c);
  }

  /**
   * The loop chosen by `IsAsyncIterableIterator` does not matter: two runs
   * over the same elements, at the same point, have handed out the same
   * values after the same trace, whatever the shapes of their sources.
   */
  lemma SameRunEitherLoop<T>(a: Coolit<T>, b: Coolit<T>)
    requires a.Valid() && b.Valid()
    requires a.hot.stream == b.hot.stream && a.from == b.from
    requires a.phase == b.phase && |a.yielded| == |b.yielded|
    ensures a.yielded == b.yielded && a.trace == b.trace && a.steps == b.steps
  {
  }

  /**
   * Over an infinite source, `endless()` among them, the operator completes
   * only if the source was closed before the first pull, and hands out the
   * source's values in order: over `endless()`, only units.
   */
  lemma InfiniteNeverExhausts<T>(c: Coolit<T>)
    requires c.Valid() && !c.hot.stream.Finite?
    ensures c.phase == Exhausted ==> c.cut && c.yielded == []
    ensures c.hot.stream.Repeat? ==> c.yielded == seq(|c.yielded|, _ => c.hot.stream.item)
    ensures c.hot.stream.Infinite? ==>
      forall i :: 0 <= i < |c.yielded| ==> c.yielded[i] == c.hot.stream.f(c.from + i)
  {
  }

  /**
   * A consumer that runs `for await (const v of c)` to the end over a finite
   * source. Returns the values its loop body saw.
   */
  method Drain<T>(c: Coolit<T>) returns (vs: seq<T>)
    requires c.Valid() && c.phase == Start && c.hot.stream.Finite?
    modifies c, c.hot
    ensures c.Valid() && c.phase == Exhausted && vs == c.yielded && c.cut == old(c.hot.closed)
    ensures vs == if c.cut then [] else Suffix(c.hot.stream.items, c.from)
    ensures c.trace == Paced(vs) + (if vs == [] then [] else [Wait])
    ensures c.steps == |vs| && c.hot.pos == c.from + |vs| + (if c.cut then 0 else 1)
  {
    vs := [];
    var r := c.Next();
    while r.Some?
      invariant c.Valid()
      invariant r.Some? ==> c.phase == AtYield && c.yielded == vs + [r.value]
      invariant r.Some? ==> c.hot.pos <= |c.hot.stream.items|
      invariant r.None? ==> c.phase == Exhausted && c.yielded == vs
      invariant c.cut == old(c.hot.closed)
      decreases |c.hot.stream.items| - c.hot.pos
    {
      vs := vs + [r.value];
      r := c.Next();
      if r.Some? {
        assert Pull(c.hot.stream, c.from + |vs|) == Some(c.yielded[|vs|]);
      }
    }
    DrainedYieldsSource(c);
  }

  /**
   * A consumer that takes at most k values and then leaves its loop, as the
   * tests' time-boxed runner does with `break`. It causes at most k pulls,
   * and fewer than k mind steps: leaving at a yield costs none.
   */
  method TakeThenBreak<T>(c: Coolit<T>, k: nat) returns (vs: seq<T>)
    requires c.Valid() && c.phase == Start
    modifies c, c.hot
    ensures c.Valid() && vs == c.yielded && |vs| <= k
    ensures c.phase == Exhausted || (c.phase == Abandoned && |vs| == k)
    ensures c.hot.pos - c.from <= k && (k > 0 ==> c.steps < k)
    ensures c.cut ==> old(c.hot.closed)
    ensures !c.hot.stream.Finite? && !c.cut ==> |vs| == k
    ensures c.hot.stream.Repeat? && !c.cut ==> vs == seq(k, _ => c.hot.stream.item)
  {
    vs := [];
    while |vs| < k
      invariant c.Valid() && vs == c.yielded && |vs| <= k
      invariant c.phase == Start || c.phase == AtYield
      invariant c.phase == Start ==> vs == []
      invariant c.cut ==> old(c.hot.closed)
      invariant c.hot.closed == old(c.hot.closed)
      decreases k - |vs|
    {
      var r := c.Next();
      if r.None? {
        return;
      }
      vs := vs + [r.value];
    }
    c.Return();
    if !c.hot.stream.Finite? {
      InfiniteNeverExhausts(c);
    }
  }

  /**
   * A consumer that breaks out of its loop over one operator, then wraps the
   * same source iterator in a second operator and resumes it once. Leaving
   * the first loop closed a generator source, so the second run reports done
   * at once; an iterator without `return` stays open and hands out the next
   * element. Either way the second run has taken no mind step.
   */
  method BreakThenReuse<T>(c1: Coolit<T>) returns (c2: Coolit<T>, r: Option<T>)
    requires c1.Valid() && c1.phase == AtYield
    modifies c1, c1.hot
    ensures c1.phase == Abandoned && c1.steps == old(c1.steps)
    ensures c2.Valid() && c2.hot == c1.hot && c2.steps == 0
    ensures r == if c1.hot.closable then None else Pull(c1.hot.stream, old(c1.hot.pos))
    ensures c2.trace == if r.Some? then [Yield(r.value)] else []
  {
    c1.Return();
    c2 := new Coolit(c1.hot);
    r := c2.Next();
  }

  /** The values of a sequence of numbers added up. */
  function Sum(vs: seq<int>): int
  {
    if vs == [] then 0 else vs[0] + Sum(vs[1..])
  }

  /**
   * The README example: pacing the iterator of the array [1, 2, 3, 4, 5],
   * which has no `return` method, to completion hands out
   * values that sum to 15, after five mind steps (the fifth taken when the
   * consumer resumes after the last value) and not a sixth.
   */
  method ReadmeExample() returns (sum: int, waits: nat)
    ensures sum == 15 && waits == 5
  {
    var hot := new Source(Object({IteratorKey}), Finite([1, 2, 3, 4, 5]), false);
    var c := new Coolit(hot);
    var vs := Drain(c);
    assert vs == [1, 2, 3, 4, 5];
    sum := Sum(vs);
    waits := c.steps;
  }
}
