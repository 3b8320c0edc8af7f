/**
 * The "hot" side of the engine: the iterator the operator's loop obtains from
 * its source, and `endless`, the default source (src/coolit.ts:35-39).
 */
module Hot {
  import opened Utils

  datatype Option<T> = None | Some(value: T)

  /**
   * What a source's iterator produces: finitely many items, one value
   * forever, or an endless run whose i-th value is f(i).
   */
  datatype Stream<T> = Finite(items: seq<T>) | Repeat(item: T) | Infinite(f: nat -> T)

  /** The outcome of the iterator's i-th `next()` call, counting from 0: a value, or done. */
  function Pull<T>(s: Stream<T>, i: nat): Option<T>
  {
    match s
    case Finite(items) => if i < |items| then Some(items[i]) else None
    case Repeat(item) => Some(item)
    case Infinite(f) => Some(f(i))
  }

  /** `vs` is what the pulls numbered `from`, `from + 1`, ... produce. */
  ghost predicate Emits<T>(s: Stream<T>, from: nat, vs: seq<T>)
  {
    forall i :: 0 <= i < |vs| ==> Pull(s, from + i) == Some(vs[i])
  }

  /** A pull that produces a value extends what the earlier pulls emitted. */
  lemma EmitsSnoc<T>(s: Stream<T>, from: nat, vs: seq<T>, v: T)
    requires Emits(s, from, vs) && Pull(s, from + |vs|) == Some(v)
    ensures Emits(s, from, vs + [v])
  {
  }

  /** The items of a finite source that are left once `from` of them have been pulled. */
  function Suffix<T>(items: seq<T>, from: nat): seq<T>
  {
    if from <= |items| then items[from..] else []
  }

  /**
   * Pulling a finite source from `from` until it reports done hands out
   * exactly the items left in it, in order.
   */
  lemma EmitsUntilDone<T>(items: seq<T>, from: nat, vs: seq<T>)
    requires Emits(Finite(items), from, vs)
    requires Pull(Finite(items), from + |vs|) == None
    ensures vs == Suffix(items, from)
  {
    if vs != [] {
      assert Pull(Finite(items), from + |vs| - 1) == Some(vs[|vs| - 1]);
      assert from + |vs| == |items|;
      forall i | 0 <= i < |vs|
        ensures vs[i] == items[from..][i]
      {
        assert Pull(Finite(items), from + i) == Some(vs[i]);
      }
    }
  }

  /**
   * The iterator a `for ... of` or `for await ... of` loop obtains from a
   * source. `shape` is the source value as the operator's type test sees it;
   * `pos` counts the pulls that reached the stream. `closable` says the
   * iterator has a `return` method, as a generator does and the built-in
   * array, string, Map and Set iterators do not. `closed` records that
   * `return()` was called because a loop was left early; a generator
   * closed that way reports done on every later pull. (A loop over an array
   * obtains a fresh iterator each time, that is, a new `Source`.)
   */
  class Source<T> {
    const shape: JsValue
    const stream: Stream<T>
    const closable: bool
    var pos: nat
    var closed: bool

    constructor (shape: JsValue, stream: Stream<T>, closable: bool)
      ensures this.shape == shape && this.stream == stream && this.closable == closable
      ensures pos == 0 && !closed
    {
      this.shape := shape;
      this.stream := stream;
      this.closable := closable;
      pos := 0;
      closed := false;
    }

    /**
     * One `next()` call: the next element, or done once the stream has run
     * out or the iterator has been closed.
     */
    method Next() returns (r: Option<T>)
      modifies this
      ensures r == if old(closed) then None else Pull(stream, old(pos))
      ensures pos == old(pos) + (if old(closed) then 0 else 1) && closed == old(closed)
    {
      if closed {
        return None;
      }
      r := Pull(stream, pos);
      pos := pos + 1;
    }

    /**
     * What a loop left early does to its iterator: it calls `return()` when
     * the iterator has one, and otherwise leaves it as it is.
     */
    method Return()
      modifies this
      ensures closed == (old(closed) || closable) && pos == old(pos)
    {
      if closable {
        closed := true;
      }
    }
  }

  /**
   * `endless()`: a synchronous generator whose body yields `undefined` in an
   * infinite loop, so every pull produces the unit value and none reports done.
   */
  method Endless() returns (s: Source<()>)
    ensures fresh(s) && s.pos == 0 && !s.closed && s.closable
    ensures s.stream == Repeat(()) && !IsAsyncIterableIterator(s.shape)
    ensures forall i: nat :: Pull(s.stream, i) == Some(())
  {
    s := new Source(Object({IteratorKey}), Repeat(()), true);
  }
}
