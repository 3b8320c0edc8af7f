/**
 * What an observer of one paced run sees: the values handed to the consumer
 * and the mind steps awaited between them.
 */
module Events {

  /** A value yielded to the consumer, or one awaited `mind.next()`. */
  datatype Event<T> = Yield(value: T) | Wait

  /**
   * The trace of a run that has handed out `vs` and is suspended at its last
   * yield: the values in order, one mind step between neighbours.
   */
  function Paced<T>(vs: seq<T>): seq<Event<T>>
    decreases |vs|
  {
    if |vs| == 0 then []
    else if |vs| == 1 then [Yield(vs[0])]
    else Paced(vs[..|vs| - 1]) + [Wait, Yield(vs[|vs| - 1])]
  }

  /** The values a trace hands out, in order. */
  function Yields<T>(tr: seq<Event<T>>): seq<T>
    decreases |tr|
  {
    if tr == [] then []
    else match tr[|tr| - 1]
      case Yield(v) => Yields(tr[..|tr| - 1]) + [v]
      case Wait => Yields(tr[..|tr| - 1])
  }

  /** The number of mind steps in a trace. */
  function Waits<T>(tr: seq<Event<T>>): nat
    decreases |tr|
  {
    if tr == [] then 0
    else Waits(tr[..|tr| - 1]) + (if tr[|tr| - 1].Wait? then 1 else 0)
  }

  /** Handing out one more value adds a mind step and the value to the trace. */
  lemma PacedSnoc<T>(vs: seq<T>, v: T)
    ensures Paced(vs + [v]) == if vs == [] then [Yield(v)] else Paced(vs) + [Wait, Yield(v)]
  {
  }

  /** A mind step at the end of a trace hands out nothing and counts once. */
  lemma AppendWait<T>(tr: seq<Event<T>>)
    ensures Yields(tr + [Wait]) == Yields(tr)
    ensures Waits(tr + [Wait]) == Waits(tr) + 1
  {
  }

  /** A paced run hands out exactly its values, in order, none dropped or repeated. */
  lemma {:induction false} YieldsOfPaced<T>(vs: seq<T>)
    ensures Yields(Paced(vs)) == vs
  {
    if |vs| > 1 {
      var init, last := vs[..|vs| - 1], vs[|vs| - 1];
      YieldsOfPaced(init);
      var tr := Paced(init) + [Wait, Yield(last)];
      assert tr[..|tr| - 1] == Paced(init) + [Wait];
      AppendWait(Paced(init));
      assert init + [last] == vs;
    }
  }

  /** A paced run of n values awaits n - 1 mind steps. */
  lemma {:induction false} WaitsOfPaced<T>(vs: seq<T>)
    ensures Waits(Paced(vs)) == if vs == [] then 0 else |vs| - 1
  {
    if |vs| == 1 {
      assert Paced(vs)[..0] == [];
    } else if |vs| > 1 {
      var init, last := vs[..|vs| - 1], vs[|vs| - 1];
      WaitsOfPaced(init);
      var tr := Paced(init) + [Wait, Yield(last)];
      assert tr[..|tr| - 1] == Paced(init) + [Wait];
      AppendWait(Paced(init));
    }
  }

  /**
   * The shape of a paced trace: it starts with a value (no mind step before
   * the first yield), values and mind steps alternate (exactly one step
   * between consecutive values) and the i-th value is vs[i].
   */
  lemma {:induction false} PacedShape<T>(vs: seq<T>)
    ensures |Paced(vs)| == if vs == [] then 0 else 2 * |vs| - 1
    ensures forall j :: 0 <= j < |Paced(vs)| ==> (Paced(vs)[j].Wait? <==> j % 2 == 1)
    ensures forall j :: 0 <= j < |Paced(vs)| && j % 2 == 0 ==> Paced(vs)[j] == Yield(vs[j / 2])
  {
    if |vs| > 1 {
      var init := vs[..|vs| - 1];
      PacedShape(init);
      var p := Paced(init);
      assert Paced(vs) == p + [Wait, Yield(vs[|vs| - 1])];
      forall j | 0 <= j < |Paced(vs)| && j % 2 == 0
        ensures Paced(vs)[j] == Yield(vs[j / 2])
      {
        if j < |p| {
          assert Paced(vs)[j] == p[j];
        }
      }
    }
  }
}
