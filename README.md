# coolit, modelled in Dafny

coolit paces the consumption of a sequence. `coolit(hot, { mind })` wraps a
source `hot` (an iterable or async iterable) and a *mind* (an endless async
iterator of go-signals). The result is an async generator. Each resume pulls
one element from the source and yields it (the settled value when the
element is a thenable, which `yield` in an async generator awaits). The next resume first
awaits one `mind.next()` and then pulls again. With no source, the operator
runs over `endless()`, which yields `undefined` forever. Two minds are
timer-driven:

- `intervalMind(msec)` waits `msec` on every step.
- `throttleMind(msec)` waits only what is left of `msec` since its previous signal.

The project has five modules:

- `Utils` (utils.dfy): the branch test `IsAsyncIterableIterator` over a model
  of JavaScript values as `typeof` and `in` see them.
- `Events` (events.dfy): the trace a run produces. A run records `Yield(v)`
  for each value and `Wait` for each awaited mind step. `Paced(vs)` is the
  trace of a run that has handed out `vs`. The lemmas give its shape and say
  which values it hands out.
- `Hot` (source.dfy): the iterator the operator's loop pulls from. A `Source`
  has a cursor `pos`, a `closed` flag, and a `closable` flag saying whether
  the iterator has a `return` method. It runs over a `Stream`, which is
  finitely many items, one value repeated, or an endless run whose i-th
  value is `f(i)`. Once closed, a source reports done on every pull, as a
  generator does. `Endless` builds the default source.
- `Engine` (engine.dfy): the generator returned by `coolit` as a class
  `Coolit`. Its state is the phase, the source cursor, the count of mind
  steps, and ghost records of the values yielded and of the trace.
  `Valid()` ties them together. `Next` and `Return` are the generator's
  `next()` and `return()`. The module also has consumers modelled on the
  tests and lemmas about runs.
- `Mind` (mind.dfy): `IntervalMind` and `ThrottleMind` as classes over an
  abstract integer clock. `IntervalSignal` and `ThrottleSignal` give the
  clock reading of the k-th signal when the operator resumes the mind `w`
  after each signal. `w` is the per-element work.

Modelling choices that follow the code:

- Resuming the generator after its last value costs one more mind step
  before the loop sees that the source is done. The step is awaited at
  lines 25 and 30, after every `yield`. Draining five values therefore
  awaits five mind steps, not four. A consumer that leaves at a yield
  through `return()` (for example with `break`) takes no further step. Its
  loop closes the source iterator if that iterator has a `return` method,
  as a generator does. A second `coolit` over that same closed iterator
  completes at its first resume, with no mind step. A built-in iterator
  such as `[1, 2, 3].values()` has no `return` method, so it stays open and
  the second `coolit` hands out its next element.
- An async generator's body first runs at the first `next()`. So
  `throttleMind` takes its baseline `prev` at its first step. The first
  delay is therefore a full `msec`, not zero.
- The trace does not depend on the loop chosen by `IsAsyncIterableIterator`.
  A function object that has `Symbol.asyncIterator` still goes through the
  synchronous loop, because its `typeof` is "function".

## Model

| member | source | states |
|---|---|---|
| `Utils.IsAsyncIterableIterator` | src/coolit.ts:88-90 | true exactly for a non-null plain object that has `Symbol.asyncIterator`; null, primitives and functions are false |
| `Events.YieldsOfPaced` | src/coolit.ts:22-32 | the values a paced trace hands out are exactly the run's values, in order, none dropped or duplicated |
| `Events.WaitsOfPaced` | src/coolit.ts:23-31 | a paced trace of n values holds n - 1 mind steps |
| `Events.PacedShape` | src/coolit.ts:22-32 | a paced trace has length 2n - 1, starts with a value, alternates value and mind step, and its 2i-th event yields the i-th value |
| `Hot.EmitsUntilDone` | src/coolit.ts:28-31 | pulling a finite source until it reports done hands out exactly its remaining items, in order |
| `Hot.Source.Next` | src/coolit.ts:28 | one pull on an open source returns the element at the cursor, or done past the end, and advances the cursor by one; a pull on a closed source reports done and leaves the cursor |
| `Hot.Source.Return` | src/coolit.ts:28-31 | leaving the loop early closes the source iterator when it has a `return` method, leaves it open otherwise, and does not move its cursor |
| `Hot.Endless` | src/coolit.ts:35-39 | the default source is a fresh, open generator (so it has a `return` method), a synchronous iterable whose every pull produces the unit value and never done |
| `Engine.Coolit.constructor` | src/coolit.ts:18-21 | creating the generator runs nothing: no pull, no mind step, empty trace |
| `Engine.Coolit.Next` | src/coolit.ts:22-32 | the first resume picks the loop and pulls; a later resume awaits exactly one mind step and then pulls; the pulled element is yielded as pulled (for a thenable, its settled value); done, or a source closed before the first pull, completes the generator; a completed generator returns done and changes nothing |
| `Engine.Coolit.Return` | src/coolit.ts:22-32 | abandoning at a yield completes the generator, closes the source when it has a `return` method, and takes no mind step and no pull |
| `Engine.DefaultCoolit` | src/coolit.ts:18-20 | `coolit()` with no source runs over a fresh `endless()`: open, at position 0, closable, and sent to the synchronous loop |
| `Engine.DefaultYieldsUnits` | src/coolit.ts:18-39 | reading `coolit()` k times gives exactly k units, after k - 1 mind steps |
| `Engine.TraceAgrees` | src/coolit.ts:22-32 | in every reachable state the trace hands out exactly the yielded values and holds one `Wait` per awaited mind step |
| `Engine.NoPullAhead` | src/coolit.ts:23-31 | pulls never exceed values handed out by more than one; every pull after the first waited for its own mind step; mind steps never exceed values handed out |
| `Engine.DrainedYieldsSource` | src/coolit.ts:22-32 | a finite source run to completion yields exactly its remaining items, after as many mind steps as values and one pull past the end; a source closed before the first pull yields nothing and is not pulled |
| `Engine.SameRunEitherLoop` | src/coolit.ts:22-32 | two runs over the same elements reach the same values, trace and step count whatever loop their source's shape selected |
| `Engine.InfiniteNeverExhausts` | src/coolit.ts:22-39 | over an infinite source the operator completes only when the source was closed before the first pull; it hands out the source's values in order, and over `endless()` only the unit value |
| `Engine.Drain` | test/coolit.test.js:19-25 | a `for await` consumer run to the end sees exactly the source's remaining items (none when the source was already closed); the trace is the paced trace plus one trailing mind step |
| `Engine.TakeThenBreak` | test/coolit.test.js:8-16 | a consumer that takes at most k values and breaks causes at most k pulls and fewer than k mind steps; over an infinite source open at the start it gets exactly k values, over `endless()` k units |
| `Engine.BreakThenReuse` | src/coolit.ts:28-31 | after a consumer breaks out of an operator at a yield, a second operator over the same source iterator gets done at once when the iterator has a `return` method, and otherwise the next element; either way it takes no mind step |
| `Engine.ReadmeExample` | test/coolit.test.js:19-25 | pacing [1, 2, 3, 4, 5] to completion sums to 15 after exactly five mind steps |
| `Mind.ThrottleDelay` | src/coolit.ts:80 | the delay is at most `msec` on a monotone clock; it is 0 once `msec` has passed since the previous signal, and otherwise ends exactly `msec` after that signal |
| `Mind.IntervalMind.Next` | src/coolit.ts:62-67 | every step waits `msec` (clamped at 0 like a timer), independent of the clock reading |
| `Mind.IntervalMind.constructor` | src/coolit.ts:62 | `intervalMind(msec)` keeps its delay and has answered no step yet |
| `Mind.ThrottleMind.constructor` | src/coolit.ts:76 | creating the mind runs none of its body, so no baseline is taken yet |
| `Mind.ThrottleMind.Next` | src/coolit.ts:76-84 | the first step takes its baseline from the clock reading; each step waits the throttle delay from the baseline; afterwards the baseline is the reading taken after the wait |
| `Mind.IntervalGap` | src/coolit.ts:62-67 | with work w per element, consecutive interval signals are `msec + w` apart |
| `Mind.ThrottleGap` | src/coolit.ts:76-84 | with work w per element, consecutive throttle signals are `max(msec, w)` apart |
| `Mind.IntervalClosedForm` | src/coolit.ts:62-67 | the k-th interval signal comes `msec + k * (msec + w)` after the first resume |
| `Mind.ThrottleClosedForm` | src/coolit.ts:76-84 | the k-th throttle signal comes `msec + k * max(msec, w)` after the first resume |
| `Mind.ThrottleNotSlower` | src/coolit.ts:62-84 | under the same work the throttle never signals later than the interval mind, and signals strictly earlier from the second signal on when `msec` and w are positive |
| `Mind.WindowCounts` | test/coolit.test.js:154-210 | with `msec` = 100 and 100 ms of work, the first 1000 ms after the first resume hold 10 throttle signals and 5 interval signals |
| `Mind.RunInterval` | src/coolit.ts:62-67 | driving an interval mind for n steps, resumed w after each signal, yields exactly the readings `IntervalSignal` predicts |
| `Mind.RunThrottle` | src/coolit.ts:76-84 | driving a fresh throttle mind for n steps, resumed w after each signal, yields exactly the readings `ThrottleSignal` predicts, and leaves its baseline at the last signal |

## Left out

- Engine.Coolit.Next: the awaited mind step is counted and recorded, not performed. Which mind paces the operator, and how long a step takes, is modelled separately in the `Mind` module.
- `idleMind` (src/coolit.ts:46-53) is a wrapper over the host's `requestIdleCallback` or `requestAnimationFrame`. Here every mind step of the operator is an uninterpreted `Wait`.
- Real time and the event loop: `Date.now`, `setTimeout`, promise resolution order and generator scheduling. They are replaced by an abstract integer clock passed as `now`, and explicit `Next` calls. Timer lateness is a parameter of each mind step.
- Mind.IntervalSignal and Mind.ThrottleSignal assume timers fire on time (lateness 0). The mind classes take any lateness.
- `setTimeout` treats delays above 2147483647 ms as 1 ms. Fractional or NaN `msec` values are also not modelled. `msec` is an integer here, and only the clamp of negative delays to 0 is modelled. The host's minimum delay (1 ms in Node, at least 4 ms for nested timers in browsers) is not modelled as such; the minds' `lateness` parameter absorbs it.
- Exceptions: a throwing source, a throwing mind, and a `hot` value that is not iterable in the loop it is sent to (a `TypeError`).
- The iterator protocol's result objects. `{ value, done }` is an `Option`.
- Engine.Coolit.Next: `yield` in an async generator awaits its operand. A thenable element is handed out as its settled value, and a rejected one throws and ends the generator. `T` stands for the settled value; rejection is not modelled.
- A hand-written source iterator whose `return()` does not stop it. A closable `Source` behaves as a generator does and reports done on every later pull; an iterator without `return` is modelled by `closable` being false.
- Engine.Coolit: a source iterator that anyone else pulls or closes is outside the model from the operator's creation on, including after the operator has completed. `Valid()` ties `hot.pos` and `hot.closed` to the operator in every phase, as if the operator were the iterator's only user. Three uses that JavaScript allows are therefore not covered: a pull by someone else between `coolit(it)` and the operator's first `next()` (the body has not run yet, so the first `next()` would yield the following element); two operators interleaving pulls on one iterator, or an outside `return()` while the operator waits at a yield; and pulls after the operator has completed (a completed operator still answers done, but its `Valid()` no longer holds, which is why `Engine.BreakThenReuse` promises nothing about the first operator's `Valid()`).
- The real-clock windows of the tests ("more than 8, fewer than 12 in 1000 ms"). Only their abstract-clock counterpart, `Mind.WindowCounts`, is stated.
- `animationFrameMind`, imported by the tests, is not part of this model. The source does not define it.
- The build configuration, and the timer of the tests' runner harness (its `break` is modelled by `Engine.TakeThenBreak`).
