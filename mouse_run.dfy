/**
 * The do-while loop of main (Main.cpp) that drives the mouse: one tick per
 * pass, and, when exploration is shown, the arrow keys that change the delay
 * between ticks.
 *
 * Mouse::ExploreMaze, Mouse::RetraceSteps, Mouse::FoundCheese and the
 * isRetracingSteps flag are not part of this model; they are given as
 * functions on an opaque state S that stands for the mouse, the maze and the
 * branch stack together.
 */
module MouseRun {
  import opened Wrappers

  const UP_KEY := 72
  const DOWN_KEY := 80

  /** Starting delay between printed moves, in milliseconds. */
  const PRINT_EXPLORATION_SLEEP := 100

  /** Step by which one key press changes the delay. */
  const PRINT_EXPLORATION_SLEEP_MOD := 10

  /** The collaborators the loop calls. */
  datatype MouseOps<!S> = MouseOps(
    isRetracingSteps: S -> bool,
    exploreMaze: S -> (S, bool),
    retraceSteps: S -> S,
    foundCheese: S -> bool)

  datatype Call = ExploreMaze | RetraceSteps

  /** The state after one tick, and the collaborators it called in order. */
  datatype TickResult<S> = TickResult(state: S, calls: seq<Call>)

  /** The state RetraceSteps would start from: after ExploreMaze, if it ran. */
  function AfterExplore<S>(m: MouseOps<S>, s: S): S {
    if m.isRetracingSteps(s) then s else m.exploreMaze(s).0
  }

  /**
   * One tick: `isRetracingSteps || !ExploreMaze(...)` short-circuits, and
   * RetraceSteps runs only when the cheese is still not found. Its result is ignored.
   */
  function Tick<S>(m: MouseOps<S>, s: S): TickResult<S>
  {
    var explored := if m.isRetracingSteps(s) then None else Some(m.exploreMaze(s));
    var current := if explored.Some? then explored.value.0 else s;
    var calls := if explored.Some? then [ExploreMaze] else [];
    if (explored.None? || !explored.value.1) && !m.foundCheese(current) then
      TickResult(m.retraceSteps(current), calls + [RetraceSteps])
    else
      TickResult(current, calls)
  }

  /**
   * The dispatch rule of a tick: ExploreMaze runs exactly when the mouse is not
   * retracing; RetraceSteps runs exactly when (retracing, or exploring failed)
   * and the cheese is still not found; each at most once, exploring first.
   */
  lemma TickDispatch<S>(m: MouseOps<S>, s: S)
    ensures var t := Tick(m, s);
      && (ExploreMaze in t.calls <==> !m.isRetracingSteps(s))
      && (RetraceSteps in t.calls <==>
          (m.isRetracingSteps(s) || !m.exploreMaze(s).1) && !m.foundCheese(AfterExplore(m, s)))
      && t.calls == (if ExploreMaze in t.calls then [ExploreMaze] else []) + (if RetraceSteps in t.calls then [RetraceSteps] else [])
      && t.state == if RetraceSteps in t.calls then m.retraceSteps(AfterExplore(m, s)) else AfterExplore(m, s)
  {
  }

  /** The state after n ticks. */
  function AfterTicks<S>(m: MouseOps<S>, s: S, n: nat): S {
    if n == 0 then s else Tick(m, AfterTicks(m, s, n - 1)).state
  }

  /** `char keyPress = _getch()`: the key code seen as a signed 8-bit char. */
  function AsChar(code: int): (c: int)
    ensures -128 <= c < 128
    ensures (code - c) % 256 == 0
    ensures -128 <= code < 128 ==> c == code
  {
    (code + 128) % 256 - 128
  }

  /** The key handling of one tick: DOWN slows the mouse by 10 ms, UP speeds it up by 20 ms but not below 0. */
  function AdjustSleep(amount: int, key: int): (r: int)
    ensures AsChar(key) == DOWN_KEY ==> r == amount + PRINT_EXPLORATION_SLEEP_MOD
    ensures AsChar(key) == UP_KEY ==> r >= 0 && (r == 0 || r == amount - 2 * PRINT_EXPLORATION_SLEEP_MOD)
    ensures AsChar(key) == UP_KEY ==> (r == 0 <==> amount <= 2 * PRINT_EXPLORATION_SLEEP_MOD)
    ensures AsChar(key) != DOWN_KEY && AsChar(key) != UP_KEY ==> r == amount
  {
    var keyPress := AsChar(key);
    if DOWN_KEY == keyPress then
      amount + PRINT_EXPLORATION_SLEEP_MOD
    else if UP_KEY == keyPress then
      var lowered := amount - PRINT_EXPLORATION_SLEEP_MOD - PRINT_EXPLORATION_SLEEP_MOD;
      if lowered < 0 then 0 else lowered
    else
      amount
  }

  /** The delay after a run of ticks; keys[i] is the key pressed during tick i, if any. */
  function SleepAfter(start: int, keys: seq<Option<int>>): (r: int)
    requires start >= 0
    ensures r >= 0
    ensures r <= start + PRINT_EXPLORATION_SLEEP_MOD * |keys|
    ensures start % PRINT_EXPLORATION_SLEEP_MOD == 0 ==> r % PRINT_EXPLORATION_SLEEP_MOD == 0
  {
    if keys == [] then start
    else
      var before := SleepAfter(start, keys[..|keys| - 1]);
      match keys[|keys| - 1]
      case None => before
      case Some(key) => AdjustSleep(before, key)
  }

  /** Extending the run by one tick applies that tick's key, if any. */
  lemma SleepStep(start: int, keys: seq<Option<int>>, n: nat)
    requires start >= 0 && n < |keys|
    ensures SleepAfter(start, keys[..n + 1]) ==
      if keys[n].Some? then AdjustSleep(SleepAfter(start, keys[..n]), keys[n].value) else SleepAfter(start, keys[..n])
  {
    assert keys[..n + 1][..n] == keys[..n];
  }

  /** FoundCheese was false after each of the first n - 1 ticks. */
  ghost predicate NoCheeseBefore<S>(m: MouseOps<S>, s0: S, n: nat) {
    forall k :: 1 <= k < n ==> !m.foundCheese(AfterTicks(m, s0, k))
  }

  lemma NoCheeseBeforeStep<S>(m: MouseOps<S>, s0: S, n: nat)
    requires NoCheeseBefore(m, s0, n)
    requires n > 0 ==> !m.foundCheese(AfterTicks(m, s0, n))
    ensures NoCheeseBefore(m, s0, n + 1)
  {
  }

  /**
   * The do-while loop: ticks until FoundCheese holds. The source's loop has no
   * bound; here it stops when `keys` (one entry per tick) runs out.
   */
  method RunUntilCheese<S>(m: MouseOps<S>, s0: S, showExploration: bool, keys: seq<Option<int>>)
    returns (s: S, ticks: nat, sleep: int, found: bool)
    requires |keys| > 0
    ensures 1 <= ticks <= |keys|
    ensures s == AfterTicks(m, s0, ticks)
    ensures found == m.foundCheese(s)
    ensures !found ==> ticks == |keys|
    ensures NoCheeseBefore(m, s0, ticks)
    ensures sleep == if showExploration then SleepAfter(PRINT_EXPLORATION_SLEEP, keys[..ticks]) else PRINT_EXPLORATION_SLEEP
    ensures sleep >= 0
  {
    s, ticks, found := s0, 0, false;
    sleep := PRINT_EXPLORATION_SLEEP;
    while !found && ticks < |keys|
      invariant 0 <= ticks <= |keys|
      invariant s == AfterTicks(m, s0, ticks)
      invariant ticks > 0 ==> found == m.foundCheese(s)
      invariant ticks == 0 ==> !found
      invariant NoCheeseBefore(m, s0, ticks)
      invariant showExploration ==> sleep == SleepAfter(PRINT_EXPLORATION_SLEEP, keys[..ticks])
      invariant !showExploration ==> sleep == PRINT_EXPLORATION_SLEEP
    {
      NoCheeseBeforeStep(m, s0, ticks);
      s := Tick(m, s).state;
      if showExploration && keys[ticks].Some? {
        sleep := AdjustSleep(sleep, keys[ticks].value);
      }
      SleepStep(PRINT_EXPLORATION_SLEEP, keys, ticks);
      ticks := ticks + 1;
      found := m.foundCheese(s);
    }
  }

  /** A tick that starts retracing never calls ExploreMaze; once the cheese is found it changes nothing. */
  lemma RetracingTickAfterCheese<S>(m: MouseOps<S>, s: S)
    requires m.isRetracingSteps(s) && m.foundCheese(s)
    ensures Tick(m, s) == TickResult(s, [])
  {
  }

  /** UP then DOWN from at least 20 ms is a net 10 ms faster. */
  lemma UpThenDown(amount: int)
    requires amount >= 2 * PRINT_EXPLORATION_SLEEP_MOD
    ensures AdjustSleep(AdjustSleep(amount, UP_KEY), DOWN_KEY) == amount - PRINT_EXPLORATION_SLEEP_MOD
  {
  }

  /** Key handling never reverses the order of two delays. */
  lemma AdjustSleepMonotone(a: int, b: int, key: int)
    requires a <= b
    ensures AdjustSleep(a, key) <= AdjustSleep(b, key)
  {
  }
}
