/** The loading spinner: an arc whose start `min` turns and whose extent
    `max` holds, grows and shrinks in three states, advanced by one tick of
    the animation loop every ten milliseconds while the animation runs. */
module Spinner {
  const FirstState: int := 0
  const SecondState: int := 1
  const ThirdState: int := 2
  const MaxSize: int := 270
  const MinSize: int := 40

  /** The animation parameters read by the painter. */
  datatype Frame = Frame(state: int, min: int, max: int)

  /** `nextState`: the state after `state`. */
  function Next(state: int): (r: int)
    ensures 0 <= state <= 2 ==> 0 <= r <= 2
  {
    if state + 1 > ThirdState then FirstState else state + 1
  }

  /** One tick of the animation loop: the state advances when the arc start
      is at 0; the start then turns by 5 (first and second state) or 4 (third
      state) and wraps to 360 below 0; the extent is reset in the first
      state, grows by 2 up to the maximum in the second and shrinks by 2 down
      to the minimum in the third. */
  function Step(f: Frame): Frame {
    var state := if f.min == 0 then Next(f.state) else f.state;
    var min := f.min - 3;
    var min' :=
      if state == FirstState || state == SecondState then min - 2
      else if state == ThirdState then min - 1
      else min;
    var max' :=
      if state == FirstState then MinSize
      else if state == SecondState then (if f.max < MaxSize then f.max + 2 else f.max)
      else if state == ThirdState then (if f.max > MinSize then f.max - 2 else f.max)
      else f.max;
    Frame(state, if min' < 0 then 360 else min', max')
  }

  /** The turn of the arc start in a state. */
  function Turn(state: int): nat {
    if state == ThirdState then 4 else 5
  }

  /** `n` ticks from `f`. */
  function Steps(f: Frame, n: nat): Frame
    decreases n
  {
    if n == 0 then f else Steps(Step(f), n - 1)
  }

  /** The ranges the painter relies on: a known state, an arc start in
      [0, 360] and an even extent in [40, 270]. */
  predicate Bounded(f: Frame) {
    FirstState <= f.state <= ThirdState && 0 <= f.min <= 360
    && MinSize <= f.max <= MaxSize && f.max % 2 == 0
  }

  /** Bounded, with the arc start a multiple of the current state's turn:
      the start then meets 0 exactly, so the state keeps advancing. */
  predicate InPhase(f: Frame) {
    Bounded(f) && f.min % Turn(f.state) == 0
  }

  /** The states cycle 0, 1, 2, 0. */
  lemma NextCycles()
    ensures Next(FirstState) == SecondState
    ensures Next(SecondState) == ThirdState
    ensures Next(ThirdState) == FirstState
  {
  }

  /** A tick keeps the ranges, and changes the state exactly when the arc
      start was 0. */
  lemma StepBounded(f: Frame)
    requires Bounded(f)
    ensures Bounded(Step(f))
    ensures Step(f).state != f.state <==> f.min == 0
  {
  }

  /** A tick away from 0 turns the arc start by the state's turn, and a tick
      at 0 moves to the next state with the start at 360. */
  lemma StepInPhase(f: Frame)
    requires InPhase(f)
    ensures InPhase(Step(f))
    ensures f.min > 0 ==> Step(f).state == f.state && Step(f).min == f.min - Turn(f.state)
    ensures f.min == 0 ==> Step(f).state == Next(f.state) && Step(f).min == 360
  {
  }

  /** From a frame in phase whose arc start is `k` turns, the arc start
      reaches 0 after `k` ticks without leaving the state. */
  lemma {:induction false} ReachesZero(f: Frame, k: nat)
    requires InPhase(f) && f.min == k * Turn(f.state)
    ensures InPhase(Steps(f, k)) && Steps(f, k).state == f.state && Steps(f, k).min == 0
    decreases k
  {
    if k > 0 {
      StepInPhase(f);
      assert Step(f).min == (k - 1) * Turn(f.state);
      ReachesZero(Step(f), k - 1);
    }
  }

  /** The animation never stalls: from any frame in phase, the next state is
      reached after at most 91 ticks. */
  lemma StateAdvances(f: Frame)
    requires InPhase(f)
    ensures var n := f.min / Turn(f.state) + 1;
      n <= 91 && Steps(f, n).state == Next(f.state)
  {
    var t := Turn(f.state);
    var k := f.min / t;
    assert f.min == k * t by {
      if t == 4 { assert f.min == k * 4; } else { assert f.min == k * 5; }
    }
    ReachesZero(f, k);
    StepsSplit(f, k);
    StepInPhase(Steps(f, k));
  }

  /** `k + 1` ticks are `k` ticks and one more. */
  lemma {:induction false} StepsSplit(f: Frame, k: nat)
    ensures Steps(f, k + 1) == Step(Steps(f, k))
    decreases k
  {
    if k > 0 {
      StepsSplit(Step(f), k - 1);
    }
  }

  /** Any number of ticks keeps a frame in phase. */
  lemma {:induction false} StepsInPhase(f: Frame, n: nat)
    requires InPhase(f)
    ensures InPhase(Steps(f, n))
    decreases n
  {
    if n > 0 {
      StepInPhase(f);
      StepsInPhase(Step(f), n - 1);
    }
  }

  /** The spinner panel, whose fields the animation thread updates. */
  class Loader {
    var min: int
    var max: int
    var currentState: int
    var isAnimating: bool

    function Current(): Frame
      reads this
    {
      Frame(currentState, min, max)
    }

    constructor ()
      ensures Current() == Frame(FirstState, 270, 40) && !isAnimating
      ensures InPhase(Current())
    {
      min := 270;
      max := 40;
      currentState := FirstState;
      isAnimating := false;
    }

    /** `nextState`. */
    method NextState()
      modifies this
      ensures currentState == Next(old(currentState))
      ensures min == old(min) && max == old(max) && isAnimating == old(isAnimating)
    {
      currentState := currentState + 1;
      if currentState > ThirdState {
        currentState := FirstState;
      }
    }

    /** The body of the animation loop of `start_animation`, without its
        sleep and repaint. */
    method Tick()
      modifies this
      ensures Current() == Step(old(Current()))
      ensures isAnimating == old(isAnimating)
    {
      if min == 0 {
        NextState();
      }
      min := min - 3;
      if currentState == FirstState {
        min := min - 2;
        max := MinSize;
      } else if currentState == SecondState {
        min := min - 2;
        if max < MaxSize {
          max := max + 2;
        }
      } else if currentState == ThirdState {
        min := min - 1;
        if max > MinSize {
          max := max - 2;
        }
      }
      if min < 0 {
        min := 360;
      }
    }

    /** `start_animation`, without the thread it starts: the flag the loop
        runs on is set. */
    method StartAnimation()
      modifies this
      ensures isAnimating && Current() == old(Current())
    {
      isAnimating := true;
    }

    /** `stop_animation`: the flag the loop runs on is cleared, which is the
        loop's only way out. */
    method StopAnimation()
      modifies this
      ensures !isAnimating && Current() == old(Current())
    {
      isAnimating := false;
    }

    /** The loop of the animation thread for `n` rounds in which the flag
        stays set, without its sleep and repaint. */
    method Animate(n: nat)
      requires isAnimating
      modifies this
      ensures isAnimating && Current() == Steps(old(Current()), n)
    {
      var i := 0;
      while i < n && isAnimating
        invariant 0 <= i <= n && isAnimating
        invariant Current() == Steps(old(Current()), i)
      {
        StepsSplit(old(Current()), i);
        Tick();
        i := i + 1;
      }
    }
  }
}
