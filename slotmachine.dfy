/** The slot-machine session: its reels, the list of running tweens, the
    `running` flag that keeps spins from overlapping, and the two per-frame
    passes (the tween pass, then the reel pass). */
module SlotMachine {
  import opened Easing
  import opened Reels
  import opened Tweening

  /** The symbol strip of each reel; reel i starts showing the first
      SLOT_COUNT symbols of strip i. */
  const SLOT_REELS: seq<seq<nat>> := [
    [5, 4, 1, 3, 3, 5, 4, 0, 4, 3],
    [5, 5, 1, 4, 2, 0, 2, 3, 5, 5, 3, 1, 2, 4, 0],
    [3, 6, 4, 5, 2, 5, 5, 6],
    [3, 5, 4, 6, 2, 5, 2, 6, 1, 0],
    [1, 1, 6, 4, 1, 3, 2, 0, 3, 3]
  ]

  /** Overshoot of the backout curve every spin tween uses. */
  const SPIN_OVERSHOOT: real := 0.5
  /** Duration of the first reel's tween without jitter, in milliseconds. */
  const BASE_TIME: int := 2500
  /** Extra duration per reel index and per unit of jitter, in milliseconds. */
  const STAGGER: int := 600
  /** Distance the first reel travels without jitter, in symbol cells. */
  const BASE_DISTANCE: real := 10.0
  /** Extra distance per reel index, in symbol cells. */
  const DISTANCE_STEP: int := 5
  /** The random jitter of a spin is drawn from 0 .. JITTER_RANGE - 1. */
  const JITTER_RANGE: nat := 3

  /** The tween a spin creates for reel `i` of `n`, which is at `begin`, with
      jitter `extra`: it travels 10 + 5i + extra cells in 2500 + 600i + 600extra
      milliseconds, and only the last reel's tween ends the spin. */
  function SpinTween(r: Reel, begin: real, i: nat, n: nat, extra: nat, now: int): (t: Tween)
    requires i < n
    ensures t.reel == r && t.begin == begin && t.start == now
    ensures t.easing == BackoutCurve(SPIN_OVERSHOOT)
    ensures t.target - t.begin == BASE_DISTANCE + (DISTANCE_STEP * i + extra) as real
    ensures t.time == BASE_TIME + STAGGER * (i + extra) && t.time > 0
    ensures t.complete == ReelsComplete <==> i == n - 1
  {
    Tween(r, begin, begin + BASE_DISTANCE + (i * DISTANCE_STEP) as real + extra as real,
          BackoutCurve(SPIN_OVERSHOOT), BASE_TIME + i * STAGGER + extra * STAGGER,
          if i == n - 1 then ReelsComplete else NoCallback, now)
  }

  /** The tweens one spin appends, reel by reel from left to right. */
  function SpinPlan(reels: seq<Reel>, begins: seq<real>, extras: seq<nat>, now: int): (plan: seq<Tween>)
    requires |begins| == |reels| && |extras| == |reels|
    ensures |plan| == |reels|
    ensures forall i :: 0 <= i < |plan| ==>
              plan[i] == SpinTween(reels[i], begins[i], i, |reels|, extras[i], now)
  {
    seq(|reels|, i requires 0 <= i < |reels| => SpinTween(reels[i], begins[i], i, |reels|, extras[i], now))
  }

  /** Later reels travel farther and, for the same jitter, take longer: the
      deterministic part of the duration grows by STAGGER per reel. */
  lemma SpinStagger(r: Reel, q: Reel, b: real, c: real, i: nat, k: nat, n: nat, extra: nat, now: int)
    requires i < k < n
    ensures SpinTween(r, b, i, n, extra, now).time < SpinTween(q, c, k, n, extra, now).time
    ensures SpinTween(r, b, i, n, extra, now).target - b < SpinTween(q, c, k, n, extra, now).target - c
  {
  }

  /** With the jitter, the last reel is not always the last to stop: with
      jitter 2 on the fourth of five reels and 0 on the fifth, the fourth
      runs 5500 ms and the fifth, whose completion ends the spin, 4900 ms. */
  lemma LastReelNotAlwaysLast(r3: Reel, r4: Reel, b3: real, b4: real, now: int)
    ensures SpinTween(r3, b3, 3, 5, 2, now).time == 5500
    ensures SpinTween(r4, b4, 4, 5, 0, now).time == 4900
    ensures SpinTween(r4, b4, 4, 5, 0, now).complete == ReelsComplete
    ensures SpinTween(r3, b3, 3, 5, 2, now).complete == NoCallback
  {
  }

  /** A spin only animates the given reels, over positive durations. */
  lemma SpinPlanTweens(reels: seq<Reel>, begins: seq<real>, extras: seq<nat>, now: int)
    requires |begins| == |reels| && |extras| == |reels|
    ensures forall t :: t in SpinPlan(reels, begins, extras, now) ==> t.reel in reels && t.time > 0
  {
    var plan := SpinPlan(reels, begins, extras, now);
    forall t | t in plan
      ensures t.reel in reels && t.time > 0
    {
      var j :| 0 <= j < |plan| && plan[j] == t;
    }
  }

  /** Every reel's spin tween, with the jitter `extras` drawn for it, has
      had its time at `now`. */
  predicate SpinOver(extras: seq<nat>, start: int, now: int)
  {
    forall i :: 0 <= i < |extras| ==> now - start >= BASE_TIME + STAGGER * (i + extras[i])
  }

  /** Every tween of a spin is done exactly when each reel's own duration
      has elapsed. */
  lemma SpinPlanElapsed(reels: seq<Reel>, begins: seq<real>, extras: seq<nat>, start: int, now: int)
    requires |begins| == |reels| && |extras| == |reels|
    ensures (forall t :: t in SpinPlan(reels, begins, extras, start) ==> t.time > 0 && Done(t, now))
            <==> SpinOver(extras, start, now)
  {
    var plan := SpinPlan(reels, begins, extras, start);
    if SpinOver(extras, start, now) {
      forall t | t in plan
        ensures t.time > 0 && Done(t, now)
      {
        var i :| 0 <= i < |plan| && plan[i] == t;
      }
    }
    if forall t :: t in plan ==> Done(t, now) {
      forall i | 0 <= i < |extras|
        ensures now - start >= BASE_TIME + STAGGER * (i + extras[i])
      {
        assert plan[i] in plan;
      }
    }
  }

  /** Whatever jitter is drawn, every reel's duration has elapsed once
      2500 + 600 * (n + 1) milliseconds have passed. */
  lemma SpinWorstCase(extras: seq<nat>, start: int, now: int)
    requires forall i :: 0 <= i < |extras| ==> extras[i] < JITTER_RANGE
    requires now - start >= BASE_TIME + STAGGER * (|extras| + 1)
    ensures SpinOver(extras, start, now)
  {
    forall i | 0 <= i < |extras|
      ensures now - start >= BASE_TIME + STAGGER * (i + extras[i])
    {
      assert i + extras[i] <= |extras| + 1;
    }
  }

  /** End of a spin on distinct reels: once every reel's own duration has
      elapsed, one pass completes every tween, clears `running`, leaves no
      tween scheduled, and puts every reel exactly on its target. */
  lemma {:induction false} SpinSettles(reels: seq<Reel>, begins: seq<real>, extras: seq<nat>,
                                       start: int, now: int, init: real)
    requires |begins| == |reels| && |extras| == |reels| && |reels| > 0
    requires forall i, k :: 0 <= i < k < |reels| ==> reels[i] != reels[k]
    requires SpinOver(extras, start, now)
    ensures Timed(SpinPlan(reels, begins, extras, start))
    ensures Pending(SpinPlan(reels, begins, extras, start), now) == []
    ensures ClearsRunning(SpinPlan(reels, begins, extras, start), now)
    ensures forall i :: 0 <= i < |reels| ==>
              Settle(SpinPlan(reels, begins, extras, start), reels[i], init, now)
              == begins[i] + BASE_DISTANCE + (DISTANCE_STEP * i + extras[i]) as real
  {
    var plan := SpinPlan(reels, begins, extras, start);
    var n := |reels|;
    SpinPlanElapsed(reels, begins, extras, start, now);
    PendingNoneLeft(plan, now);
    assert plan[n - 1] in plan;
    forall i | 0 <= i < n
      ensures Settle(plan, reels[i], init, now) == begins[i] + BASE_DISTANCE + (DISTANCE_STEP * i + extras[i]) as real
    {
      SettleLastWriter(plan, i, init, now);
    }
  }

  class Machine {
    const reels: seq<Reel>
    var tweening: seq<Tween>
    var running: bool

    /** The symbol arrays of all reels. */
    ghost function Symbols(): set<array<Sprite>>
    {
      set r | r in reels :: r.symbols
    }

    /** Reels are distinct objects with distinct symbol arrays, every sprite
        shows a loaded texture, and every tween animates one of the reels
        over a positive duration. */
    ghost predicate Valid()
      reads this`tweening, Symbols()
    {
      (forall i, k :: 0 <= i < k < |reels| ==> reels[i] != reels[k] && reels[i].symbols != reels[k].symbols)
      && (forall r :: r in reels ==> r.Valid())
      && (forall t :: t in tweening ==> t.reel in reels && t.time > 0)
    }

    /** The reels' current positions, left to right. */
    function Positions(): (ps: seq<real>)
      reads reels
      ensures |ps| == |reels|
      ensures forall i :: 0 <= i < |reels| ==> ps[i] == reels[i].position
    {
      seq(|reels|, i requires 0 <= i < |reels| reads reels => reels[i].position)
    }

    /** The session as the page builds it: one reel per strip, at rest at
        position 0, no tween scheduled and no spin running. */
    constructor ()
      ensures Valid()
      ensures |reels| == |SLOT_REELS| && tweening == [] && !running
      ensures forall i :: 0 <= i < |reels| ==>
                fresh(reels[i]) && fresh(reels[i].symbols)
                && reels[i].position == 0.0 && reels[i].previousPosition == 0.0 && reels[i].blurY == 0.0
                && reels[i].symbols.Length == SLOT_COUNT
                && forall j :: 0 <= j < SLOT_COUNT ==>
                     reels[i].symbols[j] == Sprite(j as real * SYMBOL_SIZE, SLOT_REELS[i][j])
    {
      var rs: seq<Reel> := [];
      var i := 0;
      while i < |SLOT_REELS|
        invariant 0 <= i <= |SLOT_REELS| && |rs| == i
        invariant forall k :: 0 <= k < i ==>
                    fresh(rs[k]) && fresh(rs[k].symbols) && rs[k].Valid()
                    && rs[k].position == 0.0 && rs[k].previousPosition == 0.0 && rs[k].blurY == 0.0
                    && rs[k].symbols.Length == SLOT_COUNT
                    && forall j :: 0 <= j < SLOT_COUNT ==>
                         rs[k].symbols[j] == Sprite(j as real * SYMBOL_SIZE, SLOT_REELS[k][j])
        invariant forall k, m :: 0 <= k < m < i ==> rs[k] != rs[m] && rs[k].symbols != rs[m].symbols
      {
        var r := new Reel(SLOT_REELS[i]);
        rs := rs + [r];
        i := i + 1;
      }
      reels := rs;
      tweening := [];
      running := false;
    }

    /** Schedules a tween of reel `r` towards `target`, recording the reel's
        current position as the value to start from. */
    method TweenTo(r: Reel, target: real, time: int, easing: Curve, complete: Callback, now: int)
      returns (t: Tween)
      modifies this`tweening
      ensures t == Tween(r, r.position, target, easing, time, complete, now)
      ensures tweening == old(tweening) + [t]
    {
      t := Tween(r, r.position, target, easing, time, complete, now);
      tweening := tweening + [t];
    }

    /** Runs a tween's completion callback; the only non-empty one is the
        spin's completion handler, which clears `running`. */
    method Fire(callback: Callback)
      modifies this`running
      ensures running == (old(running) && callback != ReelsComplete)
    {
      if callback == ReelsComplete {
        running := false;
      }
    }

    /** The scheduler's work on one tween: the eased interpolation at the
        current phase is written into the reel's position; once the phase
        is 1 the exact target is written instead and the completion
        callback runs. Reports whether the tween completed. */
    method Advance(t: Tween, now: int) returns (completed: bool)
      requires t.time > 0
      modifies t.reel`position, this`running
      ensures completed == Done(t, now)
      ensures t.reel.position == Eval(t, now)
      ensures running == (old(running) && !(completed && t.complete == ReelsComplete))
    {
      var phase := Phase(t, now);
      t.reel.position := Lerp(t.begin, t.target, t.easing.Apply(phase));
      completed := phase == 1.0;
      if completed {
        t.reel.position := t.target;
        Fire(t.complete);
      }
    }

    /** One pass of the tween scheduler at clock reading `now`: every tween,
        in list order, writes its value into its reel's position; a tween
        whose phase reached 1 writes its exact target, runs its completion
        callback and is queued; the queued tweens are then spliced out. */
    method Tick(now: int)
      requires Valid()
      modifies this`tweening, this`running, reels`position
      ensures Valid()
      ensures tweening == Pending(old(tweening), now)
      ensures running == (old(running) && !ClearsRunning(old(tweening), now))
      ensures forall m :: 0 <= m < |reels| ==>
                reels[m].position == Settle(old(tweening), reels[m], old(reels[m].position), now)
    {
      SelectSpec(tweening, now, false);
      var remove := ApplyTweens(now);
      RemoveCompleted(remove, now);
    }

    /** The first half of a scheduler pass: every tween writes its value and
        the completed ones, in list order, are returned. */
    method ApplyTweens(now: int) returns (remove: seq<Tween>)
      requires Timed(tweening)
      requires forall t :: t in tweening ==> t.reel in reels
      modifies this`running, reels`position
      ensures remove == Completed(tweening, now)
      ensures running == (old(running) && !ClearsRunning(tweening, now))
      ensures forall m :: 0 <= m < |reels| ==>
                reels[m].position == Settle(tweening, reels[m], old(reels[m].position), now)
    {
      ghost var init := Positions();
      var ts := tweening;
      remove := [];
      var i := 0;
      while i < |ts|
        invariant 0 <= i <= |ts|
        invariant remove == Completed(ts[..i], now)
        invariant running == (old(running) && !ClearsRunning(ts[..i], now))
        invariant forall m :: 0 <= m < |reels| ==> reels[m].position == Applied(ts, i, reels[m], init[m], now)
      {
        var t := ts[i];
        var completed := Advance(t, now);
        if completed {
          remove := remove + [t];
        }
        PrefixStep(ts, i, now);
        i := i + 1;
      }
      assert ts[..|ts|] == ts;
    }

    /** The second half of a scheduler pass: each queued tween is looked up
        with `indexOf` and spliced out of the list. */
    method RemoveCompleted(remove: seq<Tween>, now: int)
      requires remove == Completed(tweening, now)
      modifies this`tweening
      ensures tweening == Pending(old(tweening), now)
    {
      ghost var ts := tweening;
      DropDoneNone(ts, now);
      var k := 0;
      while k < |remove|
        invariant 0 <= k <= |remove|
        invariant tweening == DropDone(ts, k, now)
      {
        SpliceStep(ts, k, now);
        var at := IndexOf(tweening, remove[k]);
        tweening := Splice(tweening, at);
        k := k + 1;
      }
      DropDoneAll(ts, k, now);
    }

    /** Starts a spin unless one is running: marks the spin as running and
        schedules one tween per reel, whose jitter is `extras[i]`. */
    method StartPlay(now: int, extras: seq<nat>)
      requires Valid()
      requires |extras| == |reels|
      requires forall i :: 0 <= i < |extras| ==> extras[i] < JITTER_RANGE
      modifies this`running, this`tweening
      ensures Valid()
      ensures running
      ensures old(running) ==> tweening == old(tweening)
      ensures !old(running) ==> tweening == old(tweening) + SpinPlan(reels, Positions(), extras, now)
    {
      if running {
        return;
      }
      running := true;
      ghost var plan := SpinPlan(reels, Positions(), extras, now);
      var n := |reels|;
      var i := 0;
      while i < n
        modifies this`tweening
        invariant 0 <= i <= n
        invariant tweening == old(tweening) + plan[..i]
      {
        var r := reels[i];
        var extra := extras[i];
        var target := r.position + BASE_DISTANCE + (i * DISTANCE_STEP) as real + extra as real;
        var time := BASE_TIME + i * STAGGER + extra * STAGGER;
        var t := TweenTo(r, target, time, BackoutCurve(SPIN_OVERSHOOT),
                         if i == n - 1 then ReelsComplete else NoCallback, now);
        assert t == plan[i];
        assert plan[..i + 1] == plan[..i] + [t];
        i := i + 1;
      }
      assert plan[..n] == plan;
      SpinPlanTweens(reels, Positions(), extras, now);
    }

    /** One pass over the reels: each reel's blur, previous position and
        slot layout are updated; `textures[i][j]` is the texture slot j of
        reel i takes if it has just wrapped to the top. */
    method UpdateReels(textures: seq<seq<nat>>)
      requires Valid()
      requires |textures| == |reels|
      requires forall i :: 0 <= i < |reels| ==> |textures[i]| == reels[i].symbols.Length
      requires forall i, k :: 0 <= i < |textures| && 0 <= k < |textures[i]| ==> textures[i][k] < TEXTURE_COUNT
      modifies reels`blurY, reels`previousPosition, Symbols()
      ensures Valid()
      ensures forall i :: 0 <= i < |reels| ==>
                reels[i].Stepped(old(reels[i].previousPosition), old(reels[i].symbols[..]), textures[i])
    {
      ghost var prev := seq(|reels|, m requires 0 <= m < |reels| reads reels => reels[m].previousPosition);
      ghost var before := seq(|reels|, m requires 0 <= m < |reels| reads reels, Symbols() => reels[m].symbols[..]);
      var i := 0;
      while i < |reels|
        invariant 0 <= i <= |reels|
        invariant forall m :: 0 <= m < |reels| ==> reels[m].Valid()
        invariant forall m :: 0 <= m < i ==> reels[m].Stepped(prev[m], before[m], textures[m])
        invariant forall m :: i <= m < |reels| ==>
                    reels[m].previousPosition == prev[m] && reels[m].symbols[..] == before[m]
      {
        reels[i].Update(textures[i]);
        i := i + 1;
      }
    }

    /** One animation frame: the tween pass runs first, then the reel pass. */
    method Frame(now: int, textures: seq<seq<nat>>)
      requires Valid()
      requires |textures| == |reels|
      requires forall i :: 0 <= i < |reels| ==> |textures[i]| == reels[i].symbols.Length
      requires forall i, k :: 0 <= i < |textures| && 0 <= k < |textures[i]| ==> textures[i][k] < TEXTURE_COUNT
      modifies this`tweening, this`running, reels`position, reels`blurY, reels`previousPosition, Symbols()
      ensures Valid()
      ensures tweening == Pending(old(tweening), now)
      ensures running == (old(running) && !ClearsRunning(old(tweening), now))
      ensures forall i :: 0 <= i < |reels| ==>
                reels[i].position == Settle(old(tweening), reels[i], old(reels[i].position), now)
                && reels[i].Stepped(old(reels[i].previousPosition), old(reels[i].symbols[..]), textures[i])
    {
      Tick(now);
      UpdateReels(textures);
    }
  }
}
