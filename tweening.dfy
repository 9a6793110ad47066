/** The tween records kept by the scheduler and the functions that say what
    one scheduler pass does with them: the value each tween writes, which
    value a reel ends up with, which tweens complete and which remain. */
module Tweening {
  import opened RealArith
  import opened Easing
  import opened Reels

  /** What a tween runs when it completes: nothing, or the handler that
      marks the spin as finished. */
  datatype Callback = NoCallback | ReelsComplete

  /** One animation of a reel's position from `begin` (the position when the
      tween was created) to `target`, over `time` milliseconds from the
      clock reading `start`. */
  datatype Tween = Tween(
    reel: Reel,
    begin: real,
    target: real,
    easing: Curve,
    time: int,
    complete: Callback,
    start: int)

  /** Every tween has a positive duration. */
  predicate Timed(ts: seq<Tween>)
  {
    forall t :: t in ts ==> t.time > 0
  }

  /** The tween's duration has elapsed at clock reading `now`. */
  predicate Done(t: Tween, now: int)
  {
    now - t.start >= t.time
  }

  /** The tween's phase at `now`: the elapsed fraction of its duration,
      capped at 1 (the cap is `Math.min(1, ...)`; there is no lower cap). */
  function Phase(t: Tween, now: int): (p: real)
    requires t.time > 0
    ensures p <= 1.0
    ensures now >= t.start ==> 0.0 <= p
    ensures p == 1.0 <==> Done(t, now)
    ensures !Done(t, now) ==> p == (now - t.start) as real / t.time as real
  {
    QuotientAtLeastOne((now - t.start) as real, t.time as real);
    var q := (now - t.start) as real / t.time as real;
    if q < 1.0 then q else 1.0
  }

  /** The value a scheduler pass leaves in the tween's property: the eased
      interpolation, replaced by the exact target once the phase is 1. */
  function Eval(t: Tween, now: int): (v: real)
    requires t.time > 0
    ensures Done(t, now) ==> v == t.target
    ensures !Done(t, now) ==>
              v == Lerp(t.begin, t.target, t.easing.Apply((now - t.start) as real / t.time as real))
  {
    var phase := Phase(t, now);
    if phase == 1.0 then t.target else Lerp(t.begin, t.target, t.easing.Apply(phase))
  }

  /** Position of reel `r` after the first `n` tweens of `ts` have been
      applied in order to a reel that started the pass at `init`: the last
      of them that animates `r` decides it. */
  function Applied(ts: seq<Tween>, n: nat, r: Reel, init: real, now: int): real
    requires Timed(ts) && n <= |ts|
  {
    if n == 0 then init
    else if ts[n - 1].reel == r then Eval(ts[n - 1], now)
    else Applied(ts, n - 1, r, init, now)
  }

  /** Position of reel `r` after a whole pass over `ts`. */
  function Settle(ts: seq<Tween>, r: Reel, init: real, now: int): real
    requires Timed(ts)
  {
    Applied(ts, |ts|, r, init, now)
  }

  /** Among the first `n` tweens, none animating `r` leaves `init`, and
      otherwise one of those that animate `r` has written the value. */
  lemma {:induction false} AppliedSpec(ts: seq<Tween>, n: nat, r: Reel, init: real, now: int)
    requires Timed(ts) && n <= |ts|
    ensures (forall k :: 0 <= k < n ==> ts[k].reel != r) ==> Applied(ts, n, r, init, now) == init
    ensures (exists k :: 0 <= k < n && ts[k].reel == r) ==>
              exists k :: 0 <= k < n && ts[k].reel == r && Applied(ts, n, r, init, now) == Eval(ts[k], now)
  {
    if n > 0 {
      AppliedSpec(ts, n - 1, r, init, now);
      if ts[n - 1].reel != r && exists k :: 0 <= k < n && ts[k].reel == r {
        var k :| 0 <= k < n && ts[k].reel == r;
        assert k < n - 1;
      }
    }
  }

  /** A reel no tween animates keeps its position; otherwise its position
      is the value written by one of the tweens that animate it. */
  lemma SettleSpec(ts: seq<Tween>, r: Reel, init: real, now: int)
    requires Timed(ts)
    ensures (forall t :: t in ts ==> t.reel != r) ==> Settle(ts, r, init, now) == init
    ensures (exists t :: t in ts && t.reel == r) ==>
              exists t :: t in ts && t.reel == r && Settle(ts, r, init, now) == Eval(t, now)
  {
    AppliedSpec(ts, |ts|, r, init, now);
    if exists t :: t in ts && t.reel == r {
      var t :| t in ts && t.reel == r;
      var k :| 0 <= k < |ts| && ts[k] == t;
      assert ts[k].reel == r;
    }
  }

  /** The last tween of `ts` that animates a reel decides that reel's
      position, whatever came before it. */
  lemma SettleLastWriter(ts: seq<Tween>, k: nat, init: real, now: int)
    requires Timed(ts)
    requires k < |ts|
    requires forall m :: k < m < |ts| ==> ts[m].reel != ts[k].reel
    ensures Settle(ts, ts[k].reel, init, now) == Eval(ts[k], now)
  {
    LastWriterUpTo(ts, |ts|, k, init, now);
  }

  /** SettleLastWriter for the first `n` tweens. */
  lemma {:induction false} LastWriterUpTo(ts: seq<Tween>, n: nat, k: nat, init: real, now: int)
    requires Timed(ts)
    requires k < n <= |ts|
    requires forall m :: k < m < n ==> ts[m].reel != ts[k].reel
    ensures Applied(ts, n, ts[k].reel, init, now) == Eval(ts[k], now)
  {
    if k < n - 1 {
      LastWriterUpTo(ts, n - 1, k, init, now);
    }
  }

  /** While a backout tween that moves upwards runs (its clock reading at
      or after its start), the value it writes never falls below its begin
      value and overshoots its target by at most 4/27 of the overshoot amount
      times the distance travelled. */
  lemma EvalBounds(t: Tween, now: int)
    requires t.time > 0
    requires t.begin <= t.target
    requires t.start <= now
    requires t.easing.amount >= 0.0
    ensures t.begin <= Eval(t, now)
    ensures Eval(t, now) <= t.target + (t.target - t.begin) * (t.easing.amount * 4.0 / 27.0)
  {
    var phase := Phase(t, now);
    if phase != 1.0 {
      var e := t.easing.Apply(phase);
      BackoutBounds(t.easing.amount, phase);
      LerpAbove(t.begin, t.target, e);
      var d := t.target - t.begin;
      assert Lerp(t.begin, t.target, e) - t.begin == d * e;
      MulNonNegative(d, 1.0 + t.easing.amount * 4.0 / 27.0 - e);
      var p := d * (1.0 + t.easing.amount * 4.0 / 27.0 - e);
      assert p == d + d * (t.easing.amount * 4.0 / 27.0) - d * e;
    } else {
      MulNonNegative(t.target - t.begin, t.easing.amount * 4.0 / 27.0);
    }
  }

  /** Positions stay non-negative: a reel that starts a pass at or above 0,
      animated only by upward backout tweens that begin at or above 0 and
      have started, is still at or above 0 after the pass. */
  lemma SettleNonNegative(ts: seq<Tween>, r: Reel, init: real, now: int)
    requires Timed(ts)
    requires init >= 0.0
    requires forall t :: t in ts && t.reel == r ==>
               0.0 <= t.begin <= t.target && t.start <= now && t.easing.amount >= 0.0
    ensures Settle(ts, r, init, now) >= 0.0
  {
    SettleSpec(ts, r, init, now);
    if exists t :: t in ts && t.reel == r {
      var t :| t in ts && t.reel == r && Settle(ts, r, init, now) == Eval(t, now);
      EvalBounds(t, now);
    }
  }

  /** The tweens of `ts` that are (`done == true`) or are not yet
      (`done == false`) complete at `now`, in their original order. */
  function Select(ts: seq<Tween>, now: int, done: bool): seq<Tween>
  {
    if ts == [] then []
    else (if Done(ts[0], now) == done then [ts[0]] else []) + Select(ts[1..], now, done)
  }

  /** Selection keeps exactly the tweens of the requested kind and never
      lengthens the list. */
  lemma {:induction false} SelectSpec(ts: seq<Tween>, now: int, done: bool)
    ensures forall t :: t in Select(ts, now, done) ==> t in ts && Done(t, now) == done
    ensures forall t :: t in ts && Done(t, now) == done ==> t in Select(ts, now, done)
    ensures |Select(ts, now, done)| <= |ts|
  {
    if ts != [] {
      SelectSpec(ts[1..], now, done);
      assert ts == [ts[0]] + ts[1..];
    }
  }

  /** The tweens that stay scheduled after a pass at `now`. */
  function Pending(ts: seq<Tween>, now: int): seq<Tween>
  {
    Select(ts, now, false)
  }

  /** The tweens that complete in a pass at `now`, in list order. */
  function Completed(ts: seq<Tween>, now: int): seq<Tween>
  {
    Select(ts, now, true)
  }

  /** Selecting from a concatenation selects from each part, in order. */
  lemma {:induction false} SelectAppend(a: seq<Tween>, b: seq<Tween>, now: int, done: bool)
    ensures Select(a + b, now, done) == Select(a, now, done) + Select(b, now, done)
  {
    if a != [] {
      assert (a + b)[0] == a[0];
      assert (a + b)[1..] == a[1..] + b;
      SelectAppend(a[1..], b, now, done);
    } else {
      assert a + b == b;
    }
  }

  /** Every tween is either completed or still pending, never both and
      never neither: a pass skips no tween and duplicates none. */
  lemma {:induction false} SelectPartition(ts: seq<Tween>, now: int)
    ensures multiset(Completed(ts, now)) + multiset(Pending(ts, now)) == multiset(ts)
  {
    if ts != [] {
      SelectPartition(ts[1..], now);
      assert ts == [ts[0]] + ts[1..];
    }
  }

  /** A list in which nothing has completed is kept as it is, order included. */
  lemma {:induction false} PendingKeepsAll(ts: seq<Tween>, now: int)
    requires forall t :: t in ts ==> !Done(t, now)
    ensures Pending(ts, now) == ts
    ensures Completed(ts, now) == []
  {
    if ts != [] {
      PendingKeepsAll(ts[1..], now);
    }
  }

  /** A list in which everything has completed is emptied, and every
      tween in it completes, in order. */
  lemma {:induction false} PendingNoneLeft(ts: seq<Tween>, now: int)
    requires forall t :: t in ts ==> Done(t, now)
    ensures Pending(ts, now) == []
    ensures Completed(ts, now) == ts
  {
    if ts != [] {
      assert forall t :: t in ts[1..] ==> t in ts;
      PendingNoneLeft(ts[1..], now);
    }
  }

  /** A tween that completes in a pass is not among those kept: its
      completion callback cannot run in a later pass. */
  lemma CompletedNotPending(ts: seq<Tween>, now: int, later: int)
    requires later >= now
    ensures forall t :: t in Completed(ts, now) ==> t !in Pending(ts, now) && Done(t, later)
  {
    SelectSpec(ts, now, true);
    SelectSpec(ts, now, false);
  }

  /** Some tween completing in the pass carries the handler that ends the spin. */
  predicate ClearsRunning(ts: seq<Tween>, now: int)
  {
    exists t :: t in ts && Done(t, now) && t.complete == ReelsComplete
  }

  /** Extending a prefix by one tween: the completed ones grow by that
      tween if it is done, and so does the reason to end the spin. */
  lemma PrefixStep(ts: seq<Tween>, i: nat, now: int)
    requires i < |ts|
    ensures Completed(ts[..i + 1], now)
            == Completed(ts[..i], now) + (if Done(ts[i], now) then [ts[i]] else [])
    ensures ClearsRunning(ts[..i + 1], now)
            <==> ClearsRunning(ts[..i], now) || (Done(ts[i], now) && ts[i].complete == ReelsComplete)
  {
    assert ts[..i + 1] == ts[..i] + [ts[i]];
    SelectAppend(ts[..i], [ts[i]], now, true);
    assert [ts[i]][1..] == [];
    if ClearsRunning(ts[..i + 1], now) {
      var t :| t in ts[..i + 1] && Done(t, now) && t.complete == ReelsComplete;
      assert t in ts[..i] || t == ts[i];
    }
    if ClearsRunning(ts[..i], now) {
      var t :| t in ts[..i] && Done(t, now) && t.complete == ReelsComplete;
      assert t in ts[..i + 1];
    }
    assert ts[i] in ts[..i + 1];
  }

  /** `Array.prototype.indexOf`: the first index holding `x`, or -1. */
  function IndexOf(s: seq<Tween>, x: Tween): (i: int)
    ensures -1 <= i < |s|
    ensures i >= 0 ==> s[i] == x && x !in s[..i]
    ensures i == -1 <==> x !in s
  {
    if s == [] then -1
    else if s[0] == x then 0
    else
      var j := IndexOf(s[1..], x);
      assert s[1..][..j + 1] == s[1..j + 2];
      if j == -1 then -1 else j + 1
  }

  /** `Array.prototype.splice(start, 1)` on a list, returning what is left:
      a negative start counts from the end, and a start at or past the end
      removes nothing. */
  function Splice(s: seq<Tween>, start: int): seq<Tween>
  {
    var from := if start >= 0 then start else if |s| + start < 0 then 0 else |s| + start;
    if from < |s| then s[..from] + s[from + 1..] else s
  }

  /** Splicing at an index inside the list removes exactly the element
      there; at or past the end it removes nothing; at -1 it removes the
      last element. */
  lemma SpliceSpec(s: seq<Tween>, start: int)
    ensures 0 <= start < |s| ==>
              |Splice(s, start)| == |s| - 1 && multiset(Splice(s, start)) + multiset{s[start]} == multiset(s)
    ensures 0 <= start < |s| ==>
              (forall i :: 0 <= i < start ==> Splice(s, start)[i] == s[i])
              && (forall i :: start <= i < |s| - 1 ==> Splice(s, start)[i] == s[i + 1])
    ensures start >= |s| ==> Splice(s, start) == s
    ensures start == -1 && s != [] ==> Splice(s, start) == s[..|s| - 1]
  {
    if 0 <= start < |s| {
      assert s == s[..start] + [s[start]] + s[start + 1..];
    }
    if start == -1 && s != [] {
      assert s[|s| - 1 + 1..] == [];
    }
  }

  /** `ts` with its first `k` completed tweens taken out: the list the
      scheduler holds after splicing out `k` of the tweens it queued for
      removal. */
  function DropDone(ts: seq<Tween>, k: nat, now: int): seq<Tween>
  {
    if ts == [] then []
    else if Done(ts[0], now) && k > 0 then DropDone(ts[1..], k - 1, now)
    else [ts[0]] + DropDone(ts[1..], k, now)
  }

  /** Taking out no completed tween leaves the list as it is. */
  lemma {:induction false} DropDoneNone(ts: seq<Tween>, now: int)
    ensures DropDone(ts, 0, now) == ts
  {
    if ts != [] {
      DropDoneNone(ts[1..], now);
    }
  }

  /** Taking out every completed tween leaves exactly the pending ones. */
  lemma {:induction false} DropDoneAll(ts: seq<Tween>, k: nat, now: int)
    requires k >= |Completed(ts, now)|
    ensures DropDone(ts, k, now) == Pending(ts, now)
  {
    if ts != [] {
      DropDoneAll(ts[1..], if Done(ts[0], now) then k - 1 else k, now);
    }
  }

  /** Looking for `x` behind a different first element finds it one
      place further on. */
  lemma IndexOfBehind(y: Tween, s: seq<Tween>, x: Tween)
    requires y != x
    requires x in s
    ensures IndexOf([y] + s, x) == IndexOf(s, x) + 1
  {
    assert ([y] + s)[1..] == s;
  }

  /** Splicing behind an extra first element leaves that element in front. */
  lemma SpliceBehind(y: Tween, s: seq<Tween>, j: nat)
    requires j < |s|
    ensures Splice([y] + s, j + 1) == [y] + Splice(s, j)
  {
    assert ([y] + s)[..j + 1] == [y] + s[..j];
    assert ([y] + s)[j + 2..] == s[j + 1..];
    assert [y] + s[..j] + s[j + 1..] == [y] + (s[..j] + s[j + 1..]);
  }

  /** One splice step: after the first `k` completed tweens are gone, the
      first occurrence of the next queued tween is exactly that tween (an
      equal record earlier in the list would be completed too, and so gone
      already), so `indexOf` finds it and `splice` takes out that one only. */
  lemma {:induction false} SpliceStep(ts: seq<Tween>, k: nat, now: int)
    requires k < |Completed(ts, now)|
    ensures IndexOf(DropDone(ts, k, now), Completed(ts, now)[k]) >= 0
    ensures Splice(DropDone(ts, k, now), IndexOf(DropDone(ts, k, now), Completed(ts, now)[k]))
            == DropDone(ts, k + 1, now)
  {
    var x := Completed(ts, now)[k];
    var rest := DropDone(ts[1..], k, now);
    if Done(ts[0], now) {
      assert Completed(ts, now) == [ts[0]] + Completed(ts[1..], now);
      if k == 0 {
        DropDoneNone(ts[1..], now);
        assert DropDone(ts, 0, now) == [ts[0]] + rest;
      } else {
        assert x == Completed(ts[1..], now)[k - 1];
        SpliceStep(ts[1..], k - 1, now);
      }
    } else {
      assert Completed(ts, now) == Completed(ts[1..], now);
      assert x in Completed(ts[1..], now);
      SelectSpec(ts[1..], now, true);
      assert x != ts[0];
      SpliceStep(ts[1..], k, now);
      var j := IndexOf(rest, x);
      assert x in rest;
      IndexOfBehind(ts[0], rest, x);
      SpliceBehind(ts[0], rest, j);
    }
  }
}
