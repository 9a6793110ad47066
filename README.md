# Slot-machine animation core in Dafny

This project models the animation core of the basic PIXI slot-machine demo (`src/index.ts`). The core has four parts:

- **Easing and interpolation.** The `backout(amount)` curve and `lerp`.
- **The tween scheduler.** `tweenTo` appends a tween record to the `tweening` list. Once per frame, the tween ticker writes each tween's eased value into its reel's `position`. A tween whose phase has reached 1 gets its exact target and runs its completion callback. It is then spliced out of the list with `indexOf`/`splice`.
- **The spin controller.** `startPlay` is guarded by the `running` flag. It schedules one staggered tween per reel. Only the last reel's tween carries `reelsComplete`, which clears `running`.
- **The reel ticker.** It sets the blur from the distance travelled since the previous frame and makes the current position the previous one. It then lays out every symbol slot at `((position + j) % N) * SYMBOL_SIZE - SYMBOL_SIZE`. A slot that has just wrapped from below the window to its top takes a new texture.

All arithmetic is on exact reals (`real`) and unbounded integers.

The modules follow the parts of the program:

| file | module | contents |
|---|---|---|
| `realarith.dfy` | `RealArith` | small facts about real products and quotients |
| `easing.dfy` | `Easing` | `Backout`, `Lerp`, the `Curve` datatype |
| `reels.dfy` | `Reels` | JavaScript's `%` on reals, slot offsets, the `Reel` class with its `symbols` array and its per-frame `Update` |
| `tweening.dfy` | `Tweening` | the `Tween` record and `Callback` enum, and functions stating what one scheduler pass does: `Phase`, `Eval`, `Settle`, `Pending`, `Completed`, `ClearsRunning`. It also holds `indexOf`/`splice` and the splice-loop invariant `DropDone` |
| `slotmachine.dfy` | `SlotMachine` | the `Machine` class, a session that owns the reels, the `tweening` list and the `running` flag. Its methods are `TweenTo`, `Tick` (the tween ticker), `StartPlay`, `UpdateReels` (the reel ticker) and `Frame` (both tickers in their registration order) |

Modelling choices:

- The tween's `object[property]` is always a reel's `position`, so a tween holds a `Reel` reference.
- Callbacks are the closed enum `NoCallback | ReelsComplete`.
- `Date.now()` becomes the parameter `now`, in milliseconds.
- `Math.random()` becomes two parameters:
  - `extras`, the jitter per reel, each in 0..2;
  - `textures`, the texture index a wrapped slot takes, each in 0..9.

One scheduler pass is specified by `Settle`: the last tween in list order that animates a reel decides that reel's position. Two tweens can animate one reel at once, since a new spin may start while an old tween still runs. `Tick` is proved to leave:

- `Settle` in every position;
- exactly `Pending` in the list;
- `running` cleared exactly when a completing tween carries `ReelsComplete`.

The source removes tweens by `indexOf` of an object reference. Equal tween records are indistinguishable in the model. `SpliceStep` shows this changes nothing: an equal record earlier in the list has completed too and has already been removed. So `indexOf` always finds the queued tween, and its `-1` result (which would make `splice` drop the last element) cannot occur.

Behaviours of the code worth noting:

- The phase is capped at 1 only (`Math.min`). It is not clamped below 0.
- List order matters when two tweens animate one reel.
- The slot layout repeats every N units of position only for position >= 0, because `%` keeps the sign of its dividend. Reels start at 0 (src/index.ts:64) and never go below 0: every tween begins at or above 0 and heads upwards (src/index.ts:152), and backout stays at or above 0 on [0, 1] (`SettleNonNegative`). A reel does move down briefly, when backout carries it past its target and back (`BackoutOvershoots`, `LerpOvershoot`). So this never shows in the program.
- This variant runs no win check when the spin completes.

## Model

| member | source | states |
|---|---|---|
| Easing.Backout | src/index.ts:252-254 | The curve, with `t` decremented first, is 0 at t = 0 and 1 at t = 1 for every overshoot amount |
| Easing.BackoutInTermsOfRemaining | src/index.ts:253 | With s = 1 - t the curve equals 1 - s^3 + amount * s^2 * (1 - s) |
| Easing.BackoutBounds | src/index.ts:252-254 | For amount >= 0 and t in [0, 1], the curve stays within [0, 1 + 4 * amount / 27] |
| Easing.BackoutOvershoots | src/index.ts:252-254 | With the amount 0.5 that spins use, the curve exceeds 1 (1 + 6/729 at t = 7/9) |
| Easing.Lerp | src/index.ts:246-248 | lerp(a, b, 0) == a and lerp(a, b, 1) == b, and the offset from a is (b - a) * t for every t, so t is not clamped |
| Easing.LerpOvershoot | src/index.ts:228-232 | An eased value above 1 passed unclamped to lerp puts the property past its target |
| Easing.LerpAbove | src/index.ts:246-248 | A non-negative eased value never interpolates below the start of an upward move |
| Reels.Rem | src/index.ts:185 | JavaScript `%` on numbers: a non-negative dividend gives a result in [0, n), a negative one a result in (-n, 0] |
| Reels.RemPeriodic | src/index.ts:185 | Adding the modulus to a non-negative dividend leaves the remainder unchanged |
| Reels.SlotOffset | src/index.ts:185 | For position >= 0 a slot's offset lies in [-SYMBOL_SIZE, (N - 1) * SYMBOL_SIZE) |
| Reels.SlotOffsetPeriodic | src/index.ts:185 | For position >= 0, the layout repeats every N units of position |
| Reels.SlotOffsetNotPeriodicAcrossZero | src/index.ts:185 | Across 0 the layout does not repeat: since `%` keeps the dividend's sign, slot 0 of a 4-slot reel sits at a different offset at position -0.5 than at 3.5 |
| Reels.SlotOffsetShift | src/index.ts:185 | One unit of position moves slot j to where slot j + 1 was |
| Reels.Relayout | src/index.ts:183-190 | A slot's new offset is its slot offset, and its texture is replaced exactly when the new y < 0 and the previous y > SYMBOL_SIZE |
| Reels.Reel.constructor | src/index.ts:61-86 | A reel starts at position 0 with 0 blur; slot j shows strip symbol j at y = j * SYMBOL_SIZE |
| Reels.Reel.Update | src/index.ts:175-197 | blurY == (position - previous position) * 8, previousPosition becomes position, blur is 0 at rest, every slot is relaid out, and a texture changes only on a wrap |
| Tweening.Phase | src/index.ts:226 | The phase is at most 1; it is 1 exactly when the duration has elapsed, and otherwise equals elapsed / time; it is non-negative once the tween has started |
| Tweening.Eval | src/index.ts:226-235 | A completed tween writes exactly its target; otherwise it writes lerp(begin, target, easing(elapsed / time)) |
| Tweening.AppliedSpec | src/index.ts:224-235 | After the first n tweens, a reel none of them animates keeps its value, and otherwise one of those animating it wrote the value |
| Tweening.SettleSpec | src/index.ts:224-235 | After a pass, a reel no tween animates keeps its position, and otherwise its position is the value written by one of its tweens |
| Tweening.SettleLastWriter | src/index.ts:224-235 | The last tween in list order that animates a reel decides that reel's position |
| Tweening.EvalBounds | src/index.ts:226-235 | A running upward backout tween writes a value between its begin and its target plus the bounded overshoot |
| Tweening.SettleNonNegative | src/index.ts:224-235 | Positions stay non-negative under upward tweens that begin at or above 0, have started (start <= now) and have a non-negative overshoot |
| Tweening.SelectSpec | src/index.ts:234-242 | The kept (or removed) tweens are exactly the list's tweens that are not (or are) done, and the list never grows |
| Tweening.SelectAppend | src/index.ts:224-242 | Filtering a concatenation filters each part, keeping order |
| Tweening.SelectPartition | src/index.ts:234-242 | As multisets, completed plus pending is the whole list: no tween is skipped or duplicated |
| Tweening.PendingKeepsAll | src/index.ts:234-242 | A pass in which nothing completes keeps the list exactly, order included |
| Tweening.PendingNoneLeft | src/index.ts:234-242 | A pass in which everything completes empties the list and completes every tween in order |
| Tweening.CompletedNotPending | src/index.ts:234-241 | A tween that completes is not kept, and it stays complete later, so its callback cannot run again |
| Tweening.PrefixStep | src/index.ts:234-238 | Extending the scanned prefix by one tween extends the removal queue and the reason to clear `running` by that tween alone |
| Tweening.IndexOf | src/index.ts:241 | `indexOf` returns the first index holding the value, or -1 exactly when the value is absent |
| Tweening.SpliceSpec | src/index.ts:241 | `splice(start, 1)` at an index inside the list removes the element there and keeps the others in order (elements before it in place, those after it one place earlier); it removes nothing at or past the end, and the last element at -1 |
| Tweening.DropDoneNone | src/index.ts:240-242 | Before any splice the list is unchanged |
| Tweening.DropDoneAll | src/index.ts:240-242 | After all queued tweens are spliced out, exactly the pending tweens remain |
| Tweening.SpliceStep | src/index.ts:240-242 | Each `indexOf` finds the next queued tween, and `splice` removes exactly that one |
| SlotMachine.SpinTween | src/index.ts:150-161 | Reel i of n travels 10 + 5i + extra in 2500 + 600i + 600extra ms (> 0) with backout(0.5); it carries ReelsComplete exactly when i is the last index |
| SlotMachine.SpinPlan | src/index.ts:149-163 | A spin creates one tween per reel, in reel order |
| SlotMachine.SpinStagger | src/index.ts:152-153 | For equal jitter, later reels travel farther and take longer |
| SlotMachine.LastReelNotAlwaysLast | src/index.ts:151-161 | With jitter, reel 3 can run 5500 ms while reel 4, the one that clears `running`, runs 4900 ms |
| SlotMachine.SpinPlanTweens | src/index.ts:149-163 | Every spin tween animates one of the given reels over a positive duration |
| SlotMachine.SpinPlanElapsed | src/index.ts:151-153 | Every spin tween is done exactly when each reel i has had its own 2500 + 600 * (i + extra_i) ms |
| SlotMachine.SpinWorstCase | src/index.ts:151-153 | With jitter below 3, every reel's own duration has elapsed once 2500 + 600 * (n + 1) ms have passed |
| SlotMachine.SpinSettles | src/index.ts:145-169 | Once every reel's own duration (with its drawn jitter) has elapsed, one pass completes every tween, clears `running`, leaves no tween, and puts each reel exactly on its target |
| SlotMachine.Machine.constructor | src/index.ts:54-88 | Five fresh reels at rest, built from the five strips, with no tween scheduled and `running` false |
| SlotMachine.Machine.TweenTo | src/index.ts:204-219 | Appends exactly one tween whose begin is the reel's current position, and leaves the earlier tweens as they were, in order |
| SlotMachine.Machine.Fire | src/index.ts:167-169 | The completion callback clears `running` exactly when it is ReelsComplete |
| SlotMachine.Machine.Advance | src/index.ts:225-238 | One tween's step writes Eval into its reel, reports completion exactly when done, and fires its callback then |
| SlotMachine.Machine.ApplyTweens | src/index.ts:222-239 | The first loop leaves Settle in every position, queues exactly the completed tweens in order, and clears `running` exactly when one of them carries ReelsComplete |
| SlotMachine.Machine.RemoveCompleted | src/index.ts:240-242 | Splicing out the queued tweens one by one leaves exactly the pending tweens |
| SlotMachine.Machine.Tick | src/index.ts:221-243 | A whole tween pass: positions per Settle, the list becomes Pending in its original order, and `running` is cleared exactly by a completing ReelsComplete tween; the session invariant is kept |
| SlotMachine.Machine.StartPlay | src/index.ts:145-164 | While running, nothing changes; otherwise it sets `running` and appends exactly the spin plan, one tween per reel starting at that reel's position |
| SlotMachine.Machine.UpdateReels | src/index.ts:172-199 | Every reel gets its blur, previous position and slot layout updated as in Reels.Reel.Update |
| SlotMachine.Machine.Frame | src/index.ts:172-243 | One frame runs the tween pass, then the reel pass, with both passes' results |

## Left out

- The PIXI application, canvas, asset loading, containers, covers, text and pointer listener (src/index.ts:1-140). They are library calls and layout with no logic of their own.
- Sprite scaling and centering (src/index.ts:79-83, 191-195). They depend on texture dimensions supplied by the library. `blurX` is always 0 and is not modelled.
- `Date.now()` and `Math.random()` are parameters, `now`, `extras` and `textures`. Randomness itself is not modelled.
- SlotMachine.Machine.StartPlay: uses one clock reading for all tweens of a spin. The source reads the clock again in each `tweenTo` call.
- SlotMachine.Machine.TweenTo: the generic `object[property]` is specialised to a reel's `position`, the only property ever tweened. The `onchange` argument is dropped because it is always `null`.
- Tweens with a duration of zero or less are excluded by preconditions. The source never creates them and does not handle them. With `time` 0, the phase is NaN on a frame where `now` equals the start, and 1 (so the tween completes at once) on any later frame. With a negative `time`, the phase is negative after the start and the tween never completes.
- Floating-point rounding: exact reals are used throughout.
- No claim is made that `running == false` means every reel has stopped. It does not hold (see `LastReelNotAlwaysLast`).
- Reels.Rem: its contract states the range of the remainder, not that the quotient taken is a whole number.
