/** One reel of the slot machine: a scroll position, the position seen at
    the previous frame, a vertical blur strength and a fixed window of
    symbol sprites whose offsets wrap around as the position grows. */
module Reels {
  import opened RealArith

  /** Height of one symbol cell, in pixels. */
  const SYMBOL_SIZE: real := 150.0
  /** Number of symbol textures loaded; a texture is named by its index below it. */
  const TEXTURE_COUNT: nat := 10
  /** Number of symbol sprites built for each reel. */
  const SLOT_COUNT: nat := 4
  /** Blur per unit of position travelled since the previous frame. */
  const BLUR_GAIN: real := 8.0

  /** A symbol sprite: its vertical offset inside the reel and the index of
      the texture it shows. */
  datatype Sprite = Sprite(y: real, texture: nat)

  /** JavaScript's `%` on numbers: the remainder of truncating division,
      which carries the sign of `x` and is smaller than `n` in magnitude. */
  function Rem(x: real, n: real): (r: real)
    requires n > 0.0
    ensures x >= 0.0 ==> 0.0 <= r < n
    ensures x < 0.0 ==> -n < r <= 0.0
  {
    if x >= 0.0 then
      FloorRemainder(x, n);
      x - n * ((x / n).Floor as real)
    else
      FloorRemainder(-x, n);
      -(-x - n * ((-x / n).Floor as real))
  }

  /** For x >= 0, x - n * floor(x / n) lies in [0, n). */
  lemma FloorRemainder(x: real, n: real)
    requires x >= 0.0 && n > 0.0
    ensures 0.0 <= x - n * ((x / n).Floor as real) < n
  {
    var q := x / n;
    RemainderBounds(x, n, q, q.Floor as real);
  }

  /** The remainder left by the whole number just below the exact quotient. */
  lemma RemainderBounds(x: real, n: real, q: real, f: real)
    requires n > 0.0 && n * q == x
    requires f <= q < f + 1.0
    ensures 0.0 <= x - n * f < n
  {
    MulNonNegative(n, q - f);
    var above := f + 1.0 - q;
    MulPositive(n, above);
    var p := n * above;
    assert p == n * f + n - n * q;
  }

  /** Remainder is periodic: adding the modulus to a non-negative dividend
      does not change it. */
  lemma RemPeriodic(x: real, n: real)
    requires n > 0.0 && x >= 0.0
    ensures Rem(x + n, n) == Rem(x, n)
  {
    var q := x / n;
    DivShift(x, n);
    var k := q.Floor;
    assert (q + 1.0).Floor == k + 1;
    var p := n * ((k + 1) as real);
    assert p == n * (k as real) + n;
  }

  /** Adding the divisor to the dividend adds one to the quotient. */
  lemma DivShift(x: real, n: real)
    requires n > 0.0
    ensures (x + n) / n == x / n + 1.0
  {
    var a, b := (x + n) / n, x / n + 1.0;
    var pa, pb := n * a, n * b;
    assert pa == x + n;
    assert pb == n * (x / n) + n;
    var d := a - b;
    var pd := n * d;
    assert pd == pa - pb;
    if d > 0.0 { MulPositive(n, d); }
    if d < 0.0 { MulPositive(n, -d); }
  }

  /** Vertical offset of symbol slot `j` in a reel of `n` slots at scroll
      position `position`: ((position + j) % n) * SYMBOL_SIZE - SYMBOL_SIZE. */
  function SlotOffset(position: real, j: nat, n: nat): (y: real)
    requires n > 0
    ensures position >= 0.0 ==> -SYMBOL_SIZE <= y < (n - 1) as real * SYMBOL_SIZE
  {
    var m := Rem(position + j as real, n as real);
    assert position >= 0.0 ==> m * SYMBOL_SIZE < n as real * SYMBOL_SIZE;
    m * SYMBOL_SIZE - SYMBOL_SIZE
  }

  /** The slot layout repeats every `n` units of position: a symbol that
      scrolls past the bottom comes back at the top. */
  lemma {:induction false} SlotOffsetPeriodic(position: real, j: nat, n: nat)
    requires n > 0
    requires position >= 0.0
    ensures SlotOffset(position + n as real, j, n) == SlotOffset(position, j, n)
  {
    assert position + n as real + j as real == (position + j as real) + n as real;
    RemPeriodic(position + j as real, n as real);
  }

  /** The layout does not repeat across 0: `%` keeps the sign of its
      dividend, so slot 0 of a 4-slot reel sits at -225 at position -0.5
      but at 375 at position 3.5. */
  lemma SlotOffsetNotPeriodicAcrossZero()
    ensures SlotOffset(-0.5, 0, 4) == -225.0
    ensures SlotOffset(3.5, 0, 4) == 375.0
  {
    assert (0.5 / 4.0).Floor == 0;
    assert (3.5 / 4.0).Floor == 0;
  }

  /** Moving the position by one unit moves every slot's place by one:
      slot j at position p + 1 sits where slot j + 1 sits at p. */
  lemma SlotOffsetShift(position: real, j: nat, n: nat)
    requires n > 0
    ensures SlotOffset(position + 1.0, j, n) == SlotOffset(position, j + 1, n)
  {
    assert position + 1.0 + j as real == position + (j + 1) as real;
  }

  /** True when a slot moving from offset `prevY` to offset `y` has just
      wrapped from below the window to its top. */
  predicate Wrapped(prevY: real, y: real)
  {
    y < 0.0 && prevY > SYMBOL_SIZE
  }

  /** Slot `j` of an `n`-slot reel after one frame at scroll position
      `position`: its offset is recomputed, and its texture is replaced by
      `texture` exactly when the slot has just wrapped to the top. */
  function Relayout(s: Sprite, position: real, j: nat, n: nat, texture: nat): (r: Sprite)
    requires n > 0
    ensures r.y == SlotOffset(position, j, n)
    ensures Wrapped(s.y, r.y) ==> r.texture == texture
    ensures !Wrapped(s.y, r.y) ==> r.texture == s.texture
  {
    var y := SlotOffset(position, j, n);
    if Wrapped(s.y, y) then Sprite(y, texture) else Sprite(y, s.texture)
  }

  class Reel {
    var position: real
    var previousPosition: real
    var blurY: real
    const symbols: array<Sprite>

    /** Every sprite shows one of the loaded textures. */
    ghost predicate Valid()
      reads symbols
    {
      forall k :: 0 <= k < symbols.Length ==> symbols[k].texture < TEXTURE_COUNT
    }

    /** A reel at rest at position 0 whose slot j shows the strip's j-th
        symbol at offset j * SYMBOL_SIZE. */
    constructor (strip: seq<nat>)
      requires |strip| >= SLOT_COUNT
      requires forall k :: 0 <= k < |strip| ==> strip[k] < TEXTURE_COUNT
      ensures Valid() && fresh(symbols)
      ensures position == 0.0 && previousPosition == 0.0 && blurY == 0.0
      ensures symbols.Length == SLOT_COUNT
      ensures forall j :: 0 <= j < SLOT_COUNT ==> symbols[j] == Sprite(j as real * SYMBOL_SIZE, strip[j])
    {
      position, previousPosition, blurY := 0.0, 0.0, 0.0;
      var a := new Sprite[SLOT_COUNT];
      var j := 0;
      while j < SLOT_COUNT
        invariant 0 <= j <= SLOT_COUNT
        invariant forall k :: 0 <= k < j ==> a[k] == Sprite(k as real * SYMBOL_SIZE, strip[k])
      {
        a[j] := Sprite(j as real * SYMBOL_SIZE, strip[j]);
        j := j + 1;
      }
      symbols := a;
    }

    /** The reel after one frame that began with previous position `prev`
        and sprites `before`: the blur follows the distance travelled, the
        current position has become the previous one, and every slot is laid
        out again, taking its texture from `textures` if it has just wrapped. */
    ghost predicate Stepped(prev: real, before: seq<Sprite>, textures: seq<nat>)
      reads this, symbols
    {
      && |before| == symbols.Length && |textures| == symbols.Length
      && blurY == (position - prev) * BLUR_GAIN
      && previousPosition == position
      && forall k :: 0 <= k < symbols.Length ==>
           symbols[k] == Relayout(before[k], position, k, symbols.Length, textures[k])
    }

    /** One frame of the reel: the blur follows the distance travelled since
        the previous frame, the current position becomes the previous one,
        and every slot is laid out again; a slot that has just wrapped to the
        top takes the texture drawn for it in `textures`. */
    method Update(textures: seq<nat>)
      requires Valid()
      requires |textures| == symbols.Length
      requires forall k :: 0 <= k < |textures| ==> textures[k] < TEXTURE_COUNT
      modifies this`blurY, this`previousPosition, symbols
      ensures Valid()
      ensures Stepped(old(previousPosition), old(symbols[..]), textures)
      ensures old(previousPosition) == position ==> blurY == 0.0
      ensures forall k :: 0 <= k < symbols.Length && symbols[k].texture != old(symbols[k].texture) ==>
                Wrapped(old(symbols[k].y), symbols[k].y)
    {
      blurY := (position - previousPosition) * BLUR_GAIN;
      previousPosition := position;
      var n := symbols.Length;
      var j := 0;
      while j < n
        invariant 0 <= j <= n
        invariant blurY == (position - old(previousPosition)) * BLUR_GAIN
        invariant previousPosition == position
        invariant forall k :: 0 <= k < j ==> symbols[k] == Relayout(old(symbols[k]), position, k, n, textures[k])
        invariant forall k :: j <= k < n ==> symbols[k] == old(symbols[k])
      {
        var s := symbols[j];
        var prevY := s.y;
        var y := SlotOffset(position, j, n);
        s := s.(y := y);
        if Wrapped(prevY, y) {
          s := s.(texture := textures[j]);
        }
        assert s == Relayout(old(symbols[j]), position, j, n, textures[j]);
        symbols[j] := s;
        j := j + 1;
      }
    }
  }
}
