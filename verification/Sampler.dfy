/** Tree-wide sampling: systematic rounding of slot counts over a tree's files,
    one slot from each bucket of a partly sampled file, and a coprime modular
    walk over a fully sampled one. */
module Sampler {
  import opened Division

  // ---- Division facts ----

  /** A multiple of n that is smaller than n in size is zero. */
  lemma SmallMultiple(k: int, n: int)
    requires n > 0 && -n < k * n < n
    ensures k == 0
  {
    assert (-k) * n == -(k * n);
    if k >= 1 {
      MulAtLeast(k, n);
    } else if k <= -1 {
      MulAtLeast(-k, n);
    }
  }

  lemma DivGrows(a: int, b: int, c: int)
    requires c > 0 && a <= b
    ensures a / c <= b / c
  {
    var qa, qb := a / c, b / c;
    assert qa * c - qb * c == (qa - qb) * c;
    if qa > qb {
      MulAtLeast(qa - qb, c);
    }
  }

  lemma DivShift(a: int, k: int, c: int)
    requires c > 0
    ensures (a + k * c) / c == a / c + k
  {
    assert a + k * c == (a / c + k) * c + a % c;
    DivUnique(a + k * c, c, a / c + k, a % c);
  }

  // ---- Greatest common divisor ----

  ghost predicate Divides(g: int, a: int)
  {
    exists k :: a == g * k
  }

  /** Go's remainder: it has the sign of a. */
  function Rem(a: int, b: int): (r: int)
    requires b != 0
    ensures -b < r < b || b < r < -b
  {
    var m := if b > 0 then b else -b;
    if a >= 0 then a % m else -((-a) % m)
  }

  lemma RemQuotient(a: int, b: int) returns (q: int)
    requires b != 0
    ensures a == q * b + Rem(a, b)
  {
    var m := if b > 0 then b else -b;
    var k := if a >= 0 then a / m else -((-a) / m);
    q := if b > 0 then k else -k;
    assert k * m == q * b;
  }

  /** The greatest common divisor: it divides both numbers and is a combination
      of them, so every common divisor divides it. Zero for both gives 1. */
  method Gcd(a0: int, b0: int) returns (g: int, ghost x: int, ghost y: int)
    ensures g > 0
    ensures a0 != 0 || b0 != 0 ==> Divides(g, a0) && Divides(g, b0) && g == a0 * x + b0 * y
  {
    var a, b := a0, b0;
    ghost var a1, a2, b1, b2 := 1, 0, 0, 1;
    while b != 0
      invariant a == a0 * a1 + b0 * a2 && b == a0 * b1 + b0 * b2
      invariant forall d :: Divides(d, a) && Divides(d, b) ==> Divides(d, a0) && Divides(d, b0)
      invariant a0 != 0 || b0 != 0 ==> a != 0 || b != 0
      decreases if b > 0 then b else -b
    {
      ghost var q := RemQuotient(a, b);
      ghost var r := Rem(a, b);
      forall d | Divides(d, b) && Divides(d, r) ensures Divides(d, a) && Divides(d, b) {
        CombinationDivides(d, q, b, r);
      }
      Combine(a0, b0, a1, a2, b1, b2, q);
      assert r == a0 * (a1 - q * b1) + b0 * (a2 - q * b2);
      a1, a2, b1, b2 := b1, b2, a1 - q * b1, a2 - q * b2;
      a, b := b, Rem(a, b);
    }
    if a < 0 {
      SelfDivides(a);
      SignCombine(a0, b0, a1, a2);
      return -a, -a1, -a2;
    }
    if a == 0 {
      return 1, 0, 0;
    }
    SelfDivides(a);
    return a, a1, a2;
  }

  lemma CombinationDivides(d: int, q: int, b: int, r: int)
    requires Divides(d, b) && Divides(d, r)
    ensures Divides(d, q * b + r)
  {
    var k :| b == d * k;
    var m :| r == d * m;
    assert q * b + r == d * (q * k + m);
  }

  lemma Combine(a0: int, b0: int, a1: int, a2: int, b1: int, b2: int, q: int)
    ensures a0 * a1 + b0 * a2 - q * (a0 * b1 + b0 * b2) == a0 * (a1 - q * b1) + b0 * (a2 - q * b2)
  {
  }

  lemma SignCombine(a0: int, b0: int, x: int, y: int)
    ensures -(a0 * x + b0 * y) == a0 * -x + b0 * -y
  {
  }

  lemma SelfDivides(a: int)
    ensures Divides(a, a) && Divides(a, 0) && Divides(-a, a) && Divides(-a, 0)
  {
    assert a == a * 1 && 0 == a * 0 && a == -a * -1 && 0 == -a * 0;
  }

  /** No number but 1 divides both. */
  ghost predicate Coprime(a: int, b: int)
  {
    forall g :: g > 0 && Divides(g, a) && Divides(g, b) ==> g == 1
  }

  /** The first number from the seed's place on that is coprime with the slots,
      and below them. */
  ghost predicate FirstCoprime(slots: nat, seed: nat, step: nat)
  {
    if slots <= 1 then step == 1
    else
      var first := seed % (slots - 1) + 1;
      first <= step < slots && Coprime(step, slots) && forall s :: first <= s < step ==> !Coprime(s, slots)
  }

  /** A step for the walk over slots: the first number from the seed's place on
      that is coprime with them. Bezout's coefficients show that it is. */
  method CoprimeStep(slots: nat, seed: nat) returns (step: nat, ghost x: int, ghost y: int)
    ensures slots > 0 ==> step * x + slots * y == 1
    ensures FirstCoprime(slots, seed, step)
  {
    if slots <= 1 {
      return 1, 1, 0;
    }
    step := seed % (slots - 1) + 1;
    ghost var first := step;
    var g;
    g, x, y := Gcd(step, slots);
    while g != 1
      invariant first <= step < slots && g > 0 && Divides(g, step) && Divides(g, slots) && g == step * x + slots * y
      invariant forall s :: first <= s < step ==> !Coprime(s, slots)
      decreases if g == 1 then 0 else 1, slots - step
    {
      ghost var tried, d := step, g;
      step := step + 1;
      if step >= slots {
        step := 1;
      }
      assert tried + 1 < slots by {
        // slots and the number before have no common divisor but 1
        var k :| tried == d * k;
        var m :| slots == d * m;
        assert slots - tried == d * (m - k);
        if slots - tried == 1 {
          DividesOne(d);
        }
      }
      assert !Coprime(tried, slots);
      g, x, y := Gcd(step, slots);
    }
    forall c | c > 0 && Divides(c, step) && Divides(c, slots) ensures c == 1 {
      var k :| step == c * k;
      var m :| slots == c * m;
      assert step * x + slots * y == c * (k * x + m * y);
      DividesOne(c);
    }
  }

  lemma DividesOne(g: int)
    requires g > 0 && Divides(g, 1)
    ensures g == 1
  {
    var k :| 1 == g * k;
    if g > 1 {
      if k >= 1 {
        MulAtLeast(k, g);
      }
    }
  }

  // ---- The walk over every slot ----

  /** The walk's slot after i steps, and how often it has wrapped. */
  function At(start: nat, step: nat, n: nat, i: nat): (t: nat)
    requires start < n
    ensures t < n
  {
    if i == 0 then start else (At(start, step, n, i - 1) + step) % n
  }

  ghost function Wraps(start: nat, step: nat, n: nat, i: nat): int
    requires start < n
  {
    if i == 0 then 0 else Wraps(start, step, n, i - 1) + (At(start, step, n, i - 1) + step) / n
  }

  lemma {:induction false} Position(start: nat, step: nat, n: nat, i: nat)
    requires start < n
    ensures At(start, step, n, i) == start + i * step - Wraps(start, step, n, i) * n
  {
    if i > 0 {
      Position(start, step, n, i - 1);
      OneStep(start, step, n, i);
      Unfold(i, step, Wraps(start, step, n, i - 1), (At(start, step, n, i - 1) + step) / n, n);
    }
  }

  lemma OneStep(start: nat, step: nat, n: nat, i: nat)
    requires start < n && i > 0
    ensures At(start, step, n, i) == At(start, step, n, i - 1) + step - (At(start, step, n, i - 1) + step) / n * n
  {
    var sum := At(start, step, n, i - 1) + step;
    assert sum == sum / n * n + sum % n;
  }

  lemma Unfold(i: int, step: int, w: int, q: int, n: int)
    ensures i * step == (i - 1) * step + step && (w + q) * n == w * n + q * n
  {
  }

  /** From slot 0 in steps of 1 the slots come in ascending order. */
  lemma {:induction false} Consecutive(n: nat, i: nat)
    requires i < n
    ensures At(0, 1, n, i) == i
  {
    hide At;
    NextAt(0, 1, n, i);
    if i > 0 {
      Consecutive(n, i - 1);
      SmallMod(i, n);
    }
  }

  lemma SmallMod(i: nat, n: nat)
    requires i < n
    ensures i % n == i
  {
    assert i == 0 * n + i;
    DivUnique(i, n, 0, i);
  }

  lemma NextAt(start: nat, step: nat, n: nat, i: nat)
    requires start < n
    ensures At(start, step, n, i) == if i == 0 then start else (At(start, step, n, i - 1) + step) % n
  {
  }

  /** No slot comes twice in n steps. */
  lemma WalkInjective(start: nat, step: nat, n: nat, x: int, y: int, i: nat, j: nat)
    requires start < n && i < n && j < n && step * x + n * y == 1
    requires At(start, step, n, i) == At(start, step, n, j)
    ensures i == j
  {
    hide At, Wraps;
    Position(start, step, n, i);
    Position(start, step, n, j);
    var d, w := i - j, Wraps(start, step, n, i) - Wraps(start, step, n, j);
    assert d * step == w * n by { Differences(i, j, step, Wraps(start, step, n, i), Wraps(start, step, n, j), n); }
    Bezout(d, step, x, n, y, w);
    SmallMultiple(w * x + d * y, n);
  }

  lemma Differences(i: int, j: int, step: int, v: int, w: int, n: int)
    ensures (i - j) * step == i * step - j * step && (v - w) * n == v * n - w * n
  {
  }

  lemma Bezout(d: int, step: int, x: int, n: int, y: int, w: int)
    requires step * x + n * y == 1 && d * step == w * n
    ensures d == (w * x + d * y) * n
  {
    calc {
      d;
      d * (step * x + n * y);
      (d * step) * x + d * n * y;
      (w * n) * x + d * n * y;
      (w * x + d * y) * n;
    }
  }

  /** Every slot comes within n steps. */
  lemma WalkSurjective(start: nat, step: nat, n: nat, x: int, y: int, t: nat) returns (i: nat)
    requires start < n && t < n && step * x + n * y == 1
    ensures i < n && At(start, step, n, i) == t
  {
    hide At, Wraps;
    var d := t - start;
    i := (d * x) % n;
    var m := (d * x) / n;
    Position(start, step, n, i);
    var k := Wraps(start, step, n, i);
    var z := Reaches(d, x, n, m, i, step, y, k);
    SmallMultiple(z, n);
  }

  lemma Reaches(d: int, x: int, n: int, m: int, i: int, step: int, y: int, k: int) returns (z: int)
    requires step * x + n * y == 1 && d * x == m * n + i
    ensures i * step - k * n - d == z * n
  {
    z := -d * y - m * step - k;
    calc {
      i * step - k * n - d;
      (d * x - m * n) * step - k * n - d;
      d * (step * x) - m * n * step - k * n - d;
      d * (1 - n * y) - m * n * step - k * n - d;
      (-d * y - m * step - k) * n;
    }
  }

  // ---- Slots and samples ----

  datatype Sample = Sample(offset: int, size: int)

  /** How many frames cover a file. */
  function SlotCount(size: int, frame: int): (n: nat)
  {
    if size <= 0 || frame <= 0 then 0 else (size + frame - 1) / frame
  }

  function SampleForSlot(size: int, frame: int, t: int): Sample
  {
    var from := t * frame;
    Sample(from, if frame < size - from then frame else size - from)
  }

  /** Slot t holds exactly the bytes whose offset divided by the frame is t. */
  lemma SlotBytes(size: int, frame: int, t: nat, q: nat)
    requires size > 0 && frame > 0 && t < SlotCount(size, frame)
    ensures var r := SampleForSlot(size, frame, t);
            && 0 <= r.offset && 0 < r.size && r.offset + r.size <= size
            && (r.offset <= q < r.offset + r.size <==> q < size && q / frame == t)
  {
    var n := SlotCount(size, frame);
    Product(t, n - 1, frame);
    assert n * frame <= size + frame - 1;
    assert n * frame == (n - 1) * frame + frame;
    if t * frame <= q < t * frame + frame {
      DivUnique(q, frame, t, q - t * frame);
    }
    if q / frame == t {
      assert q == t * frame + q % frame;
    }
  }

  lemma Product(a: int, b: int, c: int)
    requires a <= b && c > 0
    ensures a * c <= b * c
  {
    if a < b {
      MulAtLeast(b - a, c);
      assert (b - a) * c == b * c - a * c;
    }
  }

  lemma ByteSlot(size: int, frame: int, q: nat)
    requires q < size && frame > 0
    ensures q / frame < SlotCount(size, frame)
  {
    DivGrows(q, size - 1, frame);
    DivShift(size - 1, 1, frame);
  }

  // ---- One file's generator ----

  /** The fixed part of a generator. */
  datatype Shape = Shape(fileSize: int, frame: int, slots: nat, count: nat,
                         start: nat, step: nat, hash: nat -> nat)

  predicate Full(sh: Shape)
  {
    sh.count == sh.slots
  }

  ghost predicate Proper(sh: Shape, x: int, y: int)
  {
    && sh.fileSize > 0 && sh.frame > 0 && sh.slots == SlotCount(sh.fileSize, sh.frame) && 1 <= sh.count <= sh.slots
    && (Full(sh) ==> sh.start < sh.slots && sh.step * x + sh.slots * y == 1)
  }

  /** Bucket i of a partly sampled file starts here. */
  function Bucket(sh: Shape, i: nat): nat
    requires sh.count > 0
  {
    NatDiv(i * sh.slots, sh.count);
    (i * sh.slots) / sh.count
  }

  lemma NatDiv(a: nat, c: nat)
    requires c > 0
    ensures a / c >= 0
  {
    DivGrows(0, a, c);
    DivUnique(0, c, 0, 0);
  }

  /** Buckets are not empty and partition the slots. */
  lemma BucketsPartition(sh: Shape, i: nat)
    requires 0 < sh.count <= sh.slots
    ensures Bucket(sh, i) < Bucket(sh, i + 1)
    ensures Bucket(sh, 0) == 0 && Bucket(sh, sh.count) == sh.slots
  {
    var a, n, c := i * sh.slots, sh.slots, sh.count;
    assert (i + 1) * n == a + n;
    DivShift(a, 1, c);
    DivGrows(a + c, a + n, c);
    DivUnique(0, c, 0, 0);
    DivUnique(c * n, c, n, 0);
  }

  /** No bucket is more than one slot wider than another: each has the average
      rounded down or up. */
  lemma BucketsEven(sh: Shape, i: nat)
    requires 0 < sh.count <= sh.slots
    ensures sh.slots / sh.count <= Bucket(sh, i + 1) - Bucket(sh, i) <= sh.slots / sh.count + 1
  {
    var a, n, c := i * sh.slots, sh.slots, sh.count;
    assert (i + 1) * n == a + n;
    var q, r := a / c + n / c, a % c + n % c;
    assert a + n == q * c + r by {
      assert a == a / c * c + a % c && n == n / c * c + n % c;
      Distribute(a / c, n / c, c);
    }
    if r < c {
      DivUnique(a + n, c, q, r);
    } else {
      Distribute(q, 1, c);
      DivUnique(a + n, c, q + 1, r - c);
    }
  }

  lemma {:induction false} BucketsRise(sh: Shape, i: nat, j: nat)
    requires 0 < sh.count <= sh.slots && i <= j
    ensures Bucket(sh, i) <= Bucket(sh, j)
  {
    if i < j {
      BucketsRise(sh, i, j - 1);
      BucketsPartition(sh, j - 1);
    }
  }

  /** The slot of sample i. */
  function Slot(sh: Shape, i: nat): (t: nat)
    requires sh.count > 0 && (Full(sh) ==> sh.start < sh.slots)
  {
    if Full(sh) then At(sh.start, sh.step, sh.slots, i)
    else
      var width := Bucket(sh, i + 1) - Bucket(sh, i);
      if width > 1 then Bucket(sh, i) + sh.hash(i) % width else Bucket(sh, i)
  }

  /** A partly sampled file's slots: one in each bucket, in order. */
  lemma OnePerBucket(sh: Shape, i: nat)
    requires 0 < sh.count < sh.slots && i < sh.count
    ensures Bucket(sh, i) <= Slot(sh, i) < Bucket(sh, i + 1) <= sh.slots
  {
    BucketsPartition(sh, i);
    BucketsRise(sh, i + 1, sh.count);
  }

  /** Any slot of its bucket may be a sample's: the one at distance d from the
      bucket's start is drawn by every hash that leaves d. */
  lemma AnySlotDrawn(sh: Shape, i: nat, d: nat)
    requires 0 < sh.count < sh.slots && i < sh.count && d < Bucket(sh, i + 1) - Bucket(sh, i)
    ensures Slot(sh, i) == Bucket(sh, i) + d <==> sh.hash(i) % (Bucket(sh, i + 1) - Bucket(sh, i)) == d
  {
    var w := Bucket(sh, i + 1) - Bucket(sh, i);
    if w == 1 {
      assert sh.hash(i) % 1 == 0;
    }
  }

  lemma PartialIncreasing(sh: Shape, i: nat, j: nat)
    requires 0 < sh.count < sh.slots && i < j < sh.count
    ensures Slot(sh, i) < Slot(sh, j) < sh.slots
  {
    OnePerBucket(sh, i);
    OnePerBucket(sh, j);
    BucketsRise(sh, i + 1, j);
  }

  class Generator {
    const sh: Shape
    var nextIndex: nat
    var permCurrent: nat
    ghost const x: int
    ghost const y: int

    ghost predicate Valid()
      reads this
    {
      && Proper(sh, x, y) && nextIndex <= sh.count
      && (Full(sh) && nextIndex < sh.count ==> permCurrent == At(sh.start, sh.step, sh.slots, nextIndex))
    }

    constructor (sh: Shape, ghost x: int, ghost y: int)
      requires Proper(sh, x, y)
      ensures Valid() && this.sh == sh && nextIndex == 0
    {
      this.sh, this.x, this.y := sh, x, y;
      nextIndex, permCurrent := 0, sh.start;
    }

    method Remaining() returns (n: int)
      requires Valid()
      ensures n == sh.count - nextIndex && n >= 0
    {
      n := sh.count - nextIndex;
    }

    /** The current sample, without advancing. */
    method Peek() returns (s: Sample, ok: bool)
      requires Valid()
      ensures ok <==> nextIndex < sh.count
      ensures ok ==> s == SampleForSlot(sh.fileSize, sh.frame, Slot(sh, nextIndex))
    {
      if nextIndex >= sh.count {
        return Sample(0, 0), false;
      }
      var slot;
      if sh.count == sh.slots {
        slot := permCurrent;
      } else {
        var from := (nextIndex * sh.slots) / sh.count;
        var to := ((nextIndex + 1) * sh.slots) / sh.count - 1;
        slot := from;
        var width := to - from + 1;
        if width > 1 {
          slot := slot + sh.hash(nextIndex) % width;
        }
      }
      return SampleForSlot(sh.fileSize, sh.frame, slot), true;
    }

    method Advance()
      requires Valid()
      modifies this
      ensures Valid() && nextIndex == if old(nextIndex) < sh.count then old(nextIndex) + 1 else old(nextIndex)
    {
      if nextIndex >= sh.count {
        return;
      }
      nextIndex := nextIndex + 1;
      if sh.count == sh.slots && nextIndex < sh.count {
        ghost var sum := permCurrent + sh.step;
        if sum < sh.slots {
          DivUnique(sum, sh.slots, 0, sum);
        }
        permCurrent := permCurrent + sh.step;
        if permCurrent >= sh.slots {
          permCurrent := permCurrent % sh.slots;
        }
      }
    }
  }

  /** Peek and Advance until nothing remains: the samples of a file. */
  method Drain(g: Generator) returns (samples: seq<Sample>)
    requires g.Valid() && g.nextIndex == 0
    modifies g
    ensures |samples| == g.sh.count
    ensures forall i :: 0 <= i < |samples| ==> samples[i] == SampleForSlot(g.sh.fileSize, g.sh.frame, Slot(g.sh, i))
    ensures Full(g.sh) ==> Tiles(samples, g.sh.fileSize)
    ensures !Full(g.sh) ==> forall i, j :: 0 <= i < j < |samples| ==> samples[i].offset + samples[i].size <= samples[j].offset
  {
    hide SampleForSlot, Slot, Full, Tiles, Proper;
    samples := [];
    var left := g.Remaining();
    while left > 0
      invariant g.Valid() && |samples| == g.nextIndex && left == g.sh.count - g.nextIndex
      invariant forall i :: 0 <= i < |samples| ==> samples[i] == SampleForSlot(g.sh.fileSize, g.sh.frame, Slot(g.sh, i))
    {
      var s, ok := g.Peek();
      samples := samples + [s];
      g.Advance();
      left := g.Remaining();
    }
    Emitted(g.sh, g.x, g.y, samples);
  }

  /** Byte q is in sample i. */
  ghost predicate Covers(sh: Shape, i: nat, q: nat)
    requires sh.count > 0 && (Full(sh) ==> sh.start < sh.slots)
  {
    var s := SampleForSlot(sh.fileSize, sh.frame, Slot(sh, i));
    s.offset <= q < s.offset + s.size
  }

  ghost predicate Covered(sh: Shape, q: nat)
    requires sh.count > 0 && (Full(sh) ==> sh.start < sh.slots)
  {
    exists i: nat :: i < sh.count && Covers(sh, i, q)
  }

  lemma CoversSlot(sh: Shape, x: int, y: int, i: nat, q: nat)
    requires Proper(sh, x, y) && Full(sh)
    ensures var s := SampleForSlot(sh.fileSize, sh.frame, Slot(sh, i));
            0 <= s.offset && 0 < s.size && s.offset + s.size <= sh.fileSize
    ensures Covers(sh, i, q) <==> q < sh.fileSize && q / sh.frame == At(sh.start, sh.step, sh.slots, i)
  {
    hide SampleForSlot, At, SlotCount;
    SlotBytes(sh.fileSize, sh.frame, Slot(sh, i), q);
  }

  /** A fully sampled file: its samples tile it. Each is inside the file and
      not empty, no two share a byte, and each byte is in one of them. */
  lemma FullTiles(sh: Shape, x: int, y: int)
    requires Proper(sh, x, y) && Full(sh)
    ensures forall i: nat :: i < sh.count ==>
              var s := SampleForSlot(sh.fileSize, sh.frame, Slot(sh, i));
              0 <= s.offset && 0 < s.size && s.offset + s.size <= sh.fileSize
    ensures forall i: nat, j: nat, q: nat :: i < sh.count && j < sh.count && Covers(sh, i, q) && Covers(sh, j, q) ==> i == j
    ensures forall q: nat :: q < sh.fileSize ==> Covered(sh, q)
  {
    hide SampleForSlot, Slot, At, Covers, SlotCount;
    forall i: nat | i < sh.count
      ensures var s := SampleForSlot(sh.fileSize, sh.frame, Slot(sh, i));
              0 <= s.offset && 0 < s.size && s.offset + s.size <= sh.fileSize {
      CoversSlot(sh, x, y, i, 0);
    }
    forall i: nat, j: nat, q: nat | i < sh.count && j < sh.count && Covers(sh, i, q) && Covers(sh, j, q) ensures i == j {
      CoversSlot(sh, x, y, i, q);
      CoversSlot(sh, x, y, j, q);
      WalkInjective(sh.start, sh.step, sh.slots, x, y, i, j);
    }
    forall q: nat | q < sh.fileSize ensures Covered(sh, q) {
      ByteSlot(sh.fileSize, sh.frame, q);
      NatDiv(q, sh.frame);
      var i := WalkSurjective(sh.start, sh.step, sh.slots, x, y, q / sh.frame);
      CoversSlot(sh, x, y, i, q);
    }
  }

  ghost predicate In(s: Sample, q: nat)
  {
    s.offset <= q < s.offset + s.size
  }

  /** Samples inside a file of this size that share no byte and leave none out. */
  ghost predicate Tiles(samples: seq<Sample>, size: int)
  {
    && (forall i :: 0 <= i < |samples| ==>
          0 <= samples[i].offset && 0 < samples[i].size && samples[i].offset + samples[i].size <= size)
    && (forall i, j :: 0 <= i < j < |samples| ==> Apart(samples[i], samples[j]))
    && (forall q: nat :: q < size ==> Reached(samples, q))
  }

  ghost predicate Apart(a: Sample, b: Sample)
  {
    forall q: nat :: !(In(a, q) && In(b, q))
  }

  ghost predicate Reached(samples: seq<Sample>, q: nat)
  {
    exists i :: 0 <= i < |samples| && In(samples[i], q)
  }

  /** What a generator emits: a tiling of a fully sampled file, or samples that
      rise without overlapping. */
  lemma Emitted(sh: Shape, x: int, y: int, samples: seq<Sample>)
    requires Proper(sh, x, y) && |samples| == sh.count
    requires forall i :: 0 <= i < |samples| ==> samples[i] == SampleForSlot(sh.fileSize, sh.frame, Slot(sh, i))
    ensures Full(sh) ==> Tiles(samples, sh.fileSize)
    ensures !Full(sh) ==> forall i, j :: 0 <= i < j < |samples| ==> samples[i].offset + samples[i].size <= samples[j].offset
  {
    hide SampleForSlot, Slot;
    if Full(sh) {
      EmittedTiles(sh, x, y, samples);
    } else {
      forall i, j | 0 <= i < j < |samples| ensures samples[i].offset + samples[i].size <= samples[j].offset {
        PartialIncreasing(sh, i, j);
        SlotsApart(sh.fileSize, sh.frame, Slot(sh, i), Slot(sh, j));
      }
    }
  }

  lemma SlotsApart(size: int, frame: int, t: nat, u: nat)
    requires frame > 0 && t < u
    ensures var a, b := SampleForSlot(size, frame, t), SampleForSlot(size, frame, u);
            a.offset + a.size <= b.offset
  {
    Product(t + 1, u, frame);
    assert (t + 1) * frame == t * frame + frame;
  }

  lemma EmittedTiles(sh: Shape, x: int, y: int, samples: seq<Sample>)
    requires Proper(sh, x, y) && Full(sh) && |samples| == sh.count
    requires forall i :: 0 <= i < |samples| ==> samples[i] == SampleForSlot(sh.fileSize, sh.frame, Slot(sh, i))
    ensures Tiles(samples, sh.fileSize)
  {
    hide SampleForSlot, Slot, Proper, Full;
    CanSlot(sh, x, y);
    FullTiles(sh, x, y);
    forall i, j | 0 <= i < j < |samples| ensures Apart(samples[i], samples[j]) {
      forall q: nat ensures !(In(samples[i], q) && In(samples[j], q)) {
        assert (In(samples[i], q) <==> Covers(sh, i, q)) && (In(samples[j], q) <==> Covers(sh, j, q));
      }
    }
    forall q: nat | q < sh.fileSize ensures Reached(samples, q) {
      assert Covered(sh, q);
      var i: nat :| i < sh.count && Covers(sh, i, q);
      assert In(samples[i], q);
    }
  }

  lemma CanSlot(sh: Shape, x: int, y: int)
    requires Proper(sh, x, y)
    ensures sh.count > 0 && (Full(sh) ==> sh.start < sh.slots)
  {
  }

  // ---- The plan for a tree ----

  class Plan {
    const pct: int
    const frame: int
    const total: int
    const sequential: bool
    const start: nat // u in hundredths
    const forced: int
    var acc: nat

    /** Start and forced slot come from hashes of the seed. */
    constructor (pct: int, frame: int, total: int, sequential: bool, uHash: nat, fHash: nat)
      ensures this.pct == Clamped(pct) && this.frame == frame && this.total == total && acc == 0
      ensures start == uHash % 100
      ensures if total > 0 && this.pct > 0 && Rounded(this.pct, start, total) == 0 then 0 <= forced == fHash % total < total else forced == -1
    {
      var p := if (if pct < 100 then pct else 100) > 0 then (if pct < 100 then pct else 100) else 0;
      this.pct, this.frame, this.total, this.sequential := p, frame, total, sequential;
      start, acc := uHash % 100, 0;
      forced := if total > 0 && p > 0 && Rounded(p, uHash % 100, total) == 0 then fHash % total else -1;
    }

    /** The next file's generator, or null when it draws no slots. The seeds
        are a hash of the file's name, ID and size and the plan's seed. */
    method Next(size: int, seedLo: nat, seedHi: nat, hash: nat -> nat) returns (g: Generator?, count: nat)
      requires 0 <= pct <= 100 && start < 100
      modifies this`acc
      ensures acc == old(acc) + (if pct > 0 then SlotCount(size, frame) else 0)
      ensures count == Share(pct, start, forced, old(acc), SlotCount(size, frame)) <= SlotCount(size, frame)
      ensures g == null <==> count == 0
      ensures g != null ==> fresh(g) && g.Valid() && g.nextIndex == 0 && g.sh.count == count
                            && g.sh.fileSize == size && g.sh.frame == frame
                            && (sequential && Full(g.sh) ==> forall i: nat :: i < count ==> Slot(g.sh, i) == i)
      ensures g != null ==> g.sh.hash == hash && g.sh.slots == SlotCount(size, frame)
      ensures g != null && Full(g.sh) && !sequential ==>
                g.sh.start == seedLo % g.sh.slots && FirstCoprime(g.sh.slots, seedHi, g.sh.step)
    {
      hide FirstCoprime;
      var slots := SlotCount(size, frame);
      ShareWithin(pct, start, forced, acc, slots);
      count := 0;
      if slots == 0 || pct <= 0 {
        return null, 0;
      }
      var c := Rounded(pct, start, acc + slots) - Rounded(pct, start, acc);
      if forced >= 0 {
        c := 0;
        if forced >= acc && forced < acc + slots {
          c := 1;
        }
      }
      acc := acc + slots;
      if c <= 0 {
        return null, 0;
      }
      count := c;
      var first, step := 0, 1;
      ghost var x, y := 1, 0;
      if c == slots && !sequential {
        first := seedLo % slots;
        step, x, y := CoprimeStep(slots, seedHi);
      }
      var sh := Shape(size, frame, slots, c, first, step, hash);
      if first == 0 && step == 1 {
        forall i: nat | i < slots ensures At(0, 1, slots, i) == i {
          Consecutive(slots, i);
        }
      }
      g := new Generator(sh, x, y);
    }
  }

  function Clamped(pct: int): (p: int)
    ensures 0 <= p <= 100 && (0 <= pct <= 100 ==> p == pct) && (p > 0 <==> pct > 0)
  {
    if pct > 100 then 100 else if pct < 0 then 0 else pct
  }

  /** floor(slots*N/100 + u), split so that the product stays small. */
  function Rounded(pct: int, start: int, slots: int): int
  {
    slots / 100 * pct + (slots % 100 * pct + start) / 100
  }

  lemma RoundedIsFloor(pct: int, start: int, slots: int)
    ensures Rounded(pct, start, slots) == (slots * pct + start) / 100
  {
    var q, r := slots / 100, slots % 100;
    assert slots * pct == (100 * q + r) * pct == q * pct * 100 + r * pct;
    DivShift(r * pct + start, q * pct, 100);
  }

  /** A file's slots: the growth of the rounded share, or the forced slot. */
  ghost function Share(pct: int, start: int, forced: int, acc: nat, slots: nat): int
  {
    if slots == 0 || pct <= 0 then 0
    else if forced >= 0 then if acc <= forced < acc + slots then 1 else 0
    else (((acc + slots) * pct + start) / 100) - ((acc * pct + start) / 100)
  }

  lemma ShareWithin(pct: int, start: int, forced: int, acc: nat, slots: nat)
    requires 0 <= pct <= 100
    ensures 0 <= Share(pct, start, forced, acc, slots) <= slots
    ensures Rounded(pct, start, acc + slots) - Rounded(pct, start, acc) == ((acc + slots) * pct + start) / 100 - (acc * pct + start) / 100
  {
    hide Rounded;
    RoundedIsFloor(pct, start, acc + slots);
    RoundedIsFloor(pct, start, acc);
    Distribute(acc, slots, pct);
    Percent(slots, pct);
    FloorGrowth(acc * pct + start, slots * pct, slots);
  }

  lemma Distribute(a: int, b: int, c: int)
    ensures (a + b) * c == a * c + b * c
  {
  }

  lemma Percent(slots: nat, pct: int)
    requires 0 <= pct <= 100
    ensures 0 <= slots * pct <= slots * 100
  {
    if slots > 0 {
      Product(0, pct, slots);
      Product(pct, 100, slots);
    }
  }

  lemma FloorGrowth(a: int, d: int, slots: int)
    requires 0 <= d <= slots * 100
    ensures 0 <= (a + d) / 100 - a / 100 <= slots
  {
  }

  function Sum(s: seq<nat>): (n: nat)
  {
    if s == [] then 0 else Sum(s[..|s| - 1]) + s[|s| - 1]
  }

  lemma SumSnoc(s: seq<nat>, x: nat)
    ensures Sum(s + [x]) == Sum(s) + x
  {
    assert (s + [x])[..|s|] == s;
  }

  /** A file and the hashes derived from its name and the seed. */
  datatype Entry = Entry(size: int, seedLo: nat, seedHi: nat, hash: nat -> nat)

  function TreeSlots(files: seq<Entry>, frame: int): (n: nat)
  {
    if files == [] then 0 else TreeSlots(files[..|files| - 1], frame) + SlotCount(files[|files| - 1].size, frame)
  }

  /** floor((total*pct + u) / 100), or one slot when that is none and the tree
      has data. */
  ghost function TreeShare(pct: int, u: nat, total: nat): int
  {
    var share := (total * Clamped(pct) + u % 100) / 100;
    if pct <= 0 then 0 else if share == 0 && total > 0 then 1 else share
  }

  /** What the files up to one draw, acc slots of `total` in all: their own
      rounded share; or, where the whole tree's would be none, the one slot
      drawn, once they reach it. */
  ghost function PrefixShare(pct: int, u: nat, f: nat, total: nat, acc: nat): int
  {
    var p, s := Clamped(pct), u % 100;
    if pct <= 0 then 0
    else if total > 0 && (total * p + s) / 100 == 0 then if f % total < acc then 1 else 0
    else (acc * p + s) / 100
  }

  lemma PrefixIs(pct: int, u: nat, f: nat, forced: int, total: nat, acc: nat, slots: nat)
    requires Clamped(pct) > 0 ==> acc == slots
    requires var c, s := Clamped(pct), u % 100;
             if total > 0 && c > 0 && Rounded(c, s, total) == 0 then 0 <= forced == f % total else forced == -1
    ensures Drawn(Clamped(pct), u % 100, forced, acc) == PrefixShare(pct, u, f, total, slots)
  {
    hide Rounded, Clamped;
    RoundedIsFloor(Clamped(pct), u % 100, total);
    assert Clamped(pct) > 0 <==> pct > 0;
  }

  /** Plans a whole tree: totals its slots, then takes each file in order. Each
      file draws between none and all of its slots, the files up to any one
      draw their rounded share, and together they draw exactly the tree's. */
  method PlanTree(files: seq<Entry>, pct: int, frame: int, sequential: bool, uHash: nat, fHash: nat)
    returns (gens: seq<Generator?>, counts: seq<nat>)
    ensures |gens| == |counts| == |files|
    ensures forall i :: 0 <= i < |files| ==> Made(gens[i], counts[i], files[i], frame)
    ensures Sum(counts) == TreeShare(pct, uHash, TreeSlots(files, frame))
    ensures forall k :: 0 <= k <= |files| ==>
              Sum(counts[..k]) == PrefixShare(pct, uHash, fHash, TreeSlots(files, frame), TreeSlots(files[..k], frame))
  {
    hide SlotCount, Rounded, Sum, Share, Clamped, TreeSlots, Drawn, Made, TreeShare, PrefixShare, FirstCoprime, Full, Slot;
    var total := Total(files, frame);
    var p := new Plan(pct, frame, total, sequential, uHash, fHash);
    gens, counts := [], [];
    SumNone();
    PlanStart(p.pct, p.start, p.forced, total);
    TreeSlotsNone(files, frame);
    PrefixIs(pct, uHash, fHash, p.forced, total, 0, TreeSlots(files[..0], frame));
    assert counts[..0] == counts;
    for i := 0 to |files|
      invariant |gens| == |counts| == i && (p.pct > 0 ==> p.acc == TreeSlots(files[..i], frame))
      invariant forall k :: 0 <= k < i ==> Made(gens[k], counts[k], files[k], frame)
      invariant Sum(counts) == Drawn(p.pct, p.start, p.forced, p.acc)
      invariant forall k :: 0 <= k <= i ==>
                  Sum(counts[..k]) == PrefixShare(pct, uHash, fHash, total, TreeSlots(files[..k], frame))
    {
      TreeSlotsStep(files, frame, i);
      var f := files[i];
      ghost var acc := p.acc;
      var g, c := p.Next(f.size, f.seedLo, f.seedHi, f.hash);
      MadeBy(g, c, f, frame);
      DrawnStep(p.pct, p.start, p.forced, acc, SlotCount(f.size, frame));
      SumSnoc(counts, c);
      PrefixIs(pct, uHash, fHash, p.forced, total, p.acc, TreeSlots(files[..i + 1], frame));
      ghost var longer := counts + [c];
      assert longer[..i + 1] == longer && forall k :: 0 <= k <= i ==> longer[..k] == counts[..k];
      gens, counts := gens + [g], counts + [c];
    }
    assert files[..|files|] == files;
    DrawnAll(pct, uHash, p.forced, total);
    NothingDrawn(pct, uHash, p.forced, p.acc, total);
  }

  /** What a file's turn gives: a generator for as many of its slots as it
      draws, or none. */
  ghost predicate Made(g: Generator?, count: nat, f: Entry, frame: int)
    reads g
  {
    && count <= SlotCount(f.size, frame)
    && (g == null <==> count == 0)
    && (g != null ==> g.Valid() && g.nextIndex == 0 && g.sh.count == count
                      && g.sh.fileSize == f.size && g.sh.frame == frame)
  }

  lemma MadeBy(g: Generator?, count: nat, f: Entry, frame: int)
    requires count <= SlotCount(f.size, frame) && (g == null <==> count == 0)
    requires g != null ==> g.Valid() && g.nextIndex == 0 && g.sh.count == count
                           && g.sh.fileSize == f.size && g.sh.frame == frame
    ensures Made(g, count, f, frame)
  {
  }

  method Total(files: seq<Entry>, frame: int) returns (total: nat)
    ensures total == TreeSlots(files, frame)
  {
    hide SlotCount, TreeSlots;
    total := 0;
    TreeSlotsNone(files, frame);
    for i := 0 to |files|
      invariant total == TreeSlots(files[..i], frame)
    {
      TreeSlotsStep(files, frame, i);
      total := total + SlotCount(files[i].size, frame);
    }
    assert files[..|files|] == files;
  }

  lemma TreeSlotsNone(files: seq<Entry>, frame: int)
    ensures TreeSlots(files[..0], frame) == 0
  {
  }

  lemma TreeSlotsStep(files: seq<Entry>, frame: int, i: nat)
    requires i < |files|
    ensures TreeSlots(files[..i + 1], frame) == TreeSlots(files[..i], frame) + SlotCount(files[i].size, frame)
  {
    assert files[..i + 1][..i] == files[..i];
  }

  /** With no percentage nothing is drawn, however far the plan got. */
  lemma NothingDrawn(pct: int, u: nat, forced: int, acc: nat, total: nat)
    ensures Clamped(pct) <= 0 ==> Drawn(Clamped(pct), u % 100, forced, acc) == Drawn(Clamped(pct), u % 100, forced, total)
  {
  }

  lemma SumNone()
    ensures Sum([]) == 0
  {
  }

  /** What files of acc slots in all have drawn. */
  ghost function Drawn(pct: int, start: int, forced: int, acc: nat): int
  {
    if pct <= 0 then 0
    else if forced >= 0 then if forced < acc then 1 else 0
    else (acc * pct + start) / 100
  }

  lemma PlanStart(pct: int, start: nat, forced: int, total: nat)
    requires start < 100
    ensures Drawn(pct, start, forced, 0) == 0
  {
  }

  lemma DrawnStep(pct: int, start: int, forced: int, acc: nat, slots: nat)
    ensures Drawn(pct, start, forced, acc) + Share(pct, start, forced, acc, slots)
            == Drawn(pct, start, forced, acc + (if pct > 0 then slots else 0))
  {
    Distribute(acc, slots, pct);
  }

  lemma DrawnAll(pct: int, u: nat, forced: int, total: nat)
    requires var c, s := Clamped(pct), u % 100;
             if total > 0 && c > 0 && Rounded(c, s, total) == 0 then 0 <= forced < total else forced == -1
    ensures Drawn(Clamped(pct), u % 100, forced, total) == TreeShare(pct, u, total)
  {
    hide Rounded, Clamped;
    RoundedIsFloor(Clamped(pct), u % 100, total);
    if total == 0 {
      assert 0 * Clamped(pct) == 0;
    }
  }
}
