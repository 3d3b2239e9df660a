/** The writer that injects disk write faults. Each block of the file
    decides its faults and places them at absolute positions, so the outcome is a
    function of positions and not of how the caller cuts its writes. */
module Faults {

  const BLOCK: nat := 65536

  datatype Fault = Eio | Enospc | Torn | Short | Lost | Flip

  datatype Error = Nil | EIO | ENOSPC

  /** The seeded decisions for one attempt at one window of a file: whether a
      fault fires at a block, and the number drawn for its place there. `on` is
      the disk family, `output` says the site writes the downloaded copy. */
  datatype Plan = Plan(on: bool, seeks: bool, output: bool, offset: nat,
                       fires: (Fault, nat) -> bool, draw: (Fault, nat) -> nat)

  // ---- What each position of the file meets ----

  /** The first block of the grid that starts inside the window. */
  function FirstBlock(p: Plan): nat
  {
    (p.offset + BLOCK - 1) / BLOCK
  }

  predicate Fires(p: Plan, f: Fault, op: nat)
  {
    p.on && FirstBlock(p) <= op && p.fires(f, op)
  }

  /** The failure decided at a block, if any: the first of these that fires. */
  predicate Fails(p: Plan, op: nat)
  {
    Fires(p, Eio, op) || Fires(p, Enospc, op) || Fires(p, Torn, op) || Fires(p, Short, op)
  }

  function FailKind(p: Plan, op: nat): Fault
  {
    if Fires(p, Eio, op) then Eio else if Fires(p, Enospc, op) then Enospc
    else if Fires(p, Torn, op) then Torn else Short
  }

  /** A position strictly inside a block. */
  function Inside(p: Plan, f: Fault, op: nat): (at: nat)
    ensures op * BLOCK < at < (op + 1) * BLOCK
  {
    op * BLOCK + 1 + p.draw(f, op) % (BLOCK - 1)
  }

  function FailPos(p: Plan, op: nat): (at: nat)
    ensures op * BLOCK <= at < (op + 1) * BLOCK
  {
    var k := FailKind(p, op);
    if k == Torn || k == Short then Inside(p, k, op) else op * BLOCK
  }

  function FlipPos(p: Plan, op: nat): (at: nat)
    ensures op * BLOCK <= at < (op + 1) * BLOCK
  {
    op * BLOCK + p.draw(Flip, op) % BLOCK
  }

  predicate LostAt(p: Plan, at: nat)
  {
    p.seeks && Fires(p, Lost, at / BLOCK)
  }

  predicate FlippedAt(p: Plan, at: nat)
  {
    Fires(p, Flip, at / BLOCK) && FlipPos(p, at / BLOCK) == at
  }

  /** The bit 1 << i. */
  function BitAt(i: nat): bv8
    requires i < 8
  {
    if i == 0 then 1 else BitAt(i - 1) + BitAt(i - 1)
  }

  function FlipBit(at: nat, x: bv8): bv8
  {
    x ^ BitAt(at % 8)
  }

  /** The byte that reaches position `at` when x is written there. */
  function Corrupt(p: Plan, at: nat, x: bv8): bv8
  {
    if FlippedAt(p, at) then FlipBit(at, x) else x
  }

  /** The first failing block below hi, or -1. */
  function FirstFail(p: Plan, hi: nat): (op: int)
    ensures -1 <= op < hi && (op >= 0 ==> Fails(p, op))
  {
    if hi == 0 then -1
    else if FirstFail(p, hi - 1) >= 0 then FirstFail(p, hi - 1)
    else if Fails(p, hi - 1) then hi - 1 else -1
  }

  lemma {:induction false} FailStable(p: Plan, lo: nat, hi: nat)
    requires lo <= hi
    ensures FirstFail(p, lo) >= 0 ==> FirstFail(p, hi) == FirstFail(p, lo)
    ensures FirstFail(p, lo) < 0 ==> FirstFail(p, hi) < 0 || FirstFail(p, hi) >= lo
    decreases hi
  {
    if lo < hi {
      FailStable(p, lo, hi - 1);
    }
  }

  /** Blocks that start before a position. */
  function Blocks(end: nat): (n: nat)
    ensures end <= n * BLOCK < end + BLOCK
  {
    (end + BLOCK - 1) / BLOCK
  }

  /** How many of n bytes are accepted, and the error they end with. */
  function Accepted(p: Plan, n: nat): (k: nat)
    ensures k <= n
  {
    var op := FirstFail(p, Blocks(p.offset + n));
    if op >= 0 && FailPos(p, op) < p.offset + n then
      FailsInside(p, op);
      FailPos(p, op) - p.offset
    else n
  }

  lemma FailsInside(p: Plan, op: nat)
    requires Fails(p, op)
    ensures p.offset <= op * BLOCK
  {
  }

  function ErrorOf(f: Fault): Error
  {
    if f == Short then Nil else if f == Enospc then ENOSPC else EIO
  }

  function Failure(p: Plan, n: nat): Error
  {
    if Accepted(p, n) == n then Nil else ErrorOf(FailKind(p, FirstFail(p, Blocks(p.offset + n))))
  }

  // ---- The file ----

  /** A file after s is written at c: a gap past its end reads as zeros. */
  function Put(d: seq<bv8>, c: nat, s: seq<bv8>): (r: seq<bv8>)
    ensures s != [] ==> |r| == if c + |s| < |d| then |d| else c + |s|
    ensures s != [] ==> forall q :: 0 <= q < |r| ==>
              r[q] == if c <= q < c + |s| then s[q - c] else if q < |d| then d[q] else 0
    ensures s == [] ==> r == d
  {
    if s == [] then d
    else
      var padded := if |d| >= c then d else d + seq(c - |d|, _ => 0);
      padded[..c] + s + (if c + |s| < |d| then d[c + |s|..] else [])
  }

  /** The file once the first n bytes of a window are accepted, position by
      position. */
  ghost function Image(p: Plan, orig: seq<bv8>, all: seq<bv8>, n: nat): seq<bv8>
    requires n <= |all|
  {
    if n == 0 then orig
    else
      var at := p.offset + n - 1;
      if LostAt(p, at) then Image(p, orig, all, n - 1)
      else Put(Image(p, orig, all, n - 1), at, [Corrupt(p, at, all[n - 1])])
  }

  /** What every position of that file holds. */
  lemma {:induction false} ImageAt(p: Plan, orig: seq<bv8>, all: seq<bv8>, n: nat)
    requires n <= |all|
    ensures var d := Image(p, orig, all, n);
            && |orig| <= |d|
            && (forall q :: p.offset <= q < p.offset + n && !LostAt(p, q) ==> q < |d|)
            && (forall q :: 0 <= q < |d| ==>
                  d[q] == if p.offset <= q < p.offset + n && !LostAt(p, q) then Corrupt(p, q, all[q - p.offset])
                          else if q < |orig| then orig[q] else 0)
  {
    hide LostAt, Corrupt, Put;
    if n > 0 {
      ImageAt(p, orig, all, n - 1);
    }
  }

  lemma {:induction false} ImageLonger(p: Plan, orig: seq<bv8>, all: seq<bv8>, more: seq<bv8>, n: nat)
    requires n <= |all|
    ensures Image(p, orig, all + more, n) == Image(p, orig, all, n)
  {
    if n > 0 {
      ImageLonger(p, orig, all, more, n - 1);
    }
  }

  /** Lost positions leave the file alone. */
  lemma {:induction false} ImageSkip(p: Plan, orig: seq<bv8>, all: seq<bv8>, n: nat, m: nat)
    requires n <= m <= |all| && forall q :: p.offset + n <= q < p.offset + m ==> LostAt(p, q)
    ensures Image(p, orig, all, m) == Image(p, orig, all, n)
    decreases m
  {
    if n < m {
      ImageSkip(p, orig, all, n, m - 1);
      assert LostAt(p, p.offset + m - 1);
    }
  }

  lemma ImageStep(p: Plan, orig: seq<bv8>, all: seq<bv8>, n: nat)
    requires n <= |all|
    ensures n > 0 && !LostAt(p, p.offset + n - 1) ==>
              Image(p, orig, all, n) == Put(Image(p, orig, all, n - 1), p.offset + n - 1, [Corrupt(p, p.offset + n - 1, all[n - 1])])
  {
    hide LostAt, Corrupt, Put;
  }

  /** A segment with no lost position is one write of its corrupted bytes. */
  lemma {:induction false} ImageWrite(p: Plan, orig: seq<bv8>, all: seq<bv8>, n: nat, m: nat, seg: seq<bv8>)
    requires n <= m <= |all| && |seg| == m - n
    requires forall q :: p.offset + n <= q < p.offset + m ==> !LostAt(p, q)
    requires forall i :: 0 <= i < |seg| ==> seg[i] == Corrupt(p, p.offset + n + i, all[n + i])
    ensures Image(p, orig, all, m) == Put(Image(p, orig, all, n), p.offset + n, seg)
    decreases m
  {
    hide LostAt, Corrupt, Put, Image;
    ImageStep(p, orig, all, m);
    if n < m {
      var k := |seg| - 1;
      ImageWrite(p, orig, all, n, m - 1, seg[..k]);
      assert !LostAt(p, p.offset + m - 1);
      PutSnoc(Image(p, orig, all, n), p.offset + n, seg[..k], seg[k]);
      assert seg == seg[..k] + [seg[k]];
    }
  }

  lemma PutSnoc(d: seq<bv8>, c: nat, s: seq<bv8>, x: bv8)
    ensures Put(Put(d, c, s), c + |s|, [x]) == Put(d, c, s + [x])
  {
    hide Put;
  }

  /** Some undetected fault was decided in the blocks below hi. */
  function AnySilent(p: Plan, hi: nat): (b: bool)
  {
    hi > 0 && (AnySilent(p, hi - 1) || (p.seeks && Fires(p, Lost, hi - 1)) || Fires(p, Flip, hi - 1))
  }

  lemma {:induction false} SilentBelow(p: Plan, op: nat, hi: nat)
    requires op < hi && ((p.seeks && Fires(p, Lost, op)) || Fires(p, Flip, op))
    ensures AnySilent(p, hi)
  {
    if op < hi - 1 {
      SilentBelow(p, op, hi - 1);
    }
  }

  /** The file holds, at position q, the byte written there. */
  ghost predicate Holds(p: Plan, d: seq<bv8>, all: seq<bv8>, q: nat)
    requires p.offset <= q < p.offset + |all|
  {
    q < |d| && d[q] == all[q - p.offset]
  }

  /** A position where the file does not hold what was accepted met an
      undetected fault, in a block that starts before the last accepted byte. */
  lemma DifferenceIsSilent(p: Plan, orig: seq<bv8>, all: seq<bv8>, n: nat, q: nat)
    requires n <= |all| && p.offset <= q < p.offset + n
    ensures var d := Image(p, orig, all, n);
            Holds(p, d, all, q) || AnySilent(p, Blocks(p.offset + n))
  {
    ImageAt(p, orig, all, n);
    if LostAt(p, q) || FlippedAt(p, q) {
      BlockBelow(q, p.offset + n);
      SilentBelow(p, q / BLOCK, Blocks(p.offset + n));
    }
  }

  // ---- The outcome in the plan's own terms ----

  /** Block b decides fault f: it starts inside the window and f was drawn. */
  ghost predicate Drawn(p: Plan, f: Fault, b: nat)
  {
    p.on && p.offset <= b * BLOCK && p.fires(f, b)
  }

  const BIT_VALUES: seq<bv8> := [1, 2, 4, 8, 16, 32, 64, 128]

  /** What position q of the file holds once its byte of `all` was accepted: a
      lost block keeps what was there, and otherwise the byte differs from the
      one written if and only if the flip of q's block was drawn at q, and then
      in bit q % 8 and in no other. */
  ghost predicate Lands(p: Plan, orig: seq<bv8>, d: seq<bv8>, all: seq<bv8>, q: nat)
    requires p.offset <= q < p.offset + |all|
  {
    var b, x := q / BLOCK, all[q - p.offset];
    if p.seeks && Drawn(p, Lost, b) then q < |d| ==> d[q] == if q < |orig| then orig[q] else 0
    else
      && q < |d|
      && (d[q] != x <==> Drawn(p, Flip, b) && q == b * BLOCK + p.draw(Flip, b) % BLOCK)
      && (d[q] != x ==> d[q] ^ x == BIT_VALUES[q % 8])
  }

  lemma FiresIs(p: Plan, f: Fault, b: nat)
    ensures Fires(p, f, b) <==> Drawn(p, f, b)
  {
  }

  lemma FlipsOneBit(at: nat, x: bv8)
    ensures FlipBit(at, x) != x && FlipBit(at, x) ^ x == BIT_VALUES[at % 8]
  {
    hide BitAt;
    OneBit(at % 8);
    UndoXor(x, BitAt(at % 8));
  }

  lemma OneBit(i: nat)
    requires i < 8
    ensures BitAt(i) == BIT_VALUES[i] != 0
  {
    assert BitAt(0) == 1 && BitAt(1) == 2 && BitAt(2) == 4 && BitAt(3) == 8;
    assert BitAt(4) == 16 && BitAt(5) == 32 && BitAt(6) == 64 && BitAt(7) == 128;
  }

  lemma UndoXor(x: bv8, m: bv8)
    ensures (x ^ m) ^ x == m && (m != 0 ==> x ^ m != x)
  {
  }

  lemma Landing(p: Plan, orig: seq<bv8>, all: seq<bv8>, n: nat, q: nat)
    requires n <= |all| && p.offset <= q < p.offset + n
    ensures Lands(p, orig, Image(p, orig, all, n), all, q)
  {
    hide Image, FlipBit, Fires, Drawn;
    ImageAt(p, orig, all, n);
    FiresIs(p, Lost, q / BLOCK);
    FiresIs(p, Flip, q / BLOCK);
    var x := all[q - p.offset];
    FlipsOneBit(q, x);
    var d := Image(p, orig, all, n);
    if !LostAt(p, q) {
      assert q < |d| && d[q] == Corrupt(p, q, x);
      assert FlippedAt(p, q) <==> Drawn(p, Flip, q / BLOCK) && q == q / BLOCK * BLOCK + p.draw(Flip, q / BLOCK) % BLOCK;
      assert Corrupt(p, q, x) == if FlippedAt(p, q) then FlipBit(q, x) else x;
    }
  }

  /** Block b stops a write at `at` with err: at its start for EIO, then for
      ENOSPC, and at the place drawn inside it for a torn and then for a short
      write, the last of which reports nothing. */
  ghost predicate StopsWrite(p: Plan, b: nat, at: nat, err: Error)
  {
    if Drawn(p, Eio, b) then at == b * BLOCK && err == EIO
    else if Drawn(p, Enospc, b) then at == b * BLOCK && err == ENOSPC
    else if Drawn(p, Torn, b) then at == b * BLOCK + 1 + p.draw(Torn, b) % (BLOCK - 1) && err == EIO
    else Drawn(p, Short, b) && at == b * BLOCK + 1 + p.draw(Short, b) % (BLOCK - 1) && err == Nil
  }

  /** Of n bytes k were accepted: no block stops a write before that, and if
      there was more, one stops it there. */
  ghost predicate Stopped(p: Plan, n: nat, k: nat, err: Error)
  {
    && (forall b: nat, at: nat, e :: StopsWrite(p, b, at, e) ==> at >= p.offset + k)
    && (if k < n then exists b: nat, at: nat :: at == p.offset + k && StopsWrite(p, b, at, err) else k == n && err == Nil)
  }

  lemma StopsIs(p: Plan, b: nat, at: nat, err: Error)
    ensures StopsWrite(p, b, at, err) <==> Fails(p, b) && at == FailPos(p, b) && err == ErrorOf(FailKind(p, b))
  {
    hide Drawn, Fires;
    FiresIs(p, Eio, b);
    FiresIs(p, Enospc, b);
    FiresIs(p, Torn, b);
    FiresIs(p, Short, b);
  }

  /** The first failure below hi, and that there is none before it. */
  lemma {:induction false} FirstFailIs(p: Plan, hi: nat)
    ensures var op := FirstFail(p, hi);
            if op < 0 then forall b :: 0 <= b < hi ==> !Fails(p, b) else forall b :: 0 <= b < op ==> !Fails(p, b)
  {
    hide Fails;
    if hi > 0 {
      FirstFailIs(p, hi - 1);
    }
  }

  lemma Stopping(p: Plan, n: nat)
    ensures Stopped(p, n, Accepted(p, n), Failure(p, n))
  {
    hide FirstFail, Fails, StopsWrite, FailPos, FailKind;
    var k, hi := Accepted(p, n), Blocks(p.offset + n);
    FirstFailIs(p, hi);
    var op := FirstFail(p, hi);
    forall b: nat, at: nat, e | StopsWrite(p, b, at, e) ensures at >= p.offset + k {
      StopsIs(p, b, at, e);
      if op >= 0 {
        assert b >= op;
        InBlock(op, b, FailPos(p, op), FailPos(p, b));
      } else {
        assert b >= hi;
        PastBlocks(b, hi, p.offset + n, at);
      }
      if b == op {
        assert at == FailPos(p, op);
      }
    }
    if k < n {
      StopsIs(p, op, p.offset + k, Failure(p, n));
    }
  }

  lemma InBlock(a: nat, b: nat, at: nat, at': nat)
    requires a <= b && at < (a + 1) * BLOCK && b * BLOCK <= at'
    ensures a < b ==> at <= at'
  {
  }

  lemma PastBlocks(b: nat, hi: nat, end: nat, at: nat)
    requires b >= hi && end <= hi * BLOCK && b * BLOCK <= at
    ensures at >= end
  {
  }

  /** An undetected fault was drawn in block b. */
  ghost predicate Silent(p: Plan, b: nat)
  {
    (p.seeks && Drawn(p, Lost, b)) || Drawn(p, Flip, b)
  }

  lemma {:induction false} SilentIs(p: Plan, hi: nat)
    ensures AnySilent(p, hi) <==> exists b: nat :: b < hi && Silent(p, b)
  {
    hide Fires, Drawn;
    if hi > 0 {
      SilentIs(p, hi - 1);
      FiresIs(p, Lost, hi - 1);
      FiresIs(p, Flip, hi - 1);
      assert AnySilent(p, hi) <==> AnySilent(p, hi - 1) || Silent(p, hi - 1);
      forall b: nat | b < hi && Silent(p, b) ensures AnySilent(p, hi) {
        assert b < hi - 1 || b == hi - 1;
      }
    }
  }

  lemma BlockBelow(q: nat, end: nat)
    requires q < end
    ensures q / BLOCK < Blocks(end)
  {
  }

  // ---- The writer ----

  class File {
    var data: seq<bv8>
    var cursor: nat

    constructor (orig: seq<bv8>, at: nat)
      ensures data == orig && cursor == at
    {
      data, cursor := orig, at;
    }

    method Write(s: seq<bv8>) returns (n: nat)
      modifies this
      ensures n == |s| && data == Put(old(data), old(cursor), s) && cursor == old(cursor) + |s|
    {
      data := Put(data, cursor, s);
      cursor := cursor + |s|;
      n := |s|;
    }

    method Seek(skip: nat)
      modifies this`cursor
      ensures cursor == old(cursor) + skip
    {
      cursor := cursor + skip;
    }
  }

  datatype Range = Range(from: nat, to: nat)

  function BlockRange(at: nat): Range
  {
    Range(at / BLOCK * BLOCK, at / BLOCK * BLOCK + BLOCK)
  }

  ghost predicate FailOk(p: Plan, pos: nat, next: nat, failAt: int, failKind: Fault)
  {
    var op := FirstFail(p, next / BLOCK);
    if op < 0 then failAt == -1 else failAt == FailPos(p, op) && failKind == FailKind(p, op) && pos <= failAt
  }

  /** The pending flips, in order: every one decided at or after pos is there. */
  ghost predicate FlipsOk(p: Plan, pos: nat, next: nat, flips: seq<nat>)
  {
    && (forall i, j :: 0 <= i < j < |flips| ==> flips[i] < flips[j])
    && (forall at :: at in flips ==> FlippedAt(p, at) && at < next)
    && (forall at :: pos <= at < next && FlippedAt(p, at) ==> at in flips)
  }

  /** The lost blocks, in order: every one decided that ends after pos is there. */
  ghost predicate LostOk(p: Plan, pos: nat, next: nat, lost: seq<Range>)
  {
    && (forall i, j :: 0 <= i < j < |lost| ==> lost[i].from < lost[j].from)
    && (forall r :: r in lost ==> r == BlockRange(r.from) && LostAt(p, r.from) && r.from < next)
    && (forall at :: pos <= at < next && LostAt(p, at) ==> BlockRange(at) in lost)
  }

  lemma FlipsStep(p: Plan, pos: nat, next: nat, flips: seq<nat>)
    requires next % BLOCK == 0 && FlipsOk(p, pos, next, flips)
    ensures var op := next / BLOCK;
            FlipsOk(p, pos, next + BLOCK, if Fires(p, Flip, op) then flips + [FlipPos(p, op)] else flips)
  {
    hide Fires;
    var op := next / BLOCK;
    forall at | next <= at < next + BLOCK && FlippedAt(p, at) ensures Fires(p, Flip, op) && at == FlipPos(p, op) {
      assert at / BLOCK == op;
    }
    if Fires(p, Flip, op) {
      var x := FlipPos(p, op);
      assert x / BLOCK == op && FlippedAt(p, x) && next <= x < next + BLOCK;
      assert forall i :: 0 <= i < |flips| ==> flips[i] in flips;
      assert forall at :: at in flips + [x] <==> at in flips || at == x;
    }
  }

  lemma LostStep(p: Plan, pos: nat, next: nat, lost: seq<Range>)
    requires next % BLOCK == 0 && LostOk(p, pos, next, lost)
    ensures LostOk(p, pos, next + BLOCK, if p.seeks && Fires(p, Lost, next / BLOCK) then lost + [Range(next, next + BLOCK)] else lost)
  {
    hide Fires;
    var op := next / BLOCK;
    forall at | next <= at < next + BLOCK
      ensures at / BLOCK == op && BlockRange(at) == Range(next, next + BLOCK) {
    }
  }

  lemma FailStep(p: Plan, pos: nat, next: nat, failAt: int, failKind: Fault)
    requires next % BLOCK == 0 && FailOk(p, pos, next, failAt, failKind) && pos <= next
    ensures var op := next / BLOCK;
            if failAt < 0 && Fails(p, op) then FailOk(p, pos, next + BLOCK, FailPos(p, op), FailKind(p, op))
            else FailOk(p, pos, next + BLOCK, failAt, failKind)
  {
    hide Fails, FailPos, FailKind;
    assert (next + BLOCK) / BLOCK == next / BLOCK + 1;
  }

  /** Where the next lost block leaves the positions before it. */
  lemma LostFirst(p: Plan, pos: nat, next: nat, lost: seq<Range>)
    requires LostOk(p, pos, next, lost)
    ensures lost == [] ==> forall at :: pos <= at < next ==> !LostAt(p, at)
    ensures lost != [] && lost[0].to > pos ==>
              && lost[0] == BlockRange(lost[0].from)
              && (forall at :: lost[0].from <= at < lost[0].to ==> LostAt(p, at))
              && (forall at :: pos <= at < lost[0].from && at < next ==> !LostAt(p, at))
  {
    if lost != [] && lost[0].to > pos {
      var r := lost[0];
      assert r in lost;
      forall at | r.from <= at < r.to ensures LostAt(p, at) {
        assert at / BLOCK == r.from / BLOCK;
      }
      assert forall i :: 0 <= i < |lost| ==> r.from <= lost[i].from;
      assert forall at :: BlockRange(at) in lost ==> r.from <= BlockRange(at).from <= at;
    }
  }

  lemma LostDrop(p: Plan, pos: nat, next: nat, lost: seq<Range>)
    requires LostOk(p, pos, next, lost) && lost != [] && lost[0].to <= pos
    ensures LostOk(p, pos, next, lost[1..])
  {
    forall at | pos <= at < next && LostAt(p, at) ensures BlockRange(at) in lost[1..] {
      assert BlockRange(at) in lost && BlockRange(at) != lost[0];
    }
  }

  class Writer {
    const w: File
    const p: Plan
    const orig: seq<bv8>
    const hitBefore: bool
    var pos: nat
    var next: nat
    var failAt: int
    var failKind: Fault
    var flips: seq<nat>
    var lost: seq<Range>
    var hit: bool
    ghost var sent: seq<bv8>

    /** What is pending matches the blocks below end, and so does the hit
        record. */
    ghost predicate Decided(end: nat)
      reads this`pos, this`next, this`failAt, this`failKind, this`flips, this`lost, this`hit
    {
      p.on ==>
        && pos <= end && next == Blocks(end) * BLOCK
        && FailOk(p, pos, next, failAt, failKind) && FlipsOk(p, pos, next, flips) && LostOk(p, pos, next, lost)
        && (hit <==> hitBefore || (p.output && AnySilent(p, next / BLOCK)))
    }

    ghost predicate Valid()
      reads this, w
    {
      && pos == p.offset + |sent| && w.cursor == pos
      && w.data == Image(p, orig, sent, |sent|)
      && Decided(pos) && (hit <==> hitBefore || (p.output && AnySilent(p, Blocks(pos))))
    }

    lemma Stand()
      requires Valid()
      ensures pos == p.offset + |sent| && w.cursor == pos && w.data == Image(p, orig, sent, |sent|)
      ensures hit <==> hitBefore || (p.output && AnySilent(p, Blocks(pos)))
      ensures p.on ==> next == Blocks(pos) * BLOCK && FailOk(p, pos, next, failAt, failKind)
    {
    }

    /** A fresh writer over a file whose cursor is at the plan's offset. */
    constructor (plan: Plan, file: File, already: bool)
      requires file.cursor == plan.offset
      ensures Valid() && p == plan && w == file && orig == file.data && sent == [] && hitBefore == already
    {
      w, p, orig, hitBefore, hit := file, plan, file.data, already, already;
      pos, sent := plan.offset, [];
      failKind, flips, lost := Eio, [], [];
      if plan.on {
        next, failAt := (plan.offset + BLOCK - 1) / BLOCK * BLOCK, -1;
      } else {
        next, failAt := 0, 0;
      }
      new;
      NothingBefore(p, FirstBlock(p));
    }

    /** Makes the pending failure that of the first failing block so far. */
    method PickFailure(b: nat, op: nat)
      requires p.on && b % BLOCK == 0 && op == b / BLOCK && FirstBlock(p) <= op && pos <= b
      requires FailOk(p, pos, b, failAt, failKind)
      modifies this`failAt, this`failKind
      ensures FailOk(p, pos, b + BLOCK, failAt, failKind)
    {
      hide FailOk;
      FailStep(p, pos, b, failAt, failKind);
      if failAt < 0 {
        if p.fires(Eio, op) {
          failAt, failKind := b, Eio;
        } else if p.fires(Enospc, op) {
          failAt, failKind := b, Enospc;
        } else if p.fires(Torn, op) {
          failAt, failKind := Inside(p, Torn, op), Torn;
        } else if p.fires(Short, op) {
          failAt, failKind := Inside(p, Short, op), Short;
        }
      }
    }

    method Decide(end: nat)
      requires p.on && Decided(pos) && p.offset <= pos <= end
      modifies this`next, this`failAt, this`failKind, this`flips, this`lost, this`hit
      ensures Decided(end)
    {
      hide FailOk, FlipsOk, LostOk, Blocks, FirstBlock;
      BlocksGrow(pos, end);
      BlocksGrow(p.offset, pos);
      FirstIsBlocks(p);
      while next < end
        invariant next % BLOCK == 0 && FirstBlock(p) * BLOCK <= next && pos <= next <= Blocks(end) * BLOCK
        invariant FailOk(p, pos, next, failAt, failKind) && FlipsOk(p, pos, next, flips) && LostOk(p, pos, next, lost)
        invariant hit <==> hitBefore || (p.output && AnySilent(p, next / BLOCK))
      {
        var b := next;
        var op := b / BLOCK;
        FlipsStep(p, pos, next, flips);
        LostStep(p, pos, next, lost);
        assert (next + BLOCK) / BLOCK == op + 1;
        PickFailure(b, op);
        if p.seeks && p.fires(Lost, op) {
          lost := lost + [Range(b, b + BLOCK)];
          hit := hit || p.output;
        }
        if p.fires(Flip, op) {
          hit := hit || p.output;
          flips := flips + [b + p.draw(Flip, op) % BLOCK];
        }
        BlocksStep(next, end);
        next := next + BLOCK;
      }
      BlocksDone(next, end);
    }

    /** The lost range nearest ahead of the position, or under it. */
    method LostRange() returns (r: Range, ok: bool)
      requires LostOk(p, pos, next, lost)
      modifies this`lost
      ensures LostOk(p, pos, next, lost)
      ensures ok <==> lost != []
      ensures ok ==> r == lost[0] && r.to > pos
    {
      hide LostOk;
      while |lost| > 0 && lost[0].to <= pos
        invariant LostOk(p, pos, next, lost)
        decreases |lost|
      {
        LostDrop(p, pos, next, lost);
        lost := lost[1..];
      }
      if |lost| == 0 {
        return Range(0, 0), false;
      }
      return lost[0], true;
    }

    /** A segment as it will reach the file; flips past it stay pending. */
    method FlipIn(from: nat, to: nat, seg: seq<bv8>) returns (out: seq<bv8>)
      requires from <= to && |seg| == to - from && from == pos && to <= next
      requires FlipsOk(p, pos, next, flips)
      modifies this`flips
      ensures FlipsOk(p, to, next, flips)
      ensures |out| == |seg| && forall i :: 0 <= i < |seg| ==> out[i] == Corrupt(p, from + i, seg[i])
    {
      hide FlippedAt, FlipBit;
      ghost var f := flips;
      out := seg;
      var kept: seq<nat> := [];
      for i := 0 to |flips|
        invariant flips == f && |out| == |seg|
        invariant forall k :: 0 <= k < |seg| ==> out[k] == if from + k in f[..i] then FlipBit(from + k, seg[k]) else seg[k]
        invariant forall at :: at in kept <==> at in f[..i] && at >= to
        invariant forall k, m :: 0 <= k < m < |kept| ==> kept[k] < kept[m]
      {
        var at := flips[i];
        assert f[..i + 1] == f[..i] + [at];
        assert forall x :: x in f[..i] ==> x < at;
        if at < from || at >= to {
          if at >= to {
            assert forall k :: 0 <= k < |kept| ==> kept[k] in kept;
            kept := kept + [at];
          }
        } else {
          out := out[at - from := FlipBit(at, out[at - from])];
        }
      }
      assert f[..|f|] == f;
      flips := kept;
    }

    /** Writes the bytes up to segEnd, none of them lost. */
    method Emit(start: nat, segEnd: nat, end: nat, bytes: seq<bv8>, ghost all: seq<bv8>)
      requires p.on && Decided(end) && p.offset <= start <= pos < segEnd <= end && (failAt < 0 || segEnd <= failAt)
      requires |bytes| == end - start && |all| == end - p.offset && all[start - p.offset..] == bytes
      requires w.cursor == pos && w.data == Image(p, orig, all, pos - p.offset)
      requires forall at :: pos <= at < segEnd ==> !LostAt(p, at)
      modifies this`pos, this`flips, w
      ensures Decided(end) && pos == segEnd
      ensures w.cursor == pos && w.data == Image(p, orig, all, pos - p.offset)
    {
      hide FailOk, FlipsOk, LostOk, Blocks, Image, Put, LostAt, Corrupt;
      var seg := bytes[pos - start..segEnd - start];
      ghost var raw := seg;
      Later(p, pos, segEnd, next, failAt, failKind, flips, lost);
      seg := FlipIn(pos, segEnd, seg);
      assert forall i :: 0 <= i < |raw| ==> raw[i] == all[pos - p.offset + i];
      ImageWrite(p, orig, all, pos - p.offset, segEnd - p.offset, seg);
      var n := w.Write(seg);
      pos := pos + n;
    }

    /** One turn of Write's loop: skip lost bytes, or write up to the next
        failure or lost block. */
    method Turn(start: nat, end: nat, bytes: seq<bv8>, ghost all: seq<bv8>)
      requires p.on && Decided(end) && p.offset <= start <= pos < end && (failAt < 0 || pos < failAt)
      requires |bytes| == end - start && |all| == end - p.offset && all[start - p.offset..] == bytes
      requires w.cursor == pos && w.data == Image(p, orig, all, pos - p.offset)
      modifies this`pos, this`flips, this`lost, w
      ensures Decided(end) && old(pos) < pos <= end
      ensures w.cursor == pos && w.data == Image(p, orig, all, pos - p.offset)
    {
      hide FailOk, FlipsOk, LostOk, Blocks, Image, Put, LostAt, Corrupt, BlockRange, AnySilent;
      var segEnd := end;
      if failAt >= 0 && failAt < segEnd {
        segEnd := failAt;
      }
      var r, ok := LostRange();
      LostFirst(p, pos, next, lost);
      if ok {
        if pos >= r.from {
          var skip := (if r.to < segEnd then r.to else segEnd) - pos;
          w.Seek(skip);
          ImageSkip(p, orig, all, pos - p.offset, pos + skip - p.offset);
          Later(p, pos, pos + skip, next, failAt, failKind, flips, lost);
          pos := pos + skip;
          return;
        }
        segEnd := if segEnd < r.from then segEnd else r.from;
      }
      Emit(start, segEnd, end, bytes, all);
    }

    /** Writes bytes as they are. */
    method Plain(bytes: seq<bv8>) returns (n: nat)
      requires Valid() && (!p.on || |bytes| == 0)
      modifies this`pos, this`sent, w
      ensures Valid() && n == |bytes| && pos == old(pos) + n && sent == old(sent) + bytes
    {
      hide FlipsOk, LostOk, FailOk, Blocks, Image, Put, AnySilent;
      PassThrough(p, orig, sent, []);
      PassThrough(p, orig, sent, bytes);
      n := w.Write(bytes);
      pos := pos + n;
      sent := sent + bytes;
    }

    /** Writes bytes, up to the first injected failure. */
    method Write(bytes: seq<bv8>) returns (n: nat, err: Error)
      requires Valid()
      modifies this, w
      ensures pos == old(pos) + n && n <= |bytes| && (n == |bytes| ==> err == Nil && Valid() && sent == old(sent) + bytes)
      ensures w.data == Image(p, orig, old(sent) + bytes, |old(sent)| + n)
      ensures n < |bytes| ==>
                var op := FirstFail(p, Blocks(old(pos) + |bytes|));
                op >= 0 && FailPos(p, op) == old(pos) + n && err == ErrorOf(FailKind(p, op))
      ensures hit <==> hitBefore || (p.output && AnySilent(p, Blocks(old(pos) + |bytes|)))
    {
      hide FlipsOk, LostOk, FailOk, Blocks, Image, Put, LostAt, Corrupt, AnySilent, FailPos, FailKind, FirstFail;
      ghost var all := sent + bytes;
      ImageLonger(p, orig, sent, bytes, |sent|);
      if !p.on || |bytes| == 0 {
        n := Plain(bytes);
        return n, Nil;
      }
      var start := pos;
      var end := start + |bytes|;
      Decide(end);
      while pos < end
        invariant start <= pos <= end && Decided(end)
        invariant w.cursor == pos && w.data == Image(p, orig, all, pos - p.offset)
      {
        if failAt >= 0 && pos >= failAt {
          FailNow(p, pos, next, failAt, failKind);
          n := pos - start;
          failAt := -1;
          err := if failKind == Short then Nil else if failKind == Enospc then ENOSPC else EIO;
          return;
        }
        Turn(start, end, bytes, all);
      }
      sent := all;
      return |bytes|, Nil;
    }
  }

  lemma {:induction false} NoneOff(p: Plan, hi: nat)
    requires !p.on
    ensures !AnySilent(p, hi)
  {
    if hi > 0 {
      NoneOff(p, hi - 1);
    }
  }

  lemma Clean(p: Plan, at: nat, x: bv8)
    requires !p.on
    ensures !LostAt(p, at) && Corrupt(p, at, x) == x
  {
  }

  /** With the disk family off, or nothing to write, bytes go through as they
      are. */
  lemma PassThrough(p: Plan, orig: seq<bv8>, sent: seq<bv8>, bytes: seq<bv8>)
    requires !p.on || bytes == []
    ensures Image(p, orig, sent + bytes, |sent| + |bytes|) == Put(Image(p, orig, sent, |sent|), p.offset + |sent|, bytes)
    ensures !p.on ==> !AnySilent(p, Blocks(p.offset + |sent| + |bytes|))
  {
    hide Image, Put, Blocks, AnySilent, LostAt, Corrupt;
    ImageLonger(p, orig, sent, bytes, |sent|);
    if bytes != [] {
      var all, from := sent + bytes, p.offset + |sent|;
      forall q | from <= q < from + |bytes| ensures !LostAt(p, q) {
        Clean(p, q, 0);
      }
      forall i | 0 <= i < |bytes| ensures bytes[i] == Corrupt(p, from + i, all[|sent| + i]) {
        Clean(p, from + i, bytes[i]);
      }
      ImageWrite(p, orig, sent + bytes, |sent|, |sent| + |bytes|, bytes);
    }
    if !p.on {
      NoneOff(p, Blocks(p.offset + |sent| + |bytes|));
    }
  }

  lemma FailNow(p: Plan, pos: nat, next: nat, failAt: int, failKind: Fault)
    requires FailOk(p, pos, next, failAt, failKind) && 0 <= failAt <= pos
    ensures var op := FirstFail(p, next / BLOCK);
            op >= 0 && FailPos(p, op) == pos && FailKind(p, op) == failKind
  {
  }

  /** Moving on, short of the pending failure, keeps what is pending right. */
  lemma Later(p: Plan, pos: nat, pos': nat, next: nat, failAt: int, failKind: Fault, flips: seq<nat>, lost: seq<Range>)
    requires pos <= pos' && (failAt >= 0 ==> pos' <= failAt)
    requires FailOk(p, pos, next, failAt, failKind) && FlipsOk(p, pos, next, flips) && LostOk(p, pos, next, lost)
    ensures FailOk(p, pos', next, failAt, failKind) && FlipsOk(p, pos', next, flips) && LostOk(p, pos', next, lost)
  {
  }

  lemma {:induction false} NothingBefore(p: Plan, hi: nat)
    requires hi <= FirstBlock(p)
    ensures FirstFail(p, hi) < 0 && !AnySilent(p, hi)
  {
    if hi > 0 {
      NothingBefore(p, hi - 1);
    }
  }

  lemma FirstIsBlocks(p: Plan)
    ensures FirstBlock(p) == Blocks(p.offset)
  {
  }

  lemma BlocksGrow(pos: nat, end: nat)
    requires pos <= end
    ensures pos <= Blocks(pos) * BLOCK <= Blocks(end) * BLOCK
    ensures (Blocks(pos) * BLOCK) % BLOCK == 0
  {
  }

  lemma BlocksStep(next: nat, end: nat)
    requires next % BLOCK == 0 && next < end
    ensures next + BLOCK <= Blocks(end) * BLOCK
  {
  }

  lemma BlocksDone(next: nat, end: nat)
    requires next % BLOCK == 0 && end <= next <= Blocks(end) * BLOCK
    ensures next == Blocks(end) * BLOCK
  {
  }

  function Joined(cuts: seq<seq<bv8>>): (s: seq<bv8>)
  {
    if cuts == [] then [] else Joined(cuts[..|cuts| - 1]) + cuts[|cuts| - 1]
  }

  lemma {:induction false} JoinedPrefix(cuts: seq<seq<bv8>>, i: nat)
    requires i <= |cuts|
    ensures Joined(cuts[..i]) <= Joined(cuts)
  {
    if i == |cuts| {
      assert cuts[..i] == cuts;
    } else {
      JoinedPrefix(cuts[..|cuts| - 1], i);
      assert cuts[..|cuts| - 1][..i] == cuts[..i];
    }
  }

  /** How far the cuts reach once more than a bytes are asked for: the end of
      the write that asks for byte a, or of the last one. */
  ghost function Reach(cuts: seq<seq<bv8>>, a: nat): (n: nat)
    ensures n <= |Joined(cuts)| && (a >= |Joined(cuts)| ==> n == |Joined(cuts)|) && (a < |Joined(cuts)| ==> n > a)
  {
    if cuts == [] then 0
    else
      var front := cuts[..|cuts| - 1];
      if |Joined(front)| > a then Reach(front, a) else |Joined(cuts)|
  }

  /** The hit record after the cuts: it was set before, or an undetected fault
      was decided in a block that starts before the end of the last write. */
  ghost predicate Hit(p: Plan, already: bool, cuts: seq<seq<bv8>>)
  {
    already || (p.output && AnySilent(p, Blocks(p.offset + Reach(cuts, Accepted(p, |Joined(cuts)|)))))
  }

  /** Writes the cuts in order, stopping at the first short or failed write.
      File, accepted length and error depend on the joined bytes alone. If an
      accepted byte is not in the downloaded copy as written, the file was
      recorded as hit. */
  method WriteCuts(p: Plan, file: File, already: bool, cuts: seq<seq<bv8>>)
    returns (accepted: nat, err: Error, hit: bool)
    requires file.cursor == p.offset
    modifies file
    ensures accepted == Accepted(p, |Joined(cuts)|) && err == Failure(p, |Joined(cuts)|)
    ensures file.data == Image(p, old(file.data), Joined(cuts), accepted)
    ensures hit <==> Hit(p, already, cuts)
    ensures Stopped(p, |Joined(cuts)|, accepted, err)
    ensures forall q :: p.offset <= q < p.offset + accepted ==> Lands(p, old(file.data), file.data, Joined(cuts), q)
    ensures p.output && !hit ==>
              forall q :: p.offset <= q < p.offset + accepted ==> Holds(p, file.data, Joined(cuts), q)
  {
    hide Image, Accepted, Failure, FirstFail, FailPos, FailKind, AnySilent, Blocks, Holds, Hit, Joined, FailOk, Writer.Valid, Stopped, Lands;
    ghost var orig := file.data;
    Stopping(p, |Joined(cuts)|);
    AllLand(p, orig, Joined(cuts));
    var w := new Writer(p, file, already);
    NoCuts(cuts);
    for i := 0 to |cuts|
      invariant fresh(w) && w.p == p && w.w == file && w.orig == orig && w.hitBefore == already
      invariant w.Valid() && w.sent == Joined(cuts[..i])
    {
      w.Stand();
      var n;
      n, err := w.Write(cuts[i]);
      NextCut(cuts, i);
      if n < |cuts[i]| {
        accepted, hit := w.pos - p.offset, w.hit;
        CutShort(p, orig, already, cuts, i, n, err, hit);
        return;
      }
    }
    assert cuts[..|cuts|] == cuts;
    w.Stand();
    accepted, err, hit := w.pos - p.offset, Nil, w.hit;
    Finished(p, accepted, w.next, w.failAt, w.failKind);
    AllTaken(p, orig, already, cuts, hit);
  }

  lemma AllLand(p: Plan, orig: seq<bv8>, all: seq<bv8>)
    ensures var n := Accepted(p, |all|);
            var d := Image(p, orig, all, n);
            forall q :: p.offset <= q < p.offset + n ==> Lands(p, orig, d, all, q)
  {
    hide Accepted, Image, Lands;
    var n := Accepted(p, |all|);
    forall q | p.offset <= q < p.offset + n ensures Lands(p, orig, Image(p, orig, all, n), all, q) {
      Landing(p, orig, all, n, q);
    }
  }

  lemma NoCuts(cuts: seq<seq<bv8>>)
    ensures Joined(cuts[..0]) == []
  {
  }

  lemma NextCut(cuts: seq<seq<bv8>>, i: nat)
    requires i < |cuts|
    ensures Joined(cuts[..i + 1]) == Joined(cuts[..i]) + cuts[i]
  {
    assert cuts[..i + 1][..i] == cuts[..i];
  }

  /** What a write of cut i that stops after n bytes leaves of the whole. */
  lemma CutShort(p: Plan, orig: seq<bv8>, already: bool, cuts: seq<seq<bv8>>, i: nat, n: nat, err: Error, hit: bool)
    requires i < |cuts| && n < |cuts[i]|
    requires var end := p.offset + |Joined(cuts[..i])| + |cuts[i]|;
             && (hit <==> already || (p.output && AnySilent(p, Blocks(end))))
             && var op := FirstFail(p, Blocks(end));
                op >= 0 && FailPos(p, op) == p.offset + |Joined(cuts[..i])| + n && err == ErrorOf(FailKind(p, op))
    ensures var accepted, all, longer := |Joined(cuts[..i])| + n, Joined(cuts), Joined(cuts[..i]) + cuts[i];
            && accepted == Accepted(p, |all|) && err == Failure(p, |all|) && (hit <==> Hit(p, already, cuts))
            && Image(p, orig, longer, accepted) == Image(p, orig, all, accepted)
            && (p.output && !hit ==>
                  var d := Image(p, orig, all, accepted);
                  forall q :: p.offset <= q < p.offset + accepted ==> Holds(p, d, all, q))
  {
    hide Image, Accepted, Failure, FirstFail, FailPos, FailKind, AnySilent, Blocks, Holds, Reach, Joined;
    var sent, all := Joined(cuts[..i]), Joined(cuts);
    var longer, accepted := sent + cuts[i], |sent| + n;
    NextCut(cuts, i);
    JoinedPrefix(cuts, i + 1);
    assert all == longer + all[|longer|..];
    ImageLonger(p, orig, longer, all[|longer|..], accepted);
    StoppedAt(p, |sent|, |longer|, |all|, accepted);
    ReachIs(cuts, i, accepted);
    Unhit(p, orig, all, accepted, |longer|);
  }

  lemma AllTaken(p: Plan, orig: seq<bv8>, already: bool, cuts: seq<seq<bv8>>, hit: bool)
    requires var n := |Joined(cuts)|;
             Accepted(p, n) == n && (hit <==> already || (p.output && AnySilent(p, Blocks(p.offset + n))))
    ensures hit <==> Hit(p, already, cuts)
    ensures p.output && !hit ==>
              var all := Joined(cuts);
              var d := Image(p, orig, all, |all|);
              forall q :: p.offset <= q < p.offset + |all| ==> Holds(p, d, all, q)
  {
    hide Image, Accepted, AnySilent, Blocks, Holds, Joined;
    var all := Joined(cuts);
    assert Reach(cuts, |all|) == |all|;
    Unhit(p, orig, all, |all|, |all|);
  }

  lemma {:induction false} ReachIs(cuts: seq<seq<bv8>>, i: nat, a: nat)
    requires i < |cuts| && |Joined(cuts[..i])| <= a < |Joined(cuts[..i + 1])|
    ensures Reach(cuts, a) == |Joined(cuts[..i + 1])|
    decreases |cuts|
  {
    if i + 1 == |cuts| {
      assert cuts[..i + 1] == cuts && cuts[..|cuts| - 1] == cuts[..i];
    } else {
      var front := cuts[..|cuts| - 1];
      assert front[..i] == cuts[..i] && front[..i + 1] == cuts[..i + 1];
      JoinedPrefix(front, i + 1);
      ReachIs(front, i, a);
    }
  }

  /** A write that fails at k does so for every longer run of bytes. */
  lemma StoppedAt(p: Plan, from: nat, to: nat, n: nat, k: nat)
    requires from <= k < to <= n
    requires var op := FirstFail(p, Blocks(p.offset + to)); op >= 0 && FailPos(p, op) == p.offset + k
    ensures Accepted(p, n) == k && Failure(p, n) == ErrorOf(FailKind(p, FirstFail(p, Blocks(p.offset + to))))
  {
    hide FirstFail, FailPos, FailKind;
    FailStable(p, Blocks(p.offset + to), Blocks(p.offset + n));
  }

  lemma Finished(p: Plan, n: nat, next: nat, failAt: int, failKind: Fault)
    requires !p.on || (next == Blocks(p.offset + n) * BLOCK && FailOk(p, p.offset + n, next, failAt, failKind))
    ensures Accepted(p, n) == n && Failure(p, n) == Nil
  {
    if !p.on {
      NeverFails(p, Blocks(p.offset + n));
    }
  }

  lemma {:induction false} NeverFails(p: Plan, hi: nat)
    requires !p.on
    ensures FirstFail(p, hi) < 0
  {
    if hi > 0 {
      NeverFails(p, hi - 1);
    }
  }

  /** With no undetected fault decided, the file holds what was accepted. */
  lemma Unhit(p: Plan, orig: seq<bv8>, all: seq<bv8>, n: nat, decided: nat)
    requires n <= |all| && n <= decided
    ensures !AnySilent(p, Blocks(p.offset + decided)) ==>
              var d := Image(p, orig, all, n);
              forall q :: p.offset <= q < p.offset + n ==> Holds(p, d, all, q)
  {
    hide Image, Blocks, AnySilent, Holds;
    if !AnySilent(p, Blocks(p.offset + decided)) {
      BlocksGrow(p.offset + n, p.offset + decided);
      SilentGrows(p, Blocks(p.offset + n), Blocks(p.offset + decided));
      var d := Image(p, orig, all, n);
      forall q | p.offset <= q < p.offset + n ensures Holds(p, d, all, q) {
        DifferenceIsSilent(p, orig, all, n, q);
      }
    }
  }

  lemma {:induction false} SilentGrows(p: Plan, lo: nat, hi: nat)
    requires lo <= hi
    ensures AnySilent(p, lo) ==> AnySilent(p, hi)
  {
    if lo < hi {
      SilentGrows(p, lo, hi - 1);
    }
  }

  /** Any two cuttings of the same bytes have the same outcome, and leave the
      same hit record where that is settled. */
  method TwoCuttings(p: Plan, orig: seq<bv8>, already: bool, a: seq<seq<bv8>>, b: seq<seq<bv8>>)
    returns (f: File, g: File, accepted: (nat, nat), errs: (Error, Error), hits: (bool, bool))
    requires Joined(a) == Joined(b)
    ensures f.data == g.data && accepted.0 == accepted.1 && errs.0 == errs.1
    ensures HitSettled(p, already, |Joined(a)|) ==> hits.0 == hits.1
  {
    f := new File(orig, p.offset);
    g := new File(orig, p.offset);
    var n, e, h := WriteCuts(p, f, already, a);
    var m, d, k := WriteCuts(p, g, already, b);
    accepted, errs, hits := (n, m), (e, d), (h, k);
    HitAgrees(p, already, Joined(a));
  }

  /** When the hit record does not depend on the cutting. */
  ghost predicate HitSettled(p: Plan, already: bool, n: nat)
  {
    || already || !p.output
    || Accepted(p, n) == n
    || AnySilent(p, FirstFail(p, Blocks(p.offset + n)) + 1)
    || !AnySilent(p, Blocks(p.offset + n))
  }

  /** All cuttings of the same bytes leave the same hit record exactly when the
      file was hit before, the site is not the downloaded copy, nothing fails,
      an undetected fault is decided no later than the failing block, or none
      is decided after it. */
  lemma HitAgrees(p: Plan, already: bool, all: seq<bv8>)
    ensures (forall a, b :: Joined(a) == all && Joined(b) == all ==> (Hit(p, already, a) <==> Hit(p, already, b)))
            <==> HitSettled(p, already, |all|)
  {
    hide AnySilent, Accepted, Blocks, Joined, Reach;
    if HitSettled(p, already, |all|) {
      forall a, b | Joined(a) == all && Joined(b) == all ensures Hit(p, already, a) <==> Hit(p, already, b) {
        HitSame(p, already, all, a);
        HitSame(p, already, all, b);
      }
    } else {
      var k := Accepted(p, |all|) + 1;
      Whole(all);
      Early(all, k);
      AtFailure(p, |all|);
      assert Hit(p, already, [all]) && !Hit(p, already, [all[..k], all[k..]]);
    }
  }

  /** Where the record is settled, every cutting leaves this one. */
  lemma HitSame(p: Plan, already: bool, all: seq<bv8>, cuts: seq<seq<bv8>>)
    requires HitSettled(p, already, |all|) && Joined(cuts) == all
    ensures Hit(p, already, cuts) <==> already || (p.output && AnySilent(p, Blocks(p.offset + |all|)))
  {
    hide AnySilent, Accepted, Joined, Blocks;
    var n, reach := Accepted(p, |all|), Reach(cuts, Accepted(p, |all|));
    BlocksGrow(p.offset + reach, p.offset + |all|);
    SilentGrows(p, Blocks(p.offset + reach), Blocks(p.offset + |all|));
    if n < |all| {
      AtFailure(p, |all|);
      BlocksGrow(p.offset + n + 1, p.offset + reach);
      SilentGrows(p, Blocks(p.offset + n + 1), Blocks(p.offset + reach));
    }
  }

  /** The blocks that start no later than the first byte refused. */
  lemma AtFailure(p: Plan, n: nat)
    requires Accepted(p, n) < n
    ensures FirstFail(p, Blocks(p.offset + n)) >= 0
    ensures Blocks(p.offset + Accepted(p, n) + 1) == FirstFail(p, Blocks(p.offset + n)) + 1
  {
    hide FirstFail;
  }

  lemma Whole(all: seq<bv8>)
    ensures Joined([all]) == all
    ensures forall a: nat :: Reach([all], a) == |all|
  {
    assert [all][..0] == [];
  }

  lemma Early(all: seq<bv8>, k: nat)
    requires 0 < k <= |all|
    ensures Joined([all[..k], all[k..]]) == all && Reach([all[..k], all[k..]], k - 1) == k
  {
    var cuts := [all[..k], all[k..]];
    assert cuts[..1] == [all[..k]];
    Whole(all[..k]);
    assert all[..k] + all[k..] == all;
  }

  /** Two cuttings of the same bytes that leave different hit records: one
      large write decides a flip past the failure that small writes never
      reach. */
  method HitDependsOnCutting() returns (p: Plan, a: seq<seq<bv8>>, b: seq<seq<bv8>>, hits: (bool, bool))
    ensures Joined(a) == Joined(b) && hits.0 != hits.1
    ensures hits.0 == Hit(p, false, a) && hits.1 == Hit(p, false, b)
  {
    p := Plan(true, true, true, 0, (f, op) => (f == Eio && op == 0) || (f == Flip && op == 1), (f, op) => 0);
    var all: seq<bv8> := seq(2 * BLOCK, _ => 0);
    a, b := [all], [all[..1], all[1..]];
    Whole(all);
    Early(all, 1);
    FailsAtOnce(p, 2 * BLOCK);
    var f := new File([], 0);
    var g := new File([], 0);
    var n, e, h := WriteCuts(p, f, false, a);
    var m, d, k := WriteCuts(p, g, false, b);
    hits := (h, k);
  }

  lemma FailsAtOnce(p: Plan, n: nat)
    requires p.on && p.output && p.offset == 0 && n == 2 * BLOCK
    requires forall f, op :: p.fires(f, op) <==> (f == Eio && op == 0) || (f == Flip && op == 1)
    ensures Accepted(p, n) == 0 && !AnySilent(p, Blocks(1)) && AnySilent(p, Blocks(n))
  {
    assert FirstBlock(p) == 0 && Blocks(1) == 1 && Blocks(n) == 2;
    assert FirstFail(p, 0) == -1 && FirstFail(p, 1) == 0 && FirstFail(p, 2) == 0;
    assert !AnySilent(p, 0) && !AnySilent(p, 1);
    assert Fires(p, Flip, 1);
  }
}
