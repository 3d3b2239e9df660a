/** A compact set of file IDs: a bitset while the IDs are dense, and a sorted
    slice with a sorted buffer of recent additions otherwise. */
module IdSet {
  import opened Bits
  import opened Division

  const SLACK_WORDS: nat := 16
  const MIN_PENDING: nat := 64

  type uint64 = x: int | 0 <= x < 0x1_0000_0000_0000_0000

  ghost predicate Ascending(s: seq<uint64>)
  {
    forall i, j :: 0 <= i < j < |s| ==> s[i] < s[j]
  }

  ghost function Members(s: seq<uint64>): set<uint64>
  {
    set x | x in s
  }

  /** Membership in a bitset of 64-bit words. */
  predicate InWords(words: seq<nat>, id: uint64)
  {
    id / 64 < |words| && Bit(words[id / 64], id % 64)
  }

  function PendingLimit(merged: nat): (n: nat)
    ensures n >= MIN_PENDING
  {
    var root := Pow2(Len(merged) / 2);
    if root > MIN_PENDING then root else MIN_PENDING
  }

  /** The limit is at least sqrt(n / 2), and its minimum or at most sqrt(2n),
      for n merged members. */
  lemma PendingLimitIsRoot(merged: nat)
    ensures var limit := PendingLimit(merged); merged < 2 * (limit * limit)
    ensures var limit := PendingLimit(merged); limit == MIN_PENDING || limit * limit <= 2 * merged
  {
    hide Len, Pow2;
    var h := Len(merged) / 2;
    var root := Pow2(h);
    BelowLen(merged);
    Pow2Adds(h, h);
    if Len(merged) == 2 * h + 1 {
      Pow2Doubles(2 * h);
    }
    assert merged < 2 * (root * root);
    Squares(root, PendingLimit(merged));
    if merged > 0 {
      LenPow(merged);
      if 2 * h < Len(merged) {
        Pow2Grows(2 * h, Len(merged));
      }
    } else {
      NoBits();
    }
  }

  lemma NoBits()
    ensures Pow2(Len(0) / 2) <= MIN_PENDING
  {
  }

  lemma Squares(a: nat, b: nat)
    requires a <= b
    ensures a * a <= b * b
  {
  }

  lemma Pow2Doubles(i: nat)
    ensures Pow2(i + 1) == 2 * Pow2(i)
  {
  }

  lemma {:induction false} BelowLen(x: nat)
    ensures x < Pow2(Len(x))
  {
    if x > 0 {
      BelowLen(x / 2);
    }
  }

  lemma {:induction false} LenPow(x: nat)
    requires x > 0
    ensures Pow2(Len(x)) <= 2 * x
  {
    if x > 1 {
      LenPow(x / 2);
    }
  }

  lemma {:induction false} Pow2Adds(i: nat, j: nat)
    ensures Pow2(i) * Pow2(j) == Pow2(i + j)
  {
    if i > 0 {
      Pow2Adds(i - 1, j);
      Twice(Pow2(i - 1), Pow2(j));
    }
  }

  /** The bitset form: spare capacity is zero, and the span is bounded. */
  ghost predicate Dense(elems: set<uint64>, n: nat, words: seq<nat>, spare: seq<nat>)
  {
    && (forall id: uint64 :: id in elems <==> InWords(words, id))
    && (forall i :: 0 <= i < |words| ==> words[i] < Pow2(64))
    && (forall i :: 0 <= i < |spare| ==> spare[i] == 0)
    && |words| <= n + SLACK_WORDS && |words| <= 0x400_0000_0000_0000
  }

  /** The sparse form. */
  ghost predicate Sparse(elems: set<uint64>, n: nat, ids: seq<uint64>, pend: seq<uint64>)
  {
    && Ascending(ids) && Ascending(pend)
    && (forall id :: id in ids ==> id !in pend)
    && (forall id :: id in elems <==> id in ids || id in pend)
    && n == |ids| + |pend|
  }

  lemma {:induction false} CountAscending(s: seq<uint64>, elems: set<uint64>)
    requires Ascending(s) && forall id :: id in elems <==> id in s
    ensures |elems| == |s|
  {
    if s == [] {
      assert elems == {};
    } else {
      var last := s[|s| - 1];
      var rest := s[..|s| - 1];
      assert s == rest + [last];
      forall id ensures id in elems - {last} <==> id in rest {
      }
      CountAscending(rest, elems - {last});
    }
  }

  /** The first index whose element is at least target, and whether it is
      target. */
  method BinarySearch(s: seq<uint64>, target: uint64) returns (i: nat, found: bool)
    requires Ascending(s)
    ensures i <= |s| && (forall k :: 0 <= k < i ==> s[k] < target) && (forall k :: i <= k < |s| ==> s[k] >= target)
    ensures found <==> target in s
    ensures found <==> i < |s| && s[i] == target
  {
    i := 0;
    var j := |s|;
    while i < j
      invariant i <= j <= |s|
      invariant forall k :: 0 <= k < i ==> s[k] < target
      invariant forall k :: j <= k < |s| ==> s[k] >= target
    {
      var h := (i + j) / 2;
      if s[h] < target {
        i := h + 1;
      } else {
        j := h;
      }
    }
    found := i < |s| && s[i] == target;
  }

  lemma InsertAscending(s: seq<uint64>, i: nat, id: uint64)
    requires Ascending(s) && i <= |s| && id !in s
    requires (forall k :: 0 <= k < i ==> s[k] < id) && (forall k :: i <= k < |s| ==> s[k] >= id)
    ensures Ascending(s[..i] + [id] + s[i..])
  {
    var t := s[..i] + [id] + s[i..];
    forall a, b | 0 <= a < b < |t| ensures t[a] < t[b] {
      assert t[a] == if a < i then s[a] else if a == i then id else s[a - 1];
      assert t[b] == if b < i then s[b] else if b == i then id else s[b - 1];
      assert b > i ==> s[b - 1] in s;
    }
  }

  lemma InsertMembers(s: seq<uint64>, i: nat, id: uint64, x: uint64)
    requires i <= |s|
    ensures x in s[..i] + [id] + s[i..] <==> x == id || x in s
  {
    assert s == s[..i] + s[i..];
  }

  /** Setting one bit adds one member. */
  lemma SetBit(words: seq<nat>, id: uint64, x: uint64)
    requires id / 64 < |words|
    ensures var after := words[id / 64 := Or(words[id / 64], Pow2(id % 64))];
            InWords(after, x) <==> x == id || InWords(words, x)
  {
    MaskSets(words[id / 64], id % 64, x % 64);
  }

  lemma SetBitWidth(words: seq<nat>, id: uint64)
    requires id / 64 < |words| && forall i :: 0 <= i < |words| ==> words[i] < Pow2(64)
    ensures Or(words[id / 64], Pow2(id % 64)) < Pow2(64)
  {
    Pow2Grows(id % 64, 64);
    OrWidth(words[id / 64], Pow2(id % 64), 64);
  }

  /** Zero words hold nothing. */
  lemma ZeroWords(words: seq<nat>, zeros: nat, x: uint64)
    ensures InWords(words + seq(zeros, _ => 0), x) <==> InWords(words, x)
  {
    ZeroBits(x % 64);
  }

  /** What is left of a word while its bits are taken from the lowest up. */
  ghost predicate Upper(w: nat, word: nat)
  {
    && (forall j: nat :: Bit(w, j) ==> Bit(word, j))
    && (forall j: nat, k: nat :: Bit(word, j) && !Bit(w, j) && Bit(w, k) ==> j < k)
  }

  lemma UpperStep(w: nat, word: nat)
    requires w > 0 && word < Pow2(64) && Upper(w, word)
    ensures var t, next := TrailingZeros(w), And(w, w - 1);
            && next < w && Upper(next, word) && t < 64 && Bit(word, t)
            && (forall j: nat :: Bit(next, j) <==> Bit(w, j) && j != t)
            && (forall j: nat :: Bit(word, j) && !Bit(w, j) ==> j < t)
  {
    var t, next := TrailingZeros(w), And(w, w - 1);
    LowestBit(w);
    BitWidth(word, 64, t);
    forall j: nat ensures Bit(next, j) <==> Bit(w, j) && j != t {
      ClearsLowest(w, j);
    }
    ClearsLowest(w, 0);
    forall j: nat, k: nat | Bit(word, j) && !Bit(next, j) && Bit(next, k) ensures j < k {
      assert Bit(w, k) && k != t;
    }
  }

  /** The members of a bitset, in ascending order. */
  method WordMembers(words: seq<nat>) returns (out: seq<uint64>)
    requires |words| <= 0x400_0000_0000_0000 && forall i :: 0 <= i < |words| ==> words[i] < Pow2(64)
    ensures Ascending(out)
    ensures forall x: uint64 :: x in out <==> InWords(words, x)
  {
    hide Bit, Pow2, And, TrailingZeros;
    out := [];
    for wi := 0 to |words|
      invariant Ascending(out)
      invariant forall x: uint64 :: x in out <==> InWords(words, x) && x / 64 < wi
    {
      var w := words[wi];
      while w != 0
        invariant Upper(w, words[wi]) && Ascending(out)
        invariant forall x: uint64 :: x in out <==> InWords(words, x) && (x / 64 < wi || (x / 64 == wi && !Bit(w, x % 64)))
        decreases w
      {
        UpperStep(w, words[wi]);
        var t := TrailingZeros(w);
        var id: uint64 := wi * 64 + t;
        assert id / 64 == wi && id % 64 == t;
        Snoc(out, id);
        out := out + [id];
        w := And(w, w - 1);
      }
      forall j: nat ensures !Bit(0, j) {
        ZeroBits(j);
      }
    }
  }

  lemma Snoc(s: seq<uint64>, id: uint64)
    requires Ascending(s) && forall x :: x in s ==> x < id
    ensures Ascending(s + [id]) && forall x :: x in s + [id] <==> x in s || x == id
  {
    assert forall k :: 0 <= k < |s| ==> s[k] in s;
  }

  /** The merged back of two slices, once c of ids and d of pend are left. */
  ghost predicate Back(ids: seq<uint64>, c: nat, pend: seq<uint64>, d: nat, done: seq<uint64>)
  {
    && c <= |ids| && d <= |pend| && |done| == |ids| - c + |pend| - d && Ascending(done)
    && (forall x :: x in done <==> x in ids[c..] || x in pend[d..])
    && (forall x :: x in done ==> (c > 0 ==> ids[c - 1] < x) && (d > 0 ==> pend[d - 1] < x))
  }

  lemma BackIds(ids: seq<uint64>, c: nat, pend: seq<uint64>, d: nat, done: seq<uint64>)
    requires Ascending(ids) && Back(ids, c, pend, d, done) && 0 < c && 0 < d && ids[c - 1] > pend[d - 1]
    ensures Back(ids, c - 1, pend, d, [ids[c - 1]] + done)
  {
    assert ids[c - 1..] == [ids[c - 1]] + ids[c..];
    Front(ids[c - 1], done);
  }

  lemma BackPend(ids: seq<uint64>, c: nat, pend: seq<uint64>, d: nat, done: seq<uint64>)
    requires Ascending(pend) && Back(ids, c, pend, d, done) && 0 < d && (c == 0 || ids[c - 1] < pend[d - 1])
    ensures Back(ids, c, pend, d - 1, [pend[d - 1]] + done)
  {
    assert pend[d - 1..] == [pend[d - 1]] + pend[d..];
    Front(pend[d - 1], done);
  }

  lemma BackDone(ids: seq<uint64>, c: nat, pend: seq<uint64>, done: seq<uint64>)
    requires Ascending(ids) && Back(ids, c, pend, 0, done)
    ensures Ascending(ids[..c] + done) && forall x :: x in ids[..c] + done <==> x in ids || x in pend
  {
    Joined(ids, c, done);
    assert pend[0..] == pend;
  }

  /** Two disjoint sorted slices merged within one array, largest first. */
  method MergeBack(ids: seq<uint64>, pend: seq<uint64>) returns (r: seq<uint64>)
    requires Ascending(ids) && Ascending(pend) && forall id :: id in ids ==> id !in pend
    ensures |r| == |ids| + |pend| && Ascending(r)
    ensures forall x :: x in r <==> x in ids || x in pend
  {
    hide Back, Ascending;
    var a := new uint64[|ids| + |pend|](k => if 0 <= k < |ids| then ids[k] else 0);
    var i, j := |ids| - 1, |pend| - 1;
    var k := a.Length - 1;
    ghost var done: seq<uint64> := [];
    BackStart(ids, pend);
    while j >= 0
      invariant -1 <= i < |ids| && -1 <= j < |pend| && k == i + j + 1
      invariant forall m :: 0 <= m <= i ==> a[m] == ids[m]
      invariant |done| == a.Length - 1 - k && forall m :: k < m < a.Length ==> a[m] == done[m - k - 1]
      invariant Back(ids, i + 1, pend, j + 1, done)
      decreases k
    {
      if i >= 0 && a[i] > pend[j] {
        BackIds(ids, i + 1, pend, j + 1, done);
        done := [ids[i]] + done;
        a[k] := a[i];
        i := i - 1;
      } else {
        assert i >= 0 ==> ids[i] in ids && pend[j] in pend;
        BackPend(ids, i + 1, pend, j + 1, done);
        done := [pend[j]] + done;
        a[k] := pend[j];
        j := j - 1;
      }
      k := k - 1;
    }
    r := a[..];
    BackDone(ids, i + 1, pend, done);
    assert r == ids[..i + 1] + done;
  }

  lemma BackStart(ids: seq<uint64>, pend: seq<uint64>)
    ensures Back(ids, |ids|, pend, |pend|, [])
  {
  }

  lemma Front(id: uint64, s: seq<uint64>)
    requires Ascending(s) && forall x :: x in s ==> id < x
    ensures Ascending([id] + s) && forall x :: x in [id] + s <==> x == id || x in s
  {
    assert forall k :: 0 <= k < |s| ==> s[k] in s;
  }

  /** A prefix of an ascending sequence before larger elements. */
  lemma Joined(ids: seq<uint64>, n: nat, s: seq<uint64>)
    requires Ascending(ids) && Ascending(s) && n <= |ids|
    requires forall x :: x in s ==> n > 0 ==> ids[n - 1] < x
    ensures Ascending(ids[..n] + s)
    ensures forall x :: x in ids <==> x in ids[..n] || x in ids[n..]
  {
    assert forall k :: 0 <= k < |s| ==> s[k] in s;
    assert forall k :: 0 <= k < n ==> ids[k] <= ids[n - 1];
    assert ids == ids[..n] + ids[n..];
  }

  /** The members of two disjoint ascending slices, in ascending order. */
  method MergeAll(s: seq<uint64>, t: seq<uint64>) returns (out: seq<uint64>)
    requires Ascending(s) && Ascending(t) && forall id :: id in s ==> id !in t
    ensures Ascending(out) && forall x :: x in out <==> x in s || x in t
  {
    var ids, pend := s, t;
    out := [];
    while |ids| > 0 || |pend| > 0
      invariant Ascending(ids) && Ascending(pend) && Ascending(out)
      invariant forall x :: x in s || x in t <==> x in out || x in ids || x in pend
      invariant forall x :: x in ids ==> x !in pend
      invariant forall x, y :: x in out && (y in ids || y in pend) ==> x < y
      decreases |ids| + |pend|
    {
      var id;
      if |pend| == 0 || (|ids| > 0 && ids[0] < pend[0]) {
        id := ids[0];
        Uncons(ids);
        ids := ids[1..];
      } else {
        id := pend[0];
        Uncons(pend);
        assert |ids| > 0 ==> ids[0] in ids && pend[0] in pend;
        pend := pend[1..];
      }
      LowerThan(id, ids);
      LowerThan(id, pend);
      Snoc(out, id);
      out := out + [id];
    }
  }

  lemma Uncons(s: seq<uint64>)
    requires s != [] && Ascending(s)
    ensures Ascending(s[1..]) && s[0] in s
    ensures forall x :: x in s <==> x == s[0] || x in s[1..]
    ensures forall x :: x in s[1..] ==> s[0] < x
  {
  }

  lemma LowerThan(id: uint64, s: seq<uint64>)
    requires Ascending(s) && (s != [] ==> id < s[0])
    ensures forall x :: x in s ==> id < x
  {
  }

  /** The union of two ascending slices. */
  method MergeUnion(ids: seq<uint64>, rest: seq<uint64>) returns (merged: seq<uint64>)
    requires Ascending(ids) && Ascending(rest)
    ensures Ascending(merged) && forall x :: x in merged <==> x in ids || x in rest
  {
    merged := [];
    var x, y := 0, 0;
    while x < |ids| || y < |rest|
      invariant 0 <= x <= |ids| && 0 <= y <= |rest| && Ascending(merged)
      invariant forall v :: v in merged <==> v in ids[..x] || v in rest[..y]
      invariant forall v :: v in merged ==> (x < |ids| ==> v < ids[x]) && (y < |rest| ==> v < rest[y])
      decreases |ids| - x + |rest| - y
    {
      assert x < |ids| ==> ids[..x + 1] == ids[..x] + [ids[x]];
      assert y < |rest| ==> rest[..y + 1] == rest[..y] + [rest[y]];
      if y == |rest| || (x < |ids| && ids[x] < rest[y]) {
        Snoc(merged, ids[x]);
        merged := merged + [ids[x]];
        x := x + 1;
      } else if x == |ids| || rest[y] < ids[x] {
        Snoc(merged, rest[y]);
        merged := merged + [rest[y]];
        y := y + 1;
      } else {
        Snoc(merged, ids[x]);
        merged := merged + [ids[x]];
        x := x + 1;
        y := y + 1;
      }
    }
    assert ids[..|ids|] == ids && rest[..|rest|] == rest;
  }

  class Set {
    var n: nat
    var sparse: bool
    var words: seq<nat>
    var spare: seq<nat> // the bitset's unused capacity
    var ids: seq<uint64>
    var pend: seq<uint64>
    ghost var elems: set<uint64>

    ghost predicate Sound()
      reads this
    {
      && n == |elems|
      && (sparse ==> words == [] && spare == [] && Sparse(elems, n, ids, pend))
      && (!sparse ==> ids == [] && pend == [] && Dense(elems, n, words, spare))
    }

    ghost predicate Valid()
      reads this
    {
      Sound() && |pend| <= PendingLimit(|ids|)
    }

    constructor ()
      ensures Valid() && elems == {} && !sparse
    {
      n, sparse, words, spare, ids, pend := 0, false, [], [], [], [];
      elems := {};
    }

    method Has(id: uint64) returns (b: bool)
      requires Sound()
      ensures b <==> id in elems
    {
      if !sparse {
        var w := id / 64;
        if w < |words| {
          MaskTests(words[w], id % 64);
        }
        return w < |words| && And(words[w], Pow2(id % 64)) != 0;
      }
      var _, found := BinarySearch(ids, id);
      if found {
        return true;
      }
      var _, waiting := BinarySearch(pend, id);
      return waiting;
    }

    method Add(id: uint64) returns (isNew: bool)
      requires Valid()
      modifies this
      ensures Valid() && elems == old(elems) + {id} && (isNew <==> id !in old(elems))
    {
      hide Bit, Pow2, Or, And, Sparse;
      if !sparse {
        var w := id / 64;
        if w >= |words| {
          if w + 1 > n + 1 + SLACK_WORDS {
            ToSparse();
            isNew := AddSparse(id);
            return;
          }
          GrowWords(w + 1);
        }
        isNew := SetWord(id);
        return;
      }
      isNew := AddSparse(id);
    }

    /** Sets id's bit and reports whether it was clear. */
    method SetWord(id: uint64) returns (isNew: bool)
      requires !sparse && id / 64 < |words| && |words| <= n + 1 + SLACK_WORDS
      requires n == |elems| && ids == [] && pend == []
      requires |words| <= n + SLACK_WORDS || id !in elems
      requires Dense(elems, n + 1, words, spare)
      modifies this
      ensures Valid() && elems == old(elems) + {id} && (isNew <==> id !in old(elems))
    {
      hide Bit, Pow2, Or, And, Sparse;
      var w, bit := id / 64, Pow2(id % 64);
      MaskTests(words[w], id % 64);
      if And(words[w], bit) != 0 {
        assert elems == elems + {id};
        return false;
      }
      forall x: uint64 ensures InWords(words[w := Or(words[w], bit)], x) <==> x == id || InWords(words, x) {
        SetBit(words, id, x);
      }
      SetBitWidth(words, id);
      words := words[w := Or(words[w], bit)];
      n := n + 1;
      elems := elems + {id};
      return true;
    }

    method AddSparse(id: uint64) returns (isNew: bool)
      requires Valid() && sparse
      modifies this
      ensures Valid() && elems == old(elems) + {id} && (isNew <==> id !in old(elems))
    {
      hide Dense, Sparse, PendingLimit;
      var has := Has(id);
      if has {
        assert elems == elems + {id};
        return false;
      }
      SortedPend(elems, n, ids, pend);
      var i, _ := BinarySearch(pend, id);
      SparseInsert(elems, n, ids, pend, i, id);
      pend := pend[..i] + [id] + pend[i..];
      n := n + 1;
      elems := elems + {id};
      if |pend| > PendingLimit(|ids|) {
        Flush();
      }
      return true;
    }

    /** Extends the bitset to m words, using spare capacity when it can. */
    method GrowWords(m: nat)
      requires Sound() && !sparse && |words| <= m <= 0x400_0000_0000_0000
      modifies this`words, this`spare
      ensures |words| == m && old(words) <= words
      ensures (forall id: uint64 :: id in elems <==> InWords(words, id))
      ensures (forall i :: 0 <= i < |words| ==> words[i] < Pow2(64))
      ensures (forall i :: 0 <= i < |spare| ==> spare[i] == 0)
    {
      hide Bit, Pow2;
      var k := m - |words|;
      forall x: uint64 ensures InWords(words + seq(k, _ => 0), x) <==> InWords(words, x) {
        ZeroWords(words, k, x);
      }
      if m <= |words| + |spare| {
        assert spare[..k] == seq(k, _ => 0);
        words, spare := words + spare[..k], spare[k..];
        return;
      }
      words, spare := words + seq(k, _ => 0), seq(m / 4, _ => 0);
    }

    method ToSparse()
      requires Valid() && !sparse
      modifies this
      ensures Valid() && sparse && elems == old(elems)
    {
      hide Bit, Pow2;
      var list := All();
      words, spare, ids, pend, sparse := [], [], list, [], true;
    }

    method MergePending()
      requires Sound() && sparse
      modifies this`ids, this`pend
      ensures Valid() && pend == []
    {
      hide Dense;
      if |pend| == 0 {
        return;
      }
      ids := MergeBack(ids, pend);
      pend := [];
    }

    method Flush()
      requires Sound() && sparse
      modifies this
      ensures Valid() && elems == old(elems)
    {
      MergePending();
      MaybeDense();
    }

    /** Converts to the bitset exactly when the span is short enough. */
    method MaybeDense()
      requires Valid() && sparse && pend == []
      modifies this
      ensures Valid() && elems == old(elems) && n == old(n)
      ensures sparse <==> old(ids) == [] || old(ids)[|old(ids)| - 1] / 64 >= n / 2
    {
      hide Bit, Pow2, Or;
      if |ids| == 0 || ids[|ids| - 1] / 64 >= n / 2 {
        return;
      }
      var last := ids[|ids| - 1];
      var w := Words(ids, last / 64 + 1);
      words, spare, ids, pend, sparse := w, [], [], [], false;
    }

    /** The members in ascending order. */
    method All() returns (list: seq<uint64>)
      requires Sound()
      ensures Ascending(list) && |list| == n && forall id :: id in list <==> id in elems
    {
      hide Bit, Pow2;
      if sparse {
        list := MergeAll(ids, pend);
      } else {
        list := WordMembers(words);
      }
      CountAscending(list, elems);
    }

    method Clone() returns (c: Set)
      requires Valid()
      ensures fresh(c) && c.Valid() && c.elems == elems
      ensures c.n == n && c.sparse == sparse && c.words == words && c.ids == ids && c.pend == pend
    {
      hide Sparse, Dense;
      c := new Set();
      c.n, c.sparse, c.words, c.spare, c.ids, c.pend := n, sparse, words, [], ids, pend;
      c.elems := elems;
      NoSpare(elems, n, words, spare);
    }

    /** Adds every member of o. */
    method Union(o: Set?)
      requires Valid() && (o != null ==> o.Valid())
      modifies this
      ensures Valid()
      ensures elems == if o == null then old(elems) else old(elems) + old(o.elems)
    {
      hide Sparse, Dense;
      if o == this || o == null || o.n == 0 {
        return;
      }
      ghost var before := elems;
      var rest: seq<uint64>;
      if o.sparse && |o.pend| == 0 {
        var list := o.Listed();
        rest := AddSome(list);
        if |rest| == 0 {
          Gathered(before, elems, list, rest, o.elems);
          return;
        }
        Gathered(before, elems, list, rest, o.elems);
      } else {
        var list := o.All();
        rest := AddSome(list);
        Gathered(before, elems, list, rest, o.elems);
        if |rest| == 0 {
          return;
        }
      }
      MergeRest(rest);
    }

    /** A merged sparse set's own slice is its members in order. */
    method Listed() returns (list: seq<uint64>)
      requires Valid() && sparse && pend == []
      ensures Ascending(list) && |list| == n && forall id :: id in list <==> id in elems
    {
      list := ids;
    }

    /** Adds members one by one until the set is sparse and the rest would not
        fit its pending buffer; returns the rest. */
    method AddSome(list: seq<uint64>) returns (rest: seq<uint64>)
      requires Valid() && Ascending(list)
      modifies this
      ensures Valid() && |rest| <= |list| && rest == list[|list| - |rest|..]
      ensures elems == old(elems) + Members(list[..|list| - |rest|])
      ensures rest != [] ==> sparse && |rest| > PendingLimit(|ids|)
    {
      hide Sparse, Dense, Members, Ascending, PendingLimit;
      var i := 0;
      MembersSnoc(elems, [], 0);
      while i < |list|
        invariant i <= |list| && Valid() && elems == old(elems) + Members(list[..i])
      {
        if sparse && |list| - i > PendingLimit(|ids|) {
          break;
        }
        var _ := Add(list[i]);
        assert list[..i + 1] == list[..i] + [list[i]];
        MembersSnoc(old(elems), list[..i], list[i]);
        i := i + 1;
      }
      rest := list[i..];
    }

    /** One linear merge of an ascending list into a sparse set. */
    method MergeRest(rest: seq<uint64>)
      requires Valid() && sparse && Ascending(rest)
      modifies this
      ensures Valid() && elems == old(elems) + Members(rest)
    {
      hide Dense, Sparse, PendingLimit, Members, Ascending;
      MergePending();
      SortedPend(elems, n, ids, pend);
      var merged := MergeUnion(ids, rest);
      SparseUnion(elems, n, ids, rest, merged);
      Replace(merged, elems + Members(rest));
    }

    /** Makes a merged slice the set's contents. */
    method Replace(merged: seq<uint64>, ghost e: set<uint64>)
      requires sparse && words == [] && spare == [] && pend == [] && Sparse(e, |merged|, merged, []) && |merged| == |e|
      modifies this
      ensures Valid() && elems == e
    {
      hide Dense, Sparse, PendingLimit;
      elems := e;
      ids, n := merged, |merged|;
      MaybeDense();
    }
  }

  lemma SortedPend(elems: set<uint64>, n: nat, ids: seq<uint64>, pend: seq<uint64>)
    requires Sparse(elems, n, ids, pend)
    ensures Ascending(ids) && Ascending(pend)
  {
  }

  lemma SparseInsert(elems: set<uint64>, n: nat, ids: seq<uint64>, pend: seq<uint64>, i: nat, id: uint64)
    requires Sparse(elems, n, ids, pend) && id !in elems && i <= |pend|
    requires (forall k :: 0 <= k < i ==> pend[k] < id) && (forall k :: i <= k < |pend| ==> pend[k] >= id)
    ensures Sparse(elems + {id}, n + 1, ids, pend[..i] + [id] + pend[i..])
  {
    hide Ascending;
    InsertAscending(pend, i, id);
    forall x ensures x in pend[..i] + [id] + pend[i..] <==> x == id || x in pend {
      InsertMembers(pend, i, id, x);
    }
  }

  lemma SparseUnion(elems: set<uint64>, n: nat, ids: seq<uint64>, rest: seq<uint64>, merged: seq<uint64>)
    requires Sparse(elems, n, ids, []) && Ascending(merged) && forall x :: x in merged <==> x in ids || x in rest
    ensures Sparse(elems + Members(rest), |merged|, merged, []) && |merged| == |elems + Members(rest)|
  {
    CountAscending(merged, elems + Members(rest));
  }

  /** The bitset of an ascending list. */
  method Words(ids: seq<uint64>, m: nat) returns (words: seq<nat>)
    requires forall i :: 0 <= i < |ids| ==> ids[i] / 64 < m
    ensures |words| == m && forall x: uint64 :: x in ids <==> InWords(words, x)
    ensures forall i :: 0 <= i < |words| ==> words[i] < Pow2(64)
  {
    hide Bit, Pow2, Or, InWords;
    words := seq(m, _ => 0);
    forall x: uint64 ensures !InWords(words, x) {
      NoMember(words, x);
    }
    for i := 0 to |ids|
      invariant |words| == m && forall x: uint64 :: x in ids[..i] <==> InWords(words, x)
      invariant forall i :: 0 <= i < |words| ==> words[i] < Pow2(64)
    {
      var id := ids[i];
      assert ids[..i + 1] == ids[..i] + [id];
      var after := words[id / 64 := Or(words[id / 64], Pow2(id % 64))];
      forall x: uint64 ensures x in ids[..i + 1] <==> InWords(after, x) {
        SetBit(words, id, x);
        assert x in ids[..i] + [id] <==> x in ids[..i] || x == id;
      }
      SetBitWidth(words, id);
      words := after;
    }
    assert ids[..|ids|] == ids;
  }

  lemma NoMember(words: seq<nat>, x: uint64)
    requires forall i :: 0 <= i < |words| ==> words[i] == 0
    ensures !InWords(words, x)
  {
    ZeroBits(x % 64);
  }

  lemma MembersSnoc(a: set<uint64>, s: seq<uint64>, x: uint64)
    ensures a + Members(s) + {x} == a + Members(s + [x]) && a + Members([]) == a
  {
  }

  lemma NoSpare(elems: set<uint64>, n: nat, words: seq<nat>, spare: seq<nat>)
    ensures Dense(elems, n, words, spare) ==> Dense(elems, n, words, [])
  {
  }

  /** Members added and members left are all of the list. */
  lemma Gathered(before: set<uint64>, now: set<uint64>, list: seq<uint64>, rest: seq<uint64>, other: set<uint64>)
    requires |rest| <= |list| && rest == list[|list| - |rest|..] && Ascending(list)
    requires now == before + Members(list[..|list| - |rest|])
    requires forall x :: x in list <==> x in other
    ensures Ascending(rest) && now + Members(rest) == before + other
    ensures rest == [] ==> now == before + other
  {
    var k := |list| - |rest|;
    assert list == list[..k] + list[k..];
    assert forall x :: x in list <==> x in list[..k] || x in rest;
  }

  /** What callers do with a family of sets, the first of them empty. */
  datatype Op = AddOp(k: nat, id: uint64) | UnionOp(k: nat, j: nat) | CloneOp(k: nat)

  /** The same on plain sets. Operations on sets that do not exist do nothing. */
  ghost function Step(m: seq<set<uint64>>, op: Op): seq<set<uint64>>
  {
    if op.k >= |m| || (op.UnionOp? && op.j >= |m|) then m
    else
      match op
      case AddOp(k, id) => m[k := m[k] + {id}]
      case UnionOp(k, j) => m[k := m[k] + m[j]]
      case CloneOp(k) => m + [m[k]]
  }

  ghost function Model(script: seq<Op>): seq<set<uint64>>
  {
    if script == [] then [{}] else Step(Model(script[..|script| - 1]), script[|script| - 1])
  }

  lemma ModelStep(script: seq<Op>, i: nat)
    requires i < |script|
    ensures Model(script[..i + 1]) == Step(Model(script[..i]), script[i])
  {
    assert script[..i + 1][..i] == script[..i];
  }

  /** Every run of the operations agrees with plain sets. */
  method Run(script: seq<Op>) returns (sets: seq<Set>)
    ensures |sets| == |Model(script)|
    ensures forall i :: 0 <= i < |sets| ==> sets[i].Valid() && sets[i].elems == Model(script)[i]
  {
    hide Set.Valid, Model;
    var first := new Set();
    sets := [first];
    ghost var m: seq<set<uint64>> := [{}];
    EmptyModel(script);
    for i := 0 to |script|
      invariant m == Model(script[..i]) && |sets| == |m|
      invariant forall k :: 0 <= k < |sets| ==> fresh(sets[k]) && sets[k].Valid() && sets[k].elems == m[k]
      invariant forall k, j :: 0 <= k < j < |sets| ==> sets[k] != sets[j]
    {
      var op := script[i];
      ModelStep(script, i);
      if op.k < |sets| && (op.UnionOp? ==> op.j < |sets|) {
        match op
        case AddOp(k, id) => var _ := sets[k].Add(id);
        case UnionOp(k, j) => sets[k].Union(sets[j]);
        case CloneOp(k) =>
          var c := sets[k].Clone();
          sets := sets + [c];
      }
      m := Step(m, op);
    }
    assert script[..|script|] == script;
  }

  lemma EmptyModel(script: seq<Op>)
    ensures Model(script[..0]) == [{}]
  {
  }
}
