/** The greedy cut of manifest entries into batches bounded by bytes. */
module Batching {
  import opened Sequences

  const DEFAULT_MAX_BYTES: int := 67108864

  datatype Entry = Entry(id: nat, size: int)

  function Weight(e: Entry): nat
  {
    if e.size < 0 then 0 else e.size
  }

  function Total(b: seq<Entry>): (n: nat)
  {
    if b == [] then 0 else Weight(b[0]) + Total(b[1..])
  }

  /** Every batch is one entry or within the limit. */
  ghost predicate Allowed(bs: seq<seq<Entry>>, limit: int)
  {
    forall i :: 0 <= i < |bs| ==> |bs[i]| == 1 || Total(bs[i]) <= limit
  }

  /** No batch is empty, and none could have taken the next entry. */
  ghost predicate Greedy(bs: seq<seq<Entry>>, limit: int)
  {
    && (forall i :: 0 <= i < |bs| ==> bs[i] != [])
    && (forall i :: 0 <= i < |bs| - 1 ==> Total(bs[i]) + Weight(bs[i + 1][0]) > limit)
  }

  /** No cut of the entries that keeps to the rule has fewer batches. */
  ghost predicate Optimal(bs: seq<seq<Entry>>, entries: seq<Entry>, limit: int)
  {
    forall other: seq<seq<Entry>> :: Concat(other) == entries && Allowed(other, limit) ==> |bs| <= |other|
  }

  lemma {:induction false} TotalAppend(a: seq<Entry>, b: seq<Entry>)
    ensures Total(a + b) == Total(a) + Total(b)
  {
    if a == [] {
      assert a + b == b;
    } else {
      assert (a + b)[1..] == a[1..] + b;
      TotalAppend(a[1..], b);
    }
  }

  /** Every entry once, in order; each batch within the rule; and as few
      batches as any such cut has. */
  method BuildBatches(entries: seq<Entry>, maxBytes: int) returns (batches: seq<seq<Entry>>)
    ensures Concat(batches) == entries
    ensures maxBytes > 0 ==> Allowed(batches, maxBytes) && Greedy(batches, maxBytes) && Optimal(batches, entries, maxBytes)
    ensures maxBytes <= 0 ==>
              var limit := 64 * 1024 * 1024;
              Allowed(batches, limit) && Greedy(batches, limit) && Optimal(batches, entries, limit)
  {
    hide Midway, Allowed, Greedy, Optimal, Concat, Weight;
    batches := [];
    var limit := if maxBytes <= 0 then DEFAULT_MAX_BYTES else maxBytes;
    var current: seq<Entry>, currentBytes := [], 0;
    Begins(limit);
    if |entries| == 0 {
      Ends(batches, current, currentBytes, limit, entries);
      return;
    }
    for i := 0 to |entries|
      invariant Midway(batches, current, currentBytes, limit, entries[..i])
    {
      var size := if 0 > entries[i].size then 0 else entries[i].size;
      assert entries[..i + 1] == entries[..i] + [entries[i]];
      WeightIs(entries[i]);
      OneMore(batches, current, currentBytes, limit, entries[..i], entries[i]);
      if |current| > 0 && currentBytes + size > limit {
        batches := batches + [current];
        current, currentBytes := [], 0;
      }
      current := current + [entries[i]];
      currentBytes := currentBytes + size;
    }
    assert entries[..|entries|] == entries;
    Ends(batches, current, currentBytes, limit, entries);
    if |current| > 0 {
      batches := batches + [current];
    }
  }

  /** After the entries in `done`: the batches closed so far and the one being
      filled. */
  ghost predicate Midway(batches: seq<seq<Entry>>, current: seq<Entry>, bytes: int, limit: int, done: seq<Entry>)
  {
    && bytes == Total(current) && Concat(batches) + current == done && (current == [] ==> done == [] && batches == [])
    && (|current| > 1 ==> bytes <= limit) && Allowed(batches, limit) && Greedy(batches, limit)
    && (batches != [] ==> current != [] && batches[|batches| - 1] != [] && Total(batches[|batches| - 1]) + Weight(current[0]) > limit)
  }

  lemma Begins(limit: int)
    ensures Midway([], [], 0, limit, [])
  {
  }

  lemma OneMore(batches: seq<seq<Entry>>, current: seq<Entry>, bytes: int, limit: int, done: seq<Entry>, e: Entry)
    requires Midway(batches, current, bytes, limit, done)
    ensures if current != [] && bytes + Weight(e) > limit then Midway(batches + [current], [] + [e], Weight(e), limit, done + [e])
            else Midway(batches, current + [e], bytes + Weight(e), limit, done + [e])
  {
    hide Total, Concat, Allowed, Greedy, Weight;
    Single(current);
    Single([e]);
    assert [] + [e] == [e];
    if current != [] && bytes + Weight(e) > limit {
      Close(batches, current, limit);
    } else {
      TotalAppend(current, [e]);
      assert Concat(batches) + (current + [e]) == Concat(batches) + current + [e];
    }
  }

  lemma Ends(batches: seq<seq<Entry>>, current: seq<Entry>, bytes: int, limit: int, entries: seq<Entry>)
    requires Midway(batches, current, bytes, limit, entries)
    ensures var all := if current == [] then batches else batches + [current];
            Concat(all) == entries && Allowed(all, limit) && Greedy(all, limit) && Optimal(all, entries, limit)
  {
    hide Total, Concat, Allowed, Greedy, Optimal, Weight;
    Single(current);
    if current == [] {
      Fewest(batches, limit);
    } else {
      Close(batches, current, limit);
      Fewest(batches + [current], limit);
    }
  }

  lemma WeightIs(e: Entry)
    ensures Weight(e) == if 0 > e.size then 0 else e.size
  {
  }

  /** Ending a batch that the next entry would take over the limit. */
  lemma Close(bs: seq<seq<Entry>>, b: seq<Entry>, limit: int)
    requires Allowed(bs, limit) && Greedy(bs, limit) && b != [] && (|b| == 1 || Total(b) <= limit)
    requires bs != [] ==> Total(bs[|bs| - 1]) + Weight(b[0]) > limit
    ensures Allowed(bs + [b], limit) && Greedy(bs + [b], limit) && Concat(bs + [b]) == Concat(bs) + b
  {
    ConcatAppend(bs, [b]);
    Single(b);
  }

  lemma Fewest(gs: seq<seq<Entry>>, limit: int)
    requires Greedy(gs, limit)
    ensures Optimal(gs, Concat(gs), limit)
  {
    forall ps: seq<seq<Entry>> | Concat(ps) == Concat(gs) && Allowed(ps, limit) ensures |gs| <= |ps| {
      StaysAhead(gs, ps, limit, 0);
    }
  }

  lemma Single(b: seq<Entry>)
    ensures Concat([b]) == b && Concat<Entry>([]) == [] && Total([]) == 0
    ensures |b| == 1 ==> Total(b) == Weight(b[0])
  {
  }

  /** A greedy cut of what is left after d entries needs no more batches than
      any cut of them all. */
  lemma {:induction false} StaysAhead(gs: seq<seq<Entry>>, ps: seq<seq<Entry>>, limit: int, d: nat)
    requires Greedy(gs, limit) && Allowed(ps, limit)
    requires d <= |Concat(ps)| && Concat(gs) == Concat(ps)[d..]
    ensures |gs| <= |ps|
    decreases |ps|
  {
    if gs != [] {
      NonEmpty(gs);
      var p := ps[0];
      assert Concat(ps) == p + Concat(ps[1..]);
      if |p| <= d {
        assert Concat(ps)[d..] == Concat(ps[1..])[d - |p|..];
        StaysAhead(gs, ps[1..], limit, d - |p|);
      } else {
        FirstReaches(gs, ps, limit, d);
        var g := |gs[0]|;
        assert Concat(gs)[g..] == Concat(gs[1..]);
        assert Concat(ps)[d..][g..] == Concat(ps)[d + g..] == Concat(ps[1..])[d + g - |p|..];
        StaysAhead(gs[1..], ps[1..], limit, d + g - |p|);
      }
    }
  }

  lemma NonEmpty(gs: seq<seq<Entry>>)
    requires gs != [] && gs[0] != []
    ensures Concat(gs) != []
  {
  }

  /** The first greedy batch reaches at least the end of the other's. */
  lemma FirstReaches(gs: seq<seq<Entry>>, ps: seq<seq<Entry>>, limit: int, d: nat)
    requires gs != [] && ps != [] && Greedy(gs, limit) && Allowed(ps, limit)
    requires d < |ps[0]| && Concat(gs) == (ps[0] + Concat(ps[1..]))[d..]
    ensures d + |gs[0]| >= |ps[0]|
  {
    hide Concat, Total;
    var p, g := ps[0], |gs[0]|;
    if |gs| == 1 {
      assert gs == [gs[0]];
      Single(gs[0]);
    } else if d + g < |p| {
      FrontOf(gs);
      SliceOf(p, Concat(ps[1..]), d, g + 1);
      Within(p, d, d + g + 1);
      TotalAppend(gs[0], [gs[1][0]]);
      Single([gs[1][0]]);
    }
  }

  /** The first batch and the entry after it. */
  lemma FrontOf(gs: seq<seq<Entry>>)
    requires |gs| > 1 && gs[1] != []
    ensures |gs[0]| < |Concat(gs)| && Concat(gs)[..|gs[0]| + 1] == gs[0] + [gs[1][0]]
  {
    var rest := Concat(gs[1..]);
    assert gs[1..][0] == gs[1] && rest == gs[1] + Concat(gs[1..][1..]);
    assert rest[0] == gs[1][0];
    assert Concat(gs) == gs[0] + rest;
  }

  lemma SliceOf(p: seq<Entry>, rest: seq<Entry>, d: nat, m: nat)
    requires d + m <= |p|
    ensures (p + rest)[d..][..m] == p[d..d + m]
  {
  }

  lemma Within(p: seq<Entry>, a: nat, b: nat)
    requires a <= b <= |p|
    ensures Total(p[a..b]) <= Total(p)
  {
    assert p == p[..a] + (p[a..b] + p[b..]);
    TotalAppend(p[..a], p[a..b] + p[b..]);
    TotalAppend(p[a..b], p[b..]);
  }
}
