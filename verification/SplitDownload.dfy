/** A large file downloaded as windows that complete in any order, while
    the server is told only of an unbroken run of them from the start. */
module SplitDownload {
  import opened Wrappers

  datatype Window = Window(start: int, size: int, end: int)

  datatype Ack = Ack(ackBytes: int, deltaBytes: int)

  datatype Meta = Meta(offset: int, size: int, wireSize: int, headerTS: int, trailerTS: int,
                       comp: string, compCounts: map<string, nat>)

  /** What a window's worker sends when it is done. */
  datatype Result = Result(window: Window, meta: Meta, ack: Ack)

  // ---- The windows ----

  /** Windows that follow one another from `from` to `to`, none empty and none
      over the limit, all but the last of the limit's size. */
  ghost predicate Partition(ws: seq<Window>, from: int, to: int, limit: int)
  {
    && (forall i :: 0 <= i < |ws| ==>
          0 < ws[i].size <= limit && ws[i].end == ws[i].start + ws[i].size && (i < |ws| - 1 ==> ws[i].size == limit))
    && (forall i :: 0 <= i < |ws| ==> ws[i].start == Boundary(ws, from, i))
    && Boundary(ws, from, |ws|) == to
  }

  /** Where the first i windows end. */
  ghost function Boundary(ws: seq<Window>, from: int, i: nat): int
    requires i <= |ws|
  {
    if i == 0 then from else ws[i - 1].end
  }

  method BuildSplitWindows(start: int, end: int, maxBytes: int) returns (ws: seq<Window>)
    ensures ws == [] <==> maxBytes <= 0 || end <= start
    ensures ws != [] ==> Partition(ws, start, end, maxBytes)
  {
    if maxBytes <= 0 || end <= start {
      return [];
    }
    hide Partition;
    ws := [];
    var offset := start;
    NoWindows(start, maxBytes);
    while offset < end
      invariant offset <= end && Partition(ws, start, offset, maxBytes)
      invariant offset < end ==> forall i :: 0 <= i < |ws| ==> ws[i].size == maxBytes
      invariant ws == [] ==> offset == start
    {
      var size := if maxBytes < end - offset then maxBytes else end - offset;
      OneMore(ws, start, offset, maxBytes, size);
      ws := ws + [Window(offset, size, offset + size)];
      offset := offset + size;
    }
  }

  lemma NoWindows(from: int, limit: int)
    ensures Partition([], from, from, limit)
  {
  }

  lemma OneMore(ws: seq<Window>, from: int, to: int, limit: int, size: int)
    requires Partition(ws, from, to, limit) && 0 < size <= limit && forall i :: 0 <= i < |ws| ==> ws[i].size == limit
    ensures Partition(ws + [Window(to, size, to + size)], from, to + size, limit)
  {
    var after := ws + [Window(to, size, to + size)];
    assert forall i :: 0 <= i < |ws| ==> after[i] == ws[i];
    assert forall i :: 0 <= i <= |ws| ==> Boundary(after, from, i) == Boundary(ws, from, i);
  }

  /** Later windows start later: a start names one window. */
  lemma {:induction false} StartsRise(ws: seq<Window>, from: int, to: int, limit: int, i: nat, j: nat)
    requires Partition(ws, from, to, limit) && i < j <= |ws|
    ensures ws[i].start < Boundary(ws, from, j)
    ensures i + 1 < j ==> ws[i].start < Boundary(ws, from, j - 1)
  {
    if i + 1 < j {
      StartsRise(ws, from, to, limit, i, j - 1);
    }
  }

  function WindowAck(w: Window): Ack
  {
    Ack(w.end, w.size)
  }

  function Acks(ws: seq<Window>): (s: seq<Ack>)
    ensures |s| == |ws| && forall i :: 0 <= i < |ws| ==> s[i] == WindowAck(ws[i])
  {
    seq(|ws|, i requires 0 <= i < |ws| => WindowAck(ws[i]))
  }

  function Deltas(s: seq<Ack>): int
  {
    if s == [] then 0 else Deltas(s[..|s| - 1]) + s[|s| - 1].deltaBytes
  }

  lemma NextBoundary(ws: seq<Window>, from: int, to: int, limit: int, k: nat)
    requires Partition(ws, from, to, limit) && k <= |ws|
    ensures Boundary(ws, from, k) == if k == 0 then from else Boundary(ws, from, k - 1) + ws[k - 1].size
    ensures k == |ws| ==> Boundary(ws, from, k) == to
  {
  }

  /** The acknowledged deltas of a prefix sum to the distance it covers. */
  lemma {:induction false} DeltasCover(ws: seq<Window>, from: int, to: int, limit: int, k: nat)
    requires Partition(ws, from, to, limit) && k <= |ws|
    ensures Deltas(Acks(ws[..k])) == Boundary(ws, from, k) - from
  {
    hide Partition, Boundary;
    NextBoundary(ws, from, to, limit, k);
    if k > 0 {
      DeltasCover(ws, from, to, limit, k - 1);
      assert Acks(ws[..k])[..k - 1] == Acks(ws[..k - 1]);
    }
  }

  // ---- A window's worker ----

  /** A window's worker: what its response said, and whether the payload
      streamed, the output synced and the hashes agreed. */
  datatype Worker = Worker(meta: Meta, streamed: bool, synced: bool, hashed: bool)

  /** What a worker sends: nothing unless every check passes. */
  function WindowResult(w: Window, k: Worker): (r: Option<Result>)
  {
    if !k.streamed then None
    else if k.meta.offset != w.start then None
    else if k.meta.size != w.size then None
    else if !k.synced then None
    else if !k.hashed then None
    else Some(Result(w, k.meta, Ack(w.end, w.size)))
  }

  /** Every check of the window passed: its stream, offset, size, sync and
      hash. */
  ghost predicate Checked(w: Window, k: Worker)
  {
    k.streamed && k.synced && k.hashed && k.meta.offset == w.start && k.meta.size == w.size
  }

  /** A worker sends its window's result exactly when every check passed. */
  lemma SendsChecked(w: Window, k: Worker)
    ensures WindowResult(w, k).Some? <==> Checked(w, k)
    ensures Checked(w, k) ==> Genuine(w, WindowResult(w, k).value) && WindowResult(w, k).value.meta == k.meta
  {
  }

  /** A window's result, as its worker sends it. */
  ghost predicate Genuine(w: Window, r: Result)
  {
    r.window == w && r.ack == WindowAck(w) && r.meta.offset == w.start && r.meta.size == w.size
  }

  // ---- The acknowledgement loop ----

  /** The completed windows not yet acknowledged, by their start: those of the
      arrived ones from k on. */
  ghost predicate Waiting(ws: seq<Window>, to: int, pending: map<int, Result>, arrived: set<nat>, k: nat)
  {
    && (forall i :: 0 <= i < |ws| ==>
          (ws[i].start in pending <==> i in arrived && i >= k) && (ws[i].start in pending ==> Genuine(ws[i], pending[ws[i].start])))
    && to !in pending
  }

  /** The first window from k on that has not arrived. */
  ghost function Frontier(n: nat, arrived: set<nat>, k: nat): (m: nat)
    requires k <= n
    ensures k <= m <= n && (forall i :: k <= i < m ==> i in arrived) && (m < n ==> m !in arrived)
    decreases n - k
  {
    if k == n || k !in arrived then k else Frontier(n, arrived, k + 1)
  }

  /** What the waiting windows hold at a boundary. */
  lemma Ready(ws: seq<Window>, from: int, to: int, limit: int, pending: map<int, Result>, arrived: set<nat>, k: nat, m: nat)
    requires Partition(ws, from, to, limit) && k <= m <= |ws| && Waiting(ws, to, pending, arrived, k)
    ensures Boundary(ws, from, m) in pending <==> m < |ws| && m in arrived
    ensures m < |ws| ==> ws[m].end == Boundary(ws, from, m + 1)
    ensures Boundary(ws, from, m) in pending ==>
              var r := pending[Boundary(ws, from, m)];
              r.window == ws[m] && r.ack == WindowAck(ws[m])
  {
  }

  /** The acks of the windows from k on that have all arrived. */
  method Collect(pending: map<int, Result>, nextAck: int, ghost ws: seq<Window>, ghost from: int, ghost to: int, ghost limit: int,
                 ghost arrived: set<nat>, ghost k: nat) returns (batch: seq<Ack>)
    requires Partition(ws, from, to, limit) && k <= |ws| && nextAck == Boundary(ws, from, k)
    requires Waiting(ws, to, pending, arrived, k)
    ensures batch == Acks(ws[k..Frontier(|ws|, arrived, k)])
  {
    hide Partition, Waiting, Genuine, Frontier, Boundary;
    batch := [];
    var next := nextAck;
    ghost var m := k;
    Ready(ws, from, to, limit, pending, arrived, k, m);
    while next in pending
      invariant k <= m <= |ws| && next == Boundary(ws, from, m)
      invariant forall i :: k <= i < m ==> i in arrived
      invariant batch == Acks(ws[k..m])
      invariant next in pending <==> m < |ws| && m in arrived
      invariant next in pending ==> pending[next].window == ws[m] && pending[next].ack == WindowAck(ws[m]) && ws[m].end == Boundary(ws, from, m + 1)
      decreases |ws| - m
    {
      var ready := pending[next];
      assert ws[k..m + 1] == ws[k..m] + [ws[m]];
      batch := batch + [ready.ack];
      next := ready.window.end;
      m := m + 1;
      Ready(ws, from, to, limit, pending, arrived, k, m);
    }
    FrontierIs(|ws|, arrived, k, m);
  }

  lemma {:induction false} FrontierIs(n: nat, arrived: set<nat>, k: nat, m: nat)
    requires k <= m <= n && (forall i :: k <= i < m ==> i in arrived) && (m < n ==> m !in arrived)
    ensures Frontier(n, arrived, k) == m
    decreases m - k
  {
    if k < m {
      FrontierIs(n, arrived, k + 1, m);
    }
  }

  /** After a batch is acknowledged: its windows wait no longer. Reports the
      progress emitted for each. */
  method Commit(pending: map<int, Result>, nextAck: int, ghost ws: seq<Window>, ghost from: int, ghost to: int, ghost limit: int,
                ghost arrived: set<nat>, ghost k: nat)
    returns (left: map<int, Result>, reached: int, progress: seq<int>)
    requires Partition(ws, from, to, limit) && k <= |ws| && nextAck == Boundary(ws, from, k)
    requires Waiting(ws, to, pending, arrived, k)
    ensures var m := Frontier(|ws|, arrived, k);
            && Waiting(ws, to, left, arrived, m) && reached == Boundary(ws, from, m)
            && |progress| == m - k && forall i :: 0 <= i < |progress| ==> progress[i] == ws[k + i].end
  {
    hide Partition, Waiting, Genuine, Frontier, Boundary;
    left, reached, progress := pending, nextAck, [];
    ghost var m := k;
    Ready(ws, from, to, limit, left, arrived, m, m);
    while reached in left
      invariant k <= m <= |ws| && reached == Boundary(ws, from, m) && Waiting(ws, to, left, arrived, m)
      invariant forall i :: k <= i < m ==> i in arrived
      invariant |progress| == m - k && forall i :: 0 <= i < |progress| ==> progress[i] == ws[k + i].end
      invariant reached in left <==> m < |ws| && m in arrived
      invariant reached in left ==> left[reached].window == ws[m] && left[reached].ack == WindowAck(ws[m]) && ws[m].end == Boundary(ws, from, m + 1)
      decreases |ws| - m
    {
      var ready := left[reached];
      Removed(ws, from, to, limit, left, arrived, m);
      left := left - {ready.window.start};
      reached := ready.window.end;
      progress := progress + [ready.ack.ackBytes];
      m := m + 1;
      Ready(ws, from, to, limit, left, arrived, m, m);
    }
    FrontierIs(|ws|, arrived, k, m);
  }

  lemma Removed(ws: seq<Window>, from: int, to: int, limit: int, pending: map<int, Result>, arrived: set<nat>, m: nat)
    requires Partition(ws, from, to, limit) && m < |ws| && Waiting(ws, to, pending, arrived, m)
    ensures Waiting(ws, to, pending - {ws[m].start}, arrived, m + 1)
  {
    forall i | 0 <= i < |ws| ensures (ws[i].start == ws[m].start) <==> (i == m) {
      DistinctStarts(ws, from, to, limit, i, m);
    }
  }

  lemma DistinctStarts(ws: seq<Window>, from: int, to: int, limit: int, i: nat, j: nat)
    requires Partition(ws, from, to, limit) && i < |ws| && j < |ws|
    ensures ws[i].start == ws[j].start <==> i == j
    ensures ws[i].start < to
  {
    StartsRise(ws, from, to, limit, i, |ws|);
    if i < j {
      StartsRise(ws, from, to, limit, i, j + 1);
    } else if j < i {
      StartsRise(ws, from, to, limit, j, i + 1);
    }
  }

  lemma Added(ws: seq<Window>, from: int, to: int, limit: int, pending: map<int, Result>, arrived: set<nat>, k: nat, r: Result, i: nat)
    requires Partition(ws, from, to, limit) && i < |ws| && Waiting(ws, to, pending, arrived, k)
    requires Genuine(ws[i], r) && i !in arrived && (forall j :: 0 <= j < k ==> j in arrived)
    ensures Waiting(ws, to, pending[r.window.start := r], arrived + {i}, k)
  {
    forall j | 0 <= j < |ws| ensures (ws[j].start == ws[i].start) <==> (i == j) {
      DistinctStarts(ws, from, to, limit, j, i);
    }
    DistinctStarts(ws, from, to, limit, i, i);
  }

  // ---- The aggregate ----

  datatype Summary = Summary(offset: int, size: int, wireSize: int, headerTS: int, trailerTS: int,
                             comp: string, compCounts: map<string, nat>, checked: nat)

  function Get(m: map<string, nat>, c: string): nat
  {
    if c in m then m[c] else 0
  }

  function Merge(a: map<string, nat>, b: map<string, nat>): (r: map<string, nat>)
    ensures forall c :: Get(r, c) == Get(a, c) + Get(b, c)
    ensures r.Keys == a.Keys + b.Keys
  {
    map c | c in a.Keys + b.Keys :: Get(a, c) + Get(b, c)
  }

  /** How a window counts its codecs: its own table, or its one codec. */
  function CountsOf(m: Meta): map<string, nat>
  {
    if |m.compCounts| > 0 then m.compCounts else if m.comp != "" then map[m.comp := 1] else map[]
  }

  function Sizes(ms: seq<Meta>): int
  {
    if ms == [] then 0 else Sizes(ms[..|ms| - 1]) + ms[|ms| - 1].size
  }

  function WireSizes(ms: seq<Meta>): int
  {
    if ms == [] then 0 else WireSizes(ms[..|ms| - 1]) + ms[|ms| - 1].wireSize
  }

  function Counts(ms: seq<Meta>, c: string): nat
  {
    if ms == [] then 0 else Counts(ms[..|ms| - 1], c) + Get(CountsOf(ms[|ms| - 1]), c)
  }

  /** The earliest header time there is, zero if none. */
  ghost predicate Earliest(ms: seq<Meta>, ts: int)
  {
    && (ts == 0 <==> forall i :: 0 <= i < |ms| ==> ms[i].headerTS <= 0)
    && (ts != 0 ==> (exists i :: 0 <= i < |ms| && ms[i].headerTS == ts) && ts > 0)
    && (forall i :: 0 <= i < |ms| && ms[i].headerTS > 0 ==> ts <= ms[i].headerTS)
  }

  lemma EarliestStep(ms: seq<Meta>, ts: int, m: Meta)
    requires Earliest(ms, ts)
    ensures Earliest(ms + [m], if m.headerTS > 0 && (ts == 0 || m.headerTS < ts) then m.headerTS else ts)
  {
    var all := ms + [m];
    assert all[|ms|] == m && forall i :: 0 <= i < |ms| ==> all[i] == ms[i];
    if ts != 0 {
      var i :| 0 <= i < |ms| && ms[i].headerTS == ts;
      assert all[i].headerTS == ts;
    }
  }

  /** What the aggregate says of the windows' results, in file order. */
  ghost predicate Summarizes(s: Summary, from: int, ms: seq<Meta>)
  {
    && s.offset == from && s.size == Sizes(ms) && s.wireSize == WireSizes(ms) && Earliest(ms, s.headerTS)
    && (forall c :: Get(s.compCounts, c) == Counts(ms, c))
  }

  /** Takes one window's result into the aggregate. */
  method Fold(s: Summary, m: Meta, first: bool, last: bool, ghost from: int, ghost ms: seq<Meta>) returns (t: Summary)
    requires Summarizes(s, from, ms)
    ensures Summarizes(t, from, ms + [m]) && t.checked == s.checked
    ensures t.comp == (if first then m.comp else s.comp) && t.trailerTS == (if last then m.trailerTS else s.trailerTS)
  {
    hide Earliest, Get, CountsOf, Merge, Sizes, WireSizes, Counts, AddCounts;
    t := s;
    EarliestStep(ms, s.headerTS, m);
    SumsStep(ms, m);
    CountsStep(s.compCounts, ms, m);
    if m.headerTS > 0 {
      if t.headerTS == 0 || m.headerTS < t.headerTS {
        t := t.(headerTS := m.headerTS);
      }
    }
    t := t.(size := t.size + m.size, wireSize := t.wireSize + m.wireSize);
    if first {
      t := t.(comp := m.comp);
    }
    t := t.(compCounts := AddCounts(t.compCounts, m));
    if last {
      t := t.(trailerTS := m.trailerTS);
    }
  }

  lemma SumsStep(ms: seq<Meta>, m: Meta)
    ensures Sizes(ms + [m]) == Sizes(ms) + m.size && WireSizes(ms + [m]) == WireSizes(ms) + m.wireSize
  {
    assert (ms + [m])[..|ms|] == ms;
  }

  /** A window's own table of codecs, or else its one codec, is added. */
  function AddCounts(counts: map<string, nat>, m: Meta): map<string, nat>
  {
    if |m.compCounts| > 0 then Merge(counts, m.compCounts)
    else if m.comp != "" then counts[m.comp := Get(counts, m.comp) + 1]
    else counts
  }

  lemma CountsStep(counts: map<string, nat>, ms: seq<Meta>, m: Meta)
    requires forall c :: Get(counts, c) == Counts(ms, c)
    ensures forall c :: Get(AddCounts(counts, m), c) == Counts(ms + [m], c)
  {
    hide Merge;
    assert (ms + [m])[..|ms|] == ms;
    forall c ensures Get(AddCounts(counts, m), c) == Get(counts, c) + Get(CountsOf(m), c) {
    }
  }

  method Aggregate(from: int, ws: seq<Window>, results: map<int, Result>) returns (r: Option<Summary>, ghost ms: seq<Meta>)
    ensures r.Some? <==> ws != [] && forall i :: 0 <= i < |ws| ==> ws[i].start in results
    ensures r.Some? ==> |ms| == |ws| && forall i :: 0 <= i < |ws| ==> ms[i] == results[ws[i].start].meta
    ensures r.Some? ==> Summarizes(r.value, from, ms) && r.value.checked == |ws|
    ensures r.Some? ==> r.value.trailerTS == ms[|ms| - 1].trailerTS
    ensures r.Some? ==> r.value.comp == if |r.value.compCounts| == 1 then Only(r.value.compCounts.Keys) else ms[0].comp
  {
    hide Summarizes;
    ms := [];
    if |ws| == 0 {
      return None, ms;
    }
    var s := Summary(from, 0, 0, 0, 0, "none", map[], |ws|);
    Nothing(s, from);
    for i := 0 to |ws|
      invariant |ms| == i && forall j :: 0 <= j < i ==> ws[j].start in results && ms[j] == results[ws[j].start].meta
      invariant Summarizes(s, from, ms) && s.checked == |ws|
      invariant (i > 0 ==> s.comp == ms[0].comp) && (i == |ws| ==> s.trailerTS == ms[i - 1].trailerTS)
    {
      if ws[i].start !in results {
        return None, ms;
      }
      var m := results[ws[i].start].meta;
      s := Fold(s, m, i == 0, i == |ws| - 1, from, ms);
      ms := ms + [m];
    }
    if |s.compCounts| == 1 {
      ghost var before := s;
      s := s.(comp := Only(s.compCounts.Keys));
      SameSummary(before, s, from, ms);
    }
    r := Some(s);
  }

  lemma Nothing(s: Summary, from: int)
    requires s.offset == from && s.size == 0 && s.wireSize == 0 && s.headerTS == 0 && s.compCounts == map[]
    ensures Summarizes(s, from, [])
  {
  }

  lemma SameSummary(s: Summary, t: Summary, from: int, ms: seq<Meta>)
    requires Summarizes(s, from, ms) && t == s.(comp := t.comp)
    ensures Summarizes(t, from, ms)
  {
  }

  /** The member of a set of one. */
  function Only(s: set<string>): (c: string)
    requires |s| == 1
    ensures s == {c}
  {
    OnlyOne(s);
    var c :| c in s && s == {c};
    c
  }

  lemma OnlyOne(s: set<string>)
    requires |s| == 1
    ensures exists c :: c in s && s == {c}
  {
    var c :| c in s;
    assert |s - {c}| == 0;
    assert s == {c};
  }

  // ---- The whole download ----

  ghost predicate Distinct(order: seq<nat>, n: nat)
  {
    && (forall a :: 0 <= a < |order| ==> order[a] < n)
    && (forall a, b :: 0 <= a < b < |order| ==> order[a] != order[b])
  }

  /** Windows' results as their completions keep them. */
  ghost predicate Kept(ws: seq<Window>, done: map<int, Result>, arrived: set<nat>)
  {
    forall i :: 0 <= i < |ws| ==>
      (i in arrived <==> ws[i].start in done) && (i in arrived ==> Genuine(ws[i], done[ws[i].start]))
  }

  /** The first n windows' workers have finished, all their checks passed. */
  ghost predicate AllIn(n: nat, ws: seq<Window>, workers: nat -> Worker, order: seq<nat>)
    requires n <= |ws|
  {
    forall i :: 0 <= i < n ==> i in order && Checked(ws[i], workers(i))
  }

  /** An ACK call: its batch, the window it goes up to, and how many windows
      had completed when it was made. */
  datatype Call = Call(batch: seq<Ack>, end: nat, at: nat)

  /** The acknowledged calls: each the next windows in line from where the
      last one ended, all of them completed by then. */
  ghost predicate Chained(ws: seq<Window>, workers: nat -> Worker, order: seq<nat>, calls: seq<Call>, k: nat)
  {
    && k == EndOf(calls, |calls|)
    && forall b :: 0 <= b < |calls| ==> InLine(ws, workers, order, EndOf(calls, b), calls[b])
  }

  /** Where the first b calls end. */
  ghost function EndOf(calls: seq<Call>, b: nat): nat
    requires b <= |calls|
  {
    if b == 0 then 0 else calls[b - 1].end
  }

  ghost predicate InLine(ws: seq<Window>, workers: nat -> Worker, order: seq<nat>, from: nat, c: Call)
  {
    && from < c.end <= |ws| && c.batch == Acks(ws[from..c.end]) && c.at <= |order|
    && AllIn(c.end, ws, workers, order[..c.at])
  }

  /** All that the calls acknowledge, in order. */
  ghost function Acked(calls: seq<Call>): seq<Ack>
  {
    if calls == [] then [] else Acked(calls[..|calls| - 1]) + calls[|calls| - 1].batch
  }

  /** Each acknowledgement gives the offset that it and those before it
      reach. */
  ghost predicate AcksReach(s: seq<Ack>, from: int)
  {
    forall j :: 0 <= j < |s| ==> s[j].ackBytes == from + Deltas(s[..j + 1])
  }

  lemma AcksReached(ws: seq<Window>, from: int, to: int, limit: int, k: nat)
    requires Partition(ws, from, to, limit) && k <= |ws|
    ensures AcksReach(Acks(ws[..k]), from)
  {
    hide Deltas, Boundary;
    var s := Acks(ws[..k]);
    forall j | 0 <= j < |s| ensures s[j].ackBytes == from + Deltas(s[..j + 1]) {
      DeltasCover(ws, from, to, limit, j + 1);
      assert s[..j + 1] == Acks(ws[..j + 1]);
      EndsAt(ws, from, to, limit, j);
    }
  }

  lemma EndsAt(ws: seq<Window>, from: int, to: int, limit: int, j: nat)
    requires Partition(ws, from, to, limit) && j < |ws|
    ensures ws[j].end == Boundary(ws, from, j + 1)
  {
  }

  lemma {:induction false} AckedIs(ws: seq<Window>, workers: nat -> Worker, order: seq<nat>, calls: seq<Call>, k: nat)
    requires Chained(ws, workers, order, calls, k)
    ensures k <= |ws| && Acked(calls) == Acks(ws[..k])
  {
    hide Chained, Acks;
    LastCall(ws, workers, order, calls, k);
    if calls != [] {
      var n := |calls| - 1;
      AckedIs(ws, workers, order, calls[..n], EndOf(calls, n));
      AcksJoin(ws, EndOf(calls, n), k);
    } else {
      assert ws[..0] == [];
    }
  }

  /** The last call, after those before it. */
  lemma LastCall(ws: seq<Window>, workers: nat -> Worker, order: seq<nat>, calls: seq<Call>, k: nat)
    requires Chained(ws, workers, order, calls, k)
    ensures calls == [] ==> k == 0 && Acks(ws[..0]) == []
    ensures calls != [] ==>
              var n := |calls| - 1;
              var from := EndOf(calls, n);
              && from < k <= |ws| && calls[n].batch == Acks(ws[from..k])
              && Chained(ws, workers, order, calls[..n], from)
  {
    hide InLine, Acks;
    if calls != [] {
      var n := |calls| - 1;
      var front := calls[..n];
      forall b | 0 <= b < n ensures InLine(ws, workers, order, EndOf(front, b), front[b]) {
        assert front[b] == calls[b] && EndOf(front, b) == EndOf(calls, b);
      }
      LineUp(ws, workers, order, EndOf(calls, n), calls[n]);
    } else {
      assert |Acks(ws[..0])| == 0;
    }
  }

  lemma LineUp(ws: seq<Window>, workers: nat -> Worker, order: seq<nat>, from: nat, c: Call)
    requires InLine(ws, workers, order, from, c)
    ensures from < c.end <= |ws| && c.batch == Acks(ws[from..c.end])
  {
  }

  lemma AcksJoin(ws: seq<Window>, a: nat, b: nat)
    requires a <= b <= |ws|
    ensures Acks(ws[..a]) + Acks(ws[a..b]) == Acks(ws[..b])
  {
  }

  /** Workers finish in the given order, some perhaps never, each sending its
      result or failing. Each ACK call succeeds or fails as ackOk says. Reports
      the aggregate, or that the file failed; `reached` is the acknowledged
      offset then. */
  method DownloadWindows(ws: seq<Window>, ghost limit: int, from: int, to: int, order: seq<nat>, workers: nat -> Worker,
                         ackOk: nat -> bool, ctxErr: bool)
    returns (r: Option<Summary>, reached: int, ghost k: nat, ghost calls: seq<Call>, ghost refused: Option<Call>)
    requires ws != [] && Partition(ws, from, to, limit) && Distinct(order, |ws|)
    ensures k <= |ws| && reached == Boundary(ws, from, k) && Chained(ws, workers, order, calls, k) && AllIn(k, ws, workers, order)
    ensures refused.Some? ==> r.None? && InLine(ws, workers, order, k, refused.value)
    ensures Deltas(Acked(calls)) == reached - from && AcksReach(Acked(calls), from)
    ensures (forall n :: ackOk(n)) && k < |ws| ==> !(k in order && Checked(ws[k], workers(k)))
    ensures r.Some? ==> k == |ws| && reached == to && r.value.offset == from && r.value.size == to - from && r.value.checked == |ws|
    ensures !ctxErr && (forall n :: ackOk(n)) ==> (r.Some? <==> AllIn(|ws|, ws, workers, order))
  {
    hide Partition, Waiting, Kept, Frontier, Chained, Genuine, Summarizes, Distinct, Deltas, Boundary, WindowResult, Checked, AllIn, Sent;
    var done: map<int, Result>, pending: map<int, Result> := map[], map[];
    reached, k, calls, refused := from, 0, [], None;
    ghost var arrived: set<nat> := {};
    var windowErr, ackFailed, made := false, false, 0;
    Start(ws, from, to, limit, workers, order);
    for a := 0 to |order|
      invariant k <= |ws| && reached == Boundary(ws, from, k) && !ackFailed && refused == None
      invariant Sent(ws, workers, order[..a], arrived, windowErr)
      invariant Waiting(ws, to, pending, arrived, k) && Kept(ws, done, arrived) && Chained(ws, workers, order, calls, k)
      invariant (forall i :: 0 <= i < k ==> i in arrived) && k == Frontier(|ws|, arrived, 0) && AllIn(k, ws, workers, order)
    {
      var i := order[a];
      DistinctAt(order, |ws|, a);
      SentStep(ws, workers, order, a, arrived, windowErr);
      SendsChecked(ws[i], workers(i));
      var result := WindowResult(ws[i], workers(i));
      if result.None? {
        windowErr := true;
        continue;
      }
      Added(ws, from, to, limit, pending, arrived, k, result.value, i);
      Recorded(ws, from, to, limit, done, arrived, result.value, i);
      done := done[result.value.window.start := result.value];
      pending := pending[result.value.window.start := result.value];
      arrived := arrived + {i};
      var batch := Collect(pending, reached, ws, from, to, limit, arrived, k);
      ghost var m := Frontier(|ws|, arrived, k);
      FrontierIs(|ws|, arrived, 0, m);
      if |batch| == 0 {
        continue;
      }
      made := made + 1;
      ghost var call := Call(batch, m, a + 1);
      SentAll(ws, workers, order[..a + 1], arrived, windowErr, m);
      if !ackOk(made) {
        ackFailed, refused := true, Some(call);
        break;
      }
      ChainedStep(ws, workers, order, calls, k, call);
      AllInLonger(m, ws, workers, order, a + 1);
      var progress;
      pending, reached, progress := Commit(pending, reached, ws, from, to, limit, arrived, k);
      calls, k := calls + [call], m;
    }
    if !ackFailed {
      assert order[..|order|] == order;
      AllSent(ws, workers, order, arrived, windowErr);
      FirstMissing(ws, workers, order, arrived, windowErr, k);
    }
    DeltasCover(ws, from, to, limit, k);
    AckedIs(ws, workers, order, calls, k);
    AcksReached(ws, from, to, limit, k);
    EndReached(ws, from, to, limit, k);
    if windowErr || ackFailed || ctxErr || reached != to {
      return None, reached, k, calls, refused;
    }
    AllKept(ws, done, arrived);
    ghost var ms;
    r, ms := Aggregate(from, ws, done);
    SizesCover(ws, from, to, limit, ms, |ws|);
    SummarySize(r.value, from, ms);
    assert ms[..|ms|] == ms;
  }

  /** The windows whose results were sent by the workers that finished, and
      whether some worker failed. */
  ghost predicate Sent(ws: seq<Window>, workers: nat -> Worker, order: seq<nat>, arrived: set<nat>, failed: bool)
  {
    && (forall a :: 0 <= a < |order| ==> order[a] < |ws|)
    && (forall i :: i in arrived <==> i in order && i < |ws| && Checked(ws[i], workers(i)))
    && (failed <==> exists i :: i in order && i !in arrived)
  }

  lemma SentStep(ws: seq<Window>, workers: nat -> Worker, order: seq<nat>, a: nat, arrived: set<nat>, failed: bool)
    requires a < |order| && order[a] < |ws| && order[a] !in order[..a] && Sent(ws, workers, order[..a], arrived, failed)
    ensures order[a] !in arrived
    ensures if Checked(ws[order[a]], workers(order[a]))
            then Sent(ws, workers, order[..a + 1], arrived + {order[a]}, failed)
            else Sent(ws, workers, order[..a + 1], arrived, true)
  {
    hide Checked;
    var i := order[a];
    assert order[..a + 1] == order[..a] + [i];
    assert i in order[..a + 1];
  }

  lemma AllInLonger(n: nat, ws: seq<Window>, workers: nat -> Worker, order: seq<nat>, a: nat)
    requires n <= |ws| && a <= |order| && AllIn(n, ws, workers, order[..a])
    ensures AllIn(n, ws, workers, order)
  {
    assert forall i :: i in order[..a] ==> i in order;
  }

  /** A prefix of windows that arrived was sent. */
  lemma SentAll(ws: seq<Window>, workers: nat -> Worker, order: seq<nat>, arrived: set<nat>, failed: bool, n: nat)
    requires n <= |ws| && Sent(ws, workers, order, arrived, failed) && forall i :: 0 <= i < n ==> i in arrived
    ensures AllIn(n, ws, workers, order)
  {
    hide Checked;
    forall i | 0 <= i < n ensures i in order && Checked(ws[i], workers(i)) {
      assert i in arrived;
    }
  }

  /** Every window arrived exactly when every worker finished and sent. */
  lemma AllSent(ws: seq<Window>, workers: nat -> Worker, order: seq<nat>, arrived: set<nat>, failed: bool)
    requires Sent(ws, workers, order, arrived, failed)
    ensures AllIn(|ws|, ws, workers, order) <==> forall i :: 0 <= i < |ws| ==> i in arrived
    ensures AllIn(|ws|, ws, workers, order) ==> !failed
  {
    hide Checked;
  }

  /** A window that has not arrived was not sent. */
  lemma FirstMissing(ws: seq<Window>, workers: nat -> Worker, order: seq<nat>, arrived: set<nat>, failed: bool, k: nat)
    requires Sent(ws, workers, order, arrived, failed)
    ensures k < |ws| && k !in arrived ==> !(k in order && Checked(ws[k], workers(k)))
  {
    hide Checked;
  }

  lemma SummarySize(s: Summary, from: int, ms: seq<Meta>)
    requires Summarizes(s, from, ms)
    ensures s.offset == from && s.size == Sizes(ms)
  {
  }

  lemma Start(ws: seq<Window>, from: int, to: int, limit: int, workers: nat -> Worker, order: seq<nat>)
    ensures Waiting(ws, to, map[], {}, 0) && Kept(ws, map[], {}) && Chained(ws, workers, order, [], 0)
    ensures Sent(ws, workers, order[..0], {}, false) && AllIn(0, ws, workers, order)
    ensures Boundary(ws, from, 0) == from && Frontier(|ws|, {}, 0) == 0
  {
  }

  lemma DistinctAt(order: seq<nat>, n: nat, a: nat)
    requires Distinct(order, n) && a < |order|
    ensures order[a] < n && order[a] !in order[..a]
  {
  }

  lemma Recorded(ws: seq<Window>, from: int, to: int, limit: int, done: map<int, Result>, arrived: set<nat>, r: Result, i: nat)
    requires Partition(ws, from, to, limit) && i < |ws| && Kept(ws, done, arrived) && Genuine(ws[i], r)
    ensures Kept(ws, done[r.window.start := r], arrived + {i})
  {
    hide Partition;
    forall j | 0 <= j < |ws| ensures (ws[j].start == ws[i].start) <==> (i == j) {
      DistinctStarts(ws, from, to, limit, j, i);
    }
  }

  lemma ChainedStep(ws: seq<Window>, workers: nat -> Worker, order: seq<nat>, calls: seq<Call>, k: nat, call: Call)
    requires Chained(ws, workers, order, calls, k) && InLine(ws, workers, order, k, call)
    ensures Chained(ws, workers, order, calls + [call], call.end)
  {
    hide InLine;
    var after := calls + [call];
    forall b | 0 <= b < |after| ensures InLine(ws, workers, order, EndOf(after, b), after[b]) {
      assert EndOf(after, b) == EndOf(calls, b);
      if b < |calls| {
        assert after[b] == calls[b];
      }
    }
  }

  /** The acknowledged offset is the file's end only once every window is
      acknowledged. */
  lemma EndReached(ws: seq<Window>, from: int, to: int, limit: int, k: nat)
    requires Partition(ws, from, to, limit) && k <= |ws|
    ensures Boundary(ws, from, k) == to <==> k == |ws|
  {
    if k < |ws| {
      StartsRise(ws, from, to, limit, k, |ws|);
    }
  }

  lemma AllKept(ws: seq<Window>, done: map<int, Result>, arrived: set<nat>)
    requires Kept(ws, done, arrived) && forall i :: 0 <= i < |ws| ==> i in arrived
    ensures forall i :: 0 <= i < |ws| ==> ws[i].start in done && done[ws[i].start].meta.size == ws[i].size
  {
  }

  lemma {:induction false} SizesCover(ws: seq<Window>, from: int, to: int, limit: int, ms: seq<Meta>, k: nat)
    requires Partition(ws, from, to, limit) && |ms| == |ws| && k <= |ws| && forall i :: 0 <= i < |ws| ==> ms[i].size == ws[i].size
    ensures Sizes(ms[..k]) == Boundary(ws, from, k) - from
  {
    hide Partition, Boundary;
    NextBoundary(ws, from, to, limit, k);
    if k > 0 {
      SizesCover(ws, from, to, limit, ms, k - 1);
      assert ms[..k][..k - 1] == ms[..k - 1];
    }
  }
}
