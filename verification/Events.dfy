/** One events target: a bounded queue that drops its oldest records, partial
    writes with a protected head, and a "dropped" record for the count. A
    flusher takes the queue, writes some of it and puts the rest back while
    emitters keep adding. */
module Events {
  import opened Bytes
  import opened Sequences

  const LIMIT: nat := 1048576

  type Text = seq<byte>

  /** What the stream is made of: an emitted record, by its number, or a
      "dropped" record with its count. */
  datatype Piece = Record(id: nat) | Marker(count: nat, text: Text)

  /** Records waiting, or in the flusher's hands. When partial, the first text
      is what a begun piece still lacks; the others are whole records. */
  datatype Batch = Batch(queue: seq<Text>, dropped: nat, partial: bool)

  /** What was emitted, the pieces begun on the stream and the bytes the
      target has taken. */
  datatype History = History(emitted: seq<Text>, begun: seq<Piece>, stream: seq<byte>)

  function Size(ts: seq<Text>): (n: nat)
    ensures n == |Concat(ts)|
  {
    if ts == [] then 0 else |ts[0]| + Size(ts[1..])
  }

  function TextOf(emitted: seq<Text>, p: Piece): (t: Text)
  {
    match p
    case Record(id) => if id < |emitted| then emitted[id] else []
    case Marker(_, text) => text
  }

  function Texts(emitted: seq<Text>, ps: seq<Piece>): (ts: seq<Text>)
    ensures |ts| == |ps|
  {
    seq(|ps|, i requires 0 <= i < |ps| => TextOf(emitted, ps[i]))
  }

  /** The numbers of the ordinary records among pieces. */
  function Ids(ps: seq<Piece>): (s: seq<nat>)
  {
    if ps == [] then []
    else Ids(ps[..|ps| - 1]) + (if ps[|ps| - 1].Record? then [ps[|ps| - 1].id] else [])
  }

  /** Records reported dropped by the markers among pieces. */
  function Reported(ps: seq<Piece>): (n: nat)
  {
    if ps == [] then 0
    else Reported(ps[..|ps| - 1]) + (if ps[|ps| - 1].Marker? then ps[|ps| - 1].count else 0)
  }

  ghost predicate Ascending(s: seq<nat>, bound: nat)
  {
    && (forall i, j :: 0 <= i < j < |s| ==> s[i] < s[j])
    && (forall i :: 0 <= i < |s| ==> s[i] < bound)
  }

  function Rest(b: Batch): (t: Text)
  {
    if b.partial && b.queue != [] then b.queue[0] else []
  }

  /** The texts after a partial head are the emitted records ids names. */
  ghost predicate Whole(emitted: seq<Text>, b: Batch, ids: seq<nat>)
  {
    var off := if b.partial then 1 else 0;
    && |b.queue| == off + |ids|
    && forall i :: 0 <= i < |ids| ==> ids[i] < |emitted| && b.queue[off + i] == emitted[ids[i]]
  }

  const NOTHING := Batch([], 0, false)

  lemma {:induction false} IdsAppend(a: seq<Piece>, b: seq<Piece>)
    ensures Ids(a + b) == Ids(a) + Ids(b) && Reported(a + b) == Reported(a) + Reported(b)
  {
    if b == [] {
      assert a + b == a;
    } else {
      var n := |b| - 1;
      assert (a + b)[..|a + b| - 1] == a + b[..n];
      IdsAppend(a, b[..n]);
    }
  }

  /** What one write offers, in order: the rest of a begun piece, then the
      "dropped" record if there is a count, then the whole records. */
  function Segments(b: Batch, text: Text): (ts: seq<Text>)
  {
    var head := if b.partial && b.queue != [] then 1 else 0;
    b.queue[..head] + (if b.dropped > 0 then [text] else []) + b.queue[head..]
  }

  /** Where a write of n bytes stops: the texts taken whole, and the bytes
      taken of the next one. */
  function Full(ts: seq<Text>, n: nat): (j: nat)
    ensures j <= |ts|
  {
    if ts == [] || n < |ts[0]| then 0 else 1 + Full(ts[1..], n - |ts[0]|)
  }

  function Over(ts: seq<Text>, n: nat): (m: nat)
    requires n <= Size(ts)
  {
    if ts == [] then 0 else if n < |ts[0]| then n else Over(ts[1..], n - |ts[0]|)
  }

  lemma {:induction false} StopsAt(ts: seq<Text>, n: nat)
    requires n <= Size(ts)
    ensures var j, m := Full(ts, n), Over(ts, n);
            && Size(ts[..j]) + m == n && (j < |ts| ==> m < |ts[j]|) && (j == |ts| ==> m == 0)
            && Concat(ts)[..n] == Concat(ts[..j]) + (if j < |ts| then ts[j][..m] else [])
  {
    if ts == [] {
    } else if n < |ts[0]| {
      assert Concat(ts)[..n] == ts[0][..n];
    } else {
      StopsAt(ts[1..], n - |ts[0]|);
      var j := Full(ts, n);
      assert ts[..j][1..] == ts[1..][..j - 1] && ts[..j][0] == ts[0];
      assert Concat(ts)[..n] == ts[0] + Concat(ts[1..])[..n - |ts[0]|];
    }
  }

  lemma {:induction false} SizeGrows(ts: seq<Text>, i: nat, j: nat)
    requires i <= j <= |ts|
    ensures Size(ts[..i]) <= Size(ts[..j])
    ensures i < j ==> Size(ts[..i]) + |ts[i]| <= Size(ts[..j])
    decreases j - i
  {
    if i < j {
      SizeGrows(ts, i + 1, j);
      SizeStep(ts, i);
    }
  }

  lemma SizeStep(ts: seq<Text>, i: nat)
    requires i < |ts|
    ensures Size(ts[..i + 1]) == Size(ts[..i]) + |ts[i]|
  {
    assert ts[..i + 1] == ts[..i] + [ts[i]];
    ConcatAppend(ts[..i], [ts[i]]);
    assert Concat([ts[i]]) == ts[i];
  }

  /** Among texts lo..hi, those that are not the marker at `at`. */
  ghost function Unmarked(ts: seq<Text>, lo: nat, hi: nat, at: int): seq<Text>
    requires lo <= hi <= |ts|
  {
    if lo <= at < hi then ts[lo..at] + ts[at + 1..hi] else ts[lo..hi]
  }

  /** Where the marker is among the segments, or -1. */
  function MarkerAt(b: Batch): (at: int)
  {
    if b.dropped == 0 then -1 else if b.partial && b.queue != [] then 1 else 0
  }

  /** What segments before i leave when a write stops m bytes into segment j:
      the rest of the piece it stopped in, the records not begun, and the count
      when its marker was not begun. */
  ghost function Left(b: Batch, ts: seq<Text>, j: nat, m: nat, i: nat): Batch
    requires j <= i <= |ts| && (m > 0 ==> j < |ts| && m < |ts[j]|)
  {
    var begun := if m > 0 then j + 1 else j;
    if i == j then NOTHING else
      Batch((if m > 0 then [ts[j][m..]] else []) + Unmarked(ts, begun, i, MarkerAt(b)),
            if begun <= MarkerAt(b) < i then b.dropped else 0,
            m > 0 || (j == 0 && b.partial && b.queue != []))
  }

  lemma LeftStep(b: Batch, ts: seq<Text>, j: nat, m: nat, i: nat)
    requires j <= i < |ts| && (m > 0 ==> m < |ts[j]|)
    ensures i == j && m > 0 ==> Left(b, ts, j, m, i + 1) == Batch([ts[j][m..]], 0, true)
    ensures i > j || m == 0 ==>
              var r, p := Left(b, ts, j, m, i), j == 0 && b.partial && b.queue != [];
              Left(b, ts, j, m, i + 1) == if i == MarkerAt(b) then Batch(r.queue, b.dropped, m > 0 || p)
                                          else Batch(r.queue + [ts[i]], r.dropped, m > 0 || p)
  {
    var begun := if m > 0 then j + 1 else j;
    var at := MarkerAt(b);
    if i == j && m > 0 {
      assert Unmarked(ts, begun, i + 1, at) == [];
    } else if i == at {
      assert Unmarked(ts, begun, i + 1, at) == Unmarked(ts, begun, i, at);
    } else {
      assert Unmarked(ts, begun, i + 1, at) == Unmarked(ts, begun, i, at) + [ts[i]];
    }
  }

  /** What a write of n bytes leaves. */
  ghost function Remaining(b: Batch, text: Text, n: nat): Batch
    requires n <= Size(Segments(b, text))
  {
    var ts := Segments(b, text);
    StopsAt(ts, n);
    Left(b, ts, Full(ts, n), Over(ts, n), |ts|)
  }

  datatype Segment = Segment(b: Text, marker: bool)

  /** writeTarget: the buffer it writes and the split of what the write left.
      `taken` is how many bytes the target took. */
  method WriteTarget(b: Batch, text: Text, taken: nat) returns (buf: Text, r: Batch)
    requires taken <= Size(Segments(b, text))
    requires text != [] && forall i :: 0 <= i < |b.queue| ==> b.queue[i] != []
    ensures buf == Concat(Segments(b, text)) && r == Remaining(b, text, taken)
  {
    hide Full, Over, Left, Size, Concat;
    var segs: seq<Segment> := [];
    var queue := b.queue;
    if b.partial && |queue| > 0 {
      segs := segs + [Segment(queue[0], false)];
      queue := queue[1..];
    }
    if b.dropped > 0 {
      segs := segs + [Segment(text, true)];
    }
    segs := segs + seq(|queue|, i requires 0 <= i < |queue| => Segment(queue[i], false));
    ghost var ts := Segments(b, text);
    ghost var at := MarkerAt(b);
    assert |segs| == |ts| && forall i :: 0 <= i < |segs| ==> segs[i] == Segment(ts[i], i == at);
    StopsAt(ts, taken);
    buf := Gather(segs, ts);
    r := Split(b, segs, ts, taken);
  }

  /** The segments' bytes in one buffer. */
  method Gather(segs: seq<Segment>, ghost ts: seq<Text>) returns (buf: Text)
    requires |segs| == |ts| && forall i :: 0 <= i < |segs| ==> segs[i].b == ts[i]
    ensures buf == Concat(ts)
  {
    hide Concat;
    ConcatNone(ts);
    buf := [];
    for i := 0 to |segs|
      invariant buf == Concat(ts[..i])
    {
      buf := buf + segs[i].b;
      ConcatNext(ts, i);
    }
    assert ts[..|ts|] == ts;
  }

  lemma ConcatNext(ts: seq<Text>, i: nat)
    requires i < |ts|
    ensures Concat(ts[..i + 1]) == Concat(ts[..i]) + ts[i]
  {
    var one := [ts[i]];
    assert ts[..i + 1] == ts[..i] + one && Concat(one) == ts[i];
    ConcatAppend(ts[..i], one);
  }

  /** The loop over the segments computes what a write leaves. */
  method Split(b: Batch, segs: seq<Segment>, ghost ts: seq<Text>, taken: nat) returns (r: Batch)
    requires taken <= Size(ts) && |segs| == |ts|
    requires forall i :: 0 <= i < |segs| ==> segs[i] == Segment(ts[i], i == MarkerAt(b)) && segs[i].b != []
    requires b.partial && segs != [] && !segs[0].marker ==> b.queue != []
    requires b.partial && b.queue != [] ==> MarkerAt(b) != 0
    requires Over(ts, taken) > 0 ==> Full(ts, taken) < |ts| && Over(ts, taken) < |ts[Full(ts, taken)]|
    ensures r == Left(b, ts, Full(ts, taken), Over(ts, taken), |ts|)
  {
    hide Size, Concat, Full, Over, Left, MarkerAt;
    ghost var j, m := Full(ts, taken), Over(ts, taken);
    StopsAt(ts, taken);
    ghost var headed := b.partial && b.queue != [];
    var rest: seq<Text>, restDropped, restPartial := [], 0, false;
    var n := taken;
    LeftNone(b, ts, j, m);
    SizeNone(ts);
    for i := 0 to |segs|
      invariant i <= j ==> Batch(rest, restDropped, restPartial) == NOTHING && n == taken - Size(ts[..i])
      invariant i > j ==> Batch(rest, restDropped, restPartial) == Left(b, ts, j, m, i) && n == 0
      invariant i > j ==> restPartial == (m > 0 || (j == 0 && headed))
    {
      var seg := segs[i];
      if i < j {
        SizeGrows(ts, i, j);
        SizeStep(ts, i);
      } else {
        LeftStep(b, ts, j, m, i);
      }
      if n >= |seg.b| {
        n := n - |seg.b|;
      } else if n > 0 {
        rest := rest + [seg.b[n..]];
        restPartial := |rest| == 1;
        n := 0;
      } else if seg.marker {
        restDropped := b.dropped;
      } else {
        rest := rest + [seg.b];
        restPartial := restPartial || (i == 0 && b.partial && |rest| == 1);
      }
    }
    assert ts[..|ts|] == ts;
    r := Batch(rest, restDropped, restPartial);
  }

  lemma LeftNone(b: Batch, ts: seq<Text>, j: nat, m: nat)
    requires j <= |ts| && (m > 0 ==> j < |ts| && m < |ts[j]|)
    ensures Left(b, ts, j, m, j) == NOTHING
  {
  }

  lemma SizeNone(ts: seq<Text>)
    ensures Size(ts[..0]) == 0
  {
  }

  ghost function Records(ids: seq<nat>): (ps: seq<Piece>)
    ensures |ps| == |ids|
    ensures forall i :: 0 <= i < |ids| ==> ps[i] == Record(ids[i])
  {
    seq(|ids|, i requires 0 <= i < |ids| => Record(ids[i]))
  }

  /** The pieces a write may begin: everything it offers but a begun head. */
  ghost function Pieces(b: Batch, ids: seq<nat>, text: Text): seq<Piece>
  {
    (if b.dropped > 0 then [Marker(b.dropped, text)] else []) + Records(ids)
  }

  /** How many of the records are among the first x pieces. */
  ghost function RecordsIn(b: Batch, x: nat): nat
  {
    if b.dropped > 0 then if x == 0 then 0 else x - 1 else x
  }

  lemma {:induction false} IdsRecords(ids: seq<nat>)
    ensures Ids(Records(ids)) == ids && Reported(Records(ids)) == 0
  {
    if ids != [] {
      var n := |ids| - 1;
      assert Records(ids)[..n] == Records(ids[..n]);
      IdsRecords(ids[..n]);
    }
  }

  lemma IdsMarker(n: nat, text: Text)
    ensures Ids([Marker(n, text)]) == [] && Reported([Marker(n, text)]) == n && Ids([]) == [] && Reported([]) == 0
  {
    assert [Marker(n, text)][..0] == [];
  }

  /** The first x pieces report the count or not, and hold the oldest records. */
  lemma PiecesBegun(b: Batch, ids: seq<nat>, text: Text, x: nat)
    requires x <= |Pieces(b, ids, text)|
    ensures Ids(Pieces(b, ids, text)[..x]) == ids[..RecordsIn(b, x)]
    ensures Reported(Pieces(b, ids, text)[..x]) == (if x > 0 then b.dropped else 0)
  {
    hide Ids, Reported;
    var k := RecordsIn(b, x);
    assert Records(ids)[..k] == Records(ids[..k]);
    IdsRecords(ids[..k]);
    IdsMarker(b.dropped, text);
    if b.dropped > 0 && x > 0 {
      assert Pieces(b, ids, text)[..x] == [Marker(b.dropped, text)] + Records(ids[..k]);
      IdsAppend([Marker(b.dropped, text)], Records(ids[..k]));
    } else {
      assert Pieces(b, ids, text)[..x] == Records(ids[..k]);
    }
  }

  ghost predicate NonEmpty(ts: seq<Text>)
  {
    forall i :: 0 <= i < |ts| ==> ts[i] != []
  }

  /** A target: its history, what the flusher has taken and not put back (fly),
      what is queued (wait), and the numbers of the whole records in each. */
  datatype View = View(h: History, flying: bool, fly: Batch, fids: seq<nat>, wait: Batch, wids: seq<nat>)

  /** The records begun, in flight and queued are in emission order. */
  ghost predicate Ordered(v: View)
  {
    Ascending(Ids(v.h.begun) + v.fids + v.wids, |v.h.emitted|)
  }

  /** The stream, with the rest of the piece it stopped in, is whole pieces. */
  ghost predicate Aligned(v: View)
  {
    v.h.stream + Rest(v.fly) + Rest(v.wait) == Concat(Texts(v.h.emitted, v.h.begun))
  }

  /** A rest is a proper part of the piece begun last. */
  ghost predicate Inside(h: History, b: Batch)
  {
    b.partial ==> h.begun != [] && 0 < |Rest(b)| < |TextOf(h.emitted, h.begun[|h.begun| - 1])|
  }

  /** Every emitted record is begun, in flight, queued or counted dropped. */
  ghost predicate Conserved(v: View)
  {
    |v.h.emitted| == |Ids(v.h.begun)| + |v.fids| + |v.wids| + v.fly.dropped + v.wait.dropped + Reported(v.h.begun)
  }

  ghost predicate Known(h: History)
  {
    && NonEmpty(h.emitted)
    && forall i :: 0 <= i < |h.begun| && h.begun[i].Record? ==> h.begun[i].id < |h.emitted|
  }

  ghost predicate Inv(v: View)
  {
    && Known(v.h)
    && Whole(v.h.emitted, v.fly, v.fids) && Whole(v.h.emitted, v.wait, v.wids)
    && (if v.flying then !v.wait.partial else v.fly == NOTHING)
    && Ordered(v) && Aligned(v) && Conserved(v)
    && Inside(v.h, v.fly) && Inside(v.h, v.wait)
  }

  /** How many of the segments are begun once n bytes are taken. */
  ghost function Begun(fly: Batch, text: Text, n: nat): (k: nat)
    requires n <= Size(Segments(fly, text))
    ensures k <= |Segments(fly, text)|
  {
    var ts := Segments(fly, text);
    StopsAt(ts, n);
    Full(ts, n) + (if Over(ts, n) > 0 then 1 else 0)
  }

  /** How many pieces that makes, a begun head not counted. */
  ghost function NewPieces(fly: Batch, text: Text, n: nat): (x: nat)
    requires n <= Size(Segments(fly, text))
    ensures x <= Begun(fly, text, n)
  {
    var off := if fly.partial then 1 else 0;
    if Begun(fly, text, n) < off then 0 else Begun(fly, text, n) - off
  }

  /** The segments are the begun head and the texts of the pieces. */
  lemma SegmentsArePieces(emitted: seq<Text>, b: Batch, ids: seq<nat>, text: Text)
    requires Whole(emitted, b, ids)
    ensures Segments(b, text) == (if b.partial then [b.queue[0]] else []) + Texts(emitted, Pieces(b, ids, text))
    ensures |Segments(b, text)| == (if b.partial then 1 else 0) + |Pieces(b, ids, text)|
  {
    hide Texts;
    var off := if b.partial then 1 else 0;
    TextsRecords(emitted, b, ids);
    TextsAppend(emitted, if b.dropped > 0 then [Marker(b.dropped, text)] else [], Records(ids));
    TextsOne(emitted, Marker(b.dropped, text));
    assert b.partial ==> b.queue[..1] == [b.queue[0]];
  }

  lemma TextsRecords(emitted: seq<Text>, b: Batch, ids: seq<nat>)
    requires Whole(emitted, b, ids)
    ensures b.queue[if b.partial then 1 else 0..] == Texts(emitted, Records(ids))
  {
  }

  lemma TextsAppend(emitted: seq<Text>, a: seq<Piece>, b: seq<Piece>)
    ensures Texts(emitted, a + b) == Texts(emitted, a) + Texts(emitted, b)
  {
  }

  lemma TextsOne(emitted: seq<Text>, p: Piece)
    ensures Texts(emitted, [p]) == [TextOf(emitted, p)] && Texts(emitted, []) == []
  {
  }

  /** The history after a write of n bytes: the bytes taken, and the pieces
      that began with them. */
  ghost function Written(h: History, fly: Batch, fids: seq<nat>, text: Text, n: nat): History
    requires n <= Size(Segments(fly, text)) && Whole(h.emitted, fly, fids)
  {
    SegmentsArePieces(h.emitted, fly, fids, text);
    h.(begun := h.begun + Pieces(fly, fids, text)[..NewPieces(fly, text, n)],
       stream := h.stream + Concat(Segments(fly, text))[..n])
  }

  /** The records that did not begin. */
  ghost function Unbegun(fly: Batch, fids: seq<nat>, text: Text, n: nat): seq<nat>
    requires n <= Size(Segments(fly, text)) && |Segments(fly, text)| == (if fly.partial then 1 else 0) + |Pieces(fly, fids, text)|
  {
    fids[RecordsIn(fly, NewPieces(fly, text, n))..]
  }

  /** The rest a write leaves: what is left of the segment it stopped in, or
      a begun head it did not touch. */
  lemma RestLeft(fly: Batch, text: Text, n: nat)
    requires n <= Size(Segments(fly, text)) && (fly.partial ==> fly.queue != [])
    ensures var ts := Segments(fly, text);
            var j, m := Full(ts, n), Over(ts, n);
            Rest(Remaining(fly, text, n)) == if m > 0 then (StopsAt(ts, n); ts[j][m..])
                                             else if j == 0 then Rest(fly) else []
    ensures Remaining(fly, text, n).partial <==> Rest(Remaining(fly, text, n)) != [] || (Full(Segments(fly, text), n) == 0 && fly.partial)
  {
    hide Size, Concat, Full, Over;
    var ts := Segments(fly, text);
    StopsAt(ts, n);
    if fly.partial {
      assert ts[0] == fly.queue[0];
      assert Unmarked(ts, 0, |ts|, MarkerAt(fly))[0] == ts[0];
    }
  }

  /** The bytes: stream and rest still add up to whole pieces. */
  lemma WriteBytes(h: History, fly: Batch, fids: seq<nat>, text: Text, n: nat)
    requires Whole(h.emitted, fly, fids) && n <= Size(Segments(fly, text))
    requires h.stream + Rest(fly) == Concat(Texts(h.emitted, h.begun))
    ensures var h' := Written(h, fly, fids, text, n);
            h'.stream + Rest(Remaining(fly, text, n)) == Concat(Texts(h.emitted, h'.begun))
  {
    hide Texts, Concat, Size, Full, Over, Remaining, Rest, Segments, Pieces, Whole;
    var e := h.emitted;
    var ts := Segments(fly, text);
    var ps := Pieces(fly, fids, text);
    var x := NewPieces(fly, text, n);
    var j, m, k := Full(ts, n), Over(ts, n), Begun(fly, text, n);
    var off := if fly.partial then 1 else 0;
    HeadQueued(e, fly, fids);
    SegmentsArePieces(e, fly, fids, text);
    StopsAt(ts, n);
    RestLeft(fly, text, n);
    if k < off {
      assert ps[..x] == [] && h.begun + ps[..x] == h.begun;
      ConcatNone(ts);
      assert Concat(ts)[..n] == [];
    } else {
      BegunConcat(h, fly, ts, ps, x);
      if m > 0 {
        assert ts[..k] == ts[..j] + [ts[j]];
        ConcatAppend(ts[..j], [ts[j]]);
        ConcatOne(ts[j]);
        assert Concat(ts[..j]) + ts[j][..m] + ts[j][m..] == Concat(ts[..k]);
      } else {
        assert Concat(ts)[..n] == Concat(ts[..j]);
        HeadEmpty(fly, j);
      }
    }
  }

  lemma HeadQueued(emitted: seq<Text>, b: Batch, ids: seq<nat>)
    requires Whole(emitted, b, ids)
    ensures b.partial ==> b.queue != []
  {
  }

  lemma HeadEmpty(b: Batch, j: nat)
    requires j == 0 ==> !b.partial
    ensures j == 0 ==> Rest(b) == []
  {
  }

  lemma BegunConcat(h: History, fly: Batch, ts: seq<Text>, ps: seq<Piece>, x: nat)
    requires fly.partial ==> fly.queue != []
    requires ts == (if fly.partial then [fly.queue[0]] else []) + Texts(h.emitted, ps) && x <= |ps|
    requires h.stream + Rest(fly) == Concat(Texts(h.emitted, h.begun))
    ensures h.stream + Concat(ts[..(if fly.partial then 1 else 0) + x]) == Concat(Texts(h.emitted, h.begun + ps[..x]))
  {
    hide Texts, Concat, Rest;
    var e := h.emitted;
    var head := if fly.partial then [fly.queue[0]] else [];
    TextsAppend(e, h.begun, ps[..x]);
    TextsPrefix(e, ps, x);
    ConcatAppend(Texts(e, h.begun), Texts(e, ps)[..x]);
    assert ts[..|head| + x] == head + Texts(e, ps)[..x];
    ConcatAppend(head, Texts(e, ps)[..x]);
    HeadConcat(fly, head);
    assert h.stream + (Rest(fly) + Concat(Texts(e, ps)[..x])) == h.stream + Rest(fly) + Concat(Texts(e, ps)[..x]);
  }

  lemma HeadConcat(b: Batch, head: seq<Text>)
    requires b.partial ==> b.queue != []
    requires head == if b.partial then [b.queue[0]] else []
    ensures Concat(head) == Rest(b)
  {
  }

  lemma ConcatOne(t: Text)
    ensures Concat([t]) == t
  {
  }

  lemma TextsPrefix(emitted: seq<Text>, ps: seq<Piece>, x: nat)
    requires x <= |ps|
    ensures Texts(emitted, ps[..x]) == Texts(emitted, ps)[..x]
  {
  }

  lemma ConcatNone(ts: seq<Text>)
    ensures Concat(ts[..0]) == [] && Concat<byte>([]) == []
  {
  }

  /** Past the head, what was not begun is the queue's tail. */
  lemma UnmarkedTail(b: Batch, text: Text, k: nat)
    requires b.partial ==> b.queue != []
    requires var off := if b.partial then 1 else 0; off <= k <= |Segments(b, text)|
    ensures var off := if b.partial then 1 else 0;
            && off + RecordsIn(b, k - off) <= |b.queue|
            && Unmarked(Segments(b, text), k, |Segments(b, text)|, MarkerAt(b)) == b.queue[off + RecordsIn(b, k - off)..]
  {
    hide Segments, Unmarked;
    var off := if b.partial then 1 else 0;
    var ts := Segments(b, text);
    if b.dropped == 0 {
      Whole0(b, text);
      assert Unmarked(ts, k, |ts|, -1) == ts[k..] by { UnmarkedAll(ts, k); }
    } else {
      Whole1(b, text);
      TailOf(ts, b.queue, off, k);
    }
  }

  lemma Whole0(b: Batch, text: Text)
    requires b.dropped == 0
    ensures Segments(b, text) == b.queue
  {
  }

  lemma Whole1(b: Batch, text: Text)
    requires b.dropped > 0 && (b.partial ==> b.queue != [])
    ensures var off := if b.partial then 1 else 0;
            |Segments(b, text)| == |b.queue| + 1 && Segments(b, text)[off + 1..] == b.queue[off..]
  {
  }

  lemma UnmarkedAll(ts: seq<Text>, k: nat)
    requires k <= |ts|
    ensures Unmarked(ts, k, |ts|, -1) == ts[k..]
  {
  }

  lemma TailOf(ts: seq<Text>, q: seq<Text>, off: nat, k: nat)
    requires off <= |q| && |ts| == |q| + 1 && ts[off + 1..] == q[off..] && off <= k <= |ts|
    ensures Unmarked(ts, k, |ts|, off) == q[if k == off then off else k - 1..]
  {
    if k > off {
      assert ts[k..] == ts[off + 1..][k - off - 1..];
      assert q[k - 1..] == q[off..][k - off - 1..];
    } else {
      assert ts[k..off] == [];
    }
  }

  /** A head the write did not reach: nothing changed. */
  lemma Untouched(b: Batch, text: Text, n: nat)
    requires n <= Size(Segments(b, text)) && b.partial && b.queue != [] && Begun(b, text, n) == 0
    ensures Remaining(b, text, n) == b
  {
    hide Size, Concat, Full, Over;
    var ts := Segments(b, text);
    StopsAt(ts, n);
    assert Unmarked(ts, 0, |ts|, MarkerAt(b)) == b.queue;
  }

  /** What a write leaves beyond the rest it stopped in: the records and the
      count that did not begin. */
  lemma LeftWhole(h: History, fly: Batch, fids: seq<nat>, text: Text, n: nat)
    requires Whole(h.emitted, fly, fids) && n <= Size(Segments(fly, text))
    ensures |Segments(fly, text)| == (if fly.partial then 1 else 0) + |Pieces(fly, fids, text)|
    ensures Whole(h.emitted, Remaining(fly, text, n), Unbegun(fly, fids, text, n))
    ensures Remaining(fly, text, n).dropped == if NewPieces(fly, text, n) == 0 then fly.dropped else 0
  {
    hide Size, Concat, Full, Over, Texts, Segments, Unmarked, Remaining, Pieces, Left, Whole, Rest, Begun;
    SegmentsArePieces(h.emitted, fly, fids, text);
    PieceCount(fly, fids, text);
    HeadQueued(h.emitted, fly, fids);
    var off := if fly.partial then 1 else 0;
    var k := Begun(fly, text, n);
    if k < off {
      Untouched(fly, text, n);
      assert fids[0..] == fids;
    } else {
      UnmarkedTail(fly, text, k);
      LeftParts(fly, text, n);
      WholeTail(h.emitted, fly, fids, Remaining(fly, text, n), RecordsIn(fly, k - off));
    }
  }

  lemma WholeTail(emitted: seq<Text>, b: Batch, ids: seq<nat>, r: Batch, c: nat)
    requires Whole(emitted, b, ids) && c <= |ids|
    requires r.queue == (if r.partial then [Rest(r)] else []) + b.queue[(if b.partial then 1 else 0) + c..]
    ensures Whole(emitted, r, ids[c..])
  {
  }

  lemma PieceCount(b: Batch, ids: seq<nat>, text: Text)
    ensures |Pieces(b, ids, text)| == |ids| + (if b.dropped > 0 then 1 else 0)
  {
  }

  lemma LeftParts(b: Batch, text: Text, n: nat)
    requires n <= Size(Segments(b, text)) && (b.partial ==> b.queue != [])
    requires Begun(b, text, n) > 0 || !b.partial
    ensures var ts, k := Segments(b, text), Begun(b, text, n);
            var r := Remaining(b, text, n);
            && r.queue == (if r.partial then [Rest(r)] else []) + Unmarked(ts, k, |ts|, MarkerAt(b))
            && r.dropped == (if k <= MarkerAt(b) < |ts| then b.dropped else 0)
            && (r.partial ==> r.queue != []) && MarkerAt(b) < |ts|
  {
    hide Size, Concat, Full, Over, Unmarked;
    StopsAt(Segments(b, text), n);
    assert Unmarked(Segments(b, text), |Segments(b, text)|, |Segments(b, text)|, MarkerAt(b)) == [] by { UnmarkedNone(Segments(b, text), MarkerAt(b)); }
  }

  lemma UnmarkedNone(ts: seq<Text>, at: int)
    ensures Unmarked(ts, |ts|, |ts|, at) == []
  {
  }

  /** A rest is a proper part of the piece begun last, after a write too. */
  lemma WriteInside(h: History, fly: Batch, fids: seq<nat>, text: Text, n: nat)
    requires Whole(h.emitted, fly, fids) && n <= Size(Segments(fly, text)) && Inside(h, fly)
    ensures Inside(Written(h, fly, fids, text, n), Remaining(fly, text, n))
  {
    hide Texts, Concat, Size, Full, Over, Remaining, Segments, Pieces, Whole, Rest, TextOf;
    var ts := Segments(fly, text);
    var ps := Pieces(fly, fids, text);
    var x := NewPieces(fly, text, n);
    HeadQueued(h.emitted, fly, fids);
    HeadRest(fly);
    SegmentsArePieces(h.emitted, fly, fids, text);
    StopsAt(ts, n);
    RestLeft(fly, text, n);
    if x == 0 {
      assert h.begun + ps[..x] == h.begun;
    } else {
      assert (h.begun + ps[..x])[|h.begun| + x - 1] == ps[x - 1];
      TextsAt(h.emitted, ps, x - 1);
    }
  }

  lemma HeadRest(b: Batch)
    ensures b.partial && b.queue != [] ==> Rest(b) == b.queue[0]
    ensures !b.partial ==> Rest(b) == []
  {
  }

  lemma TextsAt(emitted: seq<Text>, ps: seq<Piece>, i: nat)
    requires i < |ps|
    ensures Texts(emitted, ps)[i] == TextOf(emitted, ps[i])
  {
  }

  /** The view after the flusher wrote n bytes. */
  ghost function WriteView(v: View, text: Text, n: nat): View
    requires Whole(v.h.emitted, v.fly, v.fids) && n <= Size(Segments(v.fly, text))
  {
    SegmentsArePieces(v.h.emitted, v.fly, v.fids, text);
    v.(h := Written(v.h, v.fly, v.fids, text, n), fly := Remaining(v.fly, text, n), fids := Unbegun(v.fly, v.fids, text, n))
  }

  lemma WriteKeeps(v: View, text: Text, n: nat)
    requires Inv(v) && v.flying && n <= Size(Segments(v.fly, text))
    ensures Inv(WriteView(v, text, n))
  {
    hide Texts, Concat, Size, Remaining, Segments, Begun, Pieces, Whole, Rest, Ids, Reported, Ascending, Known, Inside;
    var fly, fids := v.fly, v.fids;
    LeftWhole(v.h, fly, fids, text, n);
    NoRest(v.wait);
    assert v.h.stream + Rest(fly) + [] == v.h.stream + Rest(fly);
    WriteBytes(v.h, fly, fids, text, n);
    WriteInside(v.h, fly, fids, text, n);
    WriteKnown(v.h, fly, fids, text, n);
    var w := WriteView(v, text, n);
    assert w.h.stream + Rest(w.fly) + [] == w.h.stream + Rest(w.fly);
    var x := NewPieces(fly, text, n);
    PiecesBegun(fly, fids, text, x);
    IdsAppend(v.h.begun, Pieces(fly, fids, text)[..x]);
    Waiting(v, w);
    var r := RecordsIn(fly, x);
    PieceCount(fly, fids, text);
    assert Ids(v.h.begun) + fids[..r] + fids[r..] + v.wids == Ids(v.h.begun) + fids + v.wids;
  }

  lemma Waiting(v: View, w: View)
    requires v.h.emitted == w.h.emitted && v.wait == w.wait && !v.wait.partial
    ensures Inside(w.h, w.wait)
  {
  }

  lemma NoRest(b: Batch)
    requires !b.partial
    ensures Rest(b) == []
  {
  }

  lemma WriteKnown(h: History, fly: Batch, fids: seq<nat>, text: Text, n: nat)
    requires Known(h) && Whole(h.emitted, fly, fids) && n <= Size(Segments(fly, text))
    ensures Known(Written(h, fly, fids, text, n))
  {
    hide Texts, Concat, Size, Begun;
    SegmentsArePieces(h.emitted, fly, fids, text);
  }

  /** The view after a record is emitted. */
  ghost function AddView(v: View, rec: Text): View
  {
    v.(h := v.h.(emitted := v.h.emitted + [rec]), wait := v.wait.(queue := v.wait.queue + [rec]),
       wids := v.wids + [|v.h.emitted|])
  }

  lemma AddKeeps(v: View, rec: Text)
    requires Inv(v) && rec != []
    ensures Inv(AddView(v, rec))
  {
    hide Concat, Ids, Reported, Texts, Ascending;
    var w := AddView(v, rec);
    TextsGrow(v.h, rec);
    assert Ids(w.h.begun) + w.fids + w.wids == Ids(v.h.begun) + v.fids + v.wids + [|v.h.emitted|];
    AscendingSnoc(Ids(v.h.begun) + v.fids + v.wids, |v.h.emitted|);
  }

  lemma AscendingSnoc(s: seq<nat>, n: nat)
    requires Ascending(s, n)
    ensures Ascending(s + [n], n + 1)
  {
  }

  lemma TextsGrow(h: History, rec: Text)
    requires Known(h)
    ensures Texts(h.emitted + [rec], h.begun) == Texts(h.emitted, h.begun)
  {
  }

  /** How many records trimming may not remove. */
  function Keep(b: Batch): (k: nat)
  {
    if b.partial then 2 else 1
  }

  /** A queue without its oldest whole record. */
  function DropOne(b: Batch): (r: Batch)
    requires |b.queue| > Keep(b)
  {
    b.(queue := b.queue[..Keep(b) - 1] + b.queue[Keep(b)..], dropped := b.dropped + 1)
  }

  /** A queue trimmed to the limit. */
  function Trimmed(b: Batch): (r: Batch)
    ensures Size(r.queue) <= LIMIT || |r.queue| <= Keep(r)
    ensures Size(b.queue) <= LIMIT ==> r == b
    decreases |b.queue|
  {
    if Size(b.queue) > LIMIT && |b.queue| > Keep(b) then Trimmed(DropOne(b)) else b
  }

  ghost function DropView(v: View): View
    requires |v.wids| > 0 && |v.wait.queue| > Keep(v.wait)
  {
    v.(wait := DropOne(v.wait), wids := v.wids[1..])
  }

  lemma DropKeeps(v: View)
    requires Inv(v) && |v.wait.queue| > Keep(v.wait)
    ensures |v.wids| > 0 && Inv(DropView(v))
  {
    hide Concat, Ids, Reported, Texts, Ascending;
    AscendingDrop(Ids(v.h.begun) + v.fids, v.wids, |v.h.emitted|);
  }

  lemma AscendingDrop(a: seq<nat>, b: seq<nat>, n: nat)
    requires b != [] && Ascending(a + b, n)
    ensures Ascending(a + b[1..], n)
  {
    var s, t := a + b, a + b[1..];
    assert forall i :: 0 <= i < |a| ==> t[i] == s[i];
    assert forall i :: |a| <= i < |t| ==> t[i] == s[i + 1];
  }

  ghost function TrimView(v: View): View
    decreases |v.wait.queue|
  {
    if Size(v.wait.queue) > LIMIT && |v.wait.queue| > Keep(v.wait) && |v.wids| > 0 then TrimView(DropView(v)) else v
  }

  lemma SizeDrop(b: Batch)
    requires |b.queue| > Keep(b)
    ensures Size(DropOne(b).queue) == Size(b.queue) - |b.queue[Keep(b) - 1]|
  {
    hide Concat, Size;
    var k := Keep(b) - 1;
    ConcatAppend(b.queue[..k], b.queue[k + 1..]);
    assert b.queue == b.queue[..k] + ([b.queue[k]] + b.queue[k + 1..]);
    ConcatAppend(b.queue[..k], [b.queue[k]] + b.queue[k + 1..]);
    ConcatAppend([b.queue[k]], b.queue[k + 1..]);
    ConcatOne(b.queue[k]);
  }

  /** Trimming keeps the invariant, drops only the oldest whole records and
      changes nothing else. */
  lemma {:induction false} TrimKeeps(v: View)
    requires Inv(v)
    ensures Inv(TrimView(v)) && TrimView(v).wait == Trimmed(v.wait)
    ensures var w := TrimView(v);
            && |w.wids| <= |v.wids| && w.wids == v.wids[|v.wids| - |w.wids|..]
            && w == v.(wait := w.wait, wids := w.wids)
    decreases |v.wait.queue|
  {
    hide Concat, Ids, Reported, Texts, Ascending, Size, Inside, Aligned, Ordered, Known, Conserved, Whole;
    if Size(v.wait.queue) > LIMIT && |v.wait.queue| > Keep(v.wait) {
      DropKeeps(v);
      TrimKeeps(DropView(v));
    }
  }

  /** Trimming drops no more than the limit asks: with the record dropped last
      the queue would still be over it. */
  lemma {:induction false} TrimMinimal(v: View)
    requires Inv(v)
    ensures |TrimView(v).wids| <= |v.wids|
    ensures |TrimView(v).wids| == |v.wids| ==> TrimView(v) == v
    ensures var w := TrimView(v);
            var d := |v.wids| - |w.wids|;
            d > 0 ==> v.wids[d - 1] < |v.h.emitted| && Size(w.wait.queue) + |v.h.emitted[v.wids[d - 1]]| > LIMIT
    decreases |v.wids|
  {
    hide Concat, Size, Inv, TrimView, DropOne;
    TrimStep(v);
    if Size(v.wait.queue) > LIMIT && |v.wait.queue| > Keep(v.wait) {
      DropKeeps(v);
      SizeDrop(v.wait);
      Victim(v);
      TrimMinimal(DropView(v));
    }
  }

  lemma Victim(v: View)
    requires Inv(v) && |v.wait.queue| > Keep(v.wait)
    ensures |v.wids| > 0 && v.wids[0] < |v.h.emitted| && v.wait.queue[Keep(v.wait) - 1] == v.h.emitted[v.wids[0]]
  {
    hide Ids, Reported, Texts, Concat, Ascending;
  }

  lemma TrimStep(v: View)
    requires Inv(v)
    ensures if Size(v.wait.queue) > LIMIT && |v.wait.queue| > Keep(v.wait)
            then |v.wids| > 0 && TrimView(v) == TrimView(DropView(v)) else TrimView(v) == v
  {
  }

  ghost predicate Bounded(b: Batch)
  {
    Size(b.queue) <= LIMIT || |b.queue| <= Keep(b)
  }

  /** The flusher takes the queue. */
  ghost function TakeView(v: View): View
  {
    v.(flying := true, fly := v.wait, fids := v.wids, wait := NOTHING, wids := [])
  }

  lemma TakeKeeps(v: View)
    requires Inv(v) && !v.flying
    ensures Inv(TakeView(v))
  {
    hide Concat, Ids, Reported, Texts, Ascending;
    assert v.fids == [];
    assert Ids(v.h.begun) + [] + v.wids == Ids(v.h.begun) + v.wids + [];
    assert v.h.stream + [] + Rest(v.wait) == v.h.stream + Rest(v.wait) + [];
  }

  /** The flusher puts back what was not taken, ahead of what came since. */
  ghost function PutBackView(v: View): View
  {
    v.(flying := false, fly := NOTHING, fids := [], wids := v.fids + v.wids,
       wait := Batch(v.fly.queue + v.wait.queue, v.wait.dropped + v.fly.dropped, v.fly.partial))
  }

  lemma PutBackKeeps(v: View)
    requires Inv(v) && v.flying
    ensures Inv(PutBackView(v))
  {
    hide Concat, Ids, Reported, Texts, Ascending;
    var w := PutBackView(v);
    assert Ids(v.h.begun) + [] + (v.fids + v.wids) == Ids(v.h.begun) + v.fids + v.wids;
    assert Rest(w.wait) == Rest(v.fly);
    assert v.h.stream + [] + Rest(v.fly) == v.h.stream + Rest(v.fly) + [];
  }

  /** One target as emitters and the flusher see it. `fly` is the flusher's
      own copy between taking the queue and putting the rest back. */
  class Target {
    var queue: seq<Text>
    var size: nat
    var dropped: nat
    var partial: bool
    var closed: bool
    var fly: Batch
    var flying: bool
    ghost var h: History
    ghost var fids: seq<nat>
    ghost var wids: seq<nat>

    ghost function V(): View
      reads this
    {
      View(h, flying, fly, fids, Batch(queue, dropped, partial), wids)
    }

    /** What holds before the queue is trimmed. */
    ghost predicate Sound()
      reads this
    {
      Inv(V()) && size == Size(queue)
    }

    ghost predicate Valid()
      reads this
    {
      Sound() && Bounded(V().wait)
    }

    constructor ()
      ensures Valid() && V() == View(History([], [], []), false, NOTHING, [], NOTHING, []) && !closed
    {
      queue, size, dropped, partial, closed := [], 0, 0, false, false;
      fly, flying := NOTHING, false;
      h, fids, wids := History([], [], []), [], [];
      new;
      hide Inv, Size;
      SizeEmpty();
      Fresh(V());
    }

    /** Brings the queue to its trimmed form, one record at a time. */
    method TrimLocked()
      requires Sound()
      modifies this`queue, this`size, this`dropped, this`wids
      ensures Valid() && V() == TrimView(old(V()))
    {
      hide Inv, Size, Concat, TrimView;
      var keep := if partial then 2 else 1;
      TrimStep(V());
      while size > LIMIT && |queue| > keep
        invariant Sound() && V().wait.partial == old(V()).wait.partial && TrimView(V()) == TrimView(old(V()))
        invariant (size > LIMIT && |queue| > keep) || TrimView(V()) == V()
        decreases |queue|
      {
        var victim := keep - 1;
        ghost var v := V();
        DropKeeps(v);
        SizeDrop(v.wait);
        size := size - |queue[victim]|;
        queue := queue[victim := queue[0]][1..];
        dropped := dropped + 1;
        wids := wids[1..];
        assert queue == DropOne(v.wait).queue;
        assert V() == DropView(v);
        TrimStep(v);
        TrimStep(V());
      }
    }

    /** Queues one record, unless the writer is closed. Reports whether the
        flusher should be woken. */
    method Add(rec: Text) returns (kick: bool)
      requires Valid() && rec != []
      modifies this`queue, this`size, this`dropped, this`wids, this`h
      ensures Valid()
      ensures V() == if closed then old(V()) else TrimView(AddView(old(V()), rec))
      ensures h.emitted == if closed then old(h.emitted) else old(h.emitted) + [rec]
      ensures kick <==> !closed && Size(queue) >= LIMIT / 2
    {
      hide Inv, Size, Concat, TrimView;
      if closed {
        return false;
      }
      AddKeeps(V(), rec);
      SizeAppend(queue, [rec]);
      SizeOne(rec);
      queue := queue + [rec];
      size := size + |rec|;
      wids := wids + [|h.emitted|];
      h := h.(emitted := h.emitted + [rec]);
      assert V() == AddView(old(V()), rec);
      TrimLocked();
      kick := size >= LIMIT / 2;
    }

    /** The flusher's first step: take the queue, unless there is nothing. */
    method Take() returns (some: bool)
      requires Valid() && !flying
      modifies this
      ensures Valid() && closed == old(closed) && h == old(h)
      ensures some <==> old(queue) != [] || old(dropped) > 0
      ensures V() == if some then TakeView(old(V())) else old(V())
    {
      hide Inv, Size, Concat;
      some := queue != [] || dropped > 0;
      if !some {
        return;
      }
      TakeKeeps(V());
      SizeEmpty();
      fly, flying := Batch(queue, dropped, partial), true;
      queue, size, dropped, partial := [], 0, 0, false;
      fids, wids := wids, [];
    }

    /** The flusher's second step: one write of everything taken, of which the
        target takes `taken` bytes. When the target cannot be opened nothing
        changes. */
    method Write(opens: bool, text: Text, taken: nat)
      requires Valid() && flying && text != []
      requires taken <= Size(Segments(fly, text))
      requires NonEmpty(fly.queue)
      modifies this`fly, this`h, this`fids
      ensures Valid()
      ensures Whole(old(V()).h.emitted, old(fly), old(fids))
      ensures V() == if opens then WriteView(old(V()), text, taken) else old(V())
      ensures h.emitted == old(h.emitted)
    {
      hide Size, Concat, Remaining, Segments, Whole, Inside, Written, Unbegun, Texts;
      if !opens {
        return;
      }
      ghost var v := V();
      WriteKeeps(v, text, taken);
      ghost var w := WriteView(v, text, taken);
      var buf;
      buf, fly := WriteTarget(fly, text, taken);
      h, fids := w.h.(stream := v.h.stream + buf[..taken]), w.fids;
      StreamIs(v, text, taken);
      assert V() == w;
      SameEmitted(v, text, taken);
    }

    /** The flusher's last step: put back what was not taken. */
    method PutBack() returns (drained: bool)
      requires Valid() && flying
      modifies this
      ensures Valid() && closed == old(closed) && h == old(h)
      ensures drained <==> old(fly).queue == [] && old(fly).dropped == 0
      ensures V() == if drained then PutBackView(old(V())) else TrimView(PutBackView(old(V())))
    {
      hide Inv, Size, Concat, TrimView;
      ghost var v := V();
      PutBackKeeps(v);
      drained := |fly.queue| == 0 && fly.dropped == 0;
      if drained {
        Drained(v);
      } else {
        SizeAppend(fly.queue, queue);
        size := size + Size(fly.queue);
        queue := fly.queue + queue;
        dropped := dropped + fly.dropped;
        partial := fly.partial;
      }
      fly, flying := NOTHING, false;
      fids, wids := [], fids + wids;
      assert V() == PutBackView(v);
      if !drained {
        TrimLocked();
      }
    }
  }

  lemma StreamIs(v: View, text: Text, n: nat)
    requires Whole(v.h.emitted, v.fly, v.fids) && n <= Size(Segments(v.fly, text))
    ensures WriteView(v, text, n).h.stream == v.h.stream + Concat(Segments(v.fly, text))[..n]
  {
  }

  lemma SameEmitted(v: View, text: Text, n: nat)
    requires Whole(v.h.emitted, v.fly, v.fids) && n <= Size(Segments(v.fly, text))
    ensures WriteView(v, text, n).h.emitted == v.h.emitted
  {
  }

  lemma Fresh(v: View)
    requires v == View(History([], [], []), false, NOTHING, [], NOTHING, [])
    ensures Inv(v)
  {
  }

  lemma SizeAppend(a: seq<Text>, b: seq<Text>)
    ensures Size(a + b) == Size(a) + Size(b)
  {
    ConcatAppend(a, b);
  }

  lemma SizeOne(t: Text)
    ensures Size([t]) == |t|
  {
  }

  lemma SizeEmpty()
    ensures Size([]) == 0
  {
  }

  /** With nothing left to put back the queue is already right. */
  lemma Drained(v: View)
    requires Inv(v) && v.flying && v.fly.queue == [] && v.fly.dropped == 0
    ensures PutBackView(v).wait == v.wait
  {
    assert [] + v.wait.queue == v.wait.queue;
  }

  /** What the invariant means. The bytes taken are a prefix of whole pieces,
      whose records are emitted ones in emission order. Between flushes the
      stream stops inside a piece exactly when partial is set, and the queue's
      first text is then what that piece still lacks. Every emitted record is
      on the stream, queued, in flight or counted as dropped. */
  ghost predicate Integrity(v: View)
  {
    var texts := Texts(v.h.emitted, v.h.begun);
    && v.h.stream <= Concat(texts)
    && Ascending(Ids(v.h.begun), |v.h.emitted|)
    && Ascending(Ids(v.h.begun) + v.fids + v.wids, |v.h.emitted|)
    && (!v.flying ==>
          && (v.wait.partial <==> !exists k :: 0 <= k <= |texts| && v.h.stream == Concat(texts[..k]))
          && (v.wait.partial ==> v.wait.queue != [] && v.h.stream + v.wait.queue[0] == Concat(texts)))
    && |v.h.emitted| == |Ids(v.h.begun)| + |v.fids| + |v.wids| + v.fly.dropped + v.wait.dropped + Reported(v.h.begun)
  }

  lemma InvGives(v: View)
    requires Inv(v)
    ensures Integrity(v)
  {
    hide Concat, Ids, Reported, Texts, Size, Known, Whole;
    var texts := Texts(v.h.emitted, v.h.begun);
    assert Ids(v.h.begun) + (v.fids + v.wids) == Ids(v.h.begun) + v.fids + v.wids;
    AscendingPrefix(Ids(v.h.begun), v.fids + v.wids, |v.h.emitted|);
    HeadQueued(v.h.emitted, v.wait, v.wids);
    if !v.flying {
      assert v.h.stream + Rest(v.fly) + Rest(v.wait) == v.h.stream + Rest(v.wait);
      if v.wait.partial {
        TextsAt(v.h.emitted, v.h.begun, |v.h.begun| - 1);
        assert |v.h.stream| + |Rest(v.wait)| == |Concat(texts)|;
        assert 0 < |Rest(v.wait)| < |texts[|texts| - 1]|;
        forall k | 0 <= k <= |texts| ensures v.h.stream != Concat(texts[..k]) {
          NotBoundary(texts, |v.h.stream|, k);
        }
      } else {
        assert texts[..|texts|] == texts && v.h.stream + [] == v.h.stream;
      }
    }
  }

  lemma AscendingPrefix(a: seq<nat>, b: seq<nat>, n: nat)
    requires Ascending(a + b, n)
    ensures Ascending(a, n)
  {
    var s := a + b;
    assert forall i :: 0 <= i < |a| ==> a[i] == s[i];
  }

  lemma NotBoundary(ts: seq<Text>, n: nat, k: nat)
    requires k <= |ts| && ts != [] && |Concat(ts)| - |ts[|ts| - 1]| < n < |Concat(ts)|
    ensures |Concat(ts[..k])| != n
  {
    hide Concat, Size;
    var last := |ts| - 1;
    SizeStep(ts, last);
    assert ts[..last + 1] == ts;
    if k <= last {
      SizeGrows(ts, k, last);
    }
  }

  /** What the outside does: emit a record, stop the writer, or let the
      flusher take its next step. */
  datatype Step = Emit(rec: Text) | Close | Flush(opens: bool, marker: Text, taken: nat)

  /** The records a script has queued: those emitted before it stops. */
  function Accepted(script: seq<Step>): (ts: seq<Text>)
  {
    if script == [] then []
    else
      var ts, last := Accepted(script[..|script| - 1]), script[|script| - 1];
      if last.Emit? && Close !in script[..|script| - 1] then ts + [last.rec] else ts
  }

  /** Any run: emitters and the flusher's three steps interleaved at will,
      each write taking any number of bytes. */
  method Run(script: seq<Step>) returns (t: Target)
    requires forall i :: 0 <= i < |script| ==> (script[i].Emit? ==> script[i].rec != []) && (script[i].Flush? ==> script[i].marker != [])
    ensures fresh(t) && t.Valid() && Integrity(t.V()) && Bounded(t.V().wait)
    ensures t.h.emitted == Accepted(script)
  {
    hide Inv, Integrity, Bounded, Size, Concat, Segments, TrimView, WriteView, Whole;
    t := new Target();
    var written := false;
    for i := 0 to |script|
      invariant fresh(t) && t.Valid()
      invariant t.h.emitted == Accepted(script[..i]) && (t.closed <==> Close in script[..i])
    {
      assert script[..i + 1][..i] == script[..i] && script[..i + 1] == script[..i] + [script[i]];
      match script[i]
      case Emit(rec) =>
        var _ := t.Add(rec);
      case Close =>
        t.closed := true;
      case Flush(opens, marker, taken) =>
        if !t.flying {
          var some := t.Take();
          written := false;
        } else if !written {
          var all := Size(Segments(t.fly, marker));
          FlyNonEmpty(t.V());
          t.Write(opens, marker, if taken <= all then taken else all);
          written := true;
        } else {
          var _ := t.PutBack();
        }
    }
    assert script[..|script|] == script;
    InvGives(t.V());
  }

  lemma FlyNonEmpty(v: View)
    requires Inv(v)
    ensures NonEmpty(v.fly.queue)
  {
    hide Known, Ordered, Aligned, Conserved;
    var off := if v.fly.partial then 1 else 0;
    assert NonEmpty(v.h.emitted) by { Emitted(v.h); }
    forall i | 0 <= i < |v.fly.queue| ensures v.fly.queue[i] != [] {
      if i >= off {
        assert v.fly.queue[off + (i - off)] == v.h.emitted[v.fids[i - off]];
      }
    }
  }

  lemma Emitted(h: History)
    requires Known(h)
    ensures NonEmpty(h.emitted)
  {
  }
}
