/** The sending half of a session: messages cut into sealed records in one
    buffer that several records share, batched into connection writes. */
module WriteSide {
  import opened Bytes
  import opened RecordCipher
  import opened Records

  const PROGRESS_WRITE: nat := 16384
  const MIN_RECORD: nat := HEADER_SIZE + 1 + TAG_SIZE

  /** Why a call on the writer stopped: it did not, the message had already
      ended, or the session is poisoned. */
  datatype Outcome = Ok | MessageEnded | SessionFailed

  /** A sender's state as a value: what the connection took, the buffer and
      its marks, every record sealed so far and the open record's bytes. */
  datatype View = View(
    wire: seq<Cell>, held: bool, buf: seq<Cell>, woff: nat, rec: int, pending: nat, sealed: nat,
    log: seq<Record>, open: seq<byte>)

  /** The payload capacity of an open record at rec: all that a record may
      carry and the buffer still has. */
  function Room(rec: int): (n: int)
    ensures n <= MAX_EMIT_PAYLOAD && rec + HEADER_SIZE + n + TAG_SIZE <= WRITE_BUFFER
    ensures n == MAX_EMIT_PAYLOAD || rec + HEADER_SIZE + n + TAG_SIZE == WRITE_BUFFER
  {
    var left := WRITE_BUFFER - rec - HEADER_SIZE - TAG_SIZE;
    if MAX_EMIT_PAYLOAD < left then MAX_EMIT_PAYLOAD else left
  }

  /** Everything given to the writer so far. */
  ghost function Given(v: View): seq<Item>
  {
    Stream(v.log) + AsItems(v.open)
  }

  /** The buffer's shape, on a poisoned session too: plaintext lies only in
      the open record, and the connection has a prefix of the records. */
  ghost predicate Shape(d: Direction, v: View)
  {
    && Emitted(v.log)
    && v.wire <= Encode(d, v.log, 0)
    && -1 <= v.rec
    && (v.rec == -1 ==> v.pending == 0 && v.open == [])
    && (!v.held ==> v.buf == [] && v.woff == 0 && v.rec == -1 && v.sealed == 0)
    && (v.held ==> |v.buf| == WRITE_BUFFER && v.woff <= WRITE_BUFFER)
    && (v.rec >= 0 ==> v.rec + HEADER_SIZE + v.pending <= WRITE_BUFFER)
    && SecretsWithin(v.buf, v.rec + HEADER_SIZE, v.rec + HEADER_SIZE + v.pending)
  }

  /** What the connection has plus what is queued is every record sealed, and
      the open record sits behind them with room for at least a byte. */
  ghost predicate Working(d: Direction, v: View)
  {
    && Shape(d, v)
    && Encode(d, v.log, 0) == v.wire + v.buf[..v.woff]
    && (v.sealed == 0 <==> v.woff == 0)
    && (v.rec >= 0 ==>
          && v.rec == v.woff
          && WRITE_BUFFER - v.rec >= MIN_RECORD
          && v.pending == |v.open| <= Room(v.rec)
          && v.buf[v.rec + HEADER_SIZE..v.rec + HEADER_SIZE + v.pending] == Secrets(v.open))
  }

  ghost function SealedView(d: Direction, v: View, r: Record): View
    requires Fits(r) && 0 <= v.rec && v.rec + HEADER_SIZE + |r.payload| + TAG_SIZE <= |v.buf|
  {
    var w := WireRecord(d, |v.log|, r);
    v.(buf := Over(v.buf, v.rec, w), woff := v.rec + |w|, rec := -1, pending := 0,
       sealed := v.sealed + 1, log := v.log + [r], open := [])
  }

  lemma SealKeeps(d: Direction, v: View, r: Record)
    requires Working(d, v) && v.rec >= 0 && Emittable(r)
    requires r.payload == v.open || v.open == []
    requires |r.payload| <= WRITE_BUFFER - v.rec - HEADER_SIZE - TAG_SIZE
    ensures Working(d, SealedView(d, v, r))
  {
    hide Encode, WireRecord, RecordHeader, SecretsWithin, Emitted, Header;
    var w := WireRecord(d, |v.log|, r);
    EncodeSnoc(d, v.log, r, 0);
    WireRecordNoSecrets(d, |v.log|, r);
    var v' := SealedView(d, v, r);
    CoverSecrets(v.buf, v'.buf, v.rec, w, v.rec + HEADER_SIZE, v.rec + HEADER_SIZE + v.pending);
    assert v'.buf[..v'.woff] == v.buf[..v.woff] + w;
  }

  lemma WorkingShape(d: Direction, v: View)
    requires Working(d, v)
    ensures Shape(d, v)
  {
  }

  /** An open record is in a buffer of full size. */
  lemma OpenHolds(d: Direction, v: View)
    requires Working(d, v) && v.rec >= 0
    ensures Shape(d, v) && v.held && |v.buf| == WRITE_BUFFER && v.pending == |v.open| <= Room(v.rec)
    ensures v.rec + HEADER_SIZE + v.pending + TAG_SIZE <= WRITE_BUFFER
  {
    hide Encode, Emitted, SecretsWithin;
  }

  lemma RefusalKeeps(d: Direction, v: View, r: Record)
    requires Working(d, v) && v.rec >= 0 && Emittable(r)
    ensures Shape(d, v.(buf := Over(v.buf, v.rec, Clears(RecordHeader(r)))))
  {
    WireRecordNoSecrets(d, |v.log|, r);
    CoverSecrets(v.buf, Over(v.buf, v.rec, Clears(RecordHeader(r))), v.rec, Clears(RecordHeader(r)),
                 v.rec + HEADER_SIZE, v.rec + HEADER_SIZE + v.pending);
  }

  lemma WrittenKeeps(d: Direction, v: View)
    requires Working(d, v) && v.rec == -1
    ensures Working(d, v.(wire := v.wire + v.buf[..v.woff], woff := 0, sealed := 0))
    ensures v.wire + v.buf[..v.woff] == Encode(d, v.log, 0)
  {
  }

  lemma BufferTaken(d: Direction, v: View, v': View)
    requires Working(d, v) && !v.held
    requires v' == v.(held := true, buf := v'.buf) && |v'.buf| == WRITE_BUFFER
    requires forall i :: 0 <= i < WRITE_BUFFER ==> !v'.buf[i].Secret?
    ensures Working(d, v')
  {
  }

  lemma RecordOpened(d: Direction, v: View, v': View)
    requires Working(d, v) && v.held && v.rec == -1 && WRITE_BUFFER - v.woff >= MIN_RECORD
    requires v' == v.(rec := v.woff, pending := 0)
    ensures Working(d, v')
  {
  }

  ghost function CopiedView(v: View, s: seq<byte>): View
    requires v.rec >= 0 && v.rec + HEADER_SIZE + v.pending + |s| <= |v.buf|
  {
    v.(buf := Over(v.buf, v.rec + HEADER_SIZE + v.pending, Secrets(s)), pending := v.pending + |s|, open := v.open + s)
  }

  lemma CopyKeeps(d: Direction, v: View, s: seq<byte>)
    requires Working(d, v) && v.rec >= 0 && v.pending + |s| <= Room(v.rec)
    ensures Working(d, CopiedView(v, s))
  {
    hide Encode, Emitted;
    var v' := CopiedView(v, s);
    assert v'.buf[..v'.woff] == v.buf[..v.woff];
    var lo := v.rec + HEADER_SIZE;
    assert v'.buf[lo..lo + v'.pending] == v.buf[lo..lo + v.pending] + Secrets(s);
    assert Secrets(v.open + s) == Secrets(v.open) + Secrets(s);
  }

  /** A record sealed from the open record's bytes, or straight from the
      caller's when none are open, carries on from what was given before. */
  lemma SealGives(d: Direction, v: View, r: Record)
    requires Working(d, v) && v.rec >= 0 && Emittable(r)
    requires |r.payload| <= WRITE_BUFFER - v.rec - HEADER_SIZE - TAG_SIZE
    ensures r.payload == v.open ==> Given(SealedView(d, v, r)) == Given(v) + Items(r)[|r.payload|..]
    ensures v.open == [] && r.kind == DATA ==> Given(SealedView(d, v, r)) == Given(v) + AsItems(r.payload)
  {
    hide Encode, Stream, WireRecord, RecordHeader, Emitted, SecretsWithin, Over;
    StreamSnoc(v.log, r);
    assert Items(r) == AsItems(r.payload) + Items(r)[|r.payload|..];
  }

  lemma CopyGives(v: View, s: seq<byte>)
    requires v.rec >= 0 && v.rec + HEADER_SIZE + v.pending + |s| <= |v.buf|
    ensures Given(CopiedView(v, s)) == Given(v) + AsItems(s)
  {
    hide Stream;
    AsItemsConcat(v.open, s);
  }

  lemma GivenSteps(g: seq<Item>, p: seq<byte>, total: nat, q: seq<byte>)
    requires total <= |p| && q <= p[total..]
    ensures g + AsItems(p[..total]) + AsItems(q) == g + AsItems(p[..total + |q|])
  {
    assert p[..total] + q == p[..total + |q|];
    AsItemsConcat(p[..total], q);
  }

  ghost predicate InStep(send: DirectionCipher, log: seq<Record>)
    reads send
  {
    Emitted(log) && send.After(|log|) && send.calls == History(send.root, send.alg, Args(log))
  }

  /** Writes the next record's header at `at` and its ciphertext behind it.
      The ciphertext covers the payload's own bytes when they were there. */
  method SealInto(a: array<Cell>, at: nat, send: DirectionCipher, r: Record, ghost log: seq<Record>)
    returns (ok: bool)
    requires InStep(send, log) && Emittable(r)
    requires at + HEADER_SIZE + |r.payload| + TAG_SIZE <= a.Length
    modifies a, send
    ensures ok <==> |log| < MAX_NONCE
    ensures ok ==> InStep(send, log + [r])
    ensures ok ==> a[..] == Over(old(a[..]), at, WireRecord(Direction(send.root, send.alg), |log|, r))
    ensures !ok ==> InStep(send, log)
    ensures !ok ==> a[..] == Over(old(a[..]), at, Clears(RecordHeader(r)))
  {
    hide Encode, History, Stream, Over, Emitted, Header, DirectionCipher.After;
    var hdr := RecordHeader(r);
    ghost var before := a[..];
    Put(a, at, Clears(hdr));
    var c;
    ok, c := send.Seal(r.payload, hdr, Args(log));
    if ok {
      Put(a, at + HEADER_SIZE, Ciphertext(c));
      OverTwice(before, at, Clears(hdr), Ciphertext(c));
      ArgsSnoc(log, r);
    }
  }

  class Sender {
    const send: DirectionCipher
    /** Whether the connection takes every byte and a buffer is always to be
        had. Otherwise a write may take any prefix and then fail, and taking a
        buffer may fail. */
    const reliable: bool
    var wire: seq<Cell>
    var progress: bool
    var failed: bool

    var wbuf: array?<Cell>
    var woff: nat
    var rec: int
    var pending: nat
    var batch: nat
    var sealed: nat
    var wEnded: bool

    ghost var log: seq<Record>
    ghost var open: seq<byte>

    ghost function Dir(): Direction
    {
      Direction(send.root, send.alg)
    }

    ghost function V(): View
      reads this, wbuf
    {
      View(wire, wbuf != null, if wbuf == null then [] else wbuf[..], woff, rec, pending, sealed, log, open)
    }

    /** Between calls an open record holds some payload and still has room. */
    ghost predicate Valid()
      reads this, send, wbuf
    {
      && InStep(send, log)
      && Shape(Dir(), V())
      && (!failed ==> Working(Dir(), V()) && (rec >= 0 ==> 0 < pending < Room(rec)))
    }

    lemma ValidIdle()
      requires Valid() && !failed && wbuf == null
      ensures rec == -1
    {
    }

    lemma ValidCount()
      requires Valid()
      ensures Emitted(log) && |log| <= MAX_NONCE
    {
    }

    constructor (send: DirectionCipher, reliable: bool, progress: bool)
      requires send.After(0) && send.calls == []
      ensures this.send == send && this.reliable == reliable
      ensures Valid() && !failed && log == [] && open == [] && wire == [] && wbuf == null && !wEnded
    {
      this.send := send;
      this.reliable := reliable;
      this.progress := progress;
      wire, failed := [], false;
      wbuf := null;
      woff, rec, pending, batch, sealed := 0, -1, 0, WRITE_BATCH, 0;
      wEnded := false;
      log, open := [], [];
      new;
      assert Args(log) == [];
    }

    /** writeAll: the connection takes all of p, or some prefix and an error. */
    method WriteAll(p: seq<Cell>) returns (ok: bool)
      modifies this`wire
      ensures reliable ==> ok
      ensures ok ==> wire == old(wire) + p
      ensures old(wire) <= wire <= old(wire) + p
    {
      if reliable {
        wire := wire + p;
        return true;
      }
      var n: nat :| n <= |p|;
      wire := wire + p[..n];
      ok := n == |p|;
    }

    method WriteConn(p: seq<Cell>) returns (ok: bool)
      modifies this`wire
      ensures reliable ==> ok
      ensures ok ==> wire == old(wire) + p
      ensures old(wire) <= wire <= old(wire) + p
    {
      if !progress {
        ok := WriteAll(p);
        return;
      }
      var rest := p;
      while |rest| > 0
        invariant |rest| <= |p| && rest == p[|p| - |rest|..]
        invariant wire == old(wire) + p[..|p| - |rest|]
      {
        var n := if |rest| < PROGRESS_WRITE then |rest| else PROGRESS_WRITE;
        ok := WriteAll(rest[..n]);
        assert p[..|p| - |rest|] + rest[..n] == p[..|p| - |rest| + n];
        if !ok {
          return;
        }
        rest := rest[n..];
      }
      ok := true;
    }

    method WriteQueued() returns (out: Outcome)
      requires !failed && Working(Dir(), V()) && rec == -1
      modifies this`wire, this`woff, this`sealed, this`failed
      ensures Shape(Dir(), V())
      ensures out.Ok? ==> !failed && Working(Dir(), V()) && woff == 0 && wire == Encode(Dir(), log, 0)
      ensures !out.Ok? ==> out.SessionFailed? && failed
      ensures sealed <= old(sealed)
      ensures reliable ==> out.Ok?
    {
      hide Encode, Emitted, SecretsWithin;
      if woff == 0 {
        assert V().buf[..woff] == [];
        return Ok;
      }
      ghost var v := V();
      var ok := WriteConn(wbuf[..woff]);
      if !ok {
        failed := true;
        return SessionFailed;
      }
      woff := 0;
      sealed := 0;
      WrittenKeeps(Dir(), v);
      out := Ok;
    }

    method OpenRecord() returns (out: Outcome)
      requires !failed && Working(Dir(), V()) && rec == -1
      modifies this`wire, this`woff, this`sealed, this`failed, this`wbuf, this`rec, this`pending
      ensures Shape(Dir(), V())
      ensures wbuf == old(wbuf) || (old(wbuf) == null && fresh(wbuf))
      ensures out.Ok? ==> !failed && Working(Dir(), V()) && rec >= 0 && pending == 0
      ensures !out.Ok? ==> out.SessionFailed? && failed
      ensures sealed <= old(sealed)
      ensures reliable ==> out.Ok?
    {
      hide Encode, Emitted, SecretsWithin;
      if wbuf == null {
        var got: bool :| reliable ==> got;
        if !got {
          failed := true;
          return SessionFailed;
        }
        assert !Clear(0).Secret?;
        var stale: Cell :| !stale.Secret?;
        ghost var v := V();
        wbuf := new Cell[WRITE_BUFFER](_ => stale);
        BufferTaken(Dir(), v, V());
      }
      if wbuf.Length - woff < MIN_RECORD {
        out := WriteQueued();
        if !out.Ok? {
          return;
        }
      }
      ghost var v := V();
      rec := woff;
      pending := 0;
      RecordOpened(Dir(), v, V());
      out := Ok;
    }

    /** The payload becomes the next record of the log, if it fits one and a
        nonce is left. */
    method SealPayload(kind: byte, payload: seq<byte>) returns (out: Outcome)
      requires !failed && Working(Dir(), V()) && rec >= 0 && InStep(send, log)
      requires payload == open || open == []
      requires |payload| <= WRITE_BUFFER - rec - HEADER_SIZE - TAG_SIZE
      requires kind == END || (kind == DATA && payload != []) || (kind == FINISH && payload == [])
      modifies this`woff, this`rec, this`pending, this`sealed, this`failed, this`log, this`open, send, wbuf
      ensures Shape(Dir(), V()) && InStep(send, log)
      ensures out.Ok? <==> |payload| + TAG_SIZE <= MAX_CIPHERTEXT && old(|log|) < MAX_NONCE
      ensures out.Ok? ==> !failed && Working(Dir(), V())
      ensures out.Ok? ==> V() == SealedView(Dir(), old(V()), Record(kind, payload))
      ensures !out.Ok? ==> out.SessionFailed? && failed && log == old(log) && open == old(open)
    {
      hide Working, Shape, InStep, WireRecord, RecordHeader, Over;
      ghost var v := V();
      OpenHolds(Dir(), v);
      var n := |payload| + TAG_SIZE;
      if n > MAX_CIPHERTEXT {
        failed := true;
        return SessionFailed;
      }
      var r := Record(kind, payload);
      var ok := SealInto(wbuf, rec, send, r, log);
      if !ok {
        RefusalKeeps(Dir(), v, r);
        failed := true;
        return SessionFailed;
      }
      SealKeeps(Dir(), v, r);
      woff := rec + HEADER_SIZE + n;
      rec := -1;
      pending := 0;
      sealed := sealed + 1;
      log := log + [r];
      open := [];
      assert V() == SealedView(Dir(), v, r);
      WorkingShape(Dir(), V());
      out := Ok;
    }

    /** Seals the open record's buffered bytes in place. */
    method SealRecord(kind: byte) returns (out: Outcome)
      requires !failed && Working(Dir(), V()) && rec >= 0 && InStep(send, log)
      requires kind == END || (kind == DATA && open != []) || (kind == FINISH && open == [])
      modifies this`woff, this`rec, this`pending, this`sealed, this`failed, this`log, this`open, send, wbuf
      ensures Shape(Dir(), V()) && InStep(send, log)
      ensures out.Ok? <==> old(|log|) < MAX_NONCE
      ensures out.Ok? ==> !failed && Working(Dir(), V())
      ensures out.Ok? ==> V() == SealedView(Dir(), old(V()), Record(kind, old(open)))
      ensures !out.Ok? ==> out.SessionFailed? && failed && log == old(log) && open == old(open)
    {
      hide Encode, Emitted, SecretsWithin, InStep, WireRecord, RecordHeader, Header;
      var start := rec + HEADER_SIZE;
      var payload := LookAll(wbuf[start..start + pending]);
      LookBack(open);
      assert V().buf[start..start + pending] == wbuf[start..start + pending];
      out := SealPayload(kind, payload);
    }

    /** Leaves nothing queued, or less than a batch and room for a record. */
    method AfterSeal() returns (out: Outcome)
      requires !failed && Working(Dir(), V()) && rec == -1 && wbuf != null
      modifies this`wire, this`woff, this`sealed, this`failed
      ensures Shape(Dir(), V())
      ensures out.Ok? ==> !failed && Working(Dir(), V())
      ensures out.Ok? ==> sealed == 0 || (sealed < batch && WRITE_BUFFER - woff >= MIN_RECORD)
      ensures !out.Ok? ==> out.SessionFailed? && failed
      ensures reliable ==> out.Ok?
    {
      hide Encode, Emitted, SecretsWithin;
      if sealed >= batch || wbuf.Length - woff < MIN_RECORD {
        out := WriteQueued();
        return;
      }
      out := Ok;
    }

    /** A whole record is available: seals it straight from the caller's
        bytes, skipping the copy. */
    method SealDirect(part: seq<byte>) returns (out: Outcome, ghost n: nat)
      requires !failed && Working(Dir(), V()) && InStep(send, log)
      requires rec >= 0 && pending == 0 && |part| == Room(rec)
      modifies this`wire, this`woff, this`rec, this`pending, this`sealed, this`failed, this`log, this`open, send, wbuf
      ensures Valid() && n <= |part| && Given(V()) == old(Given(V())) + AsItems(part[..n])
      ensures out.Ok? ==> !failed && rec == -1 && n == |part| && (sealed == 0 || sealed < batch)
      ensures !out.Ok? ==> out.SessionFailed? && failed
      ensures reliable && old(|log|) < MAX_NONCE ==> out.Ok?
    {
      hide Encode, Emitted, SecretsWithin, InStep, WireRecord, RecordHeader, Header, Stream;
      SealGives(Dir(), V(), Record(DATA, part));
      out := SealPayload(DATA, part);
      assert AsItems(part[..0]) == [] && part[..|part|] == part;
      n := if out.Ok? then |part| else 0;
      if out.Ok? {
        out := AfterSeal();
      }
    }

    /** Copies bytes behind those already in the open record, and seals the
        record when that fills it. */
    method CopyPart(part: seq<byte>) returns (out: Outcome)
      requires !failed && Working(Dir(), V()) && InStep(send, log)
      requires rec >= 0 && 0 < |part| <= Room(rec) - pending
      modifies this`wire, this`woff, this`rec, this`pending, this`sealed, this`failed, this`log, this`open, send, wbuf
      ensures Valid() && Given(V()) == old(Given(V())) + AsItems(part)
      ensures out.Ok? ==> !failed && (sealed <= old(sealed) || sealed < batch)
      ensures !out.Ok? ==> out.SessionFailed? && failed
      ensures reliable && old(|log|) < MAX_NONCE ==> out.Ok?
    {
      hide Working, Shape, InStep, Stream, Over, Room, WireRecord;
      CopyIn(part);
      out := Ok;
      if pending == Room(rec) {
        OpenHolds(Dir(), V());
        SealGives(Dir(), V(), Record(DATA, open));
        out := SealRecord(DATA);
        if out.Ok? {
          out := AfterSeal();
        }
      } else {
        OpenHolds(Dir(), V());
        WorkingShape(Dir(), V());
      }
    }

    /** The copy itself. */
    method CopyIn(part: seq<byte>)
      requires Working(Dir(), V()) && rec >= 0 && 0 < |part| <= Room(rec) - pending
      modifies this`pending, this`open, wbuf
      ensures Working(Dir(), V()) && Given(V()) == old(Given(V())) + AsItems(part)
      ensures pending == old(pending) + |part| && open == old(open) + part
    {
      hide Working, Shape, Given, Over;
      ghost var v := V();
      OpenHolds(Dir(), v);
      CopyKeeps(Dir(), v, part);
      CopyGives(v, part);
      Put(wbuf, rec + HEADER_SIZE + pending, Secrets(part));
      pending := pending + |part|;
      open := open + part;
      assert V() == CopiedView(v, part);
    }

    /** Opens a message and sets how many records may queue. */
    method Writer(paced: bool)
      requires Valid()
      modifies this`batch, this`wEnded
      ensures Valid() && !wEnded && batch == (if paced then 1 else WRITE_BATCH)
    {
      batch := if paced then 1 else WRITE_BATCH;
      wEnded := false;
    }

    /** Takes p into the message. `taken` counts the bytes of p that are in a
        sealed or the open record; it is all of p unless the session fails,
        and never less than the count returned. */
    method Write(p: seq<byte>) returns (total: nat, out: Outcome, ghost taken: nat)
      requires Valid()
      modifies this, send, wbuf
      ensures Valid() && wEnded == old(wEnded) && batch == old(batch)
      ensures wbuf == old(wbuf) || (old(wbuf) == null && fresh(wbuf))
      ensures total <= taken <= |p| && Given(V()) == old(Given(V())) + AsItems(p[..taken])
      ensures old(failed) ==> out.SessionFailed? && V() == old(V())
      ensures !old(failed) && wEnded ==> out.MessageEnded? && V() == old(V())
      ensures out.Ok? ==> !failed && total == |p|
      ensures out.Ok? ==> sealed <= old(sealed) || sealed < batch
      ensures !old(failed) && !wEnded && reliable && |old(Given(V()))| + |p| < MAX_NONCE ==> out.Ok?
    {
      hide Encode, Emitted, SecretsWithin, InStep, Working, Shape, Stream;
      total, taken := 0, 0;
      assert AsItems(p[..0]) == [];
      if failed {
        return 0, SessionFailed, 0;
      }
      if wEnded {
        return 0, MessageEnded, 0;
      }
      var rest := p;
      while |rest| > 0
        invariant Valid() && !failed && wEnded == old(wEnded) && batch == old(batch)
        invariant wbuf == old(wbuf) || (old(wbuf) == null && fresh(wbuf))
        invariant |rest| <= |p| && rest == p[|p| - |rest|..] && total == |p| - |rest|
        invariant Given(V()) == old(Given(V())) + AsItems(p[..total])
        invariant sealed <= old(sealed) || sealed < batch
      {
        ghost var q: seq<byte>;
        var n: nat;
        n, out, q := WriteNext(rest);
        GivenSteps(old(Given(V())), p, total, q);
        taken := total + |q|;
        total := total + n;
        if !out.Ok? {
          return;
        }
        rest := rest[n..];
      }
      taken := |p|;
      out := Ok;
    }

    /** One turn of Write's loop. */
    method WriteNext(rest: seq<byte>) returns (n: nat, out: Outcome, ghost q: seq<byte>)
      requires Valid() && !failed && rest != []
      modifies this, send, wbuf
      ensures Valid() && wEnded == old(wEnded) && batch == old(batch)
      ensures wbuf == old(wbuf) || (old(wbuf) == null && fresh(wbuf))
      ensures q <= rest && Given(V()) == old(Given(V())) + AsItems(q)
      ensures n <= |q| && (out.Ok? ==> !failed && 0 < n == |q|)
      ensures !out.Ok? ==> out.SessionFailed? && failed
      ensures (n == 0 || n == |q|) && (old(pending) > 0 ==> n == |q|)
      ensures out.Ok? ==> sealed <= old(sealed) || sealed < batch
      ensures reliable && |old(Given(V()))| < MAX_NONCE ==> out.Ok?
    {
      hide Encode, Emitted, SecretsWithin, InStep, WireRecord, RecordHeader, Header, Stream;
      n, q := 0, [];
      assert AsItems([]) == [];
      if rec < 0 {
        out := OpenRecord();
        if !out.Ok? {
          return;
        }
      }
      RecordsAtMostItems(log);
      var room := Room(rec) - pending;
      if pending == 0 && |rest| >= room {
        ghost var m;
        out, m := SealDirect(rest[..room]);
        q := rest[..room][..m];
        n := if out.Ok? then room else 0;
        return;
      }
      n := if |rest| < room then |rest| else room;
      q := rest[..n];
      out := CopyPart(rest[..n]);
    }

    /** Seals what is pending and writes everything; the message goes on. */
    method Flush() returns (out: Outcome)
      requires Valid()
      modifies this, send, wbuf
      ensures Valid() && wEnded == old(wEnded) && wbuf == old(wbuf)
      ensures old(failed) ==> out.SessionFailed? && V() == old(V())
      ensures !old(failed) && wEnded ==> out.MessageEnded? && V() == old(V())
      ensures out.Ok? ==> !failed && Given(V()) == old(Given(V())) && open == [] && wire == Encode(Dir(), log, 0)
      ensures !old(failed) && !wEnded && reliable && |old(Given(V()))| < MAX_NONCE ==> out.Ok?
    {
      hide Encode, Emitted, SecretsWithin, InStep, WireRecord, RecordHeader, Header, Stream;
      if failed {
        return SessionFailed;
      }
      if wEnded {
        return MessageEnded;
      }
      if rec >= 0 && pending > 0 {
        RecordsAtMostItems(log);
        SealGives(Dir(), V(), Record(DATA, open));
        out := SealRecord(DATA);
        if !out.Ok? {
          return;
        }
      }
      out := WriteQueued();
    }

    /** Seals a closing record around whatever is pending and writes
        everything. */
    method Close(kind: byte) returns (out: Outcome, done: bool)
      requires !failed && Working(Dir(), V()) && InStep(send, log)
      requires kind == END || (kind == FINISH && open == [])
      modifies this, send, wbuf
      ensures Valid() && wEnded == old(wEnded) && (wbuf == old(wbuf) || (old(wbuf) == null && fresh(wbuf)))
      ensures out.Ok? ==> !failed && rec == -1 && woff == 0 && wire == Encode(Dir(), log, 0)
      ensures out.Ok? ==> Given(V()) == old(Given(V())) + [if kind == END then EndMark else FinishMark]
      ensures !out.Ok? ==> out.SessionFailed? && failed
      ensures (out.Ok? ==> done) && (done <==> |log| > |old(log)|)
      ensures reliable && |old(Given(V()))| < MAX_NONCE ==> out.Ok?
    {
      hide Encode, Emitted, SecretsWithin, InStep, WireRecord, RecordHeader, Header, Stream;
      done := false;
      if rec < 0 {
        out := OpenRecord();
        if !out.Ok? {
          return;
        }
      }
      RecordsAtMostItems(log);
      SealGives(Dir(), V(), Record(kind, open));
      out := SealRecord(kind);
      if !out.Ok? {
        return;
      }
      done := true;
      out := WriteQueued();
    }

    /** Ends the message with an END record, which carries any pending bytes. */
    method End() returns (out: Outcome)
      requires Valid()
      modifies this, send, wbuf
      ensures Valid() && (wbuf == old(wbuf) || wbuf == null || (old(wbuf) == null && fresh(wbuf)))
      ensures old(failed) ==> out.SessionFailed? && failed && wbuf == null
      ensures !old(failed) && old(wEnded) ==> out.MessageEnded? && V() == old(V())
      ensures out.Ok? ==> !failed && wEnded && wbuf == null && open == [] && wire == Encode(Dir(), log, 0)
      ensures out.Ok? ==> Stream(log) == old(Given(V())) + [EndMark]
      ensures |log| > |old(log)| ==> wbuf == null
      ensures wbuf == null && old(wbuf) != null ==> NoSecrets(old(wbuf)[..])
      ensures !old(failed) && !old(wEnded) && reliable && |old(Given(V()))| < MAX_NONCE ==> out.Ok?
    {
      hide Encode, Emitted, SecretsWithin, InStep, Working, Shape, Stream;
      if failed {
        Release();
        return SessionFailed;
      }
      if wEnded {
        return MessageEnded;
      }
      wEnded := true;
      var done;
      out, done := Close(END);
      if done {
        Release();
      }
    }

    /** The client's session confirmation, the first record it sends. */
    method WriteFinish() returns (out: Outcome)
      requires Valid() && !failed && rec == -1
      modifies this, send, wbuf
      ensures Valid()
      ensures out.Ok? ==> !failed && wbuf == null && open == [] && wire == Encode(Dir(), log, 0)
      ensures out.Ok? ==> Stream(log) == old(Given(V())) + [FinishMark]
      ensures |log| > |old(log)| ==> wbuf == null
      ensures wbuf == null && old(wbuf) != null ==> NoSecrets(old(wbuf)[..])
      ensures reliable && |old(Given(V()))| < MAX_NONCE ==> out.Ok?
    {
      hide Encode, Emitted, SecretsWithin, InStep, Stream;
      var done;
      out, done := Close(FINISH);
      if done {
        Release();
      }
    }

    /** Lets go of the buffer with no plaintext left in it. */
    method Release()
      requires Valid() && (failed || (rec == -1 && woff == 0))
      modifies this`wbuf, this`woff, this`rec, this`pending, this`sealed, this`open, wbuf
      ensures Valid() && wbuf == null && open == [] && log == old(log)
      ensures !failed ==> Given(V()) == old(Given(V()))
      ensures old(wbuf) != null ==> NoSecrets(old(wbuf)[..])
    {
      hide Encode, Emitted, InStep, Stream;
      if wbuf == null {
        return;
      }
      if rec >= 0 {
        var start := rec + HEADER_SIZE;
        forall i | start <= i < start + pending {
          wbuf[i] := Clear(0);
        }
      }
      wbuf := null;
      woff := 0;
      rec := -1;
      pending := 0;
      sealed := 0;
      open := [];
    }

    /** Close, or a failure in the other direction. */
    method Poison()
      requires Valid()
      modifies this`failed
      ensures Valid() && failed
    {
      hide Encode, InStep, Working;
      failed := true;
    }
  }
}
