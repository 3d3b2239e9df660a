/** The receiving half of a session: a refilled buffer, records opened in
    place or straight into the caller's slice, and EOF exactly at an
    authenticated END. */
module ReadSide {
  import opened Bytes
  import opened Wrappers
  import opened RecordCipher
  import opened Records
  import opened Sequences

  datatype ReadError = PeerClosed | UnexpectedEof | Transport | BadLength | Unauthentic | BadKind | SessionFailed
                     | MessageUnfinished

  datatype ReadResult = Got | Eof | Err(error: ReadError)

  datatype Fill = Filled | Ended | Broken

  /** A receiver's buffer and transport as a value. unread is
      [ustart, ustart + ulen) of the buffer. */
  datatype View = View(
    held: bool, buf: seq<Cell>, roff: nat, rend: nat, rHigh: nat, ustart: nat, ulen: nat, conn: seq<seq<Cell>>)

  /** Received bytes not yet consumed, then those still to come. */
  ghost function Ahead(v: View): seq<Cell>
    requires v.roff <= v.rend <= |v.buf|
  {
    v.buf[v.roff..v.rend] + Concat(v.conn)
  }

  /** Plaintext lies below the high mark and outside the unconsumed bytes. */
  ghost predicate SecretsPlaced(v: View)
  {
    forall i :: 0 <= i < |v.buf| && v.buf[i].Secret? ==> i < v.rHigh && !(v.roff <= i < v.rend)
  }

  ghost predicate Public(c: seq<Cell>)
  {
    forall i :: 0 <= i < |c| ==> !c[i].Secret?
  }

  ghost predicate Shape(v: View)
  {
    && (!v.held ==> v.buf == [] && v.rHigh == 0)
    && (v.held ==> |v.buf| == READ_BUFFER)
    && v.roff <= v.rend <= |v.buf| && v.rHigh <= |v.buf|
    && (v.ulen > 0 ==> v.ustart + v.ulen <= v.roff)
    && SecretsPlaced(v)
    && Public(Ahead(v))
  }

  /** The stream holds nothing sealed under this direction's keys except what
      the peer sealed. Its bytes may otherwise be reordered, repeated, dropped
      or replaced in any way. */
  ghost predicate InDirection(d: Direction, s: Sealed)
  {
    exists e: nat :: s.key == EpochKey(d.root, d.alg, e)
  }

  ghost predicate FromLog(d: Direction, log: seq<Record>, s: Sealed)
    requires Emitted(log)
  {
    exists j: nat :: j < |log| && s == SealedRecord(d, j, log[j])
  }

  ghost predicate Genuine(d: Direction, log: seq<Record>, c: seq<Cell>)
    requires Emitted(log)
  {
    forall i :: 0 <= i < |c| && c[i].Cipher? && InDirection(d, c[i].rec) ==> FromLog(d, log, c[i].rec)
  }

  /** Under the ideal AEAD, what opens as record k is record k of the peer. */
  lemma Authentic(d: Direction, log: seq<Record>, k: nat, ad: seq<byte>, p: seq<byte>, c: seq<Cell>)
    requires Emitted(log) && |log| <= MAX_NONCE && k < MAX_NONCE
    requires Genuine(d, log, c) && c == Ciphertext(SealedAt(d.root, d.alg, k, ad, p))
    ensures k < |log| && ad == RecordHeader(log[k]) && p == log[k].payload
  {
    var s := SealedAt(d.root, d.alg, k, ad, p);
    assert c[0] == Cell.Cipher(s, 0);
    assert InDirection(d, s) by {
      assert s.key == EpochKey(d.root, d.alg, k / REKEY_INTERVAL);
    }
    var j: nat :| j < |log| && s == SealedRecord(d, j, log[j]);
    NonceBytesInjective(d.alg, j, k);
  }

  lemma WireRecordGenuine(d: Direction, log: seq<Record>, k: nat)
    requires Emitted(log) && k < |log|
    ensures Genuine(d, log, WireRecord(d, k, log[k])) && Public(WireRecord(d, k, log[k]))
  {
    assert FromLog(d, log, SealedRecord(d, k, log[k]));
  }

  lemma {:induction false} EncodeGenuine(d: Direction, log: seq<Record>, k: nat)
    requires Emitted(log) && k <= |log|
    ensures Genuine(d, log, Encode(d, log, k)) && Public(Encode(d, log, k))
    decreases |log| - k
  {
    hide Genuine, Public, WireRecord;
    if k < |log| {
      WireRecordGenuine(d, log, k);
      EncodeGenuine(d, log, k + 1);
      GenuineJoin(d, log, WireRecord(d, k, log[k]), Encode(d, log, k + 1));
    } else {
      GenuineNone(d, log);
    }
  }

  lemma GenuineNone(d: Direction, log: seq<Record>)
    requires Emitted(log)
    ensures Genuine(d, log, []) && Public([])
  {
  }

  lemma GenuineJoin(d: Direction, log: seq<Record>, a: seq<Cell>, b: seq<Cell>)
    requires Emitted(log) && Genuine(d, log, a) && Public(a) && Genuine(d, log, b) && Public(b)
    ensures Genuine(d, log, a + b) && Public(a + b)
  {
  }

  /** Moving the unconsumed bytes to the front. */
  ghost function MovedView(v: View): View
    requires Shape(v)
  {
    v.(buf := Over(v.buf, 0, v.buf[v.roff..v.rend]), roff := 0, rend := v.rend - v.roff)
  }

  lemma MoveKeeps(v: View)
    requires Shape(v) && v.ulen == 0
    ensures Shape(MovedView(v)) && Ahead(MovedView(v)) == Ahead(v)
  {
    hide Concat, Over;
    var v' := MovedView(v);
    assert v'.buf[..v'.rend] == v.buf[v.roff..v.rend];
    assert Ahead(v') == Ahead(v);
    assert forall i :: 0 <= i < v'.rend ==> v'.buf[i] == Ahead(v)[i];
  }

  /** Receiving data, the transport's next bytes, behind the unconsumed ones. */
  ghost function ReceivedView(v: View, data: seq<Cell>, conn: seq<seq<Cell>>): View
    requires v.rend + |data| <= |v.buf|
  {
    v.(buf := Over(v.buf, v.rend, data), rend := v.rend + |data|, conn := conn)
  }

  lemma ReceiveKeeps(v: View, data: seq<Cell>, conn: seq<seq<Cell>>)
    requires Shape(v) && v.rend + |data| <= |v.buf| && Concat(v.conn) == data + Concat(conn)
    ensures Shape(ReceivedView(v, data, conn)) && Ahead(ReceivedView(v, data, conn)) == Ahead(v)
  {
    hide Concat, Over;
    var v' := ReceivedView(v, data, conn);
    assert v'.buf[v'.roff..v'.rend] == v.buf[v.roff..v.rend] + data;
    assert Ahead(v') == Ahead(v);
    assert forall i :: v.rend <= i < v'.rend ==> v'.buf[i] == Ahead(v)[i - v.roff];
  }

  lemma ConcatSplit(chunks: seq<seq<Cell>>, m: nat)
    requires chunks != [] && m <= |chunks[0]|
    ensures Concat(chunks) == chunks[0][..m] + Concat([chunks[0][m..]] + chunks[1..])
  {
    var cut := [chunks[0][m..]] + chunks[1..];
    assert cut[1..] == chunks[1..];
    ConcatCons(cut);
    ConcatCons(chunks);
    hide Concat;
    assert chunks[0] == chunks[0][..m] + chunks[0][m..];
    assert chunks[0][..m] + (chunks[0][m..] + Concat(chunks[1..])) == chunks[0] + Concat(chunks[1..]);
  }

  lemma ConcatCons(chunks: seq<seq<Cell>>)
    requires chunks != []
    ensures Concat(chunks) == chunks[0] + Concat(chunks[1..])
  {
  }

  /** A record's view: its header is 3 bytes at roff and its ciphertext n
      bytes behind; opening it in place leaves its plaintext there. */
  ghost function OpenedView(v: View, n: nat, payload: seq<byte>, direct: bool): View
    requires TAG_SIZE <= n && |payload| == n - TAG_SIZE && v.roff + HEADER_SIZE + n <= |v.buf|
  {
    var start := v.roff + HEADER_SIZE;
    if direct then
      v.(roff := start + n)
    else
      v.(buf := Over(v.buf, start, Secrets(payload)), roff := start + n,
         rHigh := if v.rHigh < start + |payload| then start + |payload| else v.rHigh)
  }

  lemma OpenKeeps(v: View, n: nat, payload: seq<byte>, direct: bool)
    requires Shape(v) && v.ulen == 0
    requires TAG_SIZE <= n && |payload| == n - TAG_SIZE && v.roff + HEADER_SIZE + n <= v.rend
    ensures Shape(OpenedView(v, n, payload, direct))
    ensures Ahead(OpenedView(v, n, payload, direct)) == Ahead(v)[HEADER_SIZE + n..]
    ensures !direct ==> var start := v.roff + HEADER_SIZE;
                        OpenedView(v, n, payload, direct).buf[start..start + |payload|] == Secrets(payload)
  {
    hide Concat, Over;
    var v' := OpenedView(v, n, payload, direct);
    var start := v.roff + HEADER_SIZE;
    assert v'.buf[v'.roff..v'.rend] == v.buf[v'.roff..v.rend] == v.buf[v.roff..v.rend][HEADER_SIZE + n..];
    assert Ahead(v') == Ahead(v)[HEADER_SIZE + n..];
    assert forall i :: 0 <= i < |Ahead(v')| ==> Ahead(v')[i] == Ahead(v)[HEADER_SIZE + n + i];
    if !direct {
      assert v'.buf[start..start + |payload|] == Secrets(payload);
    }
  }

  /** Authentication failed in place: the AEAD has zeroed the plaintext. */
  lemma ZeroedKeeps(v: View, v': View, n: nat)
    requires Shape(v) && v.ulen == 0 && TAG_SIZE <= n && v.roff + HEADER_SIZE + n <= v.rend
    requires v' == v.(buf := Over(v.buf, v.roff + HEADER_SIZE, Clears(seq(n - TAG_SIZE, _ => 0))), rHigh := v'.rHigh)
    requires v.rHigh <= v'.rHigh <= |v.buf|
    ensures Shape(v')
  {
    hide Concat;
    forall i | 0 <= i < |Ahead(v')| ensures !Ahead(v')[i].Secret? {
      if i < v.rend - v.roff {
        assert Ahead(v')[i] == v'.buf[v.roff + i];
        assert v'.buf[v.roff + i] == v.buf[v.roff + i] || v'.buf[v.roff + i] == Clear(0);
        assert Ahead(v)[i] == v.buf[v.roff + i];
      } else {
        assert Ahead(v')[i] == Ahead(v)[i];
      }
    }
  }

  /** An honest stream with a record to come starts with that record. */
  lemma HonestNext(d: Direction, log: seq<Record>, k: nat, ahead: seq<Cell>)
    requires Emitted(log) && k < |log| && ahead == Encode(d, log, k)
    ensures var n := |log[k].payload| + TAG_SIZE;
            && |ahead| >= HEADER_SIZE + n
            && ahead[..HEADER_SIZE] == Clears(RecordHeader(log[k]))
            && LookAll(ahead[..HEADER_SIZE]) == RecordHeader(log[k])
            && 256 * Look(ahead[0]) + Look(ahead[1]) == n
            && ahead[HEADER_SIZE..HEADER_SIZE + n] == Ciphertext(SealedRecord(d, k, log[k]))
            && ahead[HEADER_SIZE + n..] == Encode(d, log, k + 1)
  {
    hide Encode;
    var w := WireRecord(d, k, log[k]);
    assert ahead == w + Encode(d, log, k + 1) by {
      EncodeStep(d, log, k);
    }
    LookBack(RecordHeader(log[k]));
    assert ahead[..HEADER_SIZE] == w[..HEADER_SIZE] == Clears(RecordHeader(log[k]));
    assert ahead[0] == ahead[..HEADER_SIZE][0] && ahead[1] == ahead[..HEADER_SIZE][1];
  }

  lemma EncodeStep(d: Direction, log: seq<Record>, k: nat)
    requires Emitted(log) && k < |log|
    ensures Encode(d, log, k) == WireRecord(d, k, log[k]) + Encode(d, log, k + 1)
  {
  }

  lemma GenuineSlice(d: Direction, log: seq<Record>, c: seq<Cell>, lo: nat, hi: nat)
    requires Emitted(log) && Genuine(d, log, c) && lo <= hi <= |c|
    ensures Genuine(d, log, c[lo..hi])
  {
    forall i | 0 <= i < |c[lo..hi]| && c[lo..hi][i].Cipher? && InDirection(d, c[lo..hi][i].rec)
      ensures FromLog(d, log, c[lo..hi][i].rec)
    {
      assert c[lo..hi][i] == c[lo + i];
    }
  }

  /** The header bytes and the ciphertext of the record at roff. */
  ghost function HeaderOf(v: View): seq<byte>
    requires v.roff + HEADER_SIZE <= |v.buf|
  {
    LookAll(v.buf[v.roff..v.roff + HEADER_SIZE])
  }

  ghost function BodyOf(v: View, n: nat): seq<Cell>
    requires v.roff + HEADER_SIZE + n <= |v.buf|
  {
    v.buf[v.roff + HEADER_SIZE..v.roff + HEADER_SIZE + n]
  }

  lemma AheadParts(v: View, n: nat)
    requires v.roff + HEADER_SIZE + n <= v.rend <= |v.buf|
    ensures |Ahead(v)| >= HEADER_SIZE + n
    ensures Ahead(v)[..HEADER_SIZE] == v.buf[v.roff..v.roff + HEADER_SIZE]
    ensures Ahead(v)[HEADER_SIZE..HEADER_SIZE + n] == BodyOf(v, n)
  {
    hide Concat;
  }

  /** Whatever authenticates at roff is the peer's next record. */
  lemma OpensOnlyNext(d: Direction, log: seq<Record>, k: nat, v: View, n: nat, p: seq<byte>)
    requires Emitted(log) && |log| <= MAX_NONCE && k < MAX_NONCE
    requires v.roff + HEADER_SIZE + n <= v.rend <= |v.buf| && Genuine(d, log, Ahead(v))
    requires BodyOf(v, n) == Ciphertext(SealedAt(d.root, d.alg, k, HeaderOf(v), p))
    ensures k < |log| && p == log[k].payload && n == |p| + TAG_SIZE && HeaderOf(v)[2] == log[k].kind
    ensures Genuine(d, log, Ahead(v)[HEADER_SIZE + n..])
  {
    hide Encode, Genuine;
    AheadParts(v, n);
    GenuineSlice(d, log, Ahead(v), HEADER_SIZE, HEADER_SIZE + n);
    GenuineSlice(d, log, Ahead(v), HEADER_SIZE + n, |Ahead(v)|);
    assert Ahead(v)[HEADER_SIZE + n..|Ahead(v)|] == Ahead(v)[HEADER_SIZE + n..];
    Authentic(d, log, k, HeaderOf(v), p, BodyOf(v, n));
  }

  /** An honest stream's next record authenticates. */
  lemma HonestOpens(d: Direction, log: seq<Record>, k: nat, v: View, n: nat)
    requires Emitted(log) && k < |log| && n == |log[k].payload| + TAG_SIZE
    requires v.roff + HEADER_SIZE + n <= v.rend <= |v.buf| && Ahead(v) == Encode(d, log, k)
    ensures BodyOf(v, n) == Ciphertext(SealedAt(d.root, d.alg, k, HeaderOf(v), log[k].payload))
    ensures Ahead(v)[HEADER_SIZE + n..] == Encode(d, log, k + 1)
  {
    hide Encode;
    AheadParts(v, n);
    HonestNext(d, log, k, Ahead(v));
  }

  /** Clearing below the unconsumed bytes, and past them up to the high mark,
      removes every plaintext byte and no unconsumed one. */
  ghost predicate ClearedView(v: View, v': View)
    requires Shape(v)
  {
    && v' == v.(buf := v'.buf, rHigh := 0) && |v'.buf| == |v.buf|
    && (forall i :: 0 <= i < |v.buf| ==>
          v'.buf[i] == (if i < v.rHigh && (i < v.roff || v.rend <= i) then Clear(0) else v.buf[i]))
  }

  lemma ClearKeeps(v: View, v': View)
    requires Shape(v) && v.ulen == 0 && ClearedView(v, v')
    ensures Shape(v') && Ahead(v') == Ahead(v) && NoSecrets(v'.buf)
  {
    hide Concat;
    assert v'.buf[v'.roff..v'.rend] == v.buf[v.roff..v.rend];
  }

  lemma UnreadKeeps(v: View, v': View)
    requires Shape(v) && v' == v.(ustart := v'.ustart, ulen := v'.ulen)
    requires v'.ulen > 0 ==> v'.ustart + v'.ulen <= v'.roff
    ensures Shape(v') && Ahead(v') == Ahead(v)
  {
    hide Concat;
  }

  lemma ReturnKeeps(v: View, v': View)
    requires Shape(v) && v.roff == v.rend && v.rHigh == 0 && v.ulen == 0
    requires v' == v.(held := false, buf := [], roff := 0, rend := 0)
    ensures Shape(v') && Ahead(v') == Ahead(v)
  {
    hide Concat;
  }

  /** What has been handed to the caller, what it is still owed, and the
      records opened agree. Only a poisoned session may have opened a record
      it then refused. */
  ghost predicate Accounted(log: seq<Record>, k: nat, delivered: seq<Item>, owed: seq<byte>, ended: bool, failed: bool)
    requires k <= |log|
  {
    && delivered + AsItems(owed) <= Stream(log[..k])
    && (ended ==> Stream(log[..k]) == delivered + AsItems(owed) + [EndMark])
    && (!ended && !failed ==> Stream(log[..k]) == delivered + AsItems(owed))
  }

  lemma AcceptRecord(log: seq<Record>, k: nat, delivered: seq<Item>)
    requires k < |log| && Accounted(log, k, delivered, [], false, false)
    ensures Accounted(log, k + 1, delivered, [], false, true)
    ensures log[k].kind == DATA ==> Accounted(log, k + 1, delivered, log[k].payload, false, false)
    ensures log[k].kind == END ==> Accounted(log, k + 1, delivered, log[k].payload, true, false)
  {
    hide Stream;
    StreamPrefixStep(log, k);
    assert delivered + AsItems([]) == delivered;
  }

  lemma FailedAccount(log: seq<Record>, k: nat, delivered: seq<Item>)
    requires k <= |log| && Accounted(log, k, delivered, [], false, false)
    ensures Accounted(log, k, delivered, [], false, true)
  {
  }

  lemma FinishAccount(log: seq<Record>, k: nat, delivered: seq<Item>)
    requires k < |log| && Accounted(log, k, delivered, [], false, false) && log[k] == Record(FINISH, [])
    ensures Accounted(log, k + 1, delivered + [FinishMark], [], false, false)
  {
    hide Stream;
    StreamPrefixStep(log, k);
    assert AsItems([]) == [] && delivered + AsItems([]) == delivered;
  }

  lemma HandOver(log: seq<Record>, k: nat, delivered: seq<Item>, owed: seq<byte>, ended: bool, failed: bool, m: nat)
    requires k <= |log| && Accounted(log, k, delivered, owed, ended, failed) && m <= |owed|
    ensures Accounted(log, k, delivered + AsItems(owed[..m]), owed[m..], ended, failed)
  {
    hide Stream;
    assert owed == owed[..m] + owed[m..];
    AsItemsConcat(owed[..m], owed[m..]);
    assert delivered + (AsItems(owed[..m]) + AsItems(owed[m..])) == delivered + AsItems(owed[..m]) + AsItems(owed[m..]);
  }

  /** With nothing owed and the message not ended, the next item, if any, is
      the next record's first. */
  lemma NextItem(log: seq<Record>, k: nat, delivered: seq<Item>)
    requires Emitted(log) && k <= |log| && Accounted(log, k, delivered, [], false, false)
    requires |delivered| < |Stream(log)|
    ensures k < |log| && delivered < Stream(log)
    ensures log[k].kind == FINISH ==> Stream(log)[|delivered|] == FinishMark
  {
    hide Stream;
    assert delivered + AsItems([]) == delivered;
    assert log[..|log|] == log;
    if k < |log| {
      StreamPrefixStep(log, k);
      StreamPrefix(log, k + 1);
      assert Stream(log[..k + 1])[|delivered|] == Items(log[k])[0];
    }
  }

  lemma ShapeMarks(v: View)
    requires Shape(v)
    ensures v.roff <= v.rend <= |v.buf| && (!v.held ==> v.buf == [])
  {
  }

  /** A record that opened: it is the peer's next one, and what lies ahead is
      what lay behind it. */
  lemma Accepts(d: Direction, log: seq<Record>, k: nat, v: View, n: nat, payload: seq<byte>, direct: bool, honest: bool)
    requires Emitted(log) && |log| <= MAX_NONCE && k < MAX_NONCE && Shape(v) && v.held && v.ulen == 0 && Genuine(d, log, Ahead(v))
    requires TAG_SIZE <= n && |payload| == n - TAG_SIZE && v.roff + HEADER_SIZE + n <= v.rend <= |v.buf|
    requires BodyOf(v, n) == Ciphertext(SealedAt(d.root, d.alg, k, HeaderOf(v), payload))
    requires honest && k <= |log| ==> Ahead(v) == Encode(d, log, k)
    ensures k < |log| && payload == log[k].payload && HeaderOf(v)[2] == log[k].kind
    ensures var w := OpenedView(v, n, payload, direct);
            && Shape(w) && Genuine(d, log, Ahead(w)) && w.held && w.ulen == 0
            && (honest ==> Ahead(w) == Encode(d, log, k + 1))
            && w.roff == v.roff + HEADER_SIZE + n <= |w.buf| && |w.buf| == |v.buf|
            && (!direct ==> w.buf[v.roff + HEADER_SIZE..v.roff + HEADER_SIZE + |payload|] == Secrets(payload))
  {
    hide Encode, Genuine, Ahead, SecretsPlaced, Public, HeaderOf, BodyOf, SealedAt;
    OpensOnlyNext(d, log, k, v, n, payload);
    OpenKeeps(v, n, payload, direct);
    if honest {
      HonestOpens(d, log, k, v, n);
    }
  }

  class Receiver {
    const recv: DirectionCipher
    /** Whether the transport ends in a clean EOF or in some other error. */
    const cleanEof: bool
    /** Whether a buffer is always to be had. */
    const pooled: bool
    var conn: seq<seq<Cell>>
    var failed: bool

    var rbuf: array?<Cell>
    var roff: nat
    var rend: nat
    var rHigh: nat
    var ustart: nat
    var ulen: nat
    var inMsg: bool
    var ended: bool
    var started: bool

    /** The records the peer sealed, how many are open, what the caller has
        been handed and what it is owed from the buffer. */
    ghost const log: seq<Record>
    /** Whether the stream is exactly the peer's, whole and in order, and a
        buffer is always to be had. */
    ghost const honest: bool
    ghost var k: nat
    ghost var delivered: seq<Item>
    ghost var owed: seq<byte>

    ghost function Dir(): Direction
    {
      Direction(recv.root, recv.alg)
    }

    ghost function V(): View
      reads this`rbuf, this`roff, this`rend, this`rHigh, this`ustart, this`ulen, this`conn, rbuf
    {
      View(rbuf != null, if rbuf == null then [] else rbuf[..], roff, rend, rHigh, ustart, ulen, conn)
    }

    ghost predicate Core()
      reads this`rbuf, this`roff, this`rend, this`rHigh, this`ustart, this`ulen, this`conn, this`failed, this`k, this`owed, recv, rbuf
    {
      && Emitted(log) && |log| <= MAX_NONCE && k <= |log|
      && recv.After(k)
      && Shape(V())
      && (!failed ==> Genuine(Dir(), log, Ahead(V())))
      && ulen == |owed| && (ulen > 0 ==> V().buf[ustart..ustart + ulen] == Secrets(owed))
      && (honest && !failed ==> pooled && Ahead(V()) == Encode(Dir(), log, k))
    }

    ghost predicate Valid()
      reads this, recv, rbuf
    {
      Core() && Accounted(log, k, delivered, owed, ended, failed) && (ended || ulen > 0 ==> inMsg)
    }

    /** No plaintext is left in the buffer, and it is held only for bytes still
        ahead. */
    ghost predicate Wiped()
      reads this`rbuf, this`roff, this`rend, rbuf
    {
      rbuf != null ==> NoSecrets(rbuf[..]) && roff < rend
    }

    constructor (recv: DirectionCipher, arrivals: seq<seq<Cell>>, cleanEof: bool, pooled: bool, ghost log: seq<Record>, ghost honest: bool)
      requires recv.After(0) && Emitted(log) && |log| <= MAX_NONCE
      requires Public(Concat(arrivals)) && Genuine(Direction(recv.root, recv.alg), log, Concat(arrivals))
      requires honest ==> pooled && Concat(arrivals) == Encode(Direction(recv.root, recv.alg), log, 0)
      ensures Valid() && !failed && this.recv == recv && this.log == log && this.honest == honest
      ensures this.cleanEof == cleanEof && delivered == [] && k == 0 && !inMsg && !ended && rbuf == null
    {
      this.recv := recv;
      this.cleanEof := cleanEof;
      this.pooled := pooled;
      conn := arrivals;
      failed := false;
      rbuf := null;
      roff, rend, rHigh, ustart, ulen := 0, 0, 0, 0, 0;
      inMsg, ended, started := false, false, false;
      this.log := log;
      this.honest := honest;
      k, delivered, owed := 0, [], [];
      new;
      hide Encode, Genuine, Concat;
      assert Ahead(V()) == Concat(arrivals);
      assert AsItems([]) == [];
    }

    /** The transport's next bytes, at most max of them. */
    method ConnRead(max: nat) returns (data: seq<Cell>, more: bool)
      requires max > 0
      modifies this`conn
      ensures more <==> old(conn) != []
      ensures |data| <= max && Concat(old(conn)) == data + Concat(conn)
      ensures !more ==> conn == []
      ensures more ==> |Concat(conn)| < |Concat(old(conn))| || (data == [] && |conn| < |old(conn)|)
    {
      if conn == [] {
        return [], false;
      }
      var c := conn[0];
      var m := if |c| <= max then |c| else max;
      ConcatSplit(conn, m);
      data, more := c[..m], true;
      if m == |c| {
        assert c[m..] == [] && ([c[m..]] + conn[1..])[1..] == conn[1..];
        conn := conn[1..];
      } else {
        conn := [c[m..]] + conn[1..];
      }
    }

    /** Has `need` bytes in the buffer, at most `want`, without losing any byte
        ahead; or reports why there are none to be had. */
    method FillTo(need: nat, want: nat) returns (r: Fill)
      requires Shape(V()) && ulen == 0 && need <= want <= READ_BUFFER
      modifies this`conn, this`rbuf, this`roff, this`rend, rbuf
      ensures Shape(V()) && Ahead(V()) == old(Ahead(V()))
      ensures rbuf == old(rbuf) || (old(rbuf) == null && fresh(rbuf))
      ensures r.Filled? ==> rend - roff >= need
      ensures !r.Filled? ==> rend - roff < need && (Concat(conn) == [] || !pooled)
      ensures !r.Filled? ==> r == (if cleanEof && Concat(conn) == [] then Ended else Broken)
    {
      hide Concat, Ahead, SecretsPlaced, Public;
      if rend - roff >= need {
        return Filled;
      }
      if rbuf == null {
        if Concat(conn) == [] {
          return if cleanEof then Ended else Broken;
        }
        var got: bool :| pooled ==> got;
        if !got {
          return Broken;
        }
        assert !Clear(0).Secret?;
        var stale: Cell :| !stale.Secret?;
        ghost var v := V();
        rbuf := new Cell[READ_BUFFER](_ => stale);
        roff, rend := 0, 0;
        BufferTaken(v, V());
      }
      if roff + want > rbuf.Length {
        ghost var v := V();
        MoveKeeps(v);
        Put(rbuf, 0, rbuf[roff..rend]);
        rend := rend - roff;
        roff := 0;
        assert V() == MovedView(v);
      }
      r := Receive(need, want);
    }

    /** Grants a reader if the last message is read out, counting its END as
        delivered. */
    method Reader() returns (err: Option<ReadError>)
      requires Valid()
      modifies this`inMsg, this`ended, this`started, this`failed, this`delivered
      ensures Valid()
      ensures err.None? <==> !old(failed) && (!old(inMsg) || (old(ended) && old(owed) == []))
      ensures err.None? ==> !failed && inMsg && !ended && !started
      ensures err.None? ==> delivered == old(delivered) + (if old(ended) && old(owed) == [] then [EndMark] else [])
      ensures err.Some? ==> failed && delivered == old(delivered)
    {
      hide Encode, Genuine, Concat, Ahead, Stream, Shape;
      if failed {
        return Some(SessionFailed);
      }
      if inMsg && (!ended || ulen > 0) {
        failed := true;
        return Some(MessageUnfinished);
      }
      assert AsItems([]) == [];
      if ended {
        delivered := delivered + [EndMark];
      }
      inMsg, ended, started := true, false, false;
      err := None;
    }

    /** The message's next bytes, or EOF at its END. Every byte returned is the
        peer's next one and EOF comes only at its END, whatever was done to the
        stream; on the peer's own stream nothing fails before the message ends. */
    method Read(p: array<byte>) returns (n: nat, r: ReadResult)
      requires Valid() && inMsg
      modifies this, recv, rbuf, p
      ensures Valid() && inMsg && (rbuf == old(rbuf) || rbuf == null || fresh(rbuf))
      ensures r.Got? ==> n <= p.Length && (p.Length > 0 ==> n > 0) && delivered == old(delivered) + AsItems(p[..n])
      ensures r.Eof? ==> n == 0 && ended && owed == [] && delivered == old(delivered)
      ensures !r.Err? && ended && owed == [] ==> Wiped()
      ensures r.Err? ==> n == 0 && failed && delivered == old(delivered)
      ensures honest && !old(failed) && |old(delivered)| < |Stream(log)| && Stream(log)[|old(delivered)|] != FinishMark
              ==> !r.Err? && !failed
    {
      hide Encode, Genuine, Concat, Ahead, Stream, Core, DirectionCipher.After, Accounted, Wiped;
      n := 0;
      while ulen == 0
        invariant Valid() && inMsg && delivered == old(delivered)
        invariant rbuf == old(rbuf) || rbuf == null || fresh(rbuf)
        invariant honest && !old(failed) && |delivered| < |Stream(log)| && Stream(log)[|delivered|] != FinishMark ==> !failed
        decreases if ended then 0 else 1, if ulen == 0 then 1 else 0
      {
        CoreOwed();
        if ended {
          Release();
          return 0, Eof;
        }
        if failed {
          return 0, Err(SessionFailed);
        }
        var res;
        n, res := NextRecord(p);
        if res.Some? {
          return n, res.value;
        }
      }
      n := Deliver(p);
      r := Got;
    }

    lemma CoreOwed()
      requires Core()
      ensures ulen == |owed| && Emitted(log) && k <= |log|
    {
    }

    /** One record for a reader that is owed nothing: its bytes go straight to
        p, or become owed, or the message ends, or the session fails. */
    method NextRecord(p: array<byte>) returns (n: nat, r: Option<ReadResult>)
      requires Valid() && inMsg && !failed && !ended && ulen == 0
      modifies this`conn, this`rbuf, this`roff, this`rend, this`rHigh, this`failed, this`k, this`started, this`ended,
               this`ustart, this`ulen, this`delivered, this`owed, recv, rbuf, p
      ensures Valid() && (rbuf == old(rbuf) || rbuf == null || fresh(rbuf))
      ensures r.None? ==> !failed && delivered == old(delivered) && (ulen > 0 || ended)
      ensures r.Some? ==> !r.value.Eof?
      ensures r == Some(Got) ==> !failed && 0 < n <= p.Length && delivered == old(delivered) + AsItems(p[..n])
      ensures r.Some? && r.value.Err? ==> n == 0 && failed && delivered == old(delivered)
      ensures r == Some(Got) && ended ==> owed == [] && Wiped()
      ensures honest && |old(delivered)| < |Stream(log)| && Stream(log)[|old(delivered)|] != FinishMark
              ==> r.None? || r.value.Got?
    {
      hide Encode, Genuine, Concat, Ahead, Stream, Core, DirectionCipher.After, Accounted, Wiped;
      CoreOwed();
      if |delivered| < |Stream(log)| {
        NextItem(log, k, delivered);
      }
      ghost var k0 := k;
      var err, kind, direct, start, len := ReadRecord(!started, p);
      CoreOwed();
      n := 0;
      if err.Some? {
        FailedAccount(log, k, delivered);
        return 0, Some(Err(err.value));
      }
      AcceptRecord(log, k0, delivered);
      started := true;
      if kind == DATA && len > 0 {
      } else if kind == END {
        ended := true;
      } else {
        Poison();
        return 0, Some(Err(BadKind));
      }
      n, r := Settle(p, direct, start, len, log[k0].payload);
    }

    /** The opened payload reaches the caller: it is in p already, or becomes
        owed. An empty one that ended the message leaves EOF to report. */
    method Settle(p: array<byte>, direct: bool, start: nat, len: nat, ghost payload: seq<byte>)
      returns (n: nat, r: Option<ReadResult>)
      requires Core() && inMsg && !failed && ulen == 0 && Accounted(log, k, delivered, payload, ended, failed)
      requires len == |payload| && (len > 0 || ended)
      requires direct ==> len <= p.Length && p[..len] == payload
      requires !direct ==> p.Length < len && rbuf != null && start + len <= roff <= rbuf.Length
      requires !direct ==> rbuf[start..start + len] == Secrets(payload)
      modifies this`ustart, this`ulen, this`owed, this`delivered, this`rbuf, this`roff, this`rend, this`rHigh, rbuf
      ensures Valid() && (rbuf == old(rbuf) || rbuf == null)
      ensures r.None? ==> delivered == old(delivered) && (ulen > 0 || ended)
      ensures r.Some? ==> r == Some(Got) && 0 < n <= p.Length && delivered == old(delivered) + AsItems(p[..n])
      ensures r.Some? && ended ==> owed == [] && Wiped()
    {
      hide Core, Accounted, Wiped;
      CoreOwed();
      if direct {
        HandOver(log, k, delivered, payload, ended, failed, len);
        assert payload[..len] == payload && payload[len..] == [];
        delivered := delivered + AsItems(p[..len]);
        if len == 0 {
          assert AsItems(p[..0]) == [];
          return 0, None;
        }
        if ended {
          Release();
        }
        CoreOwed();
        return len, Some(Got);
      }
      Owe(start, len, payload);
      n, r := 0, None;
    }

    /** Reads the client's FINISH, which must be the first record received. */
    method ReadFinish() returns (ok: bool)
      requires Valid() && !failed && !inMsg
      modifies this, recv, rbuf
      ensures Valid() && !inMsg && !ended && (rbuf == old(rbuf) || rbuf == null || fresh(rbuf))
      ensures ok ==> !failed && old(k) == 0 && log != [] && log[0] == Record(FINISH, []) && delivered == old(delivered) + [FinishMark]
      ensures !ok ==> failed && delivered == old(delivered)
      ensures honest && old(k) == 0 && log != [] && log[0] == Record(FINISH, []) ==> ok
      ensures old(k) == 0 ==> Wiped()
    {
      hide Encode, Genuine, Concat, Ahead, Stream, Core, Accounted, Emitted, DirectionCipher.After, Shape, Secrets, Wiped;
      CoreOwed();
      FailedAccount(log, k, delivered);
      ghost var k0 := k;
      CoreCounter();
      if recv.n != 0 {
        Poison();
        return false;
      }
      var none := new byte[0];
      var err, kind, direct, start, len := ReadRecord(false, none);
      CoreOwed();
      if err.None? {
        AcceptRecord(log, k0, delivered);
      }
      if err.None? && (kind != FINISH || len != 0) {
        Poison();
      }
      ok := !failed;
      if ok {
        FinishAccount(log, k0, delivered);
        delivered := delivered + [FinishMark];
      }
      Release();
    }

    /** What has been handed over is always a prefix of what the peer sealed. */
    lemma DeliveredIsPrefix()
      requires Valid()
      ensures Emitted(log) && delivered + AsItems(owed) <= Stream(log)
      ensures ended ==> delivered + AsItems(owed) + [EndMark] <= Stream(log)
    {
      hide Stream, Encode;
      StreamPrefix(log, k);
    }

    lemma CoreCounter()
      requires Core()
      ensures recv.n == k
    {
    }

    /** Poisoned, by a failure here or in the other direction. */
    method Poison()
      requires Core()
      modifies this`failed
      ensures Core() && failed
    {
      failed := true;
    }

    /** unread becomes the opened payload. */
    method Owe(start: nat, len: nat, ghost payload: seq<byte>)
      requires Core() && ulen == 0 && rbuf != null && start + len <= roff <= rbuf.Length
      requires len == |payload| && rbuf[start..start + len] == Secrets(payload)
      modifies this`ustart, this`ulen, this`owed
      ensures Core() && ulen == len && owed == payload
    {
      hide Encode, Genuine, Concat, Ahead, SecretsPlaced, Public, DirectionCipher.After, Emitted;
      ghost var v := V();
      ustart, ulen := start, len;
      UnreadKeeps(v, V());
      owed := payload;
    }

    /** Takes n bytes off what is owed. */
    method Consume(n: nat)
      requires Core() && n <= ulen
      modifies this`ustart, this`ulen, this`owed
      ensures Core() && owed == old(owed)[n..]
    {
      hide Encode, Genuine, Concat, Ahead, SecretsPlaced, Public, DirectionCipher.After, Emitted;
      ghost var v := V();
      if n < ulen {
        assert v.buf[ustart + n..ustart + ulen] == v.buf[ustart..ustart + ulen][n..] == Secrets(owed[n..]);
      }
      owed := owed[n..];
      ustart, ulen := ustart + n, ulen - n;
      UnreadKeeps(v, V());
    }

    /** Copies as much of what is owed as p holds. */
    method Deliver(p: array<byte>) returns (n: nat)
      requires Valid() && ulen > 0
      modifies this`ustart, this`ulen, this`owed, this`delivered, this`rbuf, this`roff, this`rend, this`rHigh, rbuf, p
      ensures Valid() && (rbuf == old(rbuf) || rbuf == null)
      ensures n <= p.Length && (p.Length > 0 ==> n > 0) && delivered == old(delivered) + AsItems(p[..n])
      ensures ended && owed == [] ==> Wiped()
    {
      hide Encode, Genuine, Concat, Ahead, Stream, SecretsPlaced, Public, DirectionCipher.After, Accounted, Emitted, Wiped;
      n := if ulen < p.Length then ulen else p.Length;
      forall i | 0 <= i < n {
        p[i] := Look(rbuf[ustart + i]);
      }
      forall i | 0 <= i < n ensures p[i] == owed[i] {
        assert V().buf[ustart..ustart + ulen][i] == rbuf[ustart + i];
      }
      assert p[..n] == owed[..n];
      HandOver(log, k, delivered, owed, ended, failed, n);
      delivered := delivered + AsItems(p[..n]);
      FinishDelivery(n);
    }

    method FinishDelivery(n: nat)
      requires Core() && n <= ulen && inMsg
      requires Accounted(log, k, delivered, owed[n..], ended, failed)
      modifies this`ustart, this`ulen, this`owed, this`rbuf, this`roff, this`rend, this`rHigh, rbuf
      ensures Valid() && (rbuf == old(rbuf) || rbuf == null)
      ensures owed == old(owed)[n..] && (ended && owed == [] ==> Wiped())
    {
      hide Core, Accounted, Wiped;
      CoreOwed();
      Consume(n);
      if ulen == 0 && ended {
        Release();
      }
      CoreOwed();
    }

    /** Leaves no plaintext in the buffer, and keeps it only for bytes still
        ahead. */
    method Release()
      requires Core() && ulen == 0
      modifies this`rbuf, this`roff, this`rend, this`rHigh, rbuf
      ensures Core() && Ahead(V()) == old(Ahead(V()))
      ensures old(rbuf) != null ==> NoSecrets(old(rbuf)[..])
      ensures rbuf == (if old(roff < rend) then old(rbuf) else null) && Wiped()
    {
      hide Encode, Genuine, Concat, Ahead, SecretsPlaced, Public, NoSecrets;
      if rbuf == null {
        return;
      }
      ghost var v := V();
      var low := if rHigh < roff then rHigh else roff;
      forall i | 0 <= i < low {
        rbuf[i] := Clear(0);
      }
      if rHigh > rend {
        forall i | rend <= i < rHigh {
          rbuf[i] := Clear(0);
        }
      }
      rHigh := 0;
      ClearKeeps(v, V());
      if roff < rend {
        return;
      }
      ghost var w := V();
      rbuf := null;
      roff, rend := 0, 0;
      ReturnKeeps(w, V());
    }

    /** Gives the peer's next record, in p if it fits and in the buffer if not.
        PeerClosed means that nothing of a message had arrived. */
    method ReadRecord(atMessageStart: bool, p: array<byte>)
      returns (err: Option<ReadError>, kind: byte, direct: bool, start: nat, n: nat)
      requires Core() && !failed && ulen == 0
      modifies this`conn, this`rbuf, this`roff, this`rend, this`rHigh, this`failed, this`k, recv, rbuf, p
      ensures Core() && (rbuf == old(rbuf) || (old(rbuf) == null && fresh(rbuf)))
      ensures err.None? ==> !failed && k == old(k) + 1 && kind == log[old(k)].kind && n == |log[old(k)].payload|
      ensures err.None? ==> direct == (n <= p.Length)
      ensures err.None? && direct ==> p[..n] == log[old(k)].payload
      ensures err.None? && !direct ==> rbuf != null && start + n <= roff <= rbuf.Length
      ensures err.None? && !direct ==> rbuf[start..start + n] == Secrets(log[old(k)].payload)
      ensures err.Some? ==> failed && k == old(k)
      ensures honest && old(k) < |log| ==> err.None?
      ensures err == Some(PeerClosed) <==> cleanEof && atMessageStart && old(Ahead(V())) == []
    {
      hide Encode, Genuine, Concat, Ahead, SecretsPlaced, Public, Emitted, DirectionCipher.After;
      kind, direct, start, n := 0, false, 0, 0;
      var len;
      err, len := AwaitRecord(atMessageStart);
      if err.Some? {
        return;
      }
      var ok;
      ok, kind, direct, start := OpenBuffered(len, p);
      n := len - TAG_SIZE;
      if !ok {
        err := Some(Unauthentic);
      }
    }

    /** Buffers the next record's header and reads its length. */
    method AwaitHeader(atMessageStart: bool) returns (err: Option<ReadError>, len: nat)
      requires Core() && !failed && ulen == 0
      modifies this`conn, this`rbuf, this`roff, this`rend, this`failed, rbuf
      ensures Core() && (rbuf == old(rbuf) || (old(rbuf) == null && fresh(rbuf)))
      ensures Ahead(V()) == old(Ahead(V()))
      ensures err.None? ==> !failed && Ahead(V()) != [] && TAG_SIZE <= len <= MAX_CIPHERTEXT
      ensures err.Some? ==> failed
      ensures honest && k < |log| ==> err.None? && len == |log[k].payload| + TAG_SIZE
      ensures err == Some(PeerClosed) <==> cleanEof && atMessageStart && old(Ahead(V())) == []
      ensures err != Some(Unauthentic)
    {
      hide Encode, Genuine, Concat, Ahead, Shape, Emitted, DirectionCipher.After;
      len := 0;
      ShapeMarks(V());
      if honest && k < |log| {
        HonestNext(Dir(), log, k, Ahead(V()));
      }
      var fill := FillTo(HEADER_SIZE, READ_AHEAD);
      AheadLength(V());
      ShapeMarks(V());
      if !fill.Filled? {
        failed := true;
        if fill.Ended? && rend == roff && atMessageStart {
          return Some(PeerClosed), 0;
        }
        return Some(if fill.Ended? then UnexpectedEof else Transport), 0;
      }
      len := 256 * Look(rbuf[roff]) + Look(rbuf[roff + 1]);
      if len < TAG_SIZE {
        failed := true;
        return Some(BadLength), 0;
      }
      err := None;
    }

    /** Buffers the next record whole, with its length. */
    method AwaitRecord(atMessageStart: bool) returns (err: Option<ReadError>, len: nat)
      requires Core() && !failed && ulen == 0
      modifies this`conn, this`rbuf, this`roff, this`rend, this`failed, rbuf
      ensures Core() && (rbuf == old(rbuf) || (old(rbuf) == null && fresh(rbuf)))
      ensures err.None? ==> !failed && rbuf != null && TAG_SIZE <= len <= MAX_CIPHERTEXT && roff + HEADER_SIZE + len <= rend
      ensures err.Some? ==> failed
      ensures honest && k < |log| ==> err.None? && len == |log[k].payload| + TAG_SIZE
      ensures err == Some(PeerClosed) <==> cleanEof && atMessageStart && old(Ahead(V())) == []
      ensures err != Some(Unauthentic)
    {
      hide Encode, Genuine, Concat, Ahead, Shape, Emitted, DirectionCipher.After;
      err, len := AwaitHeader(atMessageStart);
      if err.Some? {
        return;
      }
      ShapeMarks(V());
      if honest && k < |log| {
        HonestNext(Dir(), log, k, Ahead(V()));
      }
      var fill := FillTo(HEADER_SIZE + len, HEADER_SIZE + len + HEADER_SIZE);
      AheadLength(V());
      ShapeMarks(V());
      if !fill.Filled? {
        failed := true;
        return Some(if fill.Ended? then UnexpectedEof else Transport), 0;
      }
    }

    /** Opens the record of n ciphertext bytes whose header starts at roff,
        straight into p when p can hold it. */
    method OpenBuffered(n: nat, p: array<byte>) returns (ok: bool, kind: byte, direct: bool, start: nat)
      requires Core() && !failed && ulen == 0 && rbuf != null
      requires TAG_SIZE <= n <= MAX_CIPHERTEXT && roff + HEADER_SIZE + n <= rend
      modifies this`roff, this`rHigh, this`failed, this`k, recv, rbuf, p
      ensures Core() && direct == (p.Length >= n - TAG_SIZE) && start == old(roff) + HEADER_SIZE
      ensures ok ==> !failed && k == old(k) + 1 && kind == log[old(k)].kind && n == |log[old(k)].payload| + TAG_SIZE
      ensures ok && direct ==> p[..n - TAG_SIZE] == log[old(k)].payload
      ensures ok && !direct ==> start + n - TAG_SIZE <= roff <= rbuf.Length
      ensures ok && !direct ==> rbuf[start..start + n - TAG_SIZE] == Secrets(log[old(k)].payload)
      ensures !ok ==> failed && k == old(k)
      ensures honest && k < |log| && n == |log[k].payload| + TAG_SIZE ==> ok
    {
      hide Encode, Genuine, Ahead, Shape, Emitted, DirectionCipher.After, HeaderOf, BodyOf, SealedAt, OpenedView;
      ghost var v := V();
      ShapeMarks(v);
      if honest && k < |log| && n == |log[k].payload| + TAG_SIZE {
        HonestOpens(Dir(), log, k, v, n);
      }
      ghost var payload;
      ok, kind, direct, start, payload := Decrypt(n, p);
      if ok {
        Accepts(Dir(), log, k, v, n, payload, direct, honest);
        k := k + 1;
      }
    }

    /** Decrypts the record at roff into p or in place. */
    method Decrypt(n: nat, p: array<byte>)
      returns (ok: bool, kind: byte, direct: bool, start: nat, ghost payload: seq<byte>)
      requires Shape(V()) && !failed && ulen == 0 && rbuf != null && recv.After(k)
      requires TAG_SIZE <= n <= MAX_CIPHERTEXT && roff + HEADER_SIZE + n <= rend
      modifies this`roff, this`rHigh, this`failed, recv, rbuf, p
      ensures start == old(roff) + HEADER_SIZE && direct == (p.Length >= n - TAG_SIZE) && kind == HeaderOf(old(V()))[2]
      ensures ok <==> k < MAX_NONCE
                      && exists q :: BodyOf(old(V()), n) == Ciphertext(SealedAt(recv.root, recv.alg, k, HeaderOf(old(V())), q))
      ensures ok ==> BodyOf(old(V()), n) == Ciphertext(SealedAt(recv.root, recv.alg, k, HeaderOf(old(V())), payload))
      ensures ok ==> !failed && recv.After(k + 1) && |payload| == n - TAG_SIZE && V() == OpenedView(old(V()), n, payload, direct)
      ensures ok && direct ==> p[..n - TAG_SIZE] == payload
      ensures !ok ==> failed && recv.After(k) && Shape(V())
    {
      hide Concat, Ahead, SecretsPlaced, Public, DirectionCipher.After, SealedAt, OpenedView;
      ghost var v := V();
      start := roff + HEADER_SIZE;
      var hdr := LookAll(rbuf[roff..start]);
      var ciphertext := rbuf[start..start + n];
      assert hdr == HeaderOf(v) && ciphertext == BodyOf(v, n);
      direct := p.Length >= n - TAG_SIZE;
      if !direct {
        rHigh := if rHigh < start + n - TAG_SIZE then start + n - TAG_SIZE else rHigh;
      }
      kind := hdr[2];
      var r := recv.Open(ciphertext, hdr, k);
      ok, payload := r.Some?, [];
      if !ok {
        Discard(n, p, direct, v);
        return;
      }
      payload := r.value;
      PlaintextLength(recv.root, recv.alg, k, hdr, payload, n);
      Store(n, p, direct, r.value, v);
    }

    /** The decrypted payload lands in p or over its own ciphertext. */
    method Store(n: nat, p: array<byte>, direct: bool, payload: seq<byte>, ghost v: View)
      requires TAG_SIZE <= n && |payload| == n - TAG_SIZE && v.roff + HEADER_SIZE + n <= |v.buf| && v.held
      requires var high := v.roff + HEADER_SIZE + |payload|;
               V() == v.(rHigh := if direct || high <= v.rHigh then v.rHigh else high)
      requires direct ==> |payload| <= p.Length
      modifies this`roff, rbuf, p
      ensures V() == OpenedView(v, n, payload, direct)
      ensures direct ==> p[..|payload|] == payload
    {
      if direct {
        forall i | 0 <= i < |payload| {
          p[i] := payload[i];
        }
      } else {
        Put(rbuf, roff + HEADER_SIZE, Secrets(payload));
      }
      roff := roff + HEADER_SIZE + n;
    }

    /** Authentication failed: the AEAD zeroes what it wrote. */
    method Discard(n: nat, p: array<byte>, direct: bool, ghost v: View)
      requires Shape(v) && v.ulen == 0 && TAG_SIZE <= n && v.roff + HEADER_SIZE + n <= v.rend
      requires rbuf != null && V() == v.(rHigh := rHigh) && v.rHigh <= rHigh <= |v.buf|
      requires direct ==> n - TAG_SIZE <= p.Length
      modifies this`failed, rbuf, p
      ensures Shape(V()) && failed
    {
      hide Concat, SecretsPlaced, Public, Ahead;
      failed := true;
      if direct {
        forall i | 0 <= i < n - TAG_SIZE {
          p[i] := 0;
        }
        HigherMark(v, V());
      } else {
        Put(rbuf, roff + HEADER_SIZE, Clears(seq(n - TAG_SIZE, _ => 0)));
        ZeroedKeeps(v, V(), n);
      }
    }

    method Receive(need: nat, want: nat) returns (r: Fill)
      requires Shape(V()) && rbuf != null && ulen == 0 && need <= want && roff + want <= READ_BUFFER
      modifies this`conn, this`rend, rbuf
      ensures Shape(V()) && Ahead(V()) == old(Ahead(V()))
      ensures r.Filled? ==> rend - roff >= need
      ensures !r.Filled? ==> rend - roff < need && Concat(conn) == [] && r == (if cleanEof then Ended else Broken)
    {
      hide Concat, Ahead, SecretsPlaced, Public;
      while rend - roff < need
        invariant Shape(V())
        invariant Ahead(V()) == old(Ahead(V()))
        decreases |Concat(conn)|, |conn|
      {
        ghost var v := V();
        var data, more := ConnRead(roff + want - rend);
        if !more {
          ConcatNone(conn);
          return if cleanEof then Ended else Broken;
        }
        ReceiveKeeps(v, data, conn);
        Put(rbuf, rend, data);
        rend := rend + |data|;
        assert V() == ReceivedView(v, data, conn);
      }
      r := Filled;
    }
  }

  lemma HigherMark(v: View, v': View)
    requires Shape(v) && v' == v.(rHigh := v'.rHigh) && v.rHigh <= v'.rHigh <= |v.buf|
    ensures Shape(v')
  {
    hide Concat;
  }

  lemma PlaintextLength(root: Key, alg: Algorithm, k: nat, ad: seq<byte>, p: seq<byte>, n: nat)
    requires n == |Ciphertext(SealedAt(root, alg, k, ad, p))|
    ensures |p| == n - TAG_SIZE
  {
  }

  lemma AheadLength(v: View)
    requires Shape(v)
    ensures |Ahead(v)| == v.rend - v.roff + |Concat(v.conn)|
    ensures forall i :: 0 <= i < v.rend - v.roff ==> Ahead(v)[i] == v.buf[v.roff + i]
  {
    hide Concat;
  }

  lemma ConcatNone(chunks: seq<seq<Cell>>)
    requires chunks == []
    ensures Concat(chunks) == []
  {
  }

  lemma BufferTaken(v: View, v': View)
    requires Shape(v) && !v.held
    requires v' == v.(held := true, buf := v'.buf, roff := 0, rend := 0) && |v'.buf| == READ_BUFFER
    requires forall i :: 0 <= i < READ_BUFFER ==> !v'.buf[i].Secret?
    ensures Shape(v') && Ahead(v') == Ahead(v)
  {
    hide Concat;
  }
}
