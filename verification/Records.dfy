/** Records on the wire and what a run of records carries. */
module Records {
  import opened Bytes
  import opened RecordCipher

  const DATA: byte := 0
  const END: byte := 1
  const FINISH: byte := 2

  const HEADER_SIZE: nat := 3
  const MAX_CIPHERTEXT: nat := 65535
  const MAX_EMIT_PAYLOAD: nat := 65536 - HEADER_SIZE - TAG_SIZE
  const RECORD_WIRE_SIZE: nat := 65536
  const WRITE_BATCH: nat := 4
  const WRITE_BUFFER: nat := WRITE_BATCH * RECORD_WIRE_SIZE
  const READ_BUFFER: nat := 131072
  const READ_AHEAD: nat := HEADER_SIZE + MAX_CIPHERTEXT + HEADER_SIZE

  datatype Direction = Direction(root: Key, alg: Algorithm)

  datatype Record = Record(kind: byte, payload: seq<byte>)

  function Header(n: nat, kind: byte): (h: seq<byte>)
    requires n <= MAX_CIPHERTEXT
    ensures |h| == HEADER_SIZE && 256 * (h[0] as int) + h[1] as int == n && h[2] == kind
  {
    [n / 256, n % 256, kind]
  }

  function Clears(s: seq<byte>): (c: seq<Cell>)
    ensures |c| == |s|
    ensures forall i :: 0 <= i < |s| ==> c[i] == Clear(s[i])
  {
    seq(|s|, i requires 0 <= i < |s| => Clear(s[i]))
  }

  function Secrets(s: seq<byte>): (c: seq<Cell>)
    ensures |c| == |s|
    ensures forall i :: 0 <= i < |s| ==> c[i] == Secret(s[i])
  {
    seq(|s|, i requires 0 <= i < |s| => Secret(s[i]))
  }

  /** The byte a reader of a cell sees. What a ciphertext byte looks like
      does not matter: whoever could put one somewhere could put any clear
      byte there instead. */
  function Look(c: Cell): (b: byte)
  {
    if c.Cipher? then 0 else c.b
  }

  function LookAll(c: seq<Cell>): (s: seq<byte>)
    ensures |s| == |c|
    ensures forall i :: 0 <= i < |c| ==> s[i] == Look(c[i])
  {
    seq(|c|, i requires 0 <= i < |c| => Look(c[i]))
  }

  lemma LookBack(s: seq<byte>)
    ensures LookAll(Secrets(s)) == s && LookAll(Clears(s)) == s
  {
  }

  ghost predicate Fits(r: Record)
  {
    |r.payload| + TAG_SIZE <= MAX_CIPHERTEXT
  }

  /** A record a sender emits: DATA carries at least one byte and FINISH none. */
  ghost predicate Emittable(r: Record)
  {
    Fits(r) && (r.kind == END || (r.kind == DATA && r.payload != []) || (r.kind == FINISH && r.payload == []))
  }

  ghost predicate Emitted(log: seq<Record>)
  {
    forall i :: 0 <= i < |log| ==> Emittable(log[i])
  }

  function RecordHeader(r: Record): (h: seq<byte>)
    requires Fits(r)
    ensures |h| == HEADER_SIZE
  {
    Header(|r.payload| + TAG_SIZE, r.kind)
  }

  function SealedRecord(d: Direction, i: nat, r: Record): (s: Sealed)
    requires Fits(r)
  {
    SealedAt(d.root, d.alg, i, RecordHeader(r), r.payload)
  }

  /** Record number i of a direction as it travels. */
  function WireRecord(d: Direction, i: nat, r: Record): (w: seq<Cell>)
    requires Fits(r)
    ensures |w| == HEADER_SIZE + |r.payload| + TAG_SIZE
  {
    Clears(RecordHeader(r)) + Ciphertext(SealedRecord(d, i, r))
  }

  /** The wire bytes of records k.. of a log. */
  function Encode(d: Direction, log: seq<Record>, k: nat): (w: seq<Cell>)
    requires k <= |log| && Emitted(log)
    decreases |log| - k
  {
    if k == |log| then [] else WireRecord(d, k, log[k]) + Encode(d, log, k + 1)
  }

  lemma {:induction false} EncodeSnoc(d: Direction, log: seq<Record>, r: Record, k: nat)
    requires k <= |log| && Emitted(log) && Emittable(r)
    ensures Emitted(log + [r])
    ensures Encode(d, log + [r], k) == Encode(d, log, k) + WireRecord(d, |log|, r)
    decreases |log| - k
  {
    if k == |log| {
      assert Encode(d, log + [r], k + 1) == [];
    } else {
      EncodeSnoc(d, log, r, k + 1);
    }
  }

  function Args(log: seq<Record>): (a: seq<SealArgs>)
    requires Emitted(log)
    ensures |a| == |log|
  {
    seq(|log|, i requires 0 <= i < |log| => SealArgs(RecordHeader(log[i]), log[i].payload))
  }

  lemma ArgsSnoc(log: seq<Record>, r: Record)
    requires Emitted(log) && Emittable(r)
    ensures Emitted(log + [r])
    ensures Args(log + [r]) == Args(log) + [SealArgs(RecordHeader(r), r.payload)]
  {
  }

  /** What a run of records carries, end to end: message bytes in order and
      the marks between them. This is what both ends agree on. */
  datatype Item = Byte(b: byte) | EndMark | FinishMark

  function AsItems(s: seq<byte>): (t: seq<Item>)
    ensures |t| == |s|
    ensures forall i :: 0 <= i < |s| ==> t[i] == Byte(s[i])
  {
    seq(|s|, i requires 0 <= i < |s| => Byte(s[i]))
  }

  function Items(r: Record): (t: seq<Item>)
  {
    AsItems(r.payload)
    + (if r.kind == END then [EndMark] else if r.kind == FINISH then [FinishMark] else [])
  }

  function Stream(log: seq<Record>): (t: seq<Item>)
  {
    if log == [] then [] else Stream(log[..|log| - 1]) + Items(log[|log| - 1])
  }

  lemma StreamSnoc(log: seq<Record>, r: Record)
    ensures Stream(log + [r]) == Stream(log) + Items(r)
  {
    assert (log + [r])[..|log|] == log;
  }

  lemma StreamPrefixStep(log: seq<Record>, k: nat)
    requires k < |log|
    ensures Stream(log[..k + 1]) == Stream(log[..k]) + Items(log[k])
  {
    assert log[..k + 1] == log[..k] + [log[k]];
    StreamSnoc(log[..k], log[k]);
  }

  lemma {:induction false} StreamPrefix(log: seq<Record>, k: nat)
    requires k <= |log|
    ensures Stream(log[..k]) <= Stream(log)
    decreases |log| - k
  {
    if k == |log| {
      assert log[..k] == log;
    } else {
      StreamPrefixStep(log, k);
      StreamPrefix(log, k + 1);
    }
  }

  /** Every emitted record carries at least one item, so a direction never
      seals more records than the items it was given. */
  lemma {:induction false} RecordsAtMostItems(log: seq<Record>)
    requires Emitted(log)
    ensures |log| <= |Stream(log)|
  {
    if log != [] {
      RecordsAtMostItems(log[..|log| - 1]);
    }
  }

  lemma AsItemsConcat(a: seq<byte>, b: seq<byte>)
    ensures AsItems(a + b) == AsItems(a) + AsItems(b)
  {
  }

  /** Plaintext lies only in [lo, hi). */
  ghost predicate SecretsWithin(c: seq<Cell>, lo: int, hi: int)
  {
    forall i :: 0 <= i < |c| && c[i].Secret? ==> lo <= i < hi
  }

  ghost predicate NoSecrets(c: seq<Cell>)
  {
    SecretsWithin(c, 0, 0)
  }

  lemma WireRecordNoSecrets(d: Direction, i: nat, r: Record)
    requires Fits(r)
    ensures NoSecrets(WireRecord(d, i, r)) && NoSecrets(Clears(RecordHeader(r)))
  {
  }

  /** Overwriting with public bytes adds no plaintext, and leaves none when it
      covers the range that held it. */
  lemma CoverSecrets(before: seq<Cell>, after: seq<Cell>, at: nat, w: seq<Cell>, lo: int, hi: int)
    requires at + |w| <= |before| && after == before[..at] + w + before[at + |w|..]
    requires SecretsWithin(before, lo, hi) && NoSecrets(w)
    ensures SecretsWithin(after, lo, hi)
    ensures at <= lo && hi <= at + |w| ==> forall a, b :: SecretsWithin(after, a, b)
  {
  }

  /** cells written over buf from at. */
  ghost function Over(buf: seq<Cell>, at: nat, cells: seq<Cell>): (r: seq<Cell>)
    requires at + |cells| <= |buf|
    ensures |r| == |buf|
    ensures forall i :: 0 <= i < |buf| ==> r[i] == (if at <= i < at + |cells| then cells[i - at] else buf[i])
  {
    buf[..at] + cells + buf[at + |cells|..]
  }

  lemma OverTwice(buf: seq<Cell>, at: nat, a: seq<Cell>, b: seq<Cell>)
    requires at + |a| + |b| <= |buf|
    ensures Over(Over(buf, at, a), at + |a|, b) == Over(buf, at, a + b)
  {
  }

  /** copy(a[at:], cells). */
  method Put(a: array<Cell>, at: nat, cells: seq<Cell>)
    requires at + |cells| <= a.Length
    modifies a
    ensures a[..] == Over(old(a[..]), at, cells)
  {
    forall i | 0 <= i < |cells| {
      a[at + i] := cells[i];
    }
  }
}
