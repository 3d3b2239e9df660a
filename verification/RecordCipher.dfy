/** One direction's transport cipher: an idealised AEAD, with counter and
    REKEY as sections 4.2, 5.1, 11.3, 12.3 and 12.4 of the Noise Protocol
    Framework (revision 34) define them. */
module RecordCipher {
  import opened Bytes
  import opened Wrappers

  const MAX_NONCE: nat := 0xFFFF_FFFF_FFFF_FFFF
  const REKEY_INTERVAL: nat := 16384
  const TAG_SIZE: nat := 16

  datatype Algorithm = AES | ChaCha20

  /** A key is one the handshake's Split produced, or the first 32 bytes of a
      ciphertext. The AEAD is ideal: two ciphertexts agree only when key,
      nonce, associated data and plaintext all do. */
  datatype Key = Split(id: nat) | FromCiphertext(c: Sealed)

  datatype Sealed = Sealed(key: Key, nonce: seq<byte>, ad: seq<byte>, plaintext: seq<byte>)

  function NonceBytes(alg: Algorithm, n: nat): (s: seq<byte>)
    ensures |s| == 12
  {
    [0, 0, 0, 0] + (if alg.AES? then BigEndian(n, 8) else LittleEndian(n, 8))
  }

  /** The encryption Noise's REKEY function makes. */
  function RekeyCall(alg: Algorithm, key: Key): (s: Sealed)
  {
    Sealed(key, NonceBytes(alg, MAX_NONCE), [], seq(32, _ => 0))
  }

  /** The key after `epoch` rekeys. */
  function EpochKey(root: Key, alg: Algorithm, epoch: nat): (k: Key)
  {
    if epoch == 0 then root else FromCiphertext(RekeyCall(alg, EpochKey(root, alg, epoch - 1)))
  }

  /** The key that seals record number i of a direction. */
  function KeyAt(root: Key, alg: Algorithm, i: nat): (k: Key)
  {
    EpochKey(root, alg, i / REKEY_INTERVAL)
  }

  /** Record number i of a direction, sealed. */
  function SealedAt(root: Key, alg: Algorithm, i: nat, ad: seq<byte>, plaintext: seq<byte>): (s: Sealed)
  {
    Sealed(KeyAt(root, alg, i), NonceBytes(alg, i), ad, plaintext)
  }

  datatype SealArgs = SealArgs(ad: seq<byte>, plaintext: seq<byte>)

  /** Every AEAD encryption a sender performs while sealing `args` in order:
      one per record and one per REKEY. */
  function History(root: Key, alg: Algorithm, args: seq<SealArgs>): (h: seq<Sealed>)
  {
    if args == [] then [] else
      var i := |args| - 1;
      History(root, alg, args[..i])
      + [SealedAt(root, alg, i, args[i].ad, args[i].plaintext)]
      + (if |args| % REKEY_INTERVAL == 0 then [RekeyCall(alg, KeyAt(root, alg, i))] else [])
  }

  lemma HistorySnoc(root: Key, alg: Algorithm, args: seq<SealArgs>, a: SealArgs)
    ensures History(root, alg, args + [a]) == History(root, alg, args) + [SealedAt(root, alg, |args|, a.ad, a.plaintext)]
              + (if (|args| + 1) % REKEY_INTERVAL == 0 then [RekeyCall(alg, KeyAt(root, alg, |args|))] else [])
  {
    assert (args + [a])[..|args|] == args;
  }

  /** A nonce is four zero bytes and the counter, most significant byte first
      for AES and last for ChaCha20. */
  lemma NonceDigits(alg: Algorithm, n: nat)
    ensures NonceBytes(alg, n)[..4] == [0, 0, 0, 0]
    ensures forall i :: 4 <= i < 12 ==> NonceBytes(alg, n)[i] == n / Pow256(if alg.AES? then 11 - i else i - 4) % 256
  {
    hide Pow256, BigEndian, LittleEndian;
    forall i | 4 <= i < 12 ensures NonceBytes(alg, n)[i] == n / Pow256(if alg.AES? then 11 - i else i - 4) % 256 {
      BigEndianAt(n, 8, i - 4);
      LittleEndianAt(n, 8, i - 4);
    }
  }

  lemma NonceBytesInjective(alg: Algorithm, a: nat, b: nat)
    requires a <= MAX_NONCE && b <= MAX_NONCE
    requires NonceBytes(alg, a) == NonceBytes(alg, b)
    ensures a == b
  {
    assert Pow256(8) == MAX_NONCE + 1;
    assert NonceBytes(alg, a)[4..] == NonceBytes(alg, b)[4..];
    if alg.AES? {
      assert NonceBytes(alg, a)[4..] == BigEndian(a, 8);
      assert NonceBytes(alg, b)[4..] == BigEndian(b, 8);
      BigEndianInjective(a, b, 8);
    } else {
      assert NonceBytes(alg, a)[4..] == LittleEndian(a, 8);
      assert NonceBytes(alg, b)[4..] == LittleEndian(b, 8);
      LittleEndianInjective(a, b, 8);
    }
  }

  /** How many rekeys separate a key from the Split key it came from. */
  function Depth(k: Key): (d: nat)
  {
    match k
    case Split(_) => 0
    case FromCiphertext(c) => 1 + Depth(c.key)
  }

  lemma {:induction false} EpochKeyDepth(root: Key, alg: Algorithm, epoch: nat)
    ensures Depth(EpochKey(root, alg, epoch)) == Depth(root) + epoch
  {
    if epoch > 0 {
      EpochKeyDepth(root, alg, epoch - 1);
    }
  }

  /** What each encryption in a history is: record number i for some i below
      the count, or the REKEY that ended an epoch already over. */
  ghost predicate RecordOrRekey(root: Key, alg: Algorithm, count: nat, s: Sealed)
  {
    || (exists i: nat :: i < count && s.key == KeyAt(root, alg, i) && s.nonce == NonceBytes(alg, i))
    || (exists e: nat :: e < count / REKEY_INTERVAL && s == RekeyCall(alg, EpochKey(root, alg, e)))
  }

  lemma {:induction false} HistoryShape(root: Key, alg: Algorithm, args: seq<SealArgs>)
    ensures forall s :: s in History(root, alg, args) ==> RecordOrRekey(root, alg, |args|, s)
  {
    if args != [] {
      var i := |args| - 1;
      HistoryShape(root, alg, args[..i]);
      forall s | s in History(root, alg, args)
        ensures RecordOrRekey(root, alg, |args|, s)
      {
        if s in History(root, alg, args[..i]) {
          assert RecordOrRekey(root, alg, i, s);
        } else if s.nonce == NonceBytes(alg, i) && s.key == KeyAt(root, alg, i) {
        } else {
          assert s == RekeyCall(alg, EpochKey(root, alg, i / REKEY_INTERVAL));
        }
      }
    }
  }

  /** The last record's (key, nonce) pair is new to everything before it. */
  lemma FreshRecord(root: Key, alg: Algorithm, i: nat, s: Sealed)
    requires i < MAX_NONCE && RecordOrRekey(root, alg, i, s)
    ensures s.nonce != NonceBytes(alg, i)
  {
    if s.nonce == NonceBytes(alg, i) {
      if j: nat :| j < i && s.key == KeyAt(root, alg, j) && s.nonce == NonceBytes(alg, j) {
        NonceBytesInjective(alg, i, j);
      } else {
        NonceBytesInjective(alg, i, MAX_NONCE);
      }
    }
  }

  /** The REKEY that ends epoch e repeats no pair of the records and rekeys
      up to and including record i, the last of that epoch. */
  lemma FreshRekey(root: Key, alg: Algorithm, i: nat, s: Sealed)
    requires i < MAX_NONCE && RecordOrRekey(root, alg, i, s)
    ensures s.nonce != NonceBytes(alg, MAX_NONCE) || s.key != KeyAt(root, alg, i)
  {
    if s.nonce == NonceBytes(alg, MAX_NONCE) {
      if j: nat :| j < i && s.key == KeyAt(root, alg, j) && s.nonce == NonceBytes(alg, j) {
        NonceBytesInjective(alg, j, MAX_NONCE);
      } else {
        var e: nat :| e < i / REKEY_INTERVAL && s == RekeyCall(alg, EpochKey(root, alg, e));
        EpochKeyDepth(root, alg, e);
        EpochKeyDepth(root, alg, i / REKEY_INTERVAL);
      }
    }
  }

  /** No (key, nonce) pair is ever used twice in one direction, by records or
      by REKEY, however many records are sealed. */
  lemma {:induction false} NonceNeverReused(root: Key, alg: Algorithm, args: seq<SealArgs>, a: nat, b: nat)
    requires |args| <= MAX_NONCE
    requires a < b < |History(root, alg, args)|
    ensures var h := History(root, alg, args);
            h[a].key != h[b].key || h[a].nonce != h[b].nonce
  {
    var i := |args| - 1;
    var before := History(root, alg, args[..i]);
    var h := History(root, alg, args);
    HistoryShape(root, alg, args[..i]);
    if b < |before| {
      NonceNeverReused(root, alg, args[..i], a, b);
    } else if a < |before| {
      assert h[a] == before[a] && before[a] in before;
      if b == |before| {
        FreshRecord(root, alg, i, h[a]);
      } else {
        FreshRekey(root, alg, i, h[a]);
      }
    } else if NonceBytes(alg, i) == NonceBytes(alg, MAX_NONCE) {
      NonceBytesInjective(alg, i, MAX_NONCE);
    }
  }

  lemma ReservedNonce(root: Key, alg: Algorithm, count: nat, s: Sealed)
    requires count <= MAX_NONCE && RecordOrRekey(root, alg, count, s)
    ensures s.nonce == NonceBytes(alg, MAX_NONCE) <==>
            exists e: nat :: e < count / REKEY_INTERVAL && s == RekeyCall(alg, EpochKey(root, alg, e))
  {
    if e: nat :| e < count / REKEY_INTERVAL && s == RekeyCall(alg, EpochKey(root, alg, e)) {
      assert s.nonce == RekeyCall(alg, EpochKey(root, alg, e)).nonce;
    } else {
      var j: nat :| j < count && s.key == KeyAt(root, alg, j) && s.nonce == NonceBytes(alg, j);
      if s.nonce == NonceBytes(alg, MAX_NONCE) {
        NonceBytesInjective(alg, j, MAX_NONCE);
      }
    }
  }

  /** The reserved nonce seals no record: an encryption at nonce 2^64-1 is a
      REKEY of an epoch that has ended, and every REKEY is at that nonce. */
  lemma {:induction false} ReservedNonceOnlyRekeys(root: Key, alg: Algorithm, args: seq<SealArgs>, s: Sealed)
    requires |args| <= MAX_NONCE
    requires s in History(root, alg, args)
    ensures s.nonce == NonceBytes(alg, MAX_NONCE) <==>
            exists e: nat :: e < |args| / REKEY_INTERVAL && s == RekeyCall(alg, EpochKey(root, alg, e))
  {
    HistoryShape(root, alg, args);
    ReservedNonce(root, alg, |args|, s);
  }

  /** A byte of memory or of the wire. Clear bytes are public; Secret bytes
      are plaintext; a Cipher cell is byte i of one ciphertext, tag included. */
  datatype Cell = Clear(b: byte) | Secret(b: byte) | Cipher(rec: Sealed, i: nat)

  function Ciphertext(s: Sealed): (c: seq<Cell>)
    ensures |c| == |s.plaintext| + TAG_SIZE
    ensures forall i :: 0 <= i < |c| ==> c[i] == Cell.Cipher(s, i)
  {
    seq(|s.plaintext| + TAG_SIZE, i requires 0 <= i => Cell.Cipher(s, i))
  }

  /** Decryption under the ideal AEAD: it succeeds on the whole ciphertext of
      something sealed with exactly this key, nonce and associated data. */
  function AeadOpen(key: Key, nonce: seq<byte>, ad: seq<byte>, c: seq<Cell>): (r: Option<seq<byte>>)
    ensures r.Some? <==> exists p :: c == Ciphertext(Sealed(key, nonce, ad, p))
    ensures r.Some? ==> c == Ciphertext(Sealed(key, nonce, ad, r.value))
  {
    if |c| >= TAG_SIZE && c[0].Cipher? && c == Ciphertext(c[0].rec)
       && c[0].rec.key == key && c[0].rec.nonce == nonce && c[0].rec.ad == ad then
      assert c == Ciphertext(Sealed(key, nonce, ad, c[0].rec.plaintext));
      Some(c[0].rec.plaintext)
    else
      None
  }

  class DirectionCipher {
    const alg: Algorithm
    ghost const root: Key
    var key: Key
    var n: nat
    var nonce: seq<byte>
    /** Every AEAD encryption made with this cipher's keys. */
    ghost var calls: seq<Sealed>

    /** After k records a cipher, sending or receiving, holds the same key and
        counter: both are functions of k alone. */
    ghost predicate After(k: nat)
      reads this
    {
      n == k && k <= MAX_NONCE && key == KeyAt(root, alg, k)
      && |nonce| == 12 && nonce[..4] == [0, 0, 0, 0]
    }

    constructor (alg: Algorithm, key: Key)
      ensures this.alg == alg && root == key && After(0) && calls == []
    {
      this.alg := alg;
      this.key := key;
      root := key;
      n := 0;
      nonce := seq(12, _ => 0);
      calls := [];
    }

    method SetNonce(m: nat)
      requires |nonce| == 12 && nonce[..4] == [0, 0, 0, 0] && m <= MAX_NONCE
      modifies this`nonce
      ensures nonce == NonceBytes(alg, m) && nonce[..4] == [0, 0, 0, 0]
      ensures forall i :: 4 <= i < 12 ==> nonce[i] == m / Pow256(if alg.AES? then 11 - i else i - 4) % 256
    {
      NonceDigits(alg, m);
      if alg.AES? {
        nonce := nonce[..4] + BigEndian(m, 8);
      } else {
        nonce := nonce[..4] + LittleEndian(m, 8);
      }
    }

    method Rekey(ghost k: nat)
      requires n == k && 0 < k <= MAX_NONCE && k % REKEY_INTERVAL == 0
      requires key == KeyAt(root, alg, k - 1)
      requires |nonce| == 12 && nonce[..4] == [0, 0, 0, 0]
      modifies this`key, this`nonce, this`calls
      ensures After(k)
      ensures calls == old(calls) + [RekeyCall(alg, old(key))]
    {
      SetNonce(MAX_NONCE);
      var out := Sealed(key, nonce, [], seq(32, _ => 0));
      calls := calls + [out];
      assert out == RekeyCall(alg, key);
      assert k / REKEY_INTERVAL - 1 == (k - 1) / REKEY_INTERVAL;
      key := FromCiphertext(out);
    }

    method Advance(ghost k: nat)
      requires n == k < MAX_NONCE && key == KeyAt(root, alg, k)
      requires |nonce| == 12 && nonce[..4] == [0, 0, 0, 0]
      modifies this`n, this`key, this`nonce, this`calls
      ensures After(k + 1)
      ensures calls == old(calls)
                       + (if (k + 1) % REKEY_INTERVAL == 0 then [RekeyCall(alg, KeyAt(root, alg, k))] else [])
    {
      n := n + 1;
      if n % REKEY_INTERVAL == 0 {
        Rekey(k + 1);
      } else {
        assert (k + 1) / REKEY_INTERVAL == k / REKEY_INTERVAL;
      }
    }

    /** Seals the next record, or refuses once the counter has reached the
        reserved nonce; it never wraps. */
    method Seal(plaintext: seq<byte>, ad: seq<byte>, ghost args: seq<SealArgs>) returns (ok: bool, out: Sealed)
      requires After(|args|) && calls == History(root, alg, args)
      modifies this
      ensures ok <==> |args| < MAX_NONCE
      ensures ok ==> out == SealedAt(root, alg, |args|, ad, plaintext)
      ensures ok ==> After(|args| + 1) && calls == History(root, alg, args + [SealArgs(ad, plaintext)])
      ensures !ok ==> After(|args|) && calls == old(calls)
    {
      hide History, EpochKey, NonceBytes, RekeyCall;
      if n >= MAX_NONCE {
        return false, Sealed(key, [], [], []);
      }
      SetNonce(n);
      out := Sealed(key, nonce, ad, plaintext);
      calls := calls + [out];
      HistorySnoc(root, alg, args, SealArgs(ad, plaintext));
      Advance(n);
      ok := true;
    }

    /** Opens the next record. A record that does not authenticate leaves the
        counter and the key where they were. */
    method Open(c: seq<Cell>, ad: seq<byte>, ghost k: nat) returns (r: Option<seq<byte>>)
      requires After(k)
      modifies this
      ensures r.Some? <==> k < MAX_NONCE && exists p :: c == Ciphertext(SealedAt(root, alg, k, ad, p))
      ensures r.Some? ==> c == Ciphertext(SealedAt(root, alg, k, ad, r.value)) && After(k + 1)
      ensures r.None? ==> n == old(n) && key == old(key) && After(k)
    {
      hide EpochKey, NonceBytes, RekeyCall, AeadOpen, Ciphertext;
      if n >= MAX_NONCE {
        return None;
      }
      SetNonce(n);
      r := AeadOpen(key, nonce, ad, c);
      if r.None? {
        forall p ensures c != Ciphertext(SealedAt(root, alg, k, ad, p)) {
          assert SealedAt(root, alg, k, ad, p) == Sealed(key, nonce, ad, p);
        }
        return None;
      }
      assert c == Ciphertext(SealedAt(root, alg, k, ad, r.value));
      Advance(n);
    }
  }

  /** Where a cipher stands: its key, hence its epoch, and its counter. */
  datatype Stand = Stand(key: Key, n: nat)

  /** Any run of a direction: a fresh sender seals, a fresh receiver opens the
      results in order. Every one opens to what was sealed, after each k both
      stand at the same place, the one epoch and counter give, and no pair of
      key and nonce encrypts twice. */
  method Agreement(alg: Algorithm, root: Key, args: seq<SealArgs>)
    returns (texts: seq<seq<byte>>, sent: seq<Stand>, received: seq<Stand>, ghost calls: seq<Sealed>)
    requires |args| <= MAX_NONCE
    ensures |texts| == |args| && forall i :: 0 <= i < |args| ==> texts[i] == args[i].plaintext
    ensures |sent| == |args| + 1 && sent == received
    ensures forall k :: 0 <= k <= |args| ==> sent[k] == Stand(EpochKey(root, alg, k / REKEY_INTERVAL), k)
    ensures calls == History(root, alg, args)
    ensures forall a, b :: 0 <= a < b < |calls| ==> calls[a].key != calls[b].key || calls[a].nonce != calls[b].nonce
  {
    hide History, EpochKey, Ciphertext, NonceBytes, RekeyCall;
    var s := new DirectionCipher(alg, root);
    var r := new DirectionCipher(alg, root);
    texts, sent, received := [], [Stand(s.key, s.n)], [Stand(r.key, r.n)];
    NoHistory(root, alg);
    for k := 0 to |args|
      invariant fresh(s) && fresh(r) && s != r && s.root == r.root == root && s.alg == r.alg == alg
      invariant s.After(k) && r.After(k) && s.calls == History(root, alg, args[..k])
      invariant |texts| == k && forall i :: 0 <= i < k ==> texts[i] == args[i].plaintext
      invariant |sent| == k + 1 && sent == received
      invariant forall i :: 0 <= i <= k ==> sent[i] == Stand(EpochKey(root, alg, i / REKEY_INTERVAL), i)
    {
      var a := args[k];
      assert args[..k + 1] == args[..k] + [a] && SealArgs(a.ad, a.plaintext) == a;
      var ok, out := s.Seal(a.plaintext, a.ad, args[..k]);
      var p := r.Open(Ciphertext(out), a.ad, k);
      SamePlaintext(out, SealedAt(root, alg, k, a.ad, p.value));
      texts := texts + [p.value];
      sent, received := sent + [Stand(s.key, s.n)], received + [Stand(r.key, r.n)];
    }
    assert args[..|args|] == args;
    calls := s.calls;
    forall a, b | 0 <= a < b < |calls| ensures calls[a].key != calls[b].key || calls[a].nonce != calls[b].nonce {
      NonceNeverReused(root, alg, args, a, b);
    }
  }

  lemma NoHistory(root: Key, alg: Algorithm)
    ensures History(root, alg, []) == []
  {
  }

  /** A ciphertext is of one sealing only. */
  lemma SamePlaintext(a: Sealed, b: Sealed)
    requires Ciphertext(a) == Ciphertext(b)
    ensures a == b
  {
    assert Ciphertext(a)[0] == Cell.Cipher(a, 0) && Ciphertext(b)[0] == Cell.Cipher(b, 0);
  }
}
