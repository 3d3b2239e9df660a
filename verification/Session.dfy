/** Both halves of a session together: what one end writes is what the other
    reads, and what it reads is never anything else. */
module Session {
  import opened Bytes
  import opened RecordCipher
  import opened Records
  import WriteSide
  import ReadSide
  import Sequences

  datatype Op = Put(p: seq<byte>) | Flush

  /** A message: how it is written and what it says. */
  datatype Message = Message(paced: bool, ops: seq<Op>)

  function Said(op: Op): (s: seq<byte>)
  {
    if op.Put? then op.p else []
  }

  function Body(ops: seq<Op>): (s: seq<byte>)
  {
    if ops == [] then [] else
      Body(ops[..|ops| - 1]) + Said(ops[|ops| - 1])
  }

  function Bodies(msgs: seq<Message>): (b: seq<seq<byte>>)
    ensures |b| == |msgs|
  {
    seq(|msgs|, i requires 0 <= i < |msgs| => Body(msgs[i].ops))
  }

  /** Whole messages as items: each one's bytes, then its END. */
  function Joined(b: seq<seq<byte>>): (t: seq<Item>)
  {
    if b == [] then [] else Joined(b[..|b| - 1]) + AsItems(b[|b| - 1]) + [EndMark]
  }

  lemma JoinedSnoc(b: seq<seq<byte>>, s: seq<byte>)
    ensures Joined(b + [s]) == Joined(b) + AsItems(s) + [EndMark]
  {
    assert (b + [s])[..|b|] == b;
  }

  /** The last END of a prefix of items marks where its last message ends, so
      the messages can be read back from the items. */
  lemma {:induction false} JoinedInjective(a: seq<seq<byte>>, b: seq<seq<byte>>)
    requires Joined(a) == Joined(b)
    ensures a == b
  {
    if a != [] && b != [] {
      var x, y := a[|a| - 1], b[|b| - 1];
      var p, q := Joined(a[..|a| - 1]), Joined(b[..|b| - 1]);
      LastMark(a[..|a| - 1]);
      LastMark(b[..|b| - 1]);
      SameTail(p, x, q, y);
      JoinedInjective(a[..|a| - 1], b[..|b| - 1]);
      assert a == a[..|a| - 1] + [x] && b == b[..|b| - 1] + [y];
    }
  }

  lemma LastMark(b: seq<seq<byte>>)
    ensures Joined(b) == [] || Joined(b)[|Joined(b)| - 1] == EndMark
  {
  }

  lemma SameTail(p: seq<Item>, x: seq<byte>, q: seq<Item>, y: seq<byte>)
    requires p == [] || p[|p| - 1] == EndMark
    requires q == [] || q[|q| - 1] == EndMark
    requires p + AsItems(x) + [EndMark] == q + AsItems(y) + [EndMark]
    ensures p == q && x == y
  {
    var s, t := p + AsItems(x) + [EndMark], q + AsItems(y) + [EndMark];
    assert forall i :: |p| <= i < |s| - 1 ==> s[i] == Byte(x[i - |p|]);
    assert forall i :: |q| <= i < |t| - 1 ==> t[i] == Byte(y[i - |q|]);
    assert q == [] || t[|q| - 1] == EndMark;
    assert p == [] || s[|p| - 1] == EndMark;
    assert |p| == |q|;
    assert p == s[..|p|] && q == t[..|q|];
    forall i | 0 <= i < |x| ensures x[i] == y[i] {
      assert s[|p| + i] == Byte(x[i]) && t[|p| + i] == Byte(y[i]);
    }
  }

  /** Any way of cutting bytes into arrivals: lengths beyond what is left take
      what is left, and whatever is uncut arrives last. */
  function Chop(w: seq<Cell>, cuts: seq<nat>): (c: seq<seq<Cell>>)
    ensures Sequences.Concat(c) == w
    decreases |cuts|
  {
    if cuts == [] then
      assert [w][1..] == [];
      [w]
    else
      var n := if cuts[0] <= |w| then cuts[0] else |w|;
      var rest := Chop(w[n..], cuts[1..]);
      assert ([w[..n]] + rest)[1..] == rest;
      [w[..n]] + rest
  }

  lemma {:induction false} BodySnoc(ops: seq<Op>, i: nat)
    requires i < |ops|
    ensures Body(ops[..i + 1]) == Body(ops[..i]) + Said(ops[i])
  {
    assert ops[..i + 1][..i] == ops[..i];
  }

  method Apply(s: WriteSide.Sender, op: Op) returns (ok: bool)
    requires s.Valid() && !s.failed && !s.wEnded
    modifies s, s.send, s.wbuf
    ensures s.Valid() && (s.wbuf == old(s.wbuf) || fresh(s.wbuf))
    ensures ok ==> !s.failed && !s.wEnded && WriteSide.Given(s.V()) == old(WriteSide.Given(s.V())) + AsItems(Said(op))
    ensures s.reliable && old(|WriteSide.Given(s.V())|) + |Said(op)| < MAX_NONCE ==> ok
  {
    hide Encode, Stream, WriteSide.Sender.Valid, WriteSide.Given, WriteSide.Sender.V;
    var out;
    if op.Put? {
      ghost var taken;
      var total;
      total, out, taken := s.Write(op.p);
      assert op.p[..|op.p|] == op.p;
    } else {
      out := s.Flush();
      assert AsItems([]) == [];
    }
    ok := out.Ok?;
  }

  /** Writes one message. On a connection that takes every byte it fails only
      if the direction runs out of nonces. */
  method Send(s: WriteSide.Sender, m: Message) returns (ok: bool)
    requires s.Valid() && !s.failed && s.open == [] && s.wbuf == null
    modifies s, s.send
    ensures s.Valid() && (ok ==> !s.failed && s.open == [] && s.wbuf == null)
    ensures ok ==> Emitted(s.log) && s.wire == Encode(s.Dir(), s.log, 0)
    ensures ok ==> Stream(s.log) == old(Stream(s.log)) + AsItems(Body(m.ops)) + [EndMark]
    ensures s.reliable && old(|Stream(s.log)|) + |Body(m.ops)| < MAX_NONCE ==> ok
  {
    hide Encode, Stream, WriteSide.Sender.Valid, Body;
    ghost var g := Stream(s.log);
    s.Writer(m.paced);
    BodyNone(m.ops);
    assert g + AsItems(Body(m.ops[..0])) == WriteSide.Given(s.V());
    for i := 0 to |m.ops|
      invariant s.Valid() && !s.failed && !s.wEnded && (s.wbuf == null || fresh(s.wbuf))
      invariant WriteSide.Given(s.V()) == g + AsItems(Body(m.ops[..i]))
    {
      BodySnoc(m.ops, i);
      BodyGrows(m.ops, i + 1);
      ok := Apply(s, m.ops[i]);
      if !ok {
        return;
      }
      AsItemsConcat(Body(m.ops[..i]), Said(m.ops[i]));
    }
    assert m.ops[..|m.ops|] == m.ops;
    var out := s.End();
    s.ValidCount();
    ok := out.Ok?;
  }

  lemma BodyNone(ops: seq<Op>)
    ensures Body(ops[..0]) == []
  {
  }

  lemma {:induction false} BodyGrows(ops: seq<Op>, i: nat)
    requires i <= |ops|
    ensures |Body(ops[..i])| <= |Body(ops)|
    decreases |ops| - i
  {
    if i == |ops| {
      assert ops[..i] == ops;
    } else {
      BodySnoc(ops, i);
      BodyGrows(ops, i + 1);
    }
  }

  /** The items before a direction's first message: the client confirms the
      session with FINISH. */
  function Opening(finish: bool): (t: seq<Item>)
  {
    if finish then [FinishMark] else []
  }

  /** Writes every message of a direction over a connection that takes every
      byte. */
  method SendAll(root: Key, alg: Algorithm, progress: bool, finish: bool, msgs: seq<Message>)
    returns (ok: bool, wire: seq<Cell>, ghost log: seq<Record>)
    ensures ok ==> Emitted(log) && |log| <= MAX_NONCE && wire == Encode(Direction(root, alg), log, 0)
    ensures ok ==> Stream(log) == Opening(finish) + Joined(Bodies(msgs))
    ensures 1 + |Joined(Bodies(msgs))| < MAX_NONCE ==> ok
  {
    hide Encode, Stream, WriteSide.Sender.Valid, Body, Joined;
    var cipher := new DirectionCipher(alg, root);
    var s := new WriteSide.Sender(cipher, true, progress);
    ok, wire, log := true, [], [];
    StreamNone();
    JoinedNone();
    EncodeNone(s.Dir());
    if finish {
      assert AsItems([]) == [];
      s.ValidIdle();
      var out := s.WriteFinish();
      if !out.Ok? {
        return false, [], [];
      }
    }
    s.ValidCount();
    for i := 0 to |msgs|
      invariant s.Valid() && !s.failed && s.open == [] && s.wbuf == null && fresh(s) && fresh(s.send)
      invariant s.send == cipher && s.reliable && cipher.root == root && cipher.alg == alg
      invariant Emitted(s.log) && s.wire == Encode(s.Dir(), s.log, 0)
      invariant Stream(s.log) == Opening(finish) + Joined(Bodies(msgs)[..i])
    {
      JoinedSteps(Bodies(msgs), i);
      ok := Send(s, msgs[i]);
      if !ok {
        return false, [], [];
      }
    }
    s.ValidCount();
    assert Bodies(msgs)[..|msgs|] == Bodies(msgs);
    log := s.log;
    wire := s.wire;
  }

  lemma StreamNone()
    ensures Stream([]) == []
  {
  }

  lemma JoinedNone()
    ensures Joined([]) == []
  {
  }

  lemma EncodeNone(d: Direction)
    ensures Encode(d, [], 0) == []
  {
  }

  lemma {:induction false} JoinedSteps(b: seq<seq<byte>>, i: nat)
    requires i < |b|
    ensures Joined(b[..i + 1]) == Joined(b[..i]) + AsItems(b[i]) + [EndMark]
    ensures |Joined(b[..i + 1])| <= |Joined(b)|
    decreases |b| - i
  {
    assert b[..i + 1] == b[..i] + [b[i]];
    JoinedSnoc(b[..i], b[i]);
    if i + 1 < |b| {
      JoinedSteps(b, i + 1);
    } else {
      assert b[..i + 1] == b;
    }
  }

  /** Reads one message into buffers of the given sizes until EOF or an error. */
  method ReadMessage(r: ReadSide.Receiver, size: nat -> nat) returns (body: seq<byte>, eof: bool)
    requires r.Valid() && !r.failed && r.inMsg
    requires forall i: nat :: size(i) > 0
    modifies r, r.recv, r.rbuf
    ensures r.Valid() && r.inMsg && (r.rbuf == old(r.rbuf) || r.rbuf == null || fresh(r.rbuf))
    ensures r.delivered == old(r.delivered) + AsItems(body)
    ensures eof ==> r.ended && r.owed == [] && r.Wiped()
    ensures !eof ==> r.failed
    ensures r.honest && !eof ==> |r.delivered| >= |Stream(r.log)| || Stream(r.log)[|r.delivered|] == FinishMark
    ensures r.honest && eof ==> !r.failed
  {
    hide Encode, Stream, ReadSide.Receiver.Valid, ReadSide.Receiver.Wiped;
    body := [];
    assert AsItems([]) == [];
    var calls := 0;
    r.DeliveredIsPrefix();
    while true
      invariant r.Valid() && r.inMsg && (r.rbuf == old(r.rbuf) || r.rbuf == null || fresh(r.rbuf))
      invariant r.delivered == old(r.delivered) + AsItems(body) && |r.delivered| <= |Stream(r.log)|
      invariant r.honest ==> !r.failed || |r.delivered| >= |Stream(r.log)| || Stream(r.log)[|r.delivered|] == FinishMark
      decreases |Stream(r.log)| - |r.delivered|
    {
      var p := new byte[size(calls)];
      calls := calls + 1;
      var n, res := r.Read(p);
      r.DeliveredIsPrefix();
      if res.Eof? {
        return body, true;
      }
      if res.Err? {
        return body, false;
      }
      AsItemsConcat(body, p[..n]);
      body := body + p[..n];
    }
  }

  lemma JoinedHasNoFinish(b: seq<seq<byte>>)
    ensures FinishMark !in Joined(b)
  {
  }

  /** The first record of a stream that opens with FINISH is the FINISH. */
  lemma FinishFirst(log: seq<Record>)
    requires Emitted(log) && Stream(log) != [] && Stream(log)[0] == FinishMark
    ensures log != [] && log[0] == Record(FINISH, [])
  {
    hide Stream;
    StreamNone();
    assert log != [];
    StreamPrefixStep(log, 0);
    assert log[..0] == [];
    StreamPrefix(log, 1);
    assert Stream(log[..1]) == Items(log[0]);
    assert Items(log[0])[0] == FinishMark;
  }

  lemma NoFinishAfter(o: seq<Item>, want: seq<seq<byte>>)
    ensures forall i :: |o| <= i < |o + Joined(want)| ==> (o + Joined(want))[i] != FinishMark
  {
    hide Joined;
    JoinedHasNoFinish(want);
  }

  /** An honest stream read to where it fails was read to its end. */
  lemma ReadToTheEnd(t: seq<Item>, finish: bool, want: seq<seq<byte>>, got: seq<seq<byte>>, tail: seq<byte>)
    requires t == Opening(finish) + Joined(want)
    requires Opening(finish) + Joined(got) + AsItems(tail) <= t
    requires |Opening(finish) + Joined(got) + AsItems(tail)| >= |t|
             || t[|Opening(finish) + Joined(got) + AsItems(tail)|] == FinishMark
    ensures got == want && tail == []
  {
    hide Joined, Opening;
    var o, g := Opening(finish), Joined(got) + AsItems(tail);
    assert o + Joined(got) + AsItems(tail) == o + g;
    NoFinishAfter(o, want);
    assert o + g == o + Joined(want);
    SameRest(o, g, Joined(want));
    NoTail(Joined(got), tail, want);
    JoinedInjective(want, got);
  }

  lemma SameRest(o: seq<Item>, a: seq<Item>, b: seq<Item>)
    requires o + a == o + b
    ensures a == b
  {
    assert a == (o + a)[|o|..] && b == (o + b)[|o|..];
  }

  /** Whole messages end in an END, so nothing trails them. */
  lemma NoTail(g: seq<Item>, tail: seq<byte>, want: seq<seq<byte>>)
    requires g + AsItems(tail) == Joined(want)
    ensures tail == [] && g == Joined(want)
  {
    hide Joined;
    assert tail == [] || (g + AsItems(tail))[|g| + |tail| - 1] == Byte(tail[|tail| - 1]);
    LastMark(want);
  }

  /** Reads messages until the stream fails. Whatever an attacker did to the
      stream, the messages returned whole are the first the peer sent, in
      order, and what was read of the next one is a prefix of it. On the peer's
      own stream they are all of them. */
  method Receive(root: Key, alg: Algorithm, arrivals: seq<seq<Cell>>, cleanEof: bool, pooled: bool, finish: bool, size: (nat, nat) -> nat,
                 ghost log: seq<Record>, ghost want: seq<seq<byte>>)
    returns (confirmed: bool, got: seq<seq<byte>>, tail: seq<byte>)
    requires Emitted(log) && |log| <= MAX_NONCE && forall m: nat, i: nat :: size(m, i) > 0
    requires ReadSide.Public(Sequences.Concat(arrivals))
    requires ReadSide.Genuine(Direction(root, alg), log, Sequences.Concat(arrivals))
    ensures confirmed ==> Opening(finish) + Joined(got) + AsItems(tail) <= Stream(log)
    ensures !confirmed ==> got == [] && tail == []
    ensures (pooled && Sequences.Concat(arrivals) == Encode(Direction(root, alg), log, 0)
             && Stream(log) == Opening(finish) + Joined(want)) ==> confirmed && got == want && tail == []
  {
    hide Encode, Stream, ReadSide.Receiver.Valid, Joined, ReadSide.Genuine, ReadSide.Public, Sequences.Concat;
    got, tail := [], [];
    JoinedNone();
    assert AsItems([]) == [];
    var cipher := new DirectionCipher(alg, root);
    ghost var honest := pooled && Sequences.Concat(arrivals) == Encode(Direction(root, alg), log, 0)
                        && Stream(log) == Opening(finish) + Joined(want);
    var r := new ReadSide.Receiver(cipher, arrivals, cleanEof, pooled, log, honest);
    confirmed := true;
    if finish {
      if honest {
        FinishFirst(log);
      }
      confirmed := r.ReadFinish();
      if !confirmed {
        return;
      }
    }
    got, tail := ReceiveFrom(r, finish, size, want);
  }

  method ReceiveFrom(r: ReadSide.Receiver, finish: bool, size: (nat, nat) -> nat, ghost want: seq<seq<byte>>)
    returns (got: seq<seq<byte>>, tail: seq<byte>)
    requires r.Valid() && !r.failed && !r.inMsg && !r.ended && r.delivered == Opening(finish)
    requires forall m: nat, i: nat :: size(m, i) > 0
    modifies r, r.recv, r.rbuf
    ensures Opening(finish) + Joined(got) + AsItems(tail) <= Stream(r.log)
    ensures r.honest && Stream(r.log) == Opening(finish) + Joined(want) ==> got == want && tail == []
  {
    hide Encode, Stream, ReadSide.Receiver.Valid, Joined;
    got, tail := [], [];
    JoinedNone();
    while true
      invariant r.Valid() && !r.failed && (r.rbuf == old(r.rbuf) || r.rbuf == null || fresh(r.rbuf))
      invariant r.inMsg <==> r.ended
      invariant r.ended ==> r.owed == []
      invariant r.delivered + (if r.ended then [EndMark] else []) == Opening(finish) + Joined(got)
      decreases |Stream(r.log)| - |Joined(got)|
    {
      r.DeliveredIsPrefix();
      var err := r.Reader();
      assert r.delivered == Opening(finish) + Joined(got);
      var body, eof := ReadMessage(r, (i: nat) => size(|got|, i));
      r.DeliveredIsPrefix();
      if !eof || r.failed {
        tail := body;
        if r.honest && Stream(r.log) == Opening(finish) + Joined(want) {
          ReadToTheEnd(Stream(r.log), finish, want, got, tail);
        }
        return;
      }
      JoinedSnoc(got, body);
      got := got + [body];
    }
  }

  /** Every way of splitting bytes into arrivals is some Chop of them, up to a
      last empty arrival. */
  lemma {:induction false} EverySplitIsAChop(arrivals: seq<seq<Cell>>)
    ensures exists cuts: seq<nat> :: Chop(Sequences.Concat(arrivals), cuts) == arrivals + [[]]
  {
    var w := Sequences.Concat(arrivals);
    if arrivals == [] {
      assert Chop(w, []) == arrivals + [[]];
    } else {
      EverySplitIsAChop(arrivals[1..]);
      var cuts: seq<nat> :| Chop(Sequences.Concat(arrivals[1..]), cuts) == arrivals[1..] + [[]];
      var n := |arrivals[0]|;
      assert w[..n] == arrivals[0] && w[n..] == Sequences.Concat(arrivals[1..]);
      assert ([n] + cuts)[1..] == cuts;
      assert Chop(w, [n] + cuts) == [arrivals[0]] + (arrivals[1..] + [[]]) == arrivals + [[]];
    }
  }

  /** Any messages, each written by any mix of writes and flushes, paced or
      batched, in pieces or not, over a transport that splits the bytes in any
      way, into reads of any non-empty sizes, size(m, i) for read i of message
      m: the reader gets exactly those messages and not a byte more. Only a direction that would need 2^64-1
      records or more can stop short. */
  method RoundTrip(root: Key, alg: Algorithm, progress: bool, finish: bool, msgs: seq<Message>,
                   cuts: seq<nat>, cleanEof: bool, size: (nat, nat) -> nat)
    returns (ok: bool, got: seq<seq<byte>>, tail: seq<byte>)
    requires forall m: nat, i: nat :: size(m, i) > 0
    ensures ok ==> got == Bodies(msgs) && tail == []
    ensures 1 + |Joined(Bodies(msgs))| < MAX_NONCE ==> ok
  {
    hide Encode, Stream, Joined, ReadSide.Genuine, ReadSide.Public, Sequences.Concat, Chop, Body;
    ghost var log;
    var wire;
    ok, wire, log := SendAll(root, alg, progress, finish, msgs);
    if !ok {
      return false, [], [];
    }
    ReadSide.EncodeGenuine(Direction(root, alg), log, 0);
    var confirmed;
    confirmed, got, tail := Receive(root, alg, Chop(wire, cuts), cleanEof, true, finish, size, log, Bodies(msgs));
  }
}
