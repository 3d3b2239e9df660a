/** The pool's invariants, over every interleaving. */
module PoolProofs {
  import opened Pool

  // What a thread at a program point accounts for.

  /** Tokens claimed and not yet used to remove a connection. */
  function Tokens(pc: PC): nat
  {
    match pc
    case Taking => 1
    case DrainTake(_) => 1
    case TrimClaim(_, n) => n
    case Scanning(_, _, stale) => |stale|
    case _ => 0
  }

  /** Connections pushed and not yet signalled. */
  function Pushed(pc: PC): nat
  {
    if pc.EnqueueSignal? then 1 else 0
  }

  /** Connections a continuation still has to deal with. */
  function Owing(a: After): nat
  {
    match a
    case ToRefill(t) => Owing(t)
    case DrainOn(t) => Owing(t)
    case CloseAll(rest, t) => |rest| + Owing(t)
    case DispatchRest(rest) => |rest|
    case _ => 0
  }

  /** Slots a thread answers for: one per connection it borrowed, dialed, is
      returning, closing or probing, and one for a connection it is dialing or
      has closed and not yet given back. */
  function Load(pc: PC): nat
  {
    match pc
    case Dialing(_) => 1
    case Checking(_) => 1
    case Using(_) => 1
    case Dialed(_, _) => 1
    case Probing(_) => 1
    case Dispatching(cs) => |cs|
    case EnqueueCheck(_, _, a) => 1 + Owing(a)
    case EnqueuePush(_, _, a) => 1 + Owing(a)
    case Closing(_, a) => 1 + Owing(a)
    case FreeSlot(a) => 1 + Owing(a)
    case RefillSpawn(a) => 1 + Owing(a)
    case EnqueueSignal(a) => Owing(a)
    case EnqueueDone(a) => Owing(a)
    case DrainClaim(a) => Owing(a)
    case DrainTake(a) => Owing(a)
    case RefillCheck(a) => Owing(a)
    case _ => 0
  }

  function Locks(pc: PC): nat
  {
    if pc.TrimClaim? || pc.Scanning? then 1 else 0
  }

  function Count(s: seq<Conn>, c: Conn): nat
  {
    if s == [] then 0 else (if s[0] == c then 1 else 0) + Count(s[1..], c)
  }

  /** How often connection c is among those a continuation has to deal with. */
  function Owed(a: After, c: Conn): nat
  {
    match a
    case ToRefill(t) => Owed(t, c)
    case DrainOn(t) => Owed(t, c)
    case CloseAll(rest, t) => Count(rest, c) + Owed(t, c)
    case DispatchRest(rest) => Count(rest, c)
    case _ => 0
  }

  function Is(d: Conn, c: Conn): nat
  {
    if d == c then 1 else 0
  }

  /** How often a thread holds connection c: borrowed, dialed, being returned,
      closed or probed. */
  function Held(pc: PC, c: Conn): nat
  {
    match pc
    case Checking(d) => Is(d, c)
    case Using(d) => Is(d, c)
    case Dialed(d, _) => Is(d, c)
    case Probing(d) => Is(d, c)
    case Dispatching(cs) => Count(cs, c)
    case EnqueueCheck(d, _, a) => Is(d, c) + Owed(a, c)
    case EnqueuePush(d, _, a) => Is(d, c) + Owed(a, c)
    case Closing(d, a) => Is(d, c) + Owed(a, c)
    case EnqueueSignal(a) => Owed(a, c)
    case EnqueueDone(a) => Owed(a, c)
    case DrainClaim(a) => Owed(a, c)
    case DrainTake(a) => Owed(a, c)
    case FreeSlot(a) => Owed(a, c)
    case RefillCheck(a) => Owed(a, c)
    case RefillSpawn(a) => Owed(a, c)
    case _ => 0
  }

  function Holding(c: Conn): PC -> nat
  {
    pc => Held(pc, c)
  }

  /** Whether a continuation goes back to draining. */
  predicate Drains(a: After)
  {
    match a
    case DrainOn(_) => true
    case CloseAll(_, t) => Drains(t)
    case _ => false
  }

  /** Threads bound to look at the stop flag after what they do to `ready`, or
      already draining: one of them will empty it once the pool is stopped. */
  function Pledge(pc: PC): nat
  {
    match pc
    case StopCancel => 1
    case StopWait => 1
    case EnqueueSignal(_) => 1
    case EnqueueDone(_) => 1
    case DrainClaim(_) => 1
    case DrainTake(_) => 1
    case Closing(_, a) => if Drains(a) then 1 else 0
    case FreeSlot(a) => if Drains(a) then 1 else 0
    case _ => 0
  }

  function Sum(f: PC -> nat, ts: seq<Thread>): nat
  {
    if ts == [] then 0 else f(ts[0].pc) + Sum(f, ts[1..])
  }

  lemma {:induction false} SumConcat(f: PC -> nat, a: seq<Thread>, b: seq<Thread>)
    ensures Sum(f, a + b) == Sum(f, a) + Sum(f, b)
  {
    if a == [] {
      assert a + b == b;
    } else {
      assert (a + b)[1..] == a[1..] + b;
      SumConcat(f, a[1..], b);
    }
  }

  lemma {:induction false} SumUpdate(f: PC -> nat, ts: seq<Thread>, t: nat, th: Thread)
    requires t < |ts|
    ensures Sum(f, ts[t := th]) + f(ts[t].pc) == Sum(f, ts) + f(th.pc)
  {
    if t > 0 {
      assert ts[t := th][1..] == ts[1..][t - 1 := th];
      SumUpdate(f, ts[1..], t - 1, th);
    } else {
      assert ts[t := th][1..] == ts[1..];
    }
  }

  lemma {:induction false} CountConcat(a: seq<Conn>, b: seq<Conn>, c: Conn)
    ensures Count(a + b, c) == Count(a, c) + Count(b, c)
  {
    if a == [] {
      assert a + b == b;
    } else {
      assert (a + b)[1..] == a[1..] + b;
      CountConcat(a[1..], b, c);
    }
  }

  /** A thread's weight is part of the sum. */
  lemma {:induction false} SumAtLeast(f: PC -> nat, ts: seq<Thread>, t: nat)
    requires t < |ts|
    ensures f(ts[t].pc) <= Sum(f, ts)
  {
    if t > 0 {
      SumAtLeast(f, ts[1..], t - 1);
    }
  }

  lemma {:induction false} SumOfTwo(f: PC -> nat, ts: seq<Thread>, t: nat, u: nat)
    requires t < u < |ts|
    ensures f(ts[t].pc) + f(ts[u].pc) <= Sum(f, ts)
  {
    if t == 0 {
      SumAtLeast(f, ts[1..], u - 1);
    } else {
      SumOfTwo(f, ts[1..], t - 1, u - 1);
    }
  }

  /** What resuming a continuation accounts for. */
  lemma {:induction false} ResumeWeights(a: After)
    ensures Tokens(Resume(a)) == Pushed(Resume(a)) == Locks(Resume(a)) == 0 && Load(Resume(a)) == Owing(a)
    ensures Drains(a) ==> Pledge(Resume(a)) == 1
  {
    if a.CloseAll? && a.rest == [] {
      ResumeWeights(a.later);
    }
  }

  lemma {:induction false} ResumeHolds(a: After, c: Conn)
    ensures Held(Resume(a), c) == Owed(a, c)
  {
    if a.CloseAll? && a.rest == [] {
      ResumeHolds(a.later, c);
    }
  }

  /** While a thread works under idleMu, what it has seen of the stack is what
      is there. */
  ghost predicate LocalOk(s: Shared, pc: PC)
  {
    match pc
    case TrimClaim(_, n) => s.lock && n <= |s.idle|
    case Scanning(i, kept, stale) =>
      && s.lock && i <= |s.idle| && |kept| + |stale| == i
      && forall c :: Count(kept, c) + Count(stale, c) == Count(s.idle[..i], c)
    case _ => true
  }

  function Spawned(f: PC -> nat, spawned: seq<PC>): nat
  {
    Sum(f, Backgrounds(spawned))
  }

  lemma SpawnedOne(f: PC -> nat, pc: PC)
    ensures Spawned(f, []) == 0 && Spawned(f, [pc]) == f(pc)
  {
    assert [pc][1..] == [];
    assert Backgrounds([pc]) == [Thread(pc, true)];
    assert Backgrounds([pc])[1..] == [];
  }

  /** Resuming, in the step of a thread at pc. */
  lemma ResumeOf(pc: PC, s: Shared)
    ensures pc.EnqueueDone? || pc.DrainClaim? || pc.FreeSlot? || pc.RefillCheck? ==>
              var r := Resume(pc.a);
              Tokens(r) == Pushed(r) == Locks(r) == 0 && Load(r) == Owing(pc.a) && (Drains(pc.a) ==> Pledge(r) == 1)
    ensures pc.TrimClaim? && pc.n <= |s.idle| ==>
              var r := Resume(CloseAll(s.idle[..pc.n], ToScan));
              Tokens(r) == Pushed(r) == Locks(r) == 0 && Load(r) == pc.n
  {
    if pc.EnqueueDone? || pc.DrainClaim? || pc.FreeSlot? || pc.RefillCheck? {
      ResumeWeights(pc.a);
    } else if pc.TrimClaim? && pc.n <= |s.idle| {
      ResumeWeights(CloseAll(s.idle[..pc.n], ToScan));
    }
  }

  function One(b: bool): nat
  {
    if b then 1 else 0
  }

  /** What a thread needs of the shared state to step. */
  ghost predicate Ready(cfg: Config, s: Shared, pc: PC)
  {
    && LocalOk(s, pc)
    && s.next !in s.opens
    && (pc.Closing? ==> pc.c in s.opens)
    && (pc.FreeSlot? && cfg.limit > 0 ==> s.slots > 0)
  }

  /** What every step of a thread keeps: the stack changes with its tokens,
      slots with the connections they stand for, idleMu with its holder,
      nobody else touches a locked stack, and a stopped pool with tokens keeps
      somebody pledged to drain it. */
  ghost predicate Kept(cfg: Config, s: Shared, pc: PC, s': Shared, pc': PC, load: nat)
  {
    && |s'.idle| + s.ready + Tokens(pc) + Pushed(pc) == |s.idle| + s'.ready + Tokens(pc') + Pushed(pc')
    && (|s.idle| <= cfg.cap ==> |s'.idle| <= cfg.cap)
    && (cfg.limit > 0 ==> s'.slots + |s.idle| + Load(pc) == s.slots + |s'.idle| + Load(pc') + load)
    && (cfg.limit > 0 && s.slots <= cfg.limit ==> s'.slots <= cfg.limit)
    && (cfg.limit == 0 ==> s'.slots == s.slots)
    && Locks(pc') + One(s.lock) == Locks(pc) + One(s'.lock)
    && (Locks(pc') == 1 ==> pc.TrimLock? || pc.ScanLock? || Locks(pc) == 1)
    && (s.lock && Locks(pc) == 0 ==> s'.idle == s.idle && s'.lock)
    && (s.stopped ==> s'.stopped)
    && (s'.stopped && s'.ready > 0 ==>
          Pledge(pc') >= Pledge(pc) && ((s.stopped && s.ready > 0) || Pledge(pc') == 1))
    && s.next <= s'.next && (forall c :: c in s'.opens ==> c in s.opens || c < s'.next)
  }

  lemma KeptAcquire(cfg: Config, s: Shared, pc: PC, s': Shared, pc': PC)
    requires AcquireStep(cfg, s, pc, s', pc')
    ensures Kept(cfg, s, pc, s', pc', 0)
  {
    hide Kept;
    if pc.AcquireClaim? || pc.AcquireSlot? || pc.AcquireWait? {
      KeptWait(cfg, s, pc, s', pc');
    } else {
      KeptBorrow(cfg, s, pc, s', pc');
    }
  }

  lemma KeptWait(cfg: Config, s: Shared, pc: PC, s': Shared, pc': PC)
    requires AcquireStep(cfg, s, pc, s', pc') && (pc.AcquireClaim? || pc.AcquireSlot? || pc.AcquireWait?)
    ensures Kept(cfg, s, pc, s', pc', 0)
  {
  }

  lemma KeptBorrow(cfg: Config, s: Shared, pc: PC, s': Shared, pc': PC)
    requires AcquireStep(cfg, s, pc, s', pc') && !pc.AcquireClaim? && !pc.AcquireSlot? && !pc.AcquireWait?
    ensures Kept(cfg, s, pc, s', pc', 0)
  {
  }

  lemma KeptDial(cfg: Config, s: Shared, pc: PC, s': Shared, pc': PC)
    requires DialStep(cfg, s, pc, s', pc') && Ready(cfg, s, pc)
    ensures Kept(cfg, s, pc, s', pc', 0)
  {
  }

  lemma KeptEnqueue(cfg: Config, s: Shared, pc: PC, s': Shared, pc': PC)
    requires EnqueueStep(cfg, s, pc, s', pc') && Ready(cfg, s, pc)
    ensures Kept(cfg, s, pc, s', pc', 0)
  {
    hide Resume;
    ResumeOf(pc, s);
  }

  lemma KeptScan(cfg: Config, s: Shared, pc: PC, s': Shared, pc': PC)
    requires ScanStep(cfg, s, pc, s', pc') && Ready(cfg, s, pc)
    ensures Kept(cfg, s, pc, s', pc', 0)
  {
    hide Resume;
    ResumeOf(pc, s);
  }

  lemma KeptStop(cfg: Config, s: Shared, pc: PC, s': Shared, pc': PC)
    requires StopStep(s, pc, s', pc')
    ensures Kept(cfg, s, pc, s', pc', 0)
  {
  }

  ghost predicate NoTokens(spawned: seq<PC>)
  {
    Spawned(Tokens, spawned) == Spawned(Pushed, spawned) == Spawned(Locks, spawned) == Spawned(Pledge, spawned) == 0
  }

  lemma FreshThread(pc: PC)
    requires pc.Dialing? || pc.Probing?
    ensures NoTokens([]) && NoTokens([pc])
    ensures Spawned(Load, []) == 0 && Spawned(Load, [pc]) == Load(pc)
  {
    hide Spawned;
    SpawnedOne(Load, pc);
    SpawnedOne(Tokens, pc);
    SpawnedOne(Pushed, pc);
    SpawnedOne(Locks, pc);
    SpawnedOne(Pledge, pc);
  }

  lemma KeptProbe(cfg: Config, s: Shared, pc: PC, s': Shared, pc': PC, spawned: seq<PC>)
    requires ProbeStep(s, pc, s', pc', spawned)
    ensures NoTokens(spawned) && Kept(cfg, s, pc, s', pc', Spawned(Load, spawned))
  {
    hide Spawned, NoTokens;
    FreshThread(if spawned == [] then Dialing(true) else spawned[0]);
    assert spawned == [] || spawned == [spawned[0]];
  }

  lemma KeptRefill(cfg: Config, s: Shared, pc: PC, s': Shared, pc': PC, spawned: seq<PC>)
    requires RefillStep(cfg, s, pc, s', pc', spawned)
    ensures NoTokens(spawned) && Kept(cfg, s, pc, s', pc', Spawned(Load, spawned))
  {
    hide Spawned, NoTokens, Resume;
    ResumeOf(pc, s);
    FreshThread(Dialing(true));
  }

  lemma CountSplit(s: seq<Conn>, n: nat, c: Conn)
    requires n <= |s|
    ensures Count(s, c) == Count(s[..n], c) + Count(s[n..], c)
  {
    assert s == s[..n] + s[n..];
    CountConcat(s[..n], s[n..], c);
  }

  lemma CountOne(d: Conn, c: Conn)
    ensures Count([d], c) == Is(d, c) && Count([], c) == 0
  {
  }

  /** Connection c moves: it leaves one holder for another, or is dialed, or
      closed. */
  ghost predicate Moved(s: Shared, pc: PC, s': Shared, pc': PC, extra: nat, c: Conn)
  {
    Count(s'.idle, c) + Held(pc', c) + extra + One(c in s.opens) == Count(s.idle, c) + Held(pc, c) + One(c in s'.opens)
  }

  lemma TopCount(s: Shared, s': Shared, d: Conn, c: Conn)
    requires TakeTop(s, s', d)
    ensures Count(s.idle, c) == Count(s'.idle, c) + Is(d, c)
  {
    hide Count;
    var n := |s.idle| - 1;
    CountSplit(s.idle, n, c);
    CountOne(d, c);
    assert s.idle[n..] == [d];
  }

  lemma MovedAcquire(cfg: Config, s: Shared, pc: PC, s': Shared, pc': PC, c: Conn)
    requires AcquireStep(cfg, s, pc, s', pc')
    ensures Moved(s, pc, s', pc', 0, c)
  {
    hide Moved, AcquireStep;
    if pc.Checking? || pc.Using? {
      MovedBorrowed(cfg, s, pc, s', pc', c);
    } else {
      MovedWaiting(cfg, s, pc, s', pc', c);
    }
  }

  lemma MovedBorrowed(cfg: Config, s: Shared, pc: PC, s': Shared, pc': PC, c: Conn)
    requires AcquireStep(cfg, s, pc, s', pc') && (pc.Checking? || pc.Using?)
    ensures Moved(s, pc, s', pc', 0, c)
  {
    hide Count;
    assert Owed(ToRefill(End), c) == 0;
  }

  lemma MovedWaiting(cfg: Config, s: Shared, pc: PC, s': Shared, pc': PC, c: Conn)
    requires AcquireStep(cfg, s, pc, s', pc') && !pc.Checking? && !pc.Using?
    ensures Moved(s, pc, s', pc', 0, c)
  {
    hide Count;
    if pc.Taking? {
      TopCount(s, s', pc'.c, c);
    }
  }

  lemma MovedDial(cfg: Config, s: Shared, pc: PC, s': Shared, pc': PC, c: Conn)
    requires DialStep(cfg, s, pc, s', pc') && Ready(cfg, s, pc)
    ensures Moved(s, pc, s', pc', 0, c)
  {
    hide Count;
    assert Owed(ToRefill(End), c) == Owed(End, c) == Owed(Retry, c) == 0;
  }

  lemma MovedEnqueue(cfg: Config, s: Shared, pc: PC, s': Shared, pc': PC, c: Conn)
    requires EnqueueStep(cfg, s, pc, s', pc') && Ready(cfg, s, pc)
    ensures Moved(s, pc, s', pc', 0, c)
  {
    hide Moved, EnqueueStep;
    if pc.EnqueuePush? {
      MovedPush(cfg, s, pc, s', pc', c);
    } else if pc.EnqueueDone? || pc.DrainClaim? || pc.FreeSlot? {
      MovedOn(cfg, s, pc, s', pc', c);
    } else {
      MovedDrain(cfg, s, pc, s', pc', c);
    }
  }

  lemma MovedOn(cfg: Config, s: Shared, pc: PC, s': Shared, pc': PC, c: Conn)
    requires EnqueueStep(cfg, s, pc, s', pc') && (pc.EnqueueDone? || pc.DrainClaim? || pc.FreeSlot?)
    ensures Moved(s, pc, s', pc', 0, c)
  {
    hide Count, Resume;
    ResumeHolds(pc.a, c);
  }

  lemma MovedDrain(cfg: Config, s: Shared, pc: PC, s': Shared, pc': PC, c: Conn)
    requires EnqueueStep(cfg, s, pc, s', pc') && Ready(cfg, s, pc)
    requires !pc.EnqueuePush? && !pc.EnqueueDone? && !pc.DrainClaim? && !pc.FreeSlot?
    ensures Moved(s, pc, s', pc', 0, c)
  {
    hide Count, Resume;
    if pc.DrainTake? {
      TopCount(s, s', pc'.c, c);
    }
  }

  lemma MovedPush(cfg: Config, s: Shared, pc: PC, s': Shared, pc': PC, c: Conn)
    requires EnqueueStep(cfg, s, pc, s', pc') && pc.EnqueuePush?
    ensures Moved(s, pc, s', pc', 0, c)
  {
    hide Count, Resume;
    if pc'.EnqueueSignal? {
      var at :| 0 <= at <= |s.idle| && s' == s.(idle := s.idle[..at] + [pc.c] + s.idle[at..]);
      CountSplit(s.idle, at, c);
      CountConcat(s.idle[..at] + [pc.c], s.idle[at..], c);
      CountConcat(s.idle[..at], [pc.c], c);
      CountOne(pc.c, c);
    }
  }

  lemma MovedTrim(cfg: Config, s: Shared, pc: PC, s': Shared, pc': PC, c: Conn)
    requires ScanStep(cfg, s, pc, s', pc') && Ready(cfg, s, pc) && pc.TrimClaim?
    ensures Moved(s, pc, s', pc', 0, c)
  {
    hide Count, Resume;
    if !(pc.n < pc.k && pc.n < |s.idle| && s.ready > 0) {
      CountSplit(s.idle, pc.n, c);
      ResumeHolds(CloseAll(s.idle[..pc.n], ToScan), c);
      assert Owed(CloseAll(s.idle[..pc.n], ToScan), c) == Count(s.idle[..pc.n], c);
    }
  }

  lemma MovedScan(cfg: Config, s: Shared, pc: PC, s': Shared, pc': PC, c: Conn)
    requires ScanStep(cfg, s, pc, s', pc') && Ready(cfg, s, pc)
    ensures Moved(s, pc, s', pc', 0, c)
  {
    hide Count, Resume;
    if pc.TrimClaim? {
      MovedTrim(cfg, s, pc, s', pc', c);
    } else if pc.Scanning? && !pc'.Scanning? {
      assert s.idle[..pc.i] == s.idle;
    }
  }

  lemma MovedStop(cfg: Config, s: Shared, pc: PC, s': Shared, pc': PC, c: Conn)
    requires StopStep(s, pc, s', pc')
    ensures Moved(s, pc, s', pc', 0, c)
  {
    hide Count;
  }

  lemma MovedProbe(s: Shared, pc: PC, s': Shared, pc': PC, spawned: seq<PC>, c: Conn)
    requires ProbeStep(s, pc, s', pc', spawned)
    ensures Moved(s, pc, s', pc', Spawned(Holding(c), spawned), c)
  {
    hide Moved;
    if pc.Probing? {
      MovedProbing(s, pc, s', pc', spawned, c);
    } else {
      MovedDispatch(s, pc, s', pc', spawned, c);
    }
  }

  lemma MovedProbing(s: Shared, pc: PC, s': Shared, pc': PC, spawned: seq<PC>, c: Conn)
    requires ProbeStep(s, pc, s', pc', spawned) && pc.Probing?
    ensures Moved(s, pc, s', pc', Spawned(Holding(c), spawned), c)
  {
    hide Count, Spawned;
    SpawnedOne(Holding(c), pc);
    assert Owed(End, c) == 0;
  }

  lemma MovedDispatch(s: Shared, pc: PC, s': Shared, pc': PC, spawned: seq<PC>, c: Conn)
    requires ProbeStep(s, pc, s', pc', spawned) && pc.Dispatching?
    ensures Moved(s, pc, s', pc', Spawned(Holding(c), spawned), c)
  {
    hide Count, Spawned;
    SpawnedOne(Holding(c), pc);
    CountOne(0, c);
    assert Owed(ToHeartbeat, c) == 0;
    if pc.cs != [] {
      CountSplit(pc.cs, 1, c);
      CountOne(pc.cs[0], c);
      assert pc.cs[..1] == [pc.cs[0]];
      SpawnedOne(Holding(c), Probing(pc.cs[0]));
    }
  }

  lemma MovedRefill(cfg: Config, s: Shared, pc: PC, s': Shared, pc': PC, spawned: seq<PC>, c: Conn)
    requires RefillStep(cfg, s, pc, s', pc', spawned)
    ensures Moved(s, pc, s', pc', Spawned(Holding(c), spawned), c)
  {
    hide Count, Spawned, Resume;
    SpawnedOne(Holding(c), Dialing(true));
    if pc.RefillCheck? {
      ResumeHolds(pc.a, c);
    }
  }

  lemma StepKept(cfg: Config, s: Shared, pc: PC, s': Shared, pc': PC, spawned: seq<PC>)
    requires ThreadStep(cfg, s, pc, s', pc', spawned) && Ready(cfg, s, pc)
    ensures NoTokens(spawned) && Kept(cfg, s, pc, s', pc', Spawned(Load, spawned))
  {
    hide *;
    if ProbeStep(s, pc, s', pc', spawned) {
      KeptProbe(cfg, s, pc, s', pc', spawned);
    } else if RefillStep(cfg, s, pc, s', pc', spawned) {
      KeptRefill(cfg, s, pc, s', pc', spawned);
    } else {
      QuietStep(cfg, s, pc, s', pc', spawned);
      FreshThread(Dialing(true));
      if AcquireStep(cfg, s, pc, s', pc') {
        KeptAcquire(cfg, s, pc, s', pc');
      } else if DialStep(cfg, s, pc, s', pc') {
        KeptDial(cfg, s, pc, s', pc');
      } else if EnqueueStep(cfg, s, pc, s', pc') {
        KeptEnqueue(cfg, s, pc, s', pc');
      } else if ScanStep(cfg, s, pc, s', pc') {
        KeptScan(cfg, s, pc, s', pc');
      } else {
        KeptStop(cfg, s, pc, s', pc');
      }
    }
  }

  lemma QuietStep(cfg: Config, s: Shared, pc: PC, s': Shared, pc': PC, spawned: seq<PC>)
    requires ThreadStep(cfg, s, pc, s', pc', spawned)
    requires !ProbeStep(s, pc, s', pc', spawned) && !RefillStep(cfg, s, pc, s', pc', spawned)
    ensures spawned == []
    ensures AcquireStep(cfg, s, pc, s', pc') || DialStep(cfg, s, pc, s', pc') || EnqueueStep(cfg, s, pc, s', pc')
            || ScanStep(cfg, s, pc, s', pc') || StopStep(s, pc, s', pc')
  {
    hide AcquireStep, DialStep, EnqueueStep, ScanStep, StopStep, ProbeStep, RefillStep;
  }

  lemma StepMoved(cfg: Config, s: Shared, pc: PC, s': Shared, pc': PC, spawned: seq<PC>, c: Conn)
    requires ThreadStep(cfg, s, pc, s', pc', spawned) && Ready(cfg, s, pc)
    ensures Moved(s, pc, s', pc', Spawned(Holding(c), spawned), c)
  {
    hide *;
    if ProbeStep(s, pc, s', pc', spawned) {
      MovedProbe(s, pc, s', pc', spawned, c);
    } else if RefillStep(cfg, s, pc, s', pc', spawned) {
      MovedRefill(cfg, s, pc, s', pc', spawned, c);
    } else {
      QuietStep(cfg, s, pc, s', pc', spawned);
      SpawnedOne(Holding(c), pc);
      if AcquireStep(cfg, s, pc, s', pc') {
        MovedAcquire(cfg, s, pc, s', pc', c);
      } else if DialStep(cfg, s, pc, s', pc') {
        MovedDial(cfg, s, pc, s', pc', c);
      } else if EnqueueStep(cfg, s, pc, s', pc') {
        MovedEnqueue(cfg, s, pc, s', pc', c);
      } else if ScanStep(cfg, s, pc, s', pc') {
        MovedScan(cfg, s, pc, s', pc', c);
      } else {
        MovedStop(cfg, s, pc, s', pc', c);
      }
    }
  }

  /** A thread that works under idleMu sees what it left there. */
  lemma StepLocal(cfg: Config, s: Shared, pc: PC, s': Shared, pc': PC, spawned: seq<PC>)
    requires ThreadStep(cfg, s, pc, s', pc', spawned) && LocalOk(s, pc)
    requires Locks(pc') == 1 ==> pc.TrimLock? || pc.ScanLock? || Locks(pc) == 1
    ensures LocalOk(s', pc')
  {
    hide Resume, Count;
    if Locks(pc') == 1 {
      assert ScanStep(cfg, s, pc, s', pc');
      if pc.Scanning? && pc.i < |s.idle| {
        ScanGrows(cfg, s, pc, s', pc');
      } else {
        ResumeOf(pc, s);
        forall c ensures Count(s.idle[..0], c) == 0 && Count([], c) == 0 {
          CountOne(0, c);
          assert s.idle[..0] == [];
        }
      }
    }
  }

  lemma ScanGrows(cfg: Config, s: Shared, pc: PC, s': Shared, pc': PC)
    requires ScanStep(cfg, s, pc, s', pc') && LocalOk(s, pc) && pc.Scanning? && pc.i < |s.idle|
    ensures LocalOk(s', pc')
  {
    hide Count;
    var d := s.idle[pc.i];
    assert s.idle[..pc.i + 1] == s.idle[..pc.i] + [d];
    forall c ensures Count(pc'.kept, c) + Count(pc'.stale, c) == Count(s'.idle[..pc'.i], c) {
      CountConcat(s.idle[..pc.i], [d], c);
      CountConcat(pc.kept, [d], c);
      CountConcat(pc.stale, [d], c);
    }
  }

  /** The invariant of every reachable state. */
  ghost predicate Inv(cfg: Config, g: State)
  {
    // the idle stack and its tokens
    && |g.s.idle| == g.s.ready + Sum(Tokens, g.threads) + Sum(Pushed, g.threads)
    && |g.s.idle| <= cfg.cap
    // slots
    && (cfg.limit > 0 ==> g.s.slots == |g.s.idle| + Sum(Load, g.threads) && g.s.slots <= cfg.limit)
    && (cfg.limit == 0 ==> g.s.slots == 0)
    // each open connection is in exactly one place, and no closed one is anywhere
    && (forall c :: Count(g.s.idle, c) + Sum(Holding(c), g.threads) == One(c in g.s.opens))
    && (forall c :: c in g.s.opens ==> c < g.s.next)
    // idleMu
    && Sum(Locks, g.threads) == One(g.s.lock)
    && (forall t :: 0 <= t < |g.threads| ==> LocalOk(g.s, g.threads[t].pc))
    // a stopped pool with tokens left has a thread bound to drain them
    && (g.s.stopped && g.s.ready > 0 ==> Sum(Pledge, g.threads) > 0)
  }

  lemma ThreadReady(cfg: Config, g: State, t: nat)
    requires Inv(cfg, g) && t < |g.threads|
    ensures Ready(cfg, g.s, g.threads[t].pc)
  {
    hide Count, Sum, LocalOk;
    var pc := g.threads[t].pc;
    SumAtLeast(Load, g.threads, t);
    if pc.Closing? {
      SumAtLeast(Holding(pc.c), g.threads, t);
    }
  }

  lemma SumStep(f: PC -> nat, cfg: Config, g: State, g': State, t: nat, pc': PC, spawned: seq<PC>)
    requires StepOf(cfg, g, g', t, pc', spawned)
    ensures Sum(f, g'.threads) + f(g.threads[t].pc) == Sum(f, g.threads) + f(pc') + Spawned(f, spawned)
  {
    hide Sum, ThreadStep;
    var th := g.threads[t].(pc := pc');
    SumUpdate(f, g.threads, t, th);
    SumConcat(f, g.threads[t := th], Backgrounds(spawned));
  }

  lemma CountsStep(cfg: Config, g: State, g': State, t: nat, pc': PC, spawned: seq<PC>)
    requires Inv(cfg, g) && StepOf(cfg, g, g', t, pc', spawned)
    ensures |g'.s.idle| == g'.s.ready + Sum(Tokens, g'.threads) + Sum(Pushed, g'.threads) && |g'.s.idle| <= cfg.cap
    ensures cfg.limit > 0 ==> g'.s.slots == |g'.s.idle| + Sum(Load, g'.threads) && g'.s.slots <= cfg.limit
    ensures cfg.limit == 0 ==> g'.s.slots == 0
    ensures Sum(Locks, g'.threads) == One(g'.s.lock)
    ensures g'.s.stopped && g'.s.ready > 0 ==> Sum(Pledge, g'.threads) > 0
    ensures forall c :: c in g'.s.opens ==> c < g'.s.next
  {
    hide Sum, ThreadStep, Spawned, Count, LocalOk, Tokens, Pushed, Load, Locks, Pledge, Holding, Backgrounds;
    var pc := g.threads[t].pc;
    ThreadReady(cfg, g, t);
    StepKept(cfg, g.s, pc, g'.s, pc', spawned);
    SumStep(Tokens, cfg, g, g', t, pc', spawned);
    SumStep(Pushed, cfg, g, g', t, pc', spawned);
    SumStep(Load, cfg, g, g', t, pc', spawned);
    SumStep(Locks, cfg, g, g', t, pc', spawned);
    SumStep(Pledge, cfg, g, g', t, pc', spawned);
    SumAtLeast(Pledge, g.threads, t);
    SumAtLeast(Tokens, g.threads, t);
  }

  lemma ConnsStep(cfg: Config, g: State, g': State, t: nat, pc': PC, spawned: seq<PC>, c: Conn)
    requires Inv(cfg, g) && StepOf(cfg, g, g', t, pc', spawned)
    ensures Count(g'.s.idle, c) + Sum(Holding(c), g'.threads) == One(c in g'.s.opens)
  {
    hide Sum, ThreadStep, Spawned, Count, LocalOk, Backgrounds, Held;
    ThreadReady(cfg, g, t);
    StepMoved(cfg, g.s, g.threads[t].pc, g'.s, pc', spawned, c);
    SumStep(Holding(c), cfg, g, g', t, pc', spawned);
  }

  lemma LocalsStep(cfg: Config, g: State, g': State, t: nat, pc': PC, spawned: seq<PC>, u: nat)
    requires Inv(cfg, g) && StepOf(cfg, g, g', t, pc', spawned) && u < |g'.threads|
    ensures LocalOk(g'.s, g'.threads[u].pc)
  {
    hide Sum, ThreadStep, Count, Ready;
    var pc := g.threads[t].pc;
    ThreadReady(cfg, g, t);
    StepKept(cfg, g.s, pc, g'.s, pc', spawned);
    assert LocalOk(g.s, pc);
    StepLocal(cfg, g.s, pc, g'.s, pc', spawned);
    if u < |g.threads| && u != t {
      assert g'.threads[u] == g.threads[u] && LocalOk(g.s, g.threads[u].pc);
      if t < u {
        SumOfTwo(Locks, g.threads, t, u);
      } else {
        SumOfTwo(Locks, g.threads, u, t);
      }
    } else if u >= |g.threads| {
      BackgroundAt(spawned, u - |g.threads|);
      SumAtLeast(Locks, Backgrounds(spawned), u - |g.threads|);
    }
  }

  lemma {:induction false} BackgroundAt(pcs: seq<PC>, i: nat)
    requires i < |pcs|
    ensures Backgrounds(pcs)[i] == Thread(pcs[i], true)
  {
    if i > 0 {
      BackgroundAt(pcs[1..], i - 1);
    }
  }

  lemma InvStep(cfg: Config, g: State, g': State, t: nat, pc': PC, spawned: seq<PC>)
    requires Inv(cfg, g) && StepOf(cfg, g, g', t, pc', spawned)
    ensures Inv(cfg, g')
  {
    hide Sum, StepOf, Count, LocalOk, Tokens, Pushed, Load, Locks, Pledge, Holding;
    CountsStep(cfg, g, g', t, pc', spawned);
    forall c ensures Count(g'.s.idle, c) + Sum(Holding(c), g'.threads) == One(c in g'.s.opens) {
      ConnsStep(cfg, g, g', t, pc', spawned, c);
    }
    forall u | 0 <= u < |g'.threads| ensures LocalOk(g'.s, g'.threads[u].pc) {
      LocalsStep(cfg, g, g', t, pc', spawned, u);
    }
  }

  lemma SumArrives(f: PC -> nat, ts: seq<Thread>, th: Thread)
    ensures Sum(f, ts + [th]) == Sum(f, ts) + f(th.pc)
  {
    SumConcat(f, ts, [th]);
    assert [th][1..] == [];
  }

  lemma InvArrives(cfg: Config, g: State, g': State, th: Thread)
    requires Inv(cfg, g) && Arrives(g, g', th)
    ensures Inv(cfg, g')
  {
    hide Sum, Count, LocalOk;
    SumArrives(Tokens, g.threads, th);
    SumArrives(Pushed, g.threads, th);
    SumArrives(Load, g.threads, th);
    SumArrives(Locks, g.threads, th);
    SumArrives(Pledge, g.threads, th);
    forall c ensures Sum(Holding(c), g'.threads) == Sum(Holding(c), g.threads) {
      SumArrives(Holding(c), g.threads, th);
    }
    ArrivalIdle(g.s, th.pc);
  }

  lemma ArrivalIdle(s: Shared, pc: PC)
    requires Locks(pc) == 0
    ensures LocalOk(s, pc)
  {
  }

  lemma InvInit(cfg: Config, g: State)
    requires Init(g)
    ensures Inv(cfg, g)
  {
  }

  /** Every state of every run satisfies the invariant. */
  lemma {:induction false} RunInv(cfg: Config, run: seq<State>, i: nat)
    requires Run(cfg, run) && i < |run|
    ensures Inv(cfg, run[i])
  {
    hide Inv, StepOf, Arrives, Init;
    if i == 0 {
      InvInit(cfg, run[0]);
    } else {
      RunInv(cfg, run, i - 1);
      var g, g' := run[i - 1], run[i];
      assert Next(cfg, g, run[i - 1 + 1]);
      if t: nat, pc', spawned :| StepOf(cfg, g, g', t, pc', spawned) {
        InvStep(cfg, g, g', t, pc', spawned);
      } else {
        var th :| Arrives(g, g', th);
        InvArrives(cfg, g, g', th);
      }
    }
  }

  /** Token discipline: in every reachable interleaving the idle stack is as
      long as the ready tokens, the tokens claimed but not yet used and the
      connections pushed but not yet signalled, and never longer than the
      channel. So a thread about to take a connection finds one, a push's send
      never blocks, and a trim removes no more than is there. */
  lemma TokenDiscipline(cfg: Config, run: seq<State>, i: nat, t: nat)
    requires Run(cfg, run) && i < |run|
    ensures var g := run[i];
            |g.s.idle| == g.s.ready + Sum(Tokens, g.threads) + Sum(Pushed, g.threads) && |g.s.idle| <= cfg.cap
    ensures t < |run[i].threads| ==>
              var s, pc := run[i].s, run[i].threads[t].pc;
              && (pc.Taking? || pc.DrainTake? ==> s.idle != [])
              && (pc.EnqueueSignal? ==> s.ready < cfg.cap)
              && (pc.TrimClaim? ==> pc.n <= |s.idle|)
  {
    hide Run, Sum;
    RunInv(cfg, run, i);
    var g := run[i];
    if t < |g.threads| {
      SumAtLeast(Tokens, g.threads, t);
      SumAtLeast(Pushed, g.threads, t);
      assert LocalOk(g.s, g.threads[t].pc);
    }
  }

  /** Slot discipline: in every interleaving of a limited pool the slots taken
      are the connections idle, dialing, borrowed, being returned or closed, or
      out for a probe, never more than the limit; and a thread that gives a slot
      back finds one to give, so each is given back once. */
  lemma SlotDiscipline(cfg: Config, run: seq<State>, i: nat, t: nat)
    requires Run(cfg, run) && i < |run| && cfg.limit > 0
    ensures var g := run[i];
            g.s.slots == |g.s.idle| + Sum(Load, g.threads) && g.s.slots <= cfg.limit
    ensures t < |run[i].threads| && run[i].threads[t].pc.FreeSlot? ==> run[i].s.slots > 0
  {
    hide Run, Sum;
    RunInv(cfg, run, i);
    if t < |run[i].threads| {
      SumAtLeast(Load, run[i].threads, t);
    }
  }

  /** No connection is in two hands: a thread that holds one holds an open one
      that is neither idle nor held by another thread. */
  lemma SoleHolder(cfg: Config, run: seq<State>, i: nat, t: nat, u: nat, c: Conn)
    requires Run(cfg, run) && i < |run| && t < |run[i].threads| && u < |run[i].threads| && t != u
    requires Held(run[i].threads[t].pc, c) > 0
    ensures c in run[i].s.opens && c !in run[i].s.idle
    ensures Held(run[i].threads[t].pc, c) == 1 && Held(run[i].threads[u].pc, c) == 0
  {
    hide Run, Sum, Held, Count;
    RunInv(cfg, run, i);
    var g := run[i];
    if t < u {
      SumOfTwo(Holding(c), g.threads, t, u);
    } else {
      SumOfTwo(Holding(c), g.threads, u, t);
    }
    assert Count(g.s.idle, c) == 0;
    NotCounted(g.s.idle, c);
  }

  lemma {:induction false} NotCounted(s: seq<Conn>, c: Conn)
    ensures Count(s, c) == 0 <==> c !in s
  {
    if s != [] {
      NotCounted(s[1..], c);
    }
  }

  lemma {:induction false} Weightless(f: PC -> nat, ts: seq<Thread>)
    requires forall t :: 0 <= t < |ts| ==> f(ts[t].pc) == 0
    ensures Sum(f, ts) == 0
  {
    if ts != [] {
      assert forall t :: 0 <= t < |ts[1..]| ==> ts[1..][t] == ts[t + 1];
      Weightless(f, ts[1..]);
    }
  }

  /** Shutdown: once the pool is stopped and every thread has finished, nothing
      is idle, no token and no slot is left and every connection ever dialed is
      closed, however the threads interleaved with the stop. */
  lemma StoppedAndQuiet(cfg: Config, run: seq<State>, i: nat)
    requires Run(cfg, run) && i < |run| && run[i].s.stopped
    requires forall t :: 0 <= t < |run[i].threads| ==> run[i].threads[t].pc.Finished?
    ensures run[i].s.idle == [] && run[i].s.ready == 0 && run[i].s.slots == 0 && run[i].s.opens == {}
  {
    hide Run, Sum;
    RunInv(cfg, run, i);
    var g := run[i];
    Weightless(Tokens, g.threads);
    Weightless(Pushed, g.threads);
    Weightless(Load, g.threads);
    Weightless(Pledge, g.threads);
    forall c ensures c !in g.s.opens {
      Weightless(Holding(c), g.threads);
      assert Count(g.s.idle, c) == 0;
    }
  }

  // ---- Progress ----

  /** Points whose next step takes idleMu. */
  predicate NeedsLock(pc: PC)
  {
    pc.Taking? || pc.DrainTake? || pc.EnqueuePush? || pc.TrimLock? || pc.ScanLock?
  }

  /** A caller's context ended while it waited for a connection. */
  predicate GivesUp(pc: PC, pc': PC)
  {
    pc.AcquireWait? && pc'.Finished?
  }

  /** Thread t has a step that is not giving up. */
  ghost predicate Moves(cfg: Config, g: State, t: nat)
  {
    exists g', pc', spawned :: StepOf(cfg, g, g', t, pc', spawned) && !GivesUp(g.threads[t].pc, pc')
  }

  /** A thread waits for idleMu, in an acquire for a token or a slot, and in
      stop for the background threads; for nothing else. */
  ghost predicate Unblocked(cfg: Config, g: State, t: nat)
    requires t < |g.threads|
  {
    var s, pc := g.s, g.threads[t].pc;
    && !pc.Finished? && (NeedsLock(pc) ==> !s.lock)
    && (pc.AcquireWait? ==> s.ready > 0 || s.slots < cfg.limit)
    && (pc.StopWait? ==> BackgroundIdle(g))
  }

  /** What the invariant gives a thread about to step. */
  ghost predicate Able(cfg: Config, s: Shared, pc: PC)
  {
    && !pc.Finished? && (NeedsLock(pc) ==> !s.lock)
    && (pc.AcquireWait? ==> s.ready > 0 || s.slots < cfg.limit)
    && (pc.Taking? || pc.DrainTake? ==> s.idle != [])
    && (pc.EnqueueSignal? ==> s.ready < cfg.cap)
    && (pc.TrimClaim? ==> pc.n <= |s.idle|) && (pc.Scanning? ==> pc.i <= |s.idle|)
  }

  lemma AcquireCan(cfg: Config, s: Shared, pc: PC) returns (s': Shared, pc': PC)
    requires Able(cfg, s, pc)
    requires pc.AcquireCheck? || pc.AcquireLook? || pc.AcquireClaim? || pc.AcquireSlot? || pc.AcquireWait? || pc.Taking? || pc.Checking? || pc.Using?
    ensures AcquireStep(cfg, s, pc, s', pc') && !GivesUp(pc, pc')
  {
    s', pc' := s, Finished;
    match pc
    case AcquireCheck => pc' := if s.stopped then Finished else AcquireLook;
    case AcquireLook => pc' := if s.stopped then AcquireSlot else AcquireClaim;
    case AcquireClaim =>
      if s.ready > 0 {
        s', pc' := s.(ready := s.ready - 1), Taking;
      } else {
        pc' := AcquireSlot;
      }
    case AcquireSlot =>
      if cfg.limit == 0 || s.slots < cfg.limit {
        s', pc' := if cfg.limit == 0 then s else s.(slots := s.slots + 1), Dialing(false);
      } else {
        pc' := AcquireWait;
      }
    case AcquireWait =>
      if s.ready > 0 {
        s', pc' := s.(ready := s.ready - 1), Taking;
      } else {
        s', pc' := s.(slots := s.slots + 1), Dialing(false);
      }
    case Taking =>
      var n := |s.idle| - 1;
      s', pc' := s.(idle := s.idle[..n]), Checking(s.idle[n]);
      assert TakeTop(s, s', s.idle[n]);
    case Checking(c) => pc' := Using(c);
    case Using(c) => pc' := EnqueueCheck(c, false, End);
  }

  lemma EnqueueCan(cfg: Config, s: Shared, pc: PC) returns (s': Shared, pc': PC)
    requires Able(cfg, s, pc)
    requires pc.EnqueueCheck? || pc.EnqueuePush? || pc.EnqueueSignal? || pc.EnqueueDone? || pc.DrainClaim? || pc.DrainTake? || pc.Closing? || pc.FreeSlot?
    ensures EnqueueStep(cfg, s, pc, s', pc')
  {
    s', pc' := s, Finished;
    match pc
    case EnqueueCheck(c, probed, a) => pc' := if s.stopped then Closing(c, a) else EnqueuePush(c, probed, a);
    case EnqueuePush(c, probed, a) =>
      if |s.idle| >= cfg.cap {
        pc' := Closing(c, a);
      } else {
        var at := |s.idle|;
        s', pc' := s.(idle := s.idle[..at] + [c] + s.idle[at..]), EnqueueSignal(a);
      }
    case EnqueueSignal(a) => s', pc' := s.(ready := s.ready + 1), EnqueueDone(a);
    case EnqueueDone(a) => pc' := if s.stopped then DrainClaim(a) else Resume(a);
    case DrainClaim(a) =>
      if s.ready > 0 {
        s', pc' := s.(ready := s.ready - 1), DrainTake(a);
      } else {
        pc' := Resume(a);
      }
    case DrainTake(a) =>
      var n := |s.idle| - 1;
      s', pc' := s.(idle := s.idle[..n]), Closing(s.idle[n], DrainOn(a));
      assert TakeTop(s, s', s.idle[n]);
    case Closing(c, a) => s', pc' := s.(opens := s.opens - {c}), FreeSlot(a);
    case FreeSlot(a) => s', pc' := if cfg.limit == 0 || s.slots == 0 then s else s.(slots := s.slots - 1), Resume(a);
  }

  lemma ScanCan(cfg: Config, s: Shared, pc: PC) returns (s': Shared, pc': PC)
    requires Able(cfg, s, pc) && (pc.TrimLock? || pc.TrimClaim? || pc.ScanLock? || pc.Scanning? || pc.Ticking?)
    ensures ScanStep(cfg, s, pc, s', pc')
  {
    s', pc' := s, ScanLock;
    match pc
    case TrimLock(k) => s', pc' := s.(lock := true), TrimClaim(k, 0);
    case TrimClaim(k, n) =>
      if n < k && n < |s.idle| && s.ready > 0 {
        s', pc' := s.(ready := s.ready - 1), TrimClaim(k, n + 1);
      } else {
        s', pc' := s.(idle := s.idle[n..], lock := false), Resume(CloseAll(s.idle[..n], ToScan));
      }
    case ScanLock => s', pc' := s.(lock := true), Scanning(0, [], []);
    case Scanning(i, kept, stale) =>
      if i < |s.idle| {
        pc' := Scanning(i + 1, kept + [s.idle[i]], stale);
      } else {
        s', pc' := s.(idle := kept, lock := false), Dispatching(stale);
      }
    case Ticking =>
  }

  /** A thread that is able has a step. */
  lemma CanStep(cfg: Config, s: Shared, pc: PC) returns (s': Shared, pc': PC, spawned: seq<PC>)
    requires Able(cfg, s, pc)
    ensures ThreadStep(cfg, s, pc, s', pc', spawned) && !GivesUp(pc, pc')
  {
    hide AcquireStep, EnqueueStep, ScanStep;
    s', pc', spawned := s, Finished, [];
    match pc
    case Dialing(_) => pc' := FreeSlot(End);
    case Dialed(c, _) => pc' := Closing(c, End);
    case Dispatching(cs) =>
      if cs == [] {
        pc' := Ticking;
      } else if s.cancelled {
        pc' := Closing(cs[0], DispatchRest(cs[1..]));
      } else {
        pc', spawned := Dispatching(cs[1..]), [Probing(cs[0])];
      }
    case Probing(c) => pc' := Closing(c, End);
    case RefillCheck(a) => pc' := Resume(a);
    case RefillSpawn(a) =>
      if s.stopped {
        pc' := FreeSlot(a);
      } else {
        pc', spawned := RefillCheck(a), [Dialing(true)];
      }
    case StopSwap => s', pc' := s.(stopped := true), if s.stopped then Finished else StopCancel;
    case StopCancel => s', pc' := s.(cancelled := true), StopWait;
    case StopWait => pc' := DrainClaim(End);
    case TrimLock(_) => s', pc' := ScanCan(cfg, s, pc);
    case TrimClaim(_, _) => s', pc' := ScanCan(cfg, s, pc);
    case ScanLock => s', pc' := ScanCan(cfg, s, pc);
    case Scanning(_, _, _) => s', pc' := ScanCan(cfg, s, pc);
    case Ticking => s', pc' := ScanCan(cfg, s, pc);
    case EnqueueCheck(_, _, _) => s', pc' := EnqueueCan(cfg, s, pc);
    case EnqueuePush(_, _, _) => s', pc' := EnqueueCan(cfg, s, pc);
    case EnqueueSignal(_) => s', pc' := EnqueueCan(cfg, s, pc);
    case EnqueueDone(_) => s', pc' := EnqueueCan(cfg, s, pc);
    case DrainClaim(_) => s', pc' := EnqueueCan(cfg, s, pc);
    case DrainTake(_) => s', pc' := EnqueueCan(cfg, s, pc);
    case Closing(_, _) => s', pc' := EnqueueCan(cfg, s, pc);
    case FreeSlot(_) => s', pc' := EnqueueCan(cfg, s, pc);
    case AcquireCheck => s', pc' := AcquireCan(cfg, s, pc);
    case AcquireLook => s', pc' := AcquireCan(cfg, s, pc);
    case AcquireClaim => s', pc' := AcquireCan(cfg, s, pc);
    case AcquireSlot => s', pc' := AcquireCan(cfg, s, pc);
    case AcquireWait => s', pc' := AcquireCan(cfg, s, pc);
    case Taking => s', pc' := AcquireCan(cfg, s, pc);
    case Checking(_) => s', pc' := AcquireCan(cfg, s, pc);
    case Using(_) => s', pc' := AcquireCan(cfg, s, pc);
  }

  predicate Stops(pc: PC)
  {
    pc.StopSwap? || pc.StopCancel? || pc.StopWait?
  }

  /** What a step tells of the point it starts from and the one it leads to. */
  ghost predicate Guards(cfg: Config, s: Shared, pc: PC, pc': PC)
  {
    && !pc.Finished? && (NeedsLock(pc) ==> !s.lock)
    && (pc.AcquireWait? && !GivesUp(pc, pc') ==> s.ready > 0 || s.slots < cfg.limit)
    && (pc'.AcquireWait? ==> cfg.limit > 0) && (Stops(pc') ==> Stops(pc))
  }

  lemma {:induction false} ResumePoint(a: After)
    ensures !Resume(a).AcquireWait? && !Stops(Resume(a))
  {
    if a.CloseAll? && a.rest == [] {
      ResumePoint(a.later);
    }
  }

  lemma AcquireGuards(cfg: Config, s: Shared, pc: PC, s': Shared, pc': PC)
    requires AcquireStep(cfg, s, pc, s', pc')
    ensures Guards(cfg, s, pc, pc')
  {
  }

  lemma EnqueueGuards(cfg: Config, s: Shared, pc: PC, s': Shared, pc': PC)
    requires EnqueueStep(cfg, s, pc, s', pc')
    ensures Guards(cfg, s, pc, pc')
  {
    hide Resume;
    if pc.EnqueueDone? || pc.DrainClaim? || pc.FreeSlot? {
      ResumePoint(pc.a);
    }
  }

  lemma ScanGuards(cfg: Config, s: Shared, pc: PC, s': Shared, pc': PC)
    requires ScanStep(cfg, s, pc, s', pc')
    ensures Guards(cfg, s, pc, pc')
  {
    hide Resume;
    if pc.TrimClaim? && pc.n <= |s.idle| {
      ResumePoint(CloseAll(s.idle[..pc.n], ToScan));
    }
  }

  lemma OtherGuards(cfg: Config, s: Shared, pc: PC, s': Shared, pc': PC)
    requires DialStep(cfg, s, pc, s', pc') || StopStep(s, pc, s', pc')
    ensures Guards(cfg, s, pc, pc')
  {
  }

  lemma SpawnGuards(cfg: Config, s: Shared, pc: PC, s': Shared, pc': PC, spawned: seq<PC>)
    requires ProbeStep(s, pc, s', pc', spawned) || RefillStep(cfg, s, pc, s', pc', spawned)
    ensures Guards(cfg, s, pc, pc')
    ensures spawned == [] || (|spawned| == 1 && (spawned[0].Dialing? || spawned[0].Probing?))
  {
    hide Resume;
    if pc.RefillCheck? {
      ResumePoint(pc.a);
    }
  }

  lemma StepGuards(cfg: Config, s: Shared, pc: PC, s': Shared, pc': PC, spawned: seq<PC>)
    requires ThreadStep(cfg, s, pc, s', pc', spawned)
    ensures Guards(cfg, s, pc, pc')
    ensures spawned == [] || (|spawned| == 1 && (spawned[0].Dialing? || spawned[0].Probing?))
  {
    hide Guards, AcquireStep, EnqueueStep, ScanStep, DialStep, StopStep, ProbeStep, RefillStep;
    if ProbeStep(s, pc, s', pc', spawned) || RefillStep(cfg, s, pc, s', pc', spawned) {
      SpawnGuards(cfg, s, pc, s', pc', spawned);
    } else if AcquireStep(cfg, s, pc, s', pc') {
      AcquireGuards(cfg, s, pc, s', pc');
    } else if EnqueueStep(cfg, s, pc, s', pc') {
      EnqueueGuards(cfg, s, pc, s', pc');
    } else if ScanStep(cfg, s, pc, s', pc') {
      ScanGuards(cfg, s, pc, s', pc');
    } else {
      OtherGuards(cfg, s, pc, s', pc');
    }
  }

  /** In every reachable state a thread can step exactly when it is
      unblocked. */
  lemma Progress(cfg: Config, run: seq<State>, i: nat, t: nat)
    requires Run(cfg, run) && i < |run| && t < |run[i].threads|
    ensures Moves(cfg, run[i], t) <==> Unblocked(cfg, run[i], t)
  {
    hide Run, ThreadStep, Sum, Inv;
    var g := run[i];
    var pc := g.threads[t].pc;
    if Unblocked(cfg, g, t) {
      TokenDiscipline(cfg, run, i, t);
      RunInv(cfg, run, i);
      Scanned(cfg, g, t);
      var s', pc', spawned := CanStep(cfg, g.s, pc);
      var g' := State(s', g.threads[t := g.threads[t].(pc := pc')] + Backgrounds(spawned));
      assert StepOf(cfg, g, g', t, pc', spawned);
    }
    if g', pc', spawned :| StepOf(cfg, g, g', t, pc', spawned) && !GivesUp(pc, pc') {
      StepGuards(cfg, g.s, pc, g'.s, pc', spawned);
    }
  }

  lemma Scanned(cfg: Config, g: State, t: nat)
    requires Inv(cfg, g) && t < |g.threads|
    ensures g.threads[t].pc.Scanning? ==> g.threads[t].pc.i <= |g.s.idle|
  {
    hide Sum;
    assert LocalOk(g.s, g.threads[t].pc);
  }

  lemma {:induction false} SomeWeight(f: PC -> nat, ts: seq<Thread>) returns (t: nat)
    requires Sum(f, ts) > 0
    ensures t < |ts| && f(ts[t].pc) > 0
  {
    t := 0;
    if f(ts[0].pc) == 0 {
      t := SomeWeight(f, ts[1..]);
      t := t + 1;
    }
  }

  /** idleMu is never stuck: while it is held, the thread that holds it can
      step. */
  lemma HolderMoves(cfg: Config, run: seq<State>, i: nat) returns (t: nat)
    requires Run(cfg, run) && i < |run| && run[i].s.lock
    ensures t < |run[i].threads| && Locks(run[i].threads[t].pc) == 1 && Moves(cfg, run[i], t)
  {
    hide Run, Sum, Moves;
    RunInv(cfg, run, i);
    t := SomeWeight(Locks, run[i].threads);
    Progress(cfg, run, i, t);
  }

  /** Only an acquire of a limited pool waits for a slot, and no background
      thread stops the pool. */
  ghost predicate Placed(cfg: Config, th: Thread)
  {
    (th.pc.AcquireWait? ==> cfg.limit > 0) && (th.background ==> !Stops(th.pc))
  }

  lemma {:induction false} RunPlaced(cfg: Config, run: seq<State>, i: nat, t: nat)
    requires Run(cfg, run) && i < |run| && t < |run[i].threads|
    ensures Placed(cfg, run[i].threads[t])
  {
    hide ThreadStep;
    if i > 0 {
      var g, g' := run[i - 1], run[i];
      assert Next(cfg, g, run[i - 1 + 1]);
      if t < |g.threads| {
        RunPlaced(cfg, run, i - 1, t);
      }
      if u: nat, pc', spawned :| StepOf(cfg, g, g', u, pc', spawned) {
        StepGuards(cfg, g.s, g.threads[u].pc, g'.s, pc', spawned);
      }
    }
  }

  /** Nobody waits in vain: when every thread has finished or waits, in an
      acquire or in stop, a waiting acquire finds a token or a slot. */
  lemma WaiterServed(cfg: Config, run: seq<State>, i: nat, t: nat)
    requires Run(cfg, run) && i < |run| && t < |run[i].threads| && run[i].threads[t].pc.AcquireWait?
    requires forall u :: 0 <= u < |run[i].threads| ==>
               var pc := run[i].threads[u].pc; pc.Finished? || pc.AcquireWait? || pc.StopWait?
    ensures Moves(cfg, run[i], t)
  {
    hide Run, Sum, Moves;
    RunInv(cfg, run, i);
    RunPlaced(cfg, run, i, t);
    Weightless(Tokens, run[i].threads);
    Weightless(Pushed, run[i].threads);
    Weightless(Load, run[i].threads);
    Progress(cfg, run, i, t);
  }

  /** No reachable state is a deadlock: if any thread has not finished, some
      thread can step, and not by giving up. */
  lemma NoDeadlock(cfg: Config, run: seq<State>, i: nat, t: nat) returns (u: nat)
    requires Run(cfg, run) && i < |run| && t < |run[i].threads| && !run[i].threads[t].pc.Finished?
    ensures u < |run[i].threads| && Moves(cfg, run[i], u)
  {
    hide Run, Moves;
    var ts := run[i].threads;
    u := t;
    if run[i].s.lock {
      u := HolderMoves(cfg, run, i);
    } else if v: nat :| v < |ts| && !ts[v].pc.Finished? && !ts[v].pc.AcquireWait? && !ts[v].pc.StopWait? {
      u := v;
      Progress(cfg, run, i, u);
    } else if v: nat :| v < |ts| && ts[v].pc.AcquireWait? {
      u := v;
      WaiterServed(cfg, run, i, u);
    } else {
      forall v: nat | v < |ts| ensures Placed(cfg, ts[v]) {
        RunPlaced(cfg, run, i, v);
      }
      Progress(cfg, run, i, u);
    }
  }
}
