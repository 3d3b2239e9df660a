/** The client's connection pool as a concurrent protocol: an idle stack, a
    token channel kept in step with it, a slot semaphore and a stop flag. Each
    lock region, channel operation and atomic access is one step, and any
    number of threads may be at any program point. */
module Pool {

  /** cap is the capacity of `ready`; limit is that of `slots`, 0 when the
      pool is unbounded. */
  datatype Config = Config(cap: nat, limit: nat)

  type Conn = nat

  /** What threads share. lock is idleMu held across several steps; opens are
      the connections dialed and not yet closed; next names the next one. */
  datatype Shared = Shared(
    idle: seq<Conn>, ready: nat, slots: nat, lock: bool, stopped: bool, cancelled: bool,
    opens: set<Conn>, next: Conn)

  /** What a thread does once the operation it is in completes. */
  datatype After =
    | End
    | Retry
    | ToScan
    | ToHeartbeat
    | ToRefill(later: After)
    | DrainOn(later: After)
    | CloseAll(rest: seq<Conn>, later: After)
    | DispatchRest(rest: seq<Conn>)

  /** Program points. */
  datatype PC =
    | Finished
    // acquireConn
    | AcquireCheck
    | AcquireLook
    | AcquireClaim
    | AcquireSlot
    | AcquireWait
    | Taking
    | Checking(c: Conn)
    | Using(c: Conn)
    // dialPoolConn, for an acquire or a background fill
    | Dialing(fill: bool)
    | Dialed(c: Conn, fill: bool)
    // enqueue and enqueueProbed
    | EnqueueCheck(c: Conn, probed: bool, a: After)
    | EnqueuePush(c: Conn, probed: bool, a: After)
    | EnqueueSignal(a: After)
    | EnqueueDone(a: After)
    // drain
    | DrainClaim(a: After)
    | DrainTake(a: After)
    // discard
    | Closing(c: Conn, a: After)
    | FreeSlot(a: After)
    // trimIdle and takeStale, holding idleMu
    | TrimLock(k: nat)
    | TrimClaim(k: nat, n: nat)
    | ScanLock
    | Scanning(i: nat, kept: seq<Conn>, stale: seq<Conn>)
    // heartbeats
    | Ticking
    | Dispatching(cs: seq<Conn>)
    | Probing(c: Conn)
    // refill
    | RefillCheck(a: After)
    | RefillSpawn(a: After)
    // stop
    | StopSwap
    | StopCancel
    | StopWait

  function Resume(a: After): PC
  {
    match a
    case End => Finished
    case Retry => AcquireCheck
    case ToScan => ScanLock
    case ToHeartbeat => Ticking
    case ToRefill(t) => RefillCheck(t)
    case DrainOn(t) => DrainClaim(t)
    case CloseAll(rest, t) => if rest == [] then Resume(t) else Closing(rest[0], CloseAll(rest[1..], t))
    case DispatchRest(rest) => Dispatching(rest)
  }

  /** A slot taken without waiting: always there when the pool is unbounded. */
  ghost predicate TakeSlot(cfg: Config, s: Shared, s': Shared)
  {
    if cfg.limit == 0 then s' == s else s.slots < cfg.limit && s' == s.(slots := s.slots + 1)
  }

  /** The receive in putSlot, which takes its default branch on an empty
      channel. */
  ghost predicate PutSlot(cfg: Config, s: Shared, s': Shared)
  {
    s' == if cfg.limit == 0 || s.slots == 0 then s else s.(slots := s.slots - 1)
  }

  ghost predicate TakeTop(s: Shared, s': Shared, c: Conn)
  {
    !s.lock && s.idle != [] && c == s.idle[|s.idle| - 1] && s' == s.(idle := s.idle[..|s.idle| - 1])
  }

  ghost predicate Claim(s: Shared, s': Shared)
  {
    s.ready > 0 && s' == s.(ready := s.ready - 1)
  }

  ghost predicate AcquireStep(cfg: Config, s: Shared, pc: PC, s': Shared, pc': PC)
  {
    match pc
    case AcquireCheck => s' == s && pc' == (if s.stopped then Finished else AcquireLook)
    case AcquireLook => s' == s && pc' == (if s.stopped then AcquireSlot else AcquireClaim)
    case AcquireClaim =>
      if s.ready > 0 then Claim(s, s') && pc' == Taking else s' == s && pc' == AcquireSlot
    case AcquireSlot =>
      if cfg.limit == 0 || s.slots < cfg.limit then TakeSlot(cfg, s, s') && pc' == Dialing(false)
      else s' == s && pc' == AcquireWait
    case AcquireWait =>
      || (Claim(s, s') && pc' == Taking)
      || (cfg.limit > 0 && TakeSlot(cfg, s, s') && pc' == Dialing(false))
      || (s' == s && pc' == Finished)
    case Taking => exists c :: TakeTop(s, s', c) && pc' == Checking(c)
    case Checking(c) => s' == s && (pc' == Using(c) || pc' == Closing(c, Retry))
    case Using(c) => s' == s && (pc' == Closing(c, ToRefill(End)) || pc' == EnqueueCheck(c, false, End))
    case _ => false
  }

  ghost predicate DialStep(cfg: Config, s: Shared, pc: PC, s': Shared, pc': PC)
  {
    match pc
    case Dialing(fill) =>
      || (s' == s && pc' == FreeSlot(End))
      || (s' == s.(opens := s.opens + {s.next}, next := s.next + 1) && pc' == Dialed(s.next, fill))
    case Dialed(c, fill) =>
      && s' == s
      && (|| pc' == Closing(c, End)
          || pc' == EnqueueCheck(c, false, End)
          || (!fill && (pc' == Closing(c, Retry) || pc' == Using(c)))
          || (fill && pc' == EnqueueCheck(c, false, ToRefill(End))))
    case _ => false
  }

  ghost predicate EnqueueStep(cfg: Config, s: Shared, pc: PC, s': Shared, pc': PC)
  {
    match pc
    case EnqueueCheck(c, probed, a) =>
      s' == s && pc' == (if s.stopped then Closing(c, a) else EnqueuePush(c, probed, a))
    case EnqueuePush(c, probed, a) =>
      && !s.lock
      && (if |s.idle| >= cfg.cap then s' == s && pc' == Closing(c, a)
          else
            && pc' == EnqueueSignal(a)
            && exists at :: 0 <= at <= |s.idle| && (probed || at == |s.idle|)
                            && s' == s.(idle := s.idle[..at] + [c] + s.idle[at..]))
    case EnqueueSignal(a) => s.ready < cfg.cap && s' == s.(ready := s.ready + 1) && pc' == EnqueueDone(a)
    case EnqueueDone(a) => s' == s && pc' == (if s.stopped then DrainClaim(a) else Resume(a))
    case DrainClaim(a) =>
      if s.ready > 0 then Claim(s, s') && pc' == DrainTake(a) else s' == s && pc' == Resume(a)
    case DrainTake(a) => exists c :: TakeTop(s, s', c) && pc' == Closing(c, DrainOn(a))
    case Closing(c, a) => s' == s.(opens := s.opens - {c}) && pc' == FreeSlot(a)
    case FreeSlot(a) => PutSlot(cfg, s, s') && pc' == Resume(a)
    case _ => false
  }

  ghost predicate ScanStep(cfg: Config, s: Shared, pc: PC, s': Shared, pc': PC)
  {
    match pc
    case TrimLock(k) => !s.lock && s' == s.(lock := true) && pc' == TrimClaim(k, 0)
    case TrimClaim(k, n) =>
      if n < k && n < |s.idle| && s.ready > 0 then Claim(s, s') && pc' == TrimClaim(k, n + 1)
      else n <= |s.idle| && s' == s.(idle := s.idle[n..], lock := false) && pc' == Resume(CloseAll(s.idle[..n], ToScan))
    case ScanLock => !s.lock && s' == s.(lock := true) && pc' == Scanning(0, [], [])
    case Scanning(i, kept, stale) =>
      if i < |s.idle| then
        || (s' == s && pc' == Scanning(i + 1, kept + [s.idle[i]], stale))
        || (Claim(s, s') && pc' == Scanning(i + 1, kept, stale + [s.idle[i]]))
      else s' == s.(idle := kept, lock := false) && pc' == Dispatching(stale)
    case Ticking => s' == s && ((s.cancelled && pc' == Finished) || (exists k :: pc' == TrimLock(k)) || pc' == ScanLock)
    case _ => false
  }

  ghost predicate ProbeStep(s: Shared, pc: PC, s': Shared, pc': PC, spawned: seq<PC>)
  {
    match pc
    case Dispatching(cs) =>
      && s' == s
      && (if cs == [] then spawned == [] && (pc' == Ticking || pc' == RefillCheck(ToHeartbeat))
          else if s.cancelled then spawned == [] && pc' == Closing(cs[0], DispatchRest(cs[1..]))
          else spawned == [Probing(cs[0])] && pc' == Dispatching(cs[1..]))
    case Probing(c) => s' == s && spawned == [] && (pc' == Closing(c, End) || pc' == EnqueueCheck(c, true, End))
    case _ => false
  }

  ghost predicate RefillStep(cfg: Config, s: Shared, pc: PC, s': Shared, pc': PC, spawned: seq<PC>)
  {
    match pc
    case RefillCheck(a) =>
      && spawned == []
      && ((s' == s && pc' == Resume(a)) || (TakeSlot(cfg, s, s') && pc' == RefillSpawn(a)))
    case RefillSpawn(a) =>
      && s' == s
      && (if s.stopped then spawned == [] && pc' == FreeSlot(a)
          else spawned == [Dialing(true)] && pc' == RefillCheck(a))
    case _ => false
  }

  ghost predicate StopStep(s: Shared, pc: PC, s': Shared, pc': PC)
  {
    match pc
    case StopSwap => s' == s.(stopped := true) && pc' == (if s.stopped then Finished else StopCancel)
    case StopCancel => s' == s.(cancelled := true) && pc' == StopWait
    case StopWait => s' == s && pc' == DrainClaim(End)
    case _ => false
  }

  /** One step of a thread at pc, perhaps starting others. */
  ghost predicate ThreadStep(cfg: Config, s: Shared, pc: PC, s': Shared, pc': PC, spawned: seq<PC>)
  {
    || (spawned == []
        && (|| AcquireStep(cfg, s, pc, s', pc')
            || DialStep(cfg, s, pc, s', pc')
            || EnqueueStep(cfg, s, pc, s', pc')
            || ScanStep(cfg, s, pc, s', pc')
            || StopStep(s, pc, s', pc')))
    || ProbeStep(s, pc, s', pc', spawned)
    || RefillStep(cfg, s, pc, s', pc', spawned)
  }

  /** A thread; background ones are those stop waits for. */
  datatype Thread = Thread(pc: PC, background: bool)

  datatype State = State(s: Shared, threads: seq<Thread>)

  function Backgrounds(pcs: seq<PC>): (ts: seq<Thread>)
    ensures |ts| == |pcs|
  {
    if pcs == [] then [] else [Thread(pcs[0], true)] + Backgrounds(pcs[1..])
  }

  ghost predicate BackgroundIdle(g: State)
  {
    forall i :: 0 <= i < |g.threads| && g.threads[i].background ==> g.threads[i].pc.Finished?
  }

  /** Thread t takes a step; stop's wait ends once no background thread is
      left. */
  ghost predicate StepOf(cfg: Config, g: State, g': State, t: nat, pc': PC, spawned: seq<PC>)
  {
    && t < |g.threads|
    && ThreadStep(cfg, g.s, g.threads[t].pc, g'.s, pc', spawned)
    && (g.threads[t].pc.StopWait? ==> BackgroundIdle(g))
    && g'.threads == g.threads[t := g.threads[t].(pc := pc')] + Backgrounds(spawned)
  }

  /** A caller acquires, asks for a refill or stops the pool, or the heartbeat
      loop of a running pool starts. */
  ghost predicate Arrives(g: State, g': State, th: Thread)
  {
    && g'.s == g.s && g'.threads == g.threads + [th]
    && (|| th == Thread(AcquireCheck, false)
        || th == Thread(RefillCheck(End), false)
        || th == Thread(StopSwap, false)
        || (th == Thread(Ticking, true) && !g.s.stopped))
  }

  ghost predicate Next(cfg: Config, g: State, g': State)
  {
    || (exists t: nat, pc', spawned :: StepOf(cfg, g, g', t, pc', spawned))
    || (exists th :: Arrives(g, g', th))
  }

  ghost predicate Init(g: State)
  {
    g == State(Shared([], 0, 0, false, false, false, {}, 0), [])
  }

  ghost predicate Run(cfg: Config, run: seq<State>)
  {
    && run != [] && Init(run[0])
    && forall i :: 0 <= i < |run| - 1 ==> Next(cfg, run[i], run[i + 1])
  }
}
