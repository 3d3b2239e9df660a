/** What the pool's runs can do and what their steps decide: connections are
    kept, handed on, filled and probed, and a stop closes them. */
module PoolRuns {
  import opened Pool
  import opened PoolProofs

  // ---- What a step decides ----

  /** The thread is putting connection c back. */
  predicate Returning(pc: PC, c: Conn)
  {
    (pc.EnqueueCheck? || pc.EnqueuePush?) && pc.c == c
  }

  /** What the threads account for: tokens claimed, and pushes to signal. */
  ghost function Outstanding(ts: seq<Thread>): nat
  {
    Sum(Tokens, ts) + Sum(Pushed, ts)
  }

  /** Either thread t took the step, or it stands where it stood. */
  lemma Stepped(cfg: Config, run: seq<State>, i: nat, t: nat) returns (spawned: seq<PC>)
    requires Run(cfg, run) && i + 1 < |run| && t < |run[i].threads|
    ensures t < |run[i + 1].threads|
    ensures || run[i + 1].threads[t] == run[i].threads[t]
            || ThreadStep(cfg, run[i].s, run[i].threads[t].pc, run[i + 1].s, run[i + 1].threads[t].pc, spawned)
  {
    hide ThreadStep, Run;
    spawned := [];
    var g, g' := run[i], run[i + 1];
    RunNext(cfg, run, i);
    if u: nat, pc', more :| StepOf(cfg, g, g', u, pc', more) {
      spawned := more;
      assert g'.threads[t] == if t == u then g.threads[u].(pc := pc') else g.threads[t];
    }
  }

  lemma RunNext(cfg: Config, run: seq<State>, i: nat)
    requires Run(cfg, run) && i + 1 < |run|
    ensures Next(cfg, run[i], run[i + 1])
  {
  }

  lemma PutsBackOrCloses(cfg: Config, s: Shared, pc: PC, s': Shared, pc': PC, spawned: seq<PC>, c: Conn)
    requires ThreadStep(cfg, s, pc, s', pc', spawned) && Returning(pc, c)
    ensures if if pc.EnqueueCheck? then s.stopped else |s.idle| >= cfg.cap then pc'.Closing? && pc'.c == c
            else if pc.EnqueueCheck? then pc'.EnqueuePush? && pc'.c == c
            else pc'.EnqueueSignal? && c in s'.idle && |s'.idle| == |s.idle| + 1
  {
    hide AcquireStep, DialStep, ScanStep, StopStep, ProbeStep, RefillStep;
    OnlyEnqueue(cfg, s, pc, s', pc', spawned);
  }

  lemma OnlyEnqueue(cfg: Config, s: Shared, pc: PC, s': Shared, pc': PC, spawned: seq<PC>)
    requires ThreadStep(cfg, s, pc, s', pc', spawned) && (pc.EnqueueCheck? || pc.EnqueuePush?)
    ensures EnqueueStep(cfg, s, pc, s', pc')
  {
    hide EnqueueStep;
  }

  /** A connection put back is closed if the pool is stopped when that is
      looked at, or the idle stack is full when it would be pushed, and for no
      other reason; otherwise it is idle, and one more token is ready or
      owed. */
  lemma ReturnedIsKept(cfg: Config, run: seq<State>, i: nat, t: nat, c: Conn)
    requires Run(cfg, run) && i + 1 < |run| && t < |run[i].threads|
    ensures t < |run[i + 1].threads|
    ensures var s, s', pc, pc' := run[i].s, run[i + 1].s, run[i].threads[t].pc, run[i + 1].threads[t].pc;
            Returning(pc, c) && pc' != pc ==>
              if if pc.EnqueueCheck? then s.stopped else |s.idle| >= cfg.cap then pc'.Closing? && pc'.c == c
              else if pc.EnqueueCheck? then pc'.EnqueuePush? && pc'.c == c
              else
                && c in s'.idle && |s'.idle| == |s.idle| + 1
                && s'.ready + Outstanding(run[i + 1].threads) == s.ready + Outstanding(run[i].threads) + 1
  {
    hide Run, ThreadStep, Sum;
    var spawned := Stepped(cfg, run, i, t);
    var pc, pc' := run[i].threads[t].pc, run[i + 1].threads[t].pc;
    if Returning(pc, c) && pc' != pc {
      PutsBackOrCloses(cfg, run[i].s, pc, run[i + 1].s, pc', spawned, c);
      TokenDiscipline(cfg, run, i, t);
      TokenDiscipline(cfg, run, i + 1, t);
    }
  }

  /** A caller of a running pool goes past the idle stack only when no token is
      ready, waits only when every slot is taken, and takes the connection used
      last. A stopped pool's idle connections are left alone. */
  lemma IdleFirst(cfg: Config, run: seq<State>, i: nat, t: nat)
    requires Run(cfg, run) && i + 1 < |run| && t < |run[i].threads|
    ensures t < |run[i + 1].threads|
    ensures var s, s', pc, pc' := run[i].s, run[i + 1].s, run[i].threads[t].pc, run[i + 1].threads[t].pc;
            && (pc.AcquireLook? && pc'.AcquireSlot? ==> s.stopped) && (pc.AcquireLook? && pc'.AcquireClaim? ==> !s.stopped)
            && (pc.AcquireClaim? && pc'.AcquireSlot? ==> s.ready == 0)
            && (pc.AcquireSlot? && pc'.AcquireWait? ==> cfg.limit > 0 && s.slots == cfg.limit)
            && (pc.Taking? && pc'.Checking? ==> s.idle == s'.idle + [pc'.c])
  {
    hide Run, ThreadStep;
    var spawned := Stepped(cfg, run, i, t);
    SlotsWithin(cfg, run, i);
    var pc, pc' := run[i].threads[t].pc, run[i + 1].threads[t].pc;
    if pc != pc' && (pc.AcquireLook? || pc.AcquireClaim? || pc.AcquireSlot? || pc.Taking?) {
      Looks(cfg, run[i].s, pc, run[i + 1].s, pc', spawned);
    }
  }

  lemma SlotsWithin(cfg: Config, run: seq<State>, i: nat)
    requires Run(cfg, run) && i < |run|
    ensures run[i].s.slots <= cfg.limit
  {
    hide Run;
    RunInv(cfg, run, i);
  }

  lemma Looks(cfg: Config, s: Shared, pc: PC, s': Shared, pc': PC, spawned: seq<PC>)
    requires ThreadStep(cfg, s, pc, s', pc', spawned) && (pc.AcquireLook? || pc.AcquireClaim? || pc.AcquireSlot? || pc.Taking?)
    ensures (pc.AcquireLook? && pc'.AcquireSlot? ==> s.stopped) && (pc.AcquireLook? && pc'.AcquireClaim? ==> !s.stopped)
    ensures pc.AcquireClaim? && pc'.AcquireSlot? ==> s.ready == 0
    ensures pc.AcquireSlot? && pc'.AcquireWait? ==> cfg.limit > 0 && s.slots >= cfg.limit
    ensures pc.Taking? && pc'.Checking? ==> s.idle == s'.idle + [pc'.c]
  {
  }

  /** A trim takes the connections used least recently, and as many as it was
      told to unless it runs out of them or of tokens. */
  lemma TrimsOldest(cfg: Config, run: seq<State>, i: nat, t: nat)
    requires Run(cfg, run) && i + 1 < |run| && t < |run[i].threads|
    ensures t < |run[i + 1].threads|
    ensures var s, s', pc, pc' := run[i].s, run[i + 1].s, run[i].threads[t].pc, run[i + 1].threads[t].pc;
            pc.TrimClaim? && !pc'.TrimClaim? ==>
              pc.n <= |s.idle| && s'.idle == s.idle[pc.n..] && (pc.n >= pc.k || pc.n == |s.idle| || s.ready == 0)
  {
    hide Run, ThreadStep;
    var spawned := Stepped(cfg, run, i, t);
    var pc, pc' := run[i].threads[t].pc, run[i + 1].threads[t].pc;
    if pc.TrimClaim? && !pc'.TrimClaim? {
      TrimStep(cfg, run[i].s, pc, run[i + 1].s, pc', spawned);
    }
  }

  lemma TrimStep(cfg: Config, s: Shared, pc: PC, s': Shared, pc': PC, spawned: seq<PC>)
    requires ThreadStep(cfg, s, pc, s', pc', spawned) && pc.TrimClaim? && !pc'.TrimClaim?
    ensures pc.n <= |s.idle| && s'.idle == s.idle[pc.n..] && (pc.n >= pc.k || pc.n == |s.idle| || s.ready == 0)
  {
    hide Resume;
  }

  /** Stopped and cancelled stay, a stop sets the one and then the other, and
      a heartbeat ends only when cancelled. */
  lemma StopStays(cfg: Config, run: seq<State>, i: nat, t: nat)
    requires Run(cfg, run) && i + 1 < |run| && t < |run[i].threads|
    ensures t < |run[i + 1].threads|
    ensures (run[i].s.stopped ==> run[i + 1].s.stopped) && (run[i].s.cancelled ==> run[i + 1].s.cancelled)
    ensures var s, s', pc, pc' := run[i].s, run[i + 1].s, run[i].threads[t].pc, run[i + 1].threads[t].pc;
            && (pc.StopSwap? && pc' != pc ==> s'.stopped && (pc'.Finished? <==> s.stopped))
            && (pc.StopCancel? && pc' != pc ==> s'.cancelled)
            && (pc.Ticking? && pc'.Finished? ==> s.cancelled)
  {
    hide Run, ThreadStep;
    var spawned := Stepped(cfg, run, i, t);
    FlagsStay(cfg, run, i);
    var pc, pc' := run[i].threads[t].pc, run[i + 1].threads[t].pc;
    if pc != pc' && (pc.StopSwap? || pc.StopCancel? || pc.Ticking?) {
      StopFlags(cfg, run[i].s, pc, run[i + 1].s, pc', spawned);
    }
  }

  lemma StopFlags(cfg: Config, s: Shared, pc: PC, s': Shared, pc': PC, spawned: seq<PC>)
    requires ThreadStep(cfg, s, pc, s', pc', spawned) && (pc.StopSwap? || pc.StopCancel? || pc.Ticking?)
    ensures pc.StopSwap? ==> s'.stopped && (pc'.Finished? <==> s.stopped)
    ensures pc.StopCancel? ==> s'.cancelled
    ensures pc.Ticking? && pc'.Finished? ==> s.cancelled
  {
    hide AcquireStep, DialStep, EnqueueStep, ProbeStep, RefillStep;
    OnlyStop(cfg, s, pc, s', pc', spawned);
  }

  lemma OnlyStop(cfg: Config, s: Shared, pc: PC, s': Shared, pc': PC, spawned: seq<PC>)
    requires ThreadStep(cfg, s, pc, s', pc', spawned) && (pc.StopSwap? || pc.StopCancel? || pc.Ticking?)
    ensures if pc.Ticking? then ScanStep(cfg, s, pc, s', pc') else StopStep(s, pc, s', pc')
  {
  }

  lemma FlagsStay(cfg: Config, run: seq<State>, i: nat)
    requires Run(cfg, run) && i + 1 < |run|
    ensures FlagsGrow(run[i].s, run[i + 1].s)
  {
    hide Run, ThreadStep;
    var g, g' := run[i], run[i + 1];
    RunNext(cfg, run, i);
    if u: nat, pc', spawned :| StepOf(cfg, g, g', u, pc', spawned) {
      FlagsKept(cfg, g.s, g.threads[u].pc, g'.s, pc', spawned);
    }
  }

  ghost predicate FlagsGrow(s: Shared, s': Shared)
  {
    (s.stopped ==> s'.stopped) && (s.cancelled ==> s'.cancelled)
  }

  lemma FlagsAcquire(cfg: Config, s: Shared, pc: PC, s': Shared, pc': PC)
    requires AcquireStep(cfg, s, pc, s', pc')
    ensures FlagsGrow(s, s')
  {
  }

  lemma FlagsEnqueue(cfg: Config, s: Shared, pc: PC, s': Shared, pc': PC)
    requires EnqueueStep(cfg, s, pc, s', pc')
    ensures FlagsGrow(s, s')
  {
    hide Resume;
  }

  lemma FlagsScan(cfg: Config, s: Shared, pc: PC, s': Shared, pc': PC)
    requires ScanStep(cfg, s, pc, s', pc')
    ensures FlagsGrow(s, s')
  {
    hide Resume;
  }

  lemma FlagsOther(cfg: Config, s: Shared, pc: PC, s': Shared, pc': PC)
    requires DialStep(cfg, s, pc, s', pc') || StopStep(s, pc, s', pc')
    ensures FlagsGrow(s, s')
  {
  }

  lemma FlagsSpawn(cfg: Config, s: Shared, pc: PC, s': Shared, pc': PC, spawned: seq<PC>)
    requires ProbeStep(s, pc, s', pc', spawned) || RefillStep(cfg, s, pc, s', pc', spawned)
    ensures FlagsGrow(s, s')
  {
    hide Resume;
  }

  lemma FlagsKept(cfg: Config, s: Shared, pc: PC, s': Shared, pc': PC, spawned: seq<PC>)
    requires ThreadStep(cfg, s, pc, s', pc', spawned)
    ensures FlagsGrow(s, s')
  {
    hide FlagsGrow, AcquireStep, EnqueueStep, ScanStep, DialStep, StopStep, ProbeStep, RefillStep;
    if ProbeStep(s, pc, s', pc', spawned) || RefillStep(cfg, s, pc, s', pc', spawned) {
      FlagsSpawn(cfg, s, pc, s', pc', spawned);
    } else if AcquireStep(cfg, s, pc, s', pc') {
      FlagsAcquire(cfg, s, pc, s', pc');
    } else if EnqueueStep(cfg, s, pc, s', pc') {
      FlagsEnqueue(cfg, s, pc, s', pc');
    } else if ScanStep(cfg, s, pc, s', pc') {
      FlagsScan(cfg, s, pc, s', pc');
    } else {
      FlagsOther(cfg, s, pc, s', pc');
    }
  }

  /** A caller that comes to a stopped pool is refused: it never gets further
      in any run. */
  lemma {:induction false} Refused(cfg: Config, run: seq<State>, i: nat, j: nat, t: nat)
    requires Run(cfg, run) && i <= j < |run| && t < |run[i].threads|
    requires run[i].s.stopped && run[i].threads[t].pc.AcquireCheck?
    ensures run[j].s.stopped && t < |run[j].threads| && (run[j].threads[t].pc.AcquireCheck? || run[j].threads[t].pc.Finished?)
    decreases j
  {
    hide Run, ThreadStep;
    if i < j {
      Refused(cfg, run, i, j - 1, t);
      var spawned := Stepped(cfg, run, j - 1, t);
      FlagsStay(cfg, run, j - 1);
      var pc, pc' := run[j - 1].threads[t].pc, run[j].threads[t].pc;
      if pc != pc' {
        RefusedStep(cfg, run[j - 1].s, pc, run[j].s, pc', spawned);
      }
    }
  }

  lemma RefusedStep(cfg: Config, s: Shared, pc: PC, s': Shared, pc': PC, spawned: seq<PC>)
    requires ThreadStep(cfg, s, pc, s', pc', spawned) && s.stopped && (pc.AcquireCheck? || pc.Finished?)
    ensures pc'.Finished?
  {
  }

  /** A stopped pool starts no background thread but the probes of a heartbeat
      not yet cancelled. */
  lemma StartsNothing(cfg: Config, run: seq<State>, i: nat, t: nat)
    requires Run(cfg, run) && i + 1 < |run| && |run[i].threads| <= t < |run[i + 1].threads|
    requires run[i].s.stopped && run[i + 1].threads[t].background
    ensures run[i + 1].threads[t].pc.Probing? && !run[i].s.cancelled
  {
    hide Run, ThreadStep;
    var g, g' := run[i], run[i + 1];
    RunNext(cfg, run, i);
    if u: nat, pc', spawned :| StepOf(cfg, g, g', u, pc', spawned) {
      SpawnsOnly(cfg, g.s, g.threads[u].pc, g'.s, pc', spawned);
      OneBackground(spawned);
      assert g'.threads[t] == Backgrounds(spawned)[t - |g.threads|];
    } else {
      var th :| Arrives(g, g', th);
      NoneArrives(g, g', th, t);
    }
  }

  lemma NoneArrives(g: State, g': State, th: Thread, t: nat)
    requires Arrives(g, g', th) && g.s.stopped && |g.threads| <= t < |g'.threads|
    ensures !g'.threads[t].background
  {
  }

  lemma OneBackground(spawned: seq<PC>)
    ensures |spawned| == 1 ==> Backgrounds(spawned) == [Thread(spawned[0], true)]
  {
    if |spawned| == 1 {
      assert spawned[1..] == [];
    }
  }

  lemma SpawnsOnly(cfg: Config, s: Shared, pc: PC, s': Shared, pc': PC, spawned: seq<PC>)
    requires ThreadStep(cfg, s, pc, s', pc', spawned) && s.stopped
    ensures spawned == [] || (|spawned| == 1 && spawned[0].Probing? && !s.cancelled)
  {
    hide AcquireStep, DialStep, EnqueueStep, ScanStep, StopStep, ProbeStep, RefillStep;
    if ProbeStep(s, pc, s', pc', spawned) {
      ProbeSpawns(s, pc, s', pc', spawned);
    } else if RefillStep(cfg, s, pc, s', pc', spawned) {
      RefillSpawns(cfg, s, pc, s', pc', spawned);
    }
  }

  lemma ProbeSpawns(s: Shared, pc: PC, s': Shared, pc': PC, spawned: seq<PC>)
    requires ProbeStep(s, pc, s', pc', spawned)
    ensures spawned == [] || (|spawned| == 1 && spawned[0].Probing? && !s.cancelled)
  {
  }

  lemma RefillSpawns(cfg: Config, s: Shared, pc: PC, s': Shared, pc': PC, spawned: seq<PC>)
    requires RefillStep(cfg, s, pc, s', pc', spawned) && s.stopped
    ensures spawned == []
  {
    hide Resume;
  }

  // ---- What runs can do ----

  ghost function Last(run: seq<State>): State
    requires run != []
  {
    run[|run| - 1]
  }

  /** Where thread t stands at the end of a run. */
  ghost predicate At(run: seq<State>, t: nat, pc: PC)
  {
    run != [] && t < |Last(run).threads| && Last(run).threads[t].pc == pc
  }

  /** `more` goes on from `run`: the shared state is then s', thread t is at
      pc', and the other threads are where they were. */
  ghost predicate GoesTo(cfg: Config, run: seq<State>, more: seq<State>, t: nat, s': Shared, pc': PC)
  {
    && run != [] && Run(cfg, more) && run <= more && Last(more).s == s' && t < |Last(run).threads|
    && Last(more).threads == Last(run).threads[t := Last(run).threads[t].(pc := pc')]
  }

  lemma Stays(cfg: Config, run: seq<State>, t: nat)
    requires Run(cfg, run) && t < |Last(run).threads|
    ensures GoesTo(cfg, run, run, t, Last(run).s, Last(run).threads[t].pc)
  {
  }

  /** Where a run that went on stands. */
  lemma Stands(cfg: Config, run: seq<State>, more: seq<State>, t: nat, s: Shared, pc: PC)
    requires GoesTo(cfg, run, more, t, s, pc)
    ensures Run(cfg, more) && run != [] && run <= more && t < |Last(run).threads| && At(more, t, pc) && Last(more).s == s
    ensures Last(more).threads == Last(run).threads[t := Last(run).threads[t].(pc := pc)]
  {
  }

  lemma Step(cfg: Config, run: seq<State>, a: seq<State>, t: nat, s: Shared, pc: PC, s': Shared, pc': PC) returns (more: seq<State>)
    requires GoesTo(cfg, run, a, t, s, pc) && ThreadStep(cfg, s, pc, s', pc', [])
    requires pc.StopWait? ==> BackgroundIdle(Last(a))
    ensures GoesTo(cfg, run, more, t, s', pc') && a < more
  {
    hide ThreadStep;
    var g := Last(a);
    var g' := State(s', g.threads[t := g.threads[t].(pc := pc')]);
    assert g'.threads == g'.threads + Backgrounds([]);
    assert StepOf(cfg, g, g', t, pc', []);
    more := a + [g'];
    RunSnoc(cfg, a, g');
  }

  lemma Acquires(cfg: Config, run: seq<State>, a: seq<State>, t: nat, s: Shared, pc: PC, s': Shared, pc': PC) returns (more: seq<State>)
    requires GoesTo(cfg, run, a, t, s, pc) && AcquireStep(cfg, s, pc, s', pc')
    ensures GoesTo(cfg, run, more, t, s', pc') && a < more
  {
    hide GoesTo, AcquireStep;
    assert !pc.StopWait? by { NotWaiting(cfg, s, pc, s', pc'); }
    more := Step(cfg, run, a, t, s, pc, s', pc');
  }

  lemma Dials(cfg: Config, run: seq<State>, a: seq<State>, t: nat, s: Shared, pc: PC, s': Shared, pc': PC) returns (more: seq<State>)
    requires GoesTo(cfg, run, a, t, s, pc) && DialStep(cfg, s, pc, s', pc')
    ensures GoesTo(cfg, run, more, t, s', pc') && a < more
  {
    hide GoesTo, DialStep;
    assert !pc.StopWait? by { NotWaiting(cfg, s, pc, s', pc'); }
    more := Step(cfg, run, a, t, s, pc, s', pc');
  }

  lemma Enqueues(cfg: Config, run: seq<State>, a: seq<State>, t: nat, s: Shared, pc: PC, s': Shared, pc': PC) returns (more: seq<State>)
    requires GoesTo(cfg, run, a, t, s, pc) && EnqueueStep(cfg, s, pc, s', pc')
    ensures GoesTo(cfg, run, more, t, s', pc') && a < more
  {
    hide GoesTo, EnqueueStep;
    assert !pc.StopWait? by { NotWaiting(cfg, s, pc, s', pc'); }
    more := Step(cfg, run, a, t, s, pc, s', pc');
  }

  lemma Scans(cfg: Config, run: seq<State>, a: seq<State>, t: nat, s: Shared, pc: PC, s': Shared, pc': PC) returns (more: seq<State>)
    requires GoesTo(cfg, run, a, t, s, pc) && ScanStep(cfg, s, pc, s', pc')
    ensures GoesTo(cfg, run, more, t, s', pc') && a < more
  {
    hide GoesTo, ScanStep;
    assert !pc.StopWait? by { NotWaiting(cfg, s, pc, s', pc'); }
    more := Step(cfg, run, a, t, s, pc, s', pc');
  }

  lemma Stops(cfg: Config, run: seq<State>, a: seq<State>, t: nat, s: Shared, pc: PC, s': Shared, pc': PC) returns (more: seq<State>)
    requires GoesTo(cfg, run, a, t, s, pc) && StopStep(s, pc, s', pc') && (pc.StopWait? ==> BackgroundIdle(Last(a)))
    ensures GoesTo(cfg, run, more, t, s', pc') && a < more
  {
    hide GoesTo, StopStep;
    more := Step(cfg, run, a, t, s, pc, s', pc');
  }

  lemma NotWaiting(cfg: Config, s: Shared, pc: PC, s': Shared, pc': PC)
    ensures AcquireStep(cfg, s, pc, s', pc') || DialStep(cfg, s, pc, s', pc') ==> !pc.StopWait?
    ensures EnqueueStep(cfg, s, pc, s', pc') || ScanStep(cfg, s, pc, s', pc') ==> !pc.StopWait?
  {
  }

  /** A step that starts a background thread, at the end of the threads. */
  lemma Spawn(cfg: Config, run: seq<State>, t: nat, s': Shared, pc': PC, child: PC) returns (more: seq<State>)
    requires Run(cfg, run) && t < |Last(run).threads|
    requires var s, pc := Last(run).s, Last(run).threads[t].pc;
             ProbeStep(s, pc, s', pc', [child]) || RefillStep(cfg, s, pc, s', pc', [child])
    ensures Run(cfg, more) && run <= more && Last(more).s == s'
    ensures Last(more).threads == Last(run).threads[t := Last(run).threads[t].(pc := pc')] + [Thread(child, true)]
  {
    var g := Last(run);
    hide Run;
    assert Backgrounds([child]) == [Thread(child, true)] by { assert [child][1..] == []; }
    var g' := State(s', g.threads[t := g.threads[t].(pc := pc')] + Backgrounds([child]));
    assert StepOf(cfg, g, g', t, pc', [child]);
    more := run + [g'];
    RunSnoc(cfg, run, g');
  }

  lemma Arrive(cfg: Config, run: seq<State>, th: Thread) returns (more: seq<State>)
    requires Run(cfg, run) && (th.pc.Ticking? ==> !Last(run).s.stopped)
    requires th == Thread(AcquireCheck, false) || th == Thread(RefillCheck(End), false) || th == Thread(StopSwap, false) || th == Thread(Ticking, true)
    ensures Run(cfg, more) && run < more && Last(more).s == Last(run).s && Last(more).threads == Last(run).threads + [th]
  {
    var g' := State(Last(run).s, Last(run).threads + [th]);
    assert Arrives(Last(run), g', th);
    more := run + [g'];
    RunSnoc(cfg, run, g');
  }

  lemma RunSnoc(cfg: Config, run: seq<State>, g: State)
    requires Run(cfg, run) && Next(cfg, Last(run), g)
    ensures Run(cfg, run + [g])
  {
    hide Next;
    var more := run + [g];
    forall i | 0 <= i < |more| - 1 ensures Next(cfg, more[i], more[i + 1]) {
      if i + 1 < |run| {
        assert more[i] == run[i] && more[i + 1] == run[i + 1];
      }
    }
  }

  lemma ReadyWithin(cfg: Config, run: seq<State>, t: nat)
    requires Run(cfg, run)
    ensures Last(run).s.ready <= |Last(run).s.idle|
  {
    var i: nat := |run| - 1;
    hide Run, Sum;
    TokenDiscipline(cfg, run, i, t);
  }

  /** A running pool with room keeps what is put back. */
  lemma PutsBack(cfg: Config, run: seq<State>, t: nat, c: Conn, probed: bool, a: After) returns (more: seq<State>)
    requires Run(cfg, run) && At(run, t, EnqueueCheck(c, probed, a))
    requires var s := Last(run).s; !s.stopped && !s.lock && |s.idle| < cfg.cap
    ensures var s := Last(run).s; GoesTo(cfg, run, more, t, s.(idle := s.idle + [c], ready := s.ready + 1), Resume(a))
  {
    hide Run, Resume, GoesTo, Sum;
    var s := Last(run).s;
    ReadyWithin(cfg, run, t);
    Stays(cfg, run, t);
    more := Enqueues(cfg, run, run, t, s, EnqueueCheck(c, probed, a), s, EnqueuePush(c, probed, a));
    var s1 := s.(idle := s.idle + [c]);
    assert s1.idle == s.idle[..|s.idle|] + [c] + s.idle[|s.idle|..];
    more := Enqueues(cfg, run, more, t, s, EnqueuePush(c, probed, a), s1, EnqueueSignal(a));
    var s2 := s1.(ready := s.ready + 1);
    more := Enqueues(cfg, run, more, t, s1, EnqueueSignal(a), s2, EnqueueDone(a));
    more := Enqueues(cfg, run, more, t, s2, EnqueueDone(a), s2, Resume(a));
  }

  /** A caller of a running pool with a token ready gets the top of the idle
      stack. */
  lemma Borrows(cfg: Config, run: seq<State>, t: nat) returns (more: seq<State>)
    requires Run(cfg, run) && At(run, t, AcquireCheck)
    requires var s := Last(run).s; !s.stopped && !s.lock && s.ready > 0 && s.idle != []
    ensures var s := Last(run).s;
            var n := |s.idle| - 1;
            GoesTo(cfg, run, more, t, s.(idle := s.idle[..n], ready := s.ready - 1), Using(s.idle[n]))
  {
    hide Run, GoesTo;
    var s := Last(run).s;
    var n := |s.idle| - 1;
    var c := s.idle[n];
    Stays(cfg, run, t);
    more := Acquires(cfg, run, run, t, s, AcquireCheck, s, AcquireLook);
    more := Acquires(cfg, run, more, t, s, AcquireLook, s, AcquireClaim);
    var s1 := s.(ready := s.ready - 1);
    more := Acquires(cfg, run, more, t, s, AcquireClaim, s1, Taking);
    var s2 := s1.(idle := s.idle[..n]);
    assert TakeTop(s1, s2, c);
    more := Acquires(cfg, run, more, t, s1, Taking, s2, Checking(c));
    more := Acquires(cfg, run, more, t, s2, Checking(c), s2, Using(c));
  }

  /** A caller who finds nothing idle and a slot free dials. */
  lemma DialsUp(cfg: Config, run: seq<State>, t: nat) returns (more: seq<State>)
    requires Run(cfg, run) && At(run, t, AcquireCheck)
    requires var s := Last(run).s; !s.stopped && s.ready == 0 && (cfg.limit == 0 || s.slots < cfg.limit)
    ensures var s := Last(run).s;
            GoesTo(cfg, run, more, t,
                   s.(slots := if cfg.limit == 0 then s.slots else s.slots + 1, opens := s.opens + {s.next}, next := s.next + 1),
                   Using(s.next))
  {
    hide Run, GoesTo;
    var s := Last(run).s;
    Stays(cfg, run, t);
    more := Acquires(cfg, run, run, t, s, AcquireCheck, s, AcquireLook);
    more := Acquires(cfg, run, more, t, s, AcquireLook, s, AcquireClaim);
    more := Acquires(cfg, run, more, t, s, AcquireClaim, s, AcquireSlot);
    var s1 := if cfg.limit == 0 then s else s.(slots := s.slots + 1);
    more := Acquires(cfg, run, more, t, s, AcquireSlot, s1, Dialing(false));
    var s2 := s1.(opens := s.opens + {s.next}, next := s.next + 1);
    more := Dials(cfg, run, more, t, s1, Dialing(false), s2, Dialed(s.next, false));
    more := Dials(cfg, run, more, t, s2, Dialed(s.next, false), s2, Using(s.next));
  }

  /** An idle connection whose token is ready goes to the next caller. */
  lemma NextCaller(cfg: Config, run: seq<State>, c: Conn) returns (more: seq<State>, u: nat)
    requires Run(cfg, run)
    requires var s := Last(run).s; !s.stopped && !s.lock && s.ready > 0 && s.idle != [] && c == s.idle[|s.idle| - 1]
    ensures Run(cfg, more) && run < more && u == |Last(run).threads| && At(more, u, Using(c))
  {
    u := |Last(run).threads|;
    hide Run, GoesTo;
    var r := Arrive(cfg, run, Thread(AcquireCheck, false));
    more := Borrows(cfg, r, u);
    var s := Last(run).s;
    var n := |s.idle| - 1;
    Stands(cfg, r, more, u, s.(idle := s.idle[..n], ready := s.ready - 1), Using(c));
  }

  /** The connection that thread t has put back goes to the next caller. */
  lemma PassesOn(cfg: Config, run: seq<State>, t: nat, c: Conn, probed: bool) returns (more: seq<State>, u: nat)
    requires Run(cfg, run) && At(run, t, EnqueueCheck(c, probed, End))
    requires var s := Last(run).s; !s.stopped && !s.lock && |s.idle| < cfg.cap
    ensures Run(cfg, more) && run < more && u == |Last(run).threads| && At(more, u, Using(c))
  {
    var s := Last(run).s;
    hide Run, GoesTo;
    var r := PutsBack(cfg, run, t, c, probed, End);
    Stands(cfg, run, r, t, s.(idle := s.idle + [c], ready := s.ready + 1), Resume(End));
    more, u := NextCaller(cfg, r, c);
  }

  /** Reuse: from every state of every run in which the pool is running, has
      room and its stack is not locked, the connection a caller uses can be
      the next caller's. */
  lemma Reuse(cfg: Config, run: seq<State>, t: nat, c: Conn) returns (more: seq<State>, u: nat)
    requires Run(cfg, run) && At(run, t, Using(c))
    requires var s := Last(run).s; !s.stopped && !s.lock && |s.idle| < cfg.cap
    ensures Run(cfg, more) && run < more && u != t && At(more, u, Using(c))
  {
    var s := Last(run).s;
    hide Run, GoesTo;
    Stays(cfg, run, t);
    var r := Acquires(cfg, run, run, t, s, Using(c), s, EnqueueCheck(c, false, End));
    Stands(cfg, run, r, t, s, EnqueueCheck(c, false, End));
    more, u := PassesOn(cfg, r, t, c, false);
  }

  /** The start: a caller uses the first connection dialed. */
  lemma FirstUse(cfg: Config) returns (run: seq<State>)
    ensures Run(cfg, run) && At(run, 0, Using(0)) && Last(run).threads == [Thread(Using(0), false)]
    ensures Last(run).s == Shared([], 0, if cfg.limit == 0 then 0 else 1, false, false, false, {0}, 1)
  {
    var g := State(Shared([], 0, 0, false, false, false, {}, 0), []);
    assert Run(cfg, [g]);
    hide Run, GoesTo;
    var r := Arrive(cfg, [g], Thread(AcquireCheck, false));
    run := DialsUp(cfg, r, 0);
    Stands(cfg, r, run, 0, Shared([], 0, if cfg.limit == 0 then 0 else 1, false, false, false, {0}, 1), Using(0));
  }

  /** Any pool that keeps idle connections has a run in which one connection is
      used by one caller and later by another. */
  lemma Reused(cfg: Config) returns (run: seq<State>, i: nat, j: nat, t: nat, u: nat, c: Conn)
    requires cfg.cap > 0
    ensures Run(cfg, run) && i < j < |run| && t != u && t < |run[i].threads| && u < |run[j].threads|
    ensures run[i].threads[t].pc == Using(c) && run[j].threads[u].pc == Using(c)
  {
    hide Run;
    var first := FirstUse(cfg);
    t, c, i := 0, 0, |first| - 1;
    run, u := Reuse(cfg, first, t, c);
    j := |run| - 1;
    assert run[i] == first[i];
  }

  /** At state k, past the end of `run`, background thread f is at pc. */
  ghost predicate Started(run: seq<State>, more: seq<State>, k: nat, f: nat, pc: PC)
  {
    |run| <= k < |more| && f < |more[k].threads| && more[k].threads[f] == Thread(pc, true)
  }

  /** A refill of a running pool with room and a slot starts a background
      thread whose dialed connection can be the next caller's. */
  lemma Prefilled(cfg: Config, run: seq<State>) returns (more: seq<State>, u: nat, k: nat, f: nat)
    requires Run(cfg, run)
    requires var s := Last(run).s; !s.stopped && !s.lock && |s.idle| < cfg.cap && (cfg.limit == 0 || s.slots < cfg.limit)
    ensures Run(cfg, more) && run < more && At(more, u, Using(Last(run).s.next))
    ensures Started(run, more, k, f, Dialed(Last(run).s.next, true))
  {
    f := |Last(run).threads| + 1;
    hide Run, GoesTo;
    var r := Filling(cfg, run);
    var r1 := FillDials(cfg, r, f);
    k := |r1| - 1;
    more, u := FillsUp(cfg, r1, f, Last(run).s.next);
    assert more[k] == r1[k];
  }

  lemma FillDials(cfg: Config, run: seq<State>, f: nat) returns (more: seq<State>)
    requires Run(cfg, run) && f < |Last(run).threads| && Last(run).threads[f] == Thread(Dialing(true), true)
    ensures Run(cfg, more) && run < more && f < |Last(more).threads|
    ensures var s := Last(run).s;
            Last(more).s == s.(opens := s.opens + {s.next}, next := s.next + 1) && Last(more).threads[f] == Thread(Dialed(s.next, true), true)
  {
    var s := Last(run).s;
    hide Run, GoesTo;
    var s1 := s.(opens := s.opens + {s.next}, next := s.next + 1);
    Stays(cfg, run, f);
    more := Dials(cfg, run, run, f, s, Dialing(true), s1, Dialed(s.next, true));
    Stands(cfg, run, more, f, s1, Dialed(s.next, true));
  }

  lemma FillsUp(cfg: Config, run: seq<State>, f: nat, c: Conn) returns (more: seq<State>, u: nat)
    requires Run(cfg, run) && At(run, f, Dialed(c, true))
    requires var s := Last(run).s; !s.stopped && !s.lock && |s.idle| < cfg.cap
    ensures Run(cfg, more) && run < more && At(more, u, Using(c))
  {
    var s := Last(run).s;
    hide Run, GoesTo;
    Stays(cfg, run, f);
    var r := Dials(cfg, run, run, f, s, Dialed(c, true), s, EnqueueCheck(c, false, End));
    Stands(cfg, run, r, f, s, EnqueueCheck(c, false, End));
    more, u := PassesOn(cfg, r, f, c, false);
  }

  lemma Filling(cfg: Config, run: seq<State>) returns (r: seq<State>)
    requires Run(cfg, run)
    requires var s := Last(run).s; !s.stopped && (cfg.limit == 0 || s.slots < cfg.limit)
    ensures Run(cfg, r) && run < r && Last(r).s == Last(run).s.(slots := Last(r).s.slots)
    ensures var n := |Last(run).threads|; |Last(r).threads| == n + 2 && Last(r).threads[n + 1] == Thread(Dialing(true), true)
  {
    var s, n := Last(run).s, |Last(run).threads|;
    hide Run;
    r := Arrive(cfg, run, Thread(RefillCheck(End), false));
    var s1 := if cfg.limit == 0 then s else s.(slots := s.slots + 1);
    Stays(cfg, r, n);
    r := Step(cfg, r, r, n, s, RefillCheck(End), s1, RefillSpawn(End));
    r := Spawn(cfg, r, n, s1, RefillCheck(End), Dialing(true));
  }

  /** A heartbeat takes an idle connection out, has a background thread probe
      it and put it back, and it can be the next caller's. */
  lemma Probed(cfg: Config, run: seq<State>, c: Conn) returns (more: seq<State>, u: nat, k: nat, f: nat)
    requires Run(cfg, run) && cfg.cap > 0
    requires var s := Last(run).s; !s.stopped && !s.cancelled && !s.lock && s.idle == [c] && s.ready == 1
    ensures Run(cfg, more) && run < more && At(more, u, Using(c))
    ensures Started(run, more, k, f, Probing(c))
  {
    var s, h := Last(run).s, |Last(run).threads|;
    hide Run, GoesTo;
    f := h + 1;
    var r := Stale(cfg, run, c);
    var s1 := Last(r).s;
    var none: seq<Conn> := [];
    assert [c][1..] == none;
    var r1 := Spawn(cfg, r, h, s1, Dispatching([]), Probing(c));
    k := |r1| - 1;
    Stays(cfg, r1, f);
    var r2 := Step(cfg, r1, r1, f, s1, Probing(c), s1, EnqueueCheck(c, true, End));
    Stands(cfg, r1, r2, f, s1, EnqueueCheck(c, true, End));
    more, u := PassesOn(cfg, r2, f, c, true);
    assert more[k] == r1[k];
  }

  lemma Stale(cfg: Config, run: seq<State>, c: Conn) returns (more: seq<State>)
    requires Run(cfg, run)
    requires var s := Last(run).s; !s.stopped && !s.lock && s.idle == [c] && s.ready == 1
    ensures Run(cfg, more) && run < more && Last(more).s == Last(run).s.(idle := [], ready := 0)
    ensures Last(more).threads == Last(run).threads + [Thread(Dispatching([c]), true)]
  {
    var s, h := Last(run).s, |Last(run).threads|;
    hide Run, GoesTo;
    var r := Arrive(cfg, run, Thread(Ticking, true));
    Stays(cfg, r, h);
    more := Scans(cfg, r, r, h, s, Ticking, s, ScanLock);
    var s1 := s.(lock := true);
    more := Scans(cfg, r, more, h, s, ScanLock, s1, Scanning(0, [], []));
    var s2 := s1.(ready := 0);
    var none: seq<Conn> := [];
    assert none + [s1.idle[0]] == [c];
    more := Scans(cfg, r, more, h, s1, Scanning(0, [], []), s2, Scanning(1, [], [c]));
    var s3 := s2.(idle := [], lock := false);
    more := Scans(cfg, r, more, h, s2, Scanning(1, [], [c]), s3, Dispatching([c]));
    Stands(cfg, r, more, h, s3, Dispatching([c]));
  }

  /** A heartbeat can trim an idle connection, which is then closed. */
  lemma Trims(cfg: Config, run: seq<State>, c: Conn) returns (more: seq<State>)
    requires Run(cfg, run)
    requires var s := Last(run).s; !s.stopped && !s.lock && s.idle == [c] && s.ready == 1
    ensures Run(cfg, more) && run < more
    ensures Last(more).s.idle == [] && Last(more).s.ready == 0 && Last(more).s.opens == Last(run).s.opens - {c}
  {
    var s, h := Last(run).s, |Last(run).threads|;
    hide Run, GoesTo;
    var r := Arrive(cfg, run, Thread(Ticking, true));
    Stays(cfg, r, h);
    more := Scans(cfg, r, r, h, s, Ticking, s, TrimLock(1));
    var s1 := s.(lock := true);
    more := Scans(cfg, r, more, h, s, TrimLock(1), s1, TrimClaim(1, 0));
    var s2 := s1.(ready := 0);
    more := Scans(cfg, r, more, h, s1, TrimClaim(1, 0), s2, TrimClaim(1, 1));
    var s3 := s2.(idle := [], lock := false);
    var a := CloseAll([], ToScan);
    TrimmedOne(c);
    assert s2.idle[1..] == [] && s2.idle[..1] == [c];
    more := Scans(cfg, r, more, h, s2, TrimClaim(1, 1), s3, Closing(c, a));
    var s4 := s3.(opens := s.opens - {c});
    more := Enqueues(cfg, r, more, h, s3, Closing(c, a), s4, FreeSlot(a));
    Stands(cfg, r, more, h, s4, FreeSlot(a));
  }

  lemma TrimmedOne(c: Conn)
    ensures Resume(CloseAll([c], ToScan)) == Closing(c, CloseAll([], ToScan))
  {
    var one := [c];
    assert one[1..] == [];
  }

  /** A pool whose connection was used and put back, its heartbeat running, can
      be stopped, and then everything is closed and finished. */
  lemma ShutsDown(cfg: Config) returns (run: seq<State>, i: nat)
    requires cfg.cap > 0
    ensures Run(cfg, run) && i < |run| && run[i].threads == [Thread(Using(0), false)]
    ensures Last(run).s.stopped && Last(run).s.opens == {} && Last(run).s.idle == []
    ensures forall t :: 0 <= t < |Last(run).threads| ==> Last(run).threads[t].pc.Finished?
  {
    hide Run, GoesTo;
    var first := FirstUse(cfg);
    i := |first| - 1;
    var s := Last(first).s;
    Stays(cfg, first, 0);
    run := Acquires(cfg, first, first, 0, s, Using(0), s, EnqueueCheck(0, false, End));
    Stands(cfg, first, run, 0, s, EnqueueCheck(0, false, End));
    var r := PutsBack(cfg, run, 0, 0, false, End);
    var s1 := s.(idle := s.idle + [0], ready := s.ready + 1);
    Stands(cfg, run, r, 0, s1, Resume(End));
    run := Arrive(cfg, r, Thread(Ticking, true));
    run := Arrive(cfg, run, Thread(StopSwap, false));
    run := StopsAll(cfg, run, s1);
    assert run[i] == first[i];
  }

  lemma StopsAll(cfg: Config, run: seq<State>, s: Shared) returns (more: seq<State>)
    requires Run(cfg, run) && Last(run).s == s && s.idle == [0] && s.ready == 1 && !s.lock && !s.stopped && s.opens == {0}
    requires Last(run).threads == [Thread(Finished, false), Thread(Ticking, true), Thread(StopSwap, false)]
    ensures Run(cfg, more) && run < more
    ensures Last(more).s.stopped && Last(more).s.opens == {} && Last(more).s.idle == []
    ensures forall t :: 0 <= t < |Last(more).threads| ==> Last(more).threads[t].pc.Finished?
  {
    hide Run, GoesTo;
    var s1 := s.(stopped := true, cancelled := true);
    var r := Cancelled(cfg, run, s);
    Stays(cfg, r, 1);
    more := Scans(cfg, r, r, 1, s1, Ticking, s1, Finished);
    Stands(cfg, r, more, 1, s1, Finished);
    more := Waited(cfg, more, s1);
  }

  lemma Cancelled(cfg: Config, run: seq<State>, s: Shared) returns (more: seq<State>)
    requires Run(cfg, run) && Last(run).s == s && !s.stopped
    requires Last(run).threads == [Thread(Finished, false), Thread(Ticking, true), Thread(StopSwap, false)]
    ensures Run(cfg, more) && run < more && Last(more).s == s.(stopped := true, cancelled := true)
    ensures Last(more).threads == [Thread(Finished, false), Thread(Ticking, true), Thread(StopWait, false)]
  {
    hide Run, GoesTo;
    var s1 := s.(stopped := true);
    Stays(cfg, run, 2);
    more := Stops(cfg, run, run, 2, s, StopSwap, s1, StopCancel);
    more := Stops(cfg, run, more, 2, s1, StopCancel, s1.(cancelled := true), StopWait);
    Stands(cfg, run, more, 2, s1.(cancelled := true), StopWait);
  }

  lemma Waited(cfg: Config, run: seq<State>, s: Shared) returns (more: seq<State>)
    requires Run(cfg, run) && Last(run).s == s && s.idle == [0] && s.ready == 1 && !s.lock && s.stopped && s.opens == {0}
    requires Last(run).threads == [Thread(Finished, false), Thread(Finished, true), Thread(StopWait, false)]
    ensures Run(cfg, more) && run < more
    ensures Last(more).s.stopped && Last(more).s.opens == {} && Last(more).s.idle == []
    ensures forall t :: 0 <= t < |Last(more).threads| ==> Last(more).threads[t].pc.Finished?
  {
    hide Run, GoesTo;
    Stays(cfg, run, 2);
    var r := Stops(cfg, run, run, 2, s, StopWait, s, DrainClaim(End));
    Stands(cfg, run, r, 2, s, DrainClaim(End));
    more := Drained(cfg, r, s);
  }

  lemma Drained(cfg: Config, run: seq<State>, s: Shared) returns (more: seq<State>)
    requires Run(cfg, run) && Last(run).s == s && s.idle == [0] && s.ready == 1 && !s.lock && s.stopped && s.opens == {0}
    requires Last(run).threads == [Thread(Finished, false), Thread(Finished, true), Thread(DrainClaim(End), false)]
    ensures Run(cfg, more) && run < more
    ensures Last(more).s.stopped && Last(more).s.opens == {} && Last(more).s.idle == []
    ensures forall t :: 0 <= t < |Last(more).threads| ==> Last(more).threads[t].pc.Finished?
  {
    hide Run, GoesTo;
    var s1 := s.(ready := 0);
    Stays(cfg, run, 2);
    more := Enqueues(cfg, run, run, 2, s, DrainClaim(End), s1, DrainTake(End));
    var s2 := s1.(idle := []);
    assert TakeTop(s1, s2, 0);
    more := Enqueues(cfg, run, more, 2, s1, DrainTake(End), s2, Closing(0, DrainOn(End)));
    var s3 := s2.(opens := s.opens - {0});
    more := Enqueues(cfg, run, more, 2, s2, Closing(0, DrainOn(End)), s3, FreeSlot(DrainOn(End)));
    var s4 := if cfg.limit == 0 || s.slots == 0 then s3 else s3.(slots := s.slots - 1);
    more := Enqueues(cfg, run, more, 2, s3, FreeSlot(DrainOn(End)), s4, DrainClaim(End));
    more := Enqueues(cfg, run, more, 2, s4, DrainClaim(End), s4, Finished);
    Stands(cfg, run, more, 2, s4, Finished);
  }
}
