/** When pins go, when a process is taken over, and when the pool gives up. */
module PoolProperties {
  import opened Options
  import opened PoolModel
  import opened PoolSystem
  import opened Sets

  // ---------------------------------------------------------------- TTL timers

  /** Within one pin lifetime only the closure armed by the latest touch removes the pin; one armed by
      an earlier touch changes nothing, however late it runs. As long as the latest timer is still
      running, none that went off can remove the pin. */
  lemma OnlyLatestTimerUnpins(y: System, c: Closure)
    requires Inv(y) && c in y.fired && c.build in y.pool.pinProc && c.life == LifeOf(y, c.build)
    ensures c.epoch < EpochOf(y.pool, c.build) ==> Next(y, TtlTimer(c)) == y.(fired := y.fired - {c})
    ensures c.epoch == EpochOf(y.pool, c.build) <==> c.build !in Next(y, TtlTimer(c)).pool.pinProc
    ensures c.epoch <= EpochOf(y.pool, c.build)
    ensures c.build in y.armed ==> c.epoch < EpochOf(y.pool, c.build)
  {
    hide Accounted;
    assert Running(y.armed, y.pool) == y.armed && Ticking(y.ticking, y.pool) == y.ticking;
    assert c.build in y.armed ==> y.armed[c.build] == Latest(y.pool, y.life, c.build);
  }

  /** Across lifetimes the epoch does not protect the pin: a closure from a lifetime that has ended
      removes the new pin exactly when the new pin has been touched as often as the old one was when
      the closure was armed. */
  lemma OldTimerUnpinsExactly(y: System, c: Closure)
    requires Inv(y) && c in y.fired && c.life < LifeOf(y, c.build)
    ensures c.build in y.pool.pinProc && c.build !in Next(y, TtlTimer(c)).pool.pinProc
            <==> c.build in y.pool.pinProc && y.pool.epoch[c.build] == c.epoch
  {
    hide Accounted, Armed, Watched;
  }

  /** And this happens, although timers of removed pins are stopped: a process is pinned, its timer goes
      off but has to wait for the lock, the process is pinned to another build and back, and then the
      old closure runs and takes the new pin away while the new pin's own timer is still running. */
  lemma OldTimerCanUnpin() returns (actions: seq<Action>, c: Closure)
    ensures Legal(Start(2), actions + [TtlTimer(c)])
    ensures var y := Run(Start(2), actions);
            && c.life < LifeOf(y, c.build) && c.build in y.armed && c.build in y.pool.pinProc
            && y.pool.pinProc[c.build] in y.held
            && c.build !in Run(Start(2), actions + [TtlTimer(c)]).pool.pinProc
  {
    hide Next, Enabled, Run, Legal, OnePin, Empty;
    var p := Proc(0);
    c := Closure("a", 1, 1);
    var as0 := [AcquireFor("", 1, ""), SpawnOk(p)];
    var as1 := as0 + [PinTo(p, "a", 2, "")];
    var as2 := as1 + [Fire("a")];
    var as3 := as2 + [PinTo(p, "b", 3, "")];
    actions := as3 + [PinTo(p, "a", 4, "")];
    Spawned(p);
    RunSnoc(Start(2), as0, PinTo(p, "a", 2, ""));
    RunSnoc(Start(2), as1, Fire("a"));
    RunSnoc(Start(2), as2, PinTo(p, "b", 3, ""));
    RunSnoc(Start(2), as3, PinTo(p, "a", 4, ""));
    RunSnoc(Start(2), actions, TtlTimer(c));
    FirstPin(Run(Start(2), as0), p, 2);
    FireFirst(Run(Start(2), as1), p);
    PinAgain(Run(Start(2), as2), p, "a", "b", 3);
    PinAgain(Run(Start(2), as3), p, "b", "a", 4);
    OnlyPin(Run(Start(2), actions), p, "a");
    TimerEffect(Run(Start(2), actions), c);
  }

  lemma {:induction false} RunSnoc(y: System, actions: seq<Action>, a: Action)
    ensures Run(y, actions + [a]) == Next(Run(y, actions), a)
    ensures Legal(y, actions + [a]) <==> Legal(y, actions) && Enabled(Run(y, actions), a)
    decreases |actions|
  {
    hide Next, Enabled;
    if actions == [] {
      assert [a][1..] == [] && [] + [a] == [a];
      assert Run(Next(y, a), []) == Next(y, a) && Legal(Next(y, a), []);
    } else {
      RunSnoc(Next(y, actions[0]), actions[1..], a);
      assert (actions + [a])[1..] == actions[1..] + [a];
    }
  }

  /** Room for two, nothing idle, nothing pinned. */
  ghost predicate Empty(y: System, busy: int) {
    && y.pool == Pool([], busy, 2, 2, map[], map[], map[], map[])
    && y.armed == map[] && y.fired == {} && y.life == map[] && y.ticking == {} && y.loose == multiset{}
  }

  lemma SpawnSlot(y: System, busy: int, now: int)
    requires Empty(y, busy) && busy < 2
    ensures Enabled(y, AcquireFor("", now, ""))
    ensures var y' := Next(y, AcquireFor("", now, ""));
            && Empty(y', busy + 1) && y'.spawning == y.spawning + 1 && y'.held == y.held && y'.seen == y.seen
                && y'.alive == y.alive
  {
    assert FirstAttempts(y.pool, "", y.alive, now) == (y.pool, None);
  }

  lemma SpawnDone(y: System, busy: int, p: Proc)
    requires Empty(y, busy) && y.spawning > 0 && p !in y.seen
    ensures Enabled(y, SpawnOk(p))
    ensures var y' := Next(y, SpawnOk(p));
            && Empty(y', busy) && y'.spawning == y.spawning - 1 && y'.held == y.held + multiset{p}
            && y'.seen == y.seen + {p} && y'.alive == y.alive + {p}
  {
  }

  lemma Spawned(p: Proc)
    ensures var actions := [AcquireFor("", 1, ""), SpawnOk(p)];
            && Legal(Start(2), actions) && Empty(Run(Start(2), actions), 1)
            && Run(Start(2), actions).held == multiset{p} && Run(Start(2), actions).alive == {p}
  {
    hide Next, Enabled, Empty;
    var a1, a2 := AcquireFor("", 1, ""), SpawnOk(p);
    StartsEmpty();
    RunSnoc(Start(2), [], a1);
    RunSnoc(Start(2), [a1], a2);
    SpawnSlot(Start(2), 0, 1);
    SpawnDone(Next(Start(2), a1), 1, p);
    assert [] + [a1] == [a1] && [a1] + [a2] == [a1, a2];
  }

  lemma StartsEmpty()
    ensures Empty(Start(2), 0) && Legal(Start(2), []) && Run(Start(2), []) == Start(2)
    ensures Start(2).spawning == 0 && Start(2).seen == {} && Start(2).held == multiset{} && Start(2).alive == {}
  {
  }

  /** `b` is the only pin, touched once, its timer running. */
  ghost predicate OnePin(y: System, p: Proc, b: string) {
    && y.pool.maxPins == 2 && y.pool.pinProc == map[b := p] && y.pool.pinRev == map[p := b]
    && y.pool.epoch == map[b := 1] && p in y.held && b in y.life
  }

  lemma OnlyPin(y: System, p: Proc, b: string)
    requires OnePin(y, p, b)
    ensures b in y.pool.pinProc && y.pool.pinProc[b] == p && p in y.held && EpochOf(y.pool, b) == 1
  {
  }

  lemma TimerEffect(y: System, c: Closure)
    ensures c.build in Next(y, TtlTimer(c)).pool.pinProc <==>
        c.build in y.pool.pinProc
        && EpochOf(y.pool, c.build) != c.epoch
    ensures Enabled(y, TtlTimer(c)) <==> c in y.fired
  {
  }

  lemma FirstPin(y: System, p: Proc, now: int)
    requires Empty(y, 1) && p in y.held
    ensures var a := PinTo(p, "a", now, "");
            && Enabled(y, a) && OnePin(Next(y, a), p, "a") && Next(y, a).armed == map["a" := Closure("a", 1, 1)]
            && Next(y, a).fired == {} && Next(y, a).life == map["a" := 1]
  {
  }

  lemma FireFirst(y: System, p: Proc)
    requires OnePin(y, p, "a") && y.armed == map["a" := Closure("a", 1, 1)] && y.fired == {} && y.life == map["a" := 1]
    ensures var y' := Next(y, Fire("a"));
            Enabled(y, Fire("a")) && OnePin(y', p, "a") && y'.fired == {Closure("a", 1, 1)} && y'.life == y.life
  {
  }

  /** Pinning the only pinned process under another name moves the pin and starts at epoch 1. */
  lemma PinAgain(y: System, p: Proc, from: string, to: string, now: int)
    requires OnePin(y, p, from) && from != to && to != ""
    ensures var a := PinTo(p, to, now, ""); var y' := Next(y, a);
            && Enabled(y, a) && OnePin(y', p, to) && to in y'.armed && y'.fired == y.fired
            && y'.life == y.life[to := LifeOf(y, to) + 1]
  {
    hide Unpin;
    MoveOnlyPin(y.pool, p, from, to);
  }

  lemma MoveOnlyPin(s: Pool, p: Proc, from: string, to: string)
    requires s.pinProc == map[from := p] && s.pinRev == map[p := from] && s.epoch.Keys == {from} && from != to
    ensures var s1 := Unpin(Detach(s, p), to);
            s1.pinProc == map[] && s1.pinRev == map[] && s1.epoch == map[] && s1.maxPins == s.maxPins
                && |s1.pinProc| == 0
  {
    var s1 := Detach(s, p);
    assert s1.pinProc == map[] && s1.pinRev == map[] && s1.epoch == map[];
  }

  // ---------------------------------------------------------------- idle timers

  /** In every interleaving each idle process has an idle closure to come: none is kept for ever. */
  lemma IdleProcessesTimed(maxSize: nat, actions: seq<Action>, p: Proc)
    requires Legal(Start(maxSize), actions)
    ensures var y := Run(Start(maxSize), actions); p in y.pool.idle ==> p in y.ticking || p in y.loose
  {
    hide Accounted, PinsOk, Armed, Run, Legal;
    StartInv(maxSize);
    RunInv(Start(maxSize), actions);
  }

  lemma HeldNotTicking(y: System, p: Proc)
    requires Inv(y) && p in y.held
    ensures p !in y.ticking
  {
    hide PinsOk, Armed, NoDup;
  }

  /** While `p` is held no new idle closure about it can go off. */
  lemma StepKeepsLoose(y: System, a: Action, p: Proc)
    requires p !in y.ticking && Enabled(y, a) && p in y.held && a != GiveBack(p)
    ensures p in Next(y, a).held && Next(y, a).loose[p] <= y.loose[p]
  {
    hide Acquire, PinHit, Pin, Swap, KillIdle, Expire, Shutdown, Release, StealVictim, PinVictim, Touched, Untouched;
    match a
    case AcquireFor(b, now, victim) => AcquireKeepsLoose(y, b, now, victim, p);
    case PinTo(q, b, now, victim) =>
      SameLoose(y, Pin(y.pool, q, b, now, victim), b, !(q in y.pool.pinRev && y.pool.pinRev[q] == b));
    case SwapTo(oldB, newB, now) => SameLoose(y, Swap(y.pool, oldB, newB, now), newB, true);
    case IdleTimer(q) => SameLoose(y, KillIdle(y.pool, q), "", false);
    case TtlTimer(c) => SameLoose(y, Expire(y.pool, c.build, c.epoch), "", false);
    case Stop => SameLoose(y, Shutdown(y.pool), "", false);
    case _ =>
  }

  lemma AcquireKeepsLoose(y: System, b: string, now: int, victim: string, p: Proc)
    ensures var z := Next(y, AcquireFor(b, now, victim)); y.held[p] <= z.held[p] && z.loose == y.loose
  {
    hide Acquire, PinHit, Touched, Untouched;
    var (pool, r) := Acquire(y.pool, b, y.alive, now, victim);
    SameLoose(AfterAcquire(y, r), pool, b, false);
  }

  lemma SameLoose(y: System, pool: Pool, b: string, anew: bool)
    ensures Untouched(y, pool).held == y.held && Untouched(y, pool).loose == y.loose
    ensures Touched(y, pool, b, anew).held == y.held && Touched(y, pool, b, anew).loose == y.loose
  {
  }

  lemma {:induction false} RunKeepsLoose(y: System, actions: seq<Action>, p: Proc)
    requires Inv(y) && Legal(y, actions) && p in y.held && GiveBack(p) !in actions
    ensures p in Run(y, actions).held && Run(y, actions).loose[p] <= y.loose[p]
    decreases |actions|
  {
    hide Inv, Next, Enabled;
    if actions != [] {
      StepInv(y, actions[0]);
      HeldNotTicking(y, p);
      StepKeepsLoose(y, actions[0], p);
      RunKeepsLoose(Next(y, actions[0]), actions[1..], p);
    }
  }

  /** After these actions, none of which gives `p` back, an idle closure may kill it. */
  ghost predicate KilledInHand(y: System, p: Proc, actions: seq<Action>) {
    Legal(y, actions) && GiveBack(p) !in actions && Enabled(Run(y, actions), IdleTimer(p))
  }

  /** A process that an acquire hands out may be killed by an idle closure before it is given back if and
      only if a closure about it was past stopping when the acquire took place. */
  lemma HeldKilledExactly(y: System, b: string, now: int, victim: string, p: Proc)
    requires Inv(y) && Enabled(y, AcquireFor(b, now, victim))
    requires Acquire(y.pool, b, y.alive, now, victim).1 == Got(p)
    ensures (exists actions :: KilledInHand(Next(y, AcquireFor(b, now, victim)), p, actions)) <==> p in y.loose
  {
    hide Inv, Acquire, StealVictim, Running, Ticking, PinHit;
    var z := Next(y, AcquireFor(b, now, victim));
    assert p in z.held && z.loose == y.loose;
    StepInv(y, AcquireFor(b, now, victim));
    forall actions | KilledInHand(z, p, actions) ensures p in y.loose {
      RunKeepsLoose(z, actions, p);
    }
    if p in y.loose {
      assert KilledInHand(z, p, []);
    }
  }

  /** The closure takes the process from its holder: it is dead, and any pin it had is gone. */
  lemma KillEffect(y: System, p: Proc)
    requires Inv(y) && p in y.loose
    ensures var z := Next(y, IdleTimer(p));
            Enabled(y, IdleTimer(p)) && z.held == y.held && p !in z.alive && p !in z.pool.pinRev
  {
    hide Accounted, Armed, Running, Ticking, Drop;
    PinsFacts(y.pool);
  }

  /** And this happens: a process is given back, its idle timer goes off but has to wait for the lock, the
      next acquire takes the process, and then the old closure kills it in the new holder's hands. */
  lemma IdleClosureKillsHeld(p: Proc) returns (actions: seq<Action>)
    ensures Legal(Start(2), actions + [IdleTimer(p)])
    ensures p in Run(Start(2), actions).held && p in Run(Start(2), actions).alive
    ensures var z := Run(Start(2), actions + [IdleTimer(p)]); p in z.held && p !in z.alive
  {
    hide Next, Enabled, Run, Legal, Empty, OneIdle;
    var as0 := [AcquireFor("", 1, ""), SpawnOk(p)];
    var as1 := as0 + [GiveBack(p)];
    var as2 := as1 + [IdleFire(p)];
    actions := as2 + [AcquireFor("", 2, "")];
    Spawned(p);
    RunSnoc(Start(2), as0, GiveBack(p));
    RunSnoc(Start(2), as1, IdleFire(p));
    RunSnoc(Start(2), as2, AcquireFor("", 2, ""));
    RunSnoc(Start(2), actions, IdleTimer(p));
    BackAndFired(Run(Start(2), as0), p);
    TakenAndKilled(Run(Start(2), as2), p);
  }

  /** `p` is idle, alive and not pinned, and its idle closure waits for the lock. */
  ghost predicate OneIdle(y: System, p: Proc) {
    && y.pool == Pool([p], 0, 2, 2, map[], map[], map[], map[])
    && y.alive == {p} && y.loose == multiset{p} && y.ticking == {}
  }

  lemma BackAndFired(y: System, p: Proc)
    requires Empty(y, 1) && y.held == multiset{p} && y.alive == {p}
    ensures Enabled(y, GiveBack(p)) && Enabled(Next(y, GiveBack(p)), IdleFire(p))
    ensures OneIdle(Next(Next(y, GiveBack(p)), IdleFire(p)), p)
  {
    assert [] + [p] == [p];
  }

  lemma TakenAndKilled(y: System, p: Proc)
    requires OneIdle(y, p)
    ensures var a := AcquireFor("", 2, ""); var z := Next(y, a);
            && Enabled(y, a) && Enabled(z, IdleTimer(p)) && p in z.held && p in z.alive
            && p in Next(z, IdleTimer(p)).held && p !in Next(z, IdleTimer(p)).alive
  {
    assert FirstAttempts(y.pool, "", y.alive, 2) == (y.pool.(idle := [], busy := 1), Some(p));
  }

  // ---------------------------------------------------------------- exhaustion

  /** The idle processes pinned to another build. */
  function Others(s: Pool, b: string): set<Proc> {
    set q | q in s.idle && q in s.pinRev && !(b != "" && s.pinRev[q] == b)
  }

  /** `victim` pins the least recently used of them. */
  ghost predicate LeastRecent(s: Pool, b: string, victim: string) {
    && victim in s.pinProc && victim in s.lastUsed && s.pinProc[victim] in Others(s, b)
    && forall q | q in Others(s, b) :: s.pinRev[q] in s.lastUsed && s.lastUsed[victim] <= s.lastUsed[s.pinRev[q]]
  }

  lemma FirstFails(s: Pool, b: string, alive: set<Proc>, now: int)
    requires PinsOk(s) && NoDup(s.idle)
    ensures var (s2, found) := FirstAttempts(s, b, alive, now);
            && (found.None? <==> forall q | q in s.idle && q in alive ::
                q in s.pinRev
                && !(b != "" && s.pinRev[q] == b))
            && (found.None? ==> forall q :: q in s2.idle <==>
                q in s.idle && q in s.pinRev
                && !(b != "" && s.pinRev[q] == b))
            && (found.None? ==> forall q | q in s2.idle :: q in s2.pinRev && s2.pinRev[q] == s.pinRev[q])
            && (found.None? ==> forall c | c in s2.lastUsed :: c in s.lastUsed && s2.lastUsed[c] == s.lastUsed[c])
  {
    hide PinsOk, NoDup, PopUnpinned, Drop;
    PinsFacts(s);
    var s1 := if b == "" then s else TakePinned(s, b, alive, now).0;
    if b in s.pinProc { DropFacts(s.idle, s.pinProc[b]); }
    PopFacts(s1.idle, s1.pinRev, alive);
  }

  lemma {:induction false} CountMembers(xs: seq<Proc>)
    requires NoDup(xs)
    ensures |set q | q in xs| == |xs|
  {
    if xs != [] {
      var last, init := xs[|xs| - 1], xs[..|xs| - 1];
      CountMembers(init);
      assert (set q | q in xs) == (set q | q in init) + {last};
      assert last !in init;
    }
  }

  /** After two failed attempts exactly the processes of other builds are left idle. */
  lemma OthersLeft(s: Pool, b: string, alive: set<Proc>, now: int)
    requires PinsOk(s) && NoDup(s.idle) && FirstAttempts(s, b, alive, now).1.None?
    ensures var s2 := FirstAttempts(s, b, alive, now).0;
            && |s2.idle| == |Others(s, b)| && (forall q :: q in s2.idle <==> q in Others(s, b))
            && (SomePinnedIdle(s2) <==> Others(s, b) != {})
            && forall victim | OldestIdle(s2, victim) :: LeastRecent(s, b, victim)
                && s2.pinProc[victim] == s.pinProc[victim]
  {
    hide PinsOk, NoDup, FirstAttempts;
    var s2 := FirstAttempts(s, b, alive, now).0;
    FirstFails(s, b, alive, now);
    FirstCounts(s, b, alive, now);
    FirstPins(s, b, alive, now);
    PinsFacts(s);
    PinsFacts(s2);
    CountMembers(s2.idle);
    assert (set q | q in s2.idle) == Others(s, b);
    if Others(s, b) != {} {
      var q := SomeElement(Others(s, b));
      assert s2.pinProc[s2.pinRev[q]] == q;
    }
    forall victim | OldestIdle(s2, victim) ensures LeastRecent(s, b, victim) && s2.pinProc[victim] == s.pinProc[victim]
    {
      var p := s2.pinProc[victim];
      assert p in Others(s, b) && s.pinRev[p] == victim;
      forall q | q in Others(s, b) ensures s.pinRev[q] in s.lastUsed && s.lastUsed[victim] <= s.lastUsed[s.pinRev[q]] {
        assert s2.pinProc[s2.pinRev[q]] == q && s2.pinRev[q] == s.pinRev[q];
      }
    }
  }

  /** When an acquire gives up, in terms of the pool before the call: no live process is idle except those
      pinned to another build, these and the busy ones fill the pool, and the least recently used of
      these, if there is any, is dead. */
  lemma ExhaustedExactly(s: Pool, b: string, alive: set<Proc>, now: int, victim: string)
    requires PinsOk(s) && NoDup(s.idle) && StealVictim(s, b, alive, now, victim)
    ensures Acquire(s, b, alive, now, victim).1 == Exhausted <==>
              && (forall q | q in s.idle && q in alive :: q in Others(s, b))
              && s.busy + |Others(s, b)| >= s.maxSize
              && (Others(s, b) == {} || (LeastRecent(s, b, victim) && s.pinProc[victim] !in alive))
  {
    hide PinsOk, NoDup, FirstAttempts, Unpin, Drop, LeastRecent, OldestIdle;
    FirstFails(s, b, alive, now);
    FirstCounts(s, b, alive, now);
    FirstPins(s, b, alive, now);
    var (s2, found) := FirstAttempts(s, b, alive, now);
    PinsFacts(s2);
    if found.None? {
      OthersLeft(s, b, alive, now);
      IdleVictim(s2, victim);
    }
  }

  lemma IdleVictim(s: Pool, victim: string)
    ensures OldestIdle(s, victim) ==> victim in s.pinProc && s.pinProc[victim] in s.idle
  {
  }

  /** With every idle process alive, giving up means exactly that nothing is idle and every slot is busy. */
  lemma ExhaustedMeansFull(y: System, b: string, now: int, victim: string)
    requires Inv(y) && Enabled(y, AcquireFor(b, now, victim))
    requires forall q | q in y.pool.idle :: q in y.alive
    ensures Acquire(y.pool, b, y.alive, now, victim).1 == Exhausted
            <==> y.pool.idle == [] && y.pool.busy == y.pool.maxSize
  {
    hide PinsOk, NoDup, FirstAttempts, Armed, Watched, Acquire;
    ExhaustedExactly(y.pool, b, y.alive, now, victim);
    EmptyList(y.pool.idle);
  }

  lemma EmptyList(xs: seq<Proc>)
    ensures (forall q :: q !in xs) <==> xs == []
  {
    assert xs == [] || xs[0] in xs;
  }

  function TwoPinned(first: Proc, second: Proc): Pool {
    Pool([first, second], 0, 2, 2, map["a" := first, "b" := second], map[first := "a", second := "b"],
         map["a" := 5, "b" := 6], map["a" := 1, "b" := 1])
  }

  /** Without that assumption the pool can give up while a live process sits idle and nothing is busy: two
      processes are started, pinned and given back, the first one dies, and a request for a third build
      discards it as the oldest and never considers the younger live one. */
  lemma ExhaustedWithLiveIdle(dead: Proc, live: Proc) returns (actions: seq<Action>)
    requires dead != live
    ensures Legal(Start(2), actions + [AcquireFor("c", 7, "a")])
    ensures var y := Run(Start(2), actions);
            && live in y.pool.idle && live in y.alive && y.pool.busy == 0
            && Acquire(y.pool, "c", y.alive, 7, "a").1 == Exhausted
  {
    hide Next, Enabled, Run, Legal, Empty, Acquire, TwoPinned;
    actions := TwoPinnedRun(dead, live);
    var y := Run(Start(2), actions);
    RunSnoc(Start(2), actions, AcquireFor("c", 7, "a"));
    GivesUp(dead, live);
    AcquireEnabled(y, "c", 7, "a");
    TwoPinnedIdle(dead, live);
  }

  lemma AcquireEnabled(y: System, b: string, now: int, victim: string)
    ensures Enabled(y, AcquireFor(b, now, victim)) <==> StealVictim(y.pool, b, y.alive, now, victim)
  {
  }

  lemma TwoPinnedIdle(dead: Proc, live: Proc)
    ensures live in TwoPinned(dead, live).idle && TwoPinned(dead, live).busy == 0
  {
    assert TwoPinned(dead, live).idle[1] == live;
  }

  lemma GivesUp(dead: Proc, live: Proc)
    requires dead != live
    ensures var s := TwoPinned(dead, live);
            StealVictim(s, "c", {live}, 7, "a") && Acquire(s, "c", {live}, 7, "a").1 == Exhausted
  {
    hide PopUnpinned, Unpin;
    var s := TwoPinned(dead, live);
    PopBothPinned(dead, live, s.pinRev, {live});
    assert FirstAttempts(s, "c", {live}, 7) == (s, None);
    assert s.pinProc["a"] in s.idle;
  }

  lemma TwoPinnedRun(p: Proc, q: Proc) returns (actions: seq<Action>)
    requires p != q
    ensures Legal(Start(2), actions)
    ensures Run(Start(2), actions).pool == TwoPinned(p, q) && Run(Start(2), actions).alive == {q}
  {
    hide Next, Enabled, Run, Legal, Empty, TwoPinned;
    var a1, a2, a3, a4 := AcquireFor("", 1, ""), AcquireFor("", 2, ""), SpawnOk(p), SpawnOk(q);
    var as1, as2, as3, as4 := [a1], [a1, a2], [a1, a2, a3], [a1, a2, a3, a4];
    StartsEmpty();
    RunSnoc(Start(2), [], a1);
    RunSnoc(Start(2), as1, a2);
    RunSnoc(Start(2), as2, a3);
    RunSnoc(Start(2), as3, a4);
    assert [] + [a1] == as1 && as1 + [a2] == as2 && as2 + [a3] == as3 && as3 + [a4] == as4;
    SpawnSlot(Start(2), 0, 1);
    SpawnSlot(Run(Start(2), as1), 1, 2);
    SpawnDone(Run(Start(2), as2), 2, p);
    SpawnDone(Run(Start(2), as3), 2, q);
    var b1, b2, b3, b4, b5 := PinTo(p, "a", 5, ""), PinTo(q, "b", 6, ""), GiveBack(p), GiveBack(q), Die(p);
    RunSnoc(Start(2), as4, b1);
    RunSnoc(Start(2), as4 + [b1], b2);
    RunSnoc(Start(2), as4 + [b1] + [b2], b3);
    RunSnoc(Start(2), as4 + [b1] + [b2] + [b3], b4);
    RunSnoc(Start(2), as4 + [b1] + [b2] + [b3] + [b4], b5);
    actions := as4 + [b1] + [b2] + [b3] + [b4] + [b5];
    BothPinned(Run(Start(2), as4), p, q);
    BothBack(Run(Start(2), as4 + [b1] + [b2]), p, q);
  }

  lemma BothPinned(y: System, p: Proc, q: Proc)
    requires p != q && Empty(y, 2)
    ensures var b1, b2 := PinTo(p, "a", 5, ""), PinTo(q, "b", 6, "");
            var y1 := Next(y, b1); var y2 := Next(y1, b2);
            && Enabled(y, b1) && Enabled(y1, b2) && y2.held == y.held && y2.alive == y.alive
            && y2.pool == TwoPinned(p, q).(idle := [], busy := 2)
  {
    hide Running;
    var s1 := Pin(y.pool, p, "a", 5, "");
    assert s1 == Pool([], 2, 2, 2, map["a" := p], map[p := "a"], map["a" := 5], map["a" := 1]);
    assert |s1.pinProc| == 1;
  }

  lemma BothBack(y: System, p: Proc, q: Proc)
    requires p != q && y.held == multiset{p, q} && y.alive == {p, q}
        && y.pool == TwoPinned(p, q).(idle := [], busy := 2)
    ensures var y1 := Next(y, GiveBack(p)); var y2 := Next(y1, GiveBack(q)); var y3 := Next(y2, Die(p));
            && Enabled(y, GiveBack(p)) && Enabled(y1, GiveBack(q)) && Enabled(y2, Die(p))
            && y3.pool == TwoPinned(p, q) && y3.alive == {q}
  {
    assert [] + [p] == [p] && [p] + [q] == [p, q];
  }

  lemma PopBothPinned(p: Proc, q: Proc, rev: map<Proc, string>, alive: set<Proc>)
    requires p in rev && q in rev
    ensures PopUnpinned([p, q], rev, alive) == ([p, q], None)
  {
    assert [p, q][..1] == [p] && [p][..0] == [];
    assert PopUnpinned([], rev, alive) == ([], None);
    assert PopUnpinned([p], rev, alive) == ([] + [p], None);
    assert [] + [p] == [p] && [p] + [q] == [p, q];
  }

  // ---------------------------------------------------------------- stealing

  /** A process pinned to another build is handed out only when nothing live is unpinned and idle, no
      slot is free, and no other process of another build was used longer ago; and it loses its pin. */
  lemma StealOnlyWhenForced(s: Pool, b: string, alive: set<Proc>, now: int, victim: string, p: Proc)
    requires PinsOk(s) && NoDup(s.idle) && StealVictim(s, b, alive, now, victim)
    requires Acquire(s, b, alive, now, victim).1 == Got(p) && p in s.pinRev && s.pinRev[p] != b
    ensures forall q | q in s.idle && q in alive :: q in Others(s, b)
    ensures s.busy + |Others(s, b)| >= s.maxSize
    ensures LeastRecent(s, b, victim) && s.pinProc[victim] == p
    ensures p !in Acquire(s, b, alive, now, victim).0.pinRev
  {
    hide PinsOk, NoDup, FirstAttempts, Drop, LeastRecent, OldestIdle;
    FirstFails(s, b, alive, now);
    FirstCounts(s, b, alive, now);
    FirstPins(s, b, alive, now);
    var (s2, found) := FirstAttempts(s, b, alive, now);
    PinsFacts(s);
    PinsFacts(s2);
    FoundUnpinnedOrHit(s, b, alive, now);
    if found.None? {
      OthersLeft(s, b, alive, now);
    }
  }

  /** The first two attempts hand out the build's own pinned process or an unpinned one. */
  lemma FoundUnpinnedOrHit(s: Pool, b: string, alive: set<Proc>, now: int)
    requires PinsOk(s)
    ensures var (s2, found) := FirstAttempts(s, b, alive, now);
            found.Some? ==> (found.value in s.pinRev ==> s.pinRev[found.value] == b)
  {
    hide PinsOk, PopUnpinned, Drop;
    PinsFacts(s);
    var s1 := if b == "" then s else TakePinned(s, b, alive, now).0;
    PopFacts(s1.idle, s1.pinRev, alive);
  }
}
