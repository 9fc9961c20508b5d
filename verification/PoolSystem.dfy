/** All interleavings of the pool: callers that acquire, release, pin and swap, processes that start,
    fail to start or die, and timers that fire whenever they like. One step is one critical section
    or one event outside the lock. */
module PoolSystem {
  import opened Options
  import opened PoolModel

  /** A TTL timer's closure: the build and epoch it captured, and the pin lifetime in which it was armed. */
  datatype Closure = Closure(build: string, epoch: nat, life: nat)

  /** `held` are the processes in the hands of callers, `spawning` the reserved slots whose process is
      being started outside the lock. `armed` are the TTL timers still running, `fired` the closures of
      those that went off and wait for the lock: stopping a timer reaches the former only. `life` counts
      how often each build has been pinned anew. `ticking` are the processes whose idle timer is still
      running and can be stopped, `loose` the idle closures that will run whatever happens. */
  datatype System = System(
    pool: Pool, alive: set<Proc>, held: multiset<Proc>, spawning: nat, seen: set<Proc>,
    armed: map<string, Closure>, fired: set<Closure>, life: map<string, nat>,
    ticking: set<Proc>, loose: multiset<Proc>)

  datatype Action =
    | AcquireFor(build: string, now: int, victim: string)
    | SpawnOk(proc: Proc)
    | SpawnFail
    | GiveBack(proc: Proc)
    | PinTo(proc: Proc, build: string, now: int, victim: string)
    | SwapTo(oldB: string, newB: string, now: int)
    | IdleFire(proc: Proc)
    | IdleTimer(proc: Proc)
    | Fire(build: string)
    | TtlTimer(closure: Closure)
    | Die(proc: Proc)
    | Stop

  function Start(maxSize: int): System {
    System(Pool([], 0, maxSize, maxSize, map[], map[], map[], map[]), {}, multiset{}, 0, {}, map[], {}, map[],
           {}, multiset{})
  }

  function LifeOf(y: System, b: string): nat {
    if b in y.life then y.life[b] else 0
  }

  /** The closure that the latest touch of `b` armed. */
  function Latest(pool: Pool, life: map<string, nat>, b: string): Closure {
    Closure(b, EpochOf(pool, b), if b in life then life[b] else 0)
  }

  /** Timers of pins that are gone have been stopped. */
  function Running(armed: map<string, Closure>, pool: Pool): map<string, Closure> {
    map b | b in armed && b in pool.pinProc :: armed[b]
  }

  /** Idle timers of processes that left the idle list have been stopped. */
  function Ticking(ticking: set<Proc>, pool: Pool): set<Proc> {
    set p | p in ticking && p in pool.idle
  }

  /** No pin was touched in going to `pool`. */
  function Untouched(y: System, pool: Pool): System {
    y.(pool := pool, armed := Running(y.armed, pool), ticking := Ticking(y.ticking, pool))
  }

  /** A pin was touched in going to `pool`: a new lifetime starts when the pin is new. Its old timer, if
      it is still running, is stopped and a new one armed. */
  function Touched(y: System, pool: Pool, b: string, anew: bool): System {
    var life := y.life[b := if anew then LifeOf(y, b) + 1 else LifeOf(y, b)];
    y.(pool := pool, life := life, armed := Running(y.armed, pool)[b := Latest(pool, life, b)],
       ticking := Ticking(y.ticking, pool))
  }

  predicate PinHit(y: System, b: string, now: int) {
    b != "" && TakePinned(y.pool, b, y.alive, now).1.Some?
  }

  ghost predicate Enabled(y: System, a: Action) {
    match a
    case AcquireFor(b, now, victim) => StealVictim(y.pool, b, y.alive, now, victim)
    case SpawnOk(p) => y.spawning > 0 && p !in y.seen
    case SpawnFail => y.spawning > 0
    case GiveBack(p) => p in y.held
    case PinTo(p, b, now, victim) => PinVictim(y.pool, p, b, victim)
    case IdleFire(p) => p in y.ticking
    case IdleTimer(p) => p in y.loose
    case Fire(b) => b in y.armed
    case TtlTimer(c) => c in y.fired
    case _ => true
  }

  function AfterAcquire(y: System, r: Acquired): System {
    match r
    case Got(p) => y.(held := y.held + multiset{p})
    case MustSpawn => y.(spawning := y.spawning + 1)
    case Exhausted => y
  }

  function Next(y: System, a: Action): System {
    match a
    case AcquireFor(b, now, victim) =>
      var (pool, r) := Acquire(y.pool, b, y.alive, now, victim);
      var y' := AfterAcquire(y, r);
      if PinHit(y, b, now) then Touched(y', pool, b, false) else Untouched(y', pool)
    case SpawnOk(p) =>
      if y.spawning == 0 then y
      else y.(spawning := y.spawning - 1, held := y.held + multiset{p}, seen := y.seen + {p}, alive := y.alive + {p})
    case SpawnFail =>
      if y.spawning == 0 then y else y.(spawning := y.spawning - 1, pool := y.pool.(busy := y.pool.busy - 1))
    case GiveBack(p) =>
      y.(pool := Release(y.pool, p, y.alive), held := y.held - multiset{p},
         ticking := if p in y.alive then y.ticking + {p} else y.ticking)
    case PinTo(p, b, now, victim) =>
      if b == "" || y.pool.maxPins <= 0 then y
      else Touched(y, Pin(y.pool, p, b, now, victim), b, !(p in y.pool.pinRev && y.pool.pinRev[p] == b))
    case SwapTo(oldB, newB, now) =>
      if oldB == "" || newB == "" || oldB == newB || oldB !in y.pool.pinProc then y
      else Touched(y, Swap(y.pool, oldB, newB, now), newB, true)
    case IdleFire(p) =>
      if p !in y.ticking then y else y.(ticking := y.ticking - {p}, loose := y.loose + multiset{p})
    case IdleTimer(p) =>
      var z := Untouched(y, KillIdle(y.pool, p)).(alive := y.alive - {p});
      // A timer armed since is forgotten without being stopped.
      if p in y.ticking then z else z.(loose := y.loose - multiset{p})
    case Fire(b) => if b !in y.armed then y else y.(armed := y.armed - {b}, fired := y.fired + {y.armed[b]})
    case TtlTimer(c) => Untouched(y, Expire(y.pool, c.build, c.epoch)).(fired := y.fired - {c})
    case Die(p) => y.(alive := y.alive - {p})
    case Stop => Untouched(y, Shutdown(y.pool)).(alive := y.alive - (set p | p in y.pool.idle))
  }

  // ---------------------------------------------------------------- the invariant

  /** Every slot is accounted for, and nobody shares a process. */
  ghost predicate Accounted(y: System) {
    && y.pool.busy == |y.held| + y.spawning
    && y.pool.busy + |y.pool.idle| <= y.pool.maxSize
    && NoDup(y.pool.idle)
    && (forall p :: y.held[p] <= 1)
    && (forall p | p in y.pool.idle :: p !in y.held && p in y.seen)
    && (forall p | p in y.held :: p in y.seen)
  }

  /** The running timer of a pin is the one its latest touch armed. A closure that went off belongs to the
      current lifetime or an earlier one, and within the current one captured no more than the epoch. The
      closure of the latest touch is either still running or has gone off, not both. */
  ghost predicate Timers(pool: Pool, life: map<string, nat>, armed: map<string, Closure>, fired: set<Closure>) {
    && (forall b | b in armed :: b in pool.pinProc && armed[b] == Latest(pool, life, b) && armed[b] !in fired)
    && (forall c | c in fired :: c.life <= Latest(pool, life, c.build).life)
    && (forall c | c in fired && c.build in pool.pinProc && c.life == Latest(pool, life, c.build).life ::
          c.epoch <= EpochOf(pool, c.build))
    && (forall b | b in pool.pinProc :: b in armed || Latest(pool, life, b) in fired)
  }

  ghost predicate Armed(y: System) {
    Timers(y.pool, y.life, y.armed, y.fired)
  }

  /** Only idle processes have an idle timer that can be stopped, every idle process has an idle closure to
      come, and closures are about processes that were once started. */
  ghost predicate Watched(y: System) {
    && (forall p | p in y.ticking :: p in y.pool.idle)
    && (forall p | p in y.pool.idle :: p in y.ticking || p in y.loose)
    && (forall p | p in y.loose :: p in y.seen)
  }

  ghost predicate Inv(y: System) {
    Accounted(y) && PinsOk(y.pool) && Armed(y) && Watched(y)
  }

  lemma StartInv(maxSize: nat)
    ensures Inv(Start(maxSize))
  {
  }

  // ---------------------------------------------------------------- acquiring

  /** What an acquire does to the idle list and the counter, whichever attempt succeeds. */
  lemma AcquireCounts(s: Pool, b: string, alive: set<Proc>, now: int, victim: string)
    requires NoDup(s.idle) && PinsOk(s) && StealVictim(s, b, alive, now, victim)
    ensures var (s', r) := Acquire(s, b, alive, now, victim);
            && NoDup(s'.idle) && s'.maxSize == s.maxSize && |s'.idle| <= |s.idle|
            && (forall q | q in s'.idle :: q in s.idle)
            && (r.Got? ==>
                r.proc in s.idle && r.proc !in s'.idle && |s'.idle| < |s.idle| && s'.busy == s.busy + 1
                && r.proc in alive)
            && (r.MustSpawn? ==> s'.busy == s.busy + 1 && s'.busy + |s'.idle| <= s.maxSize)
            && (r.Exhausted? ==> s'.busy == s.busy)
  {
    hide NoDup, Drop, PinsOk, Unpin, FirstAttempts, SomePinnedIdle, Steal;
    FirstCounts(s, b, alive, now);
    var s2 := FirstAttempts(s, b, alive, now).0;
    FirstPins(s, b, alive, now);
    PinsFacts(s2);
    NoVictim(s2, alive);
    if victim in s2.pinProc {
      DropFacts(s2.idle, s2.pinProc[victim]);
      UnpinFrame(s2, victim, s2.pinProc[victim], victim);
      DropIdle(s2, victim, alive);
    }
  }

  lemma NoVictim(s: Pool, alive: set<Proc>)
    ensures "" !in s.pinProc ==> Steal(s, "", alive) == (s, None)
  {
  }

  lemma DropIdle(s: Pool, victim: string, alive: set<Proc>)
    requires victim in s.pinProc
    ensures var (s', r) := Steal(s, victim, alive);
            s'.idle == Drop(s.idle, s.pinProc[victim]) && s'.maxSize == s.maxSize
                && s'.busy == (if r.Some? then s.busy + 1 else s.busy)
            && (r.Some? ==> r.value == s.pinProc[victim] && r.value in alive)
  {
  }

  lemma FirstCounts(s: Pool, b: string, alive: set<Proc>, now: int)
    requires NoDup(s.idle)
    ensures var (s', found) := FirstAttempts(s, b, alive, now);
            && NoDup(s'.idle) && s'.maxSize == s.maxSize && |s'.idle| <= |s.idle|
            && (forall q | q in s'.idle :: q in s.idle)
            && (found.Some? ==>
                found.value in s.idle && found.value !in s'.idle && |s'.idle| < |s.idle|
                && s'.busy == s.busy + 1 && found.value in alive)
            && (found.None? ==> s'.busy == s.busy)
  {
    hide NoDup, Drop, PopUnpinned;
    if b in s.pinProc { DropFacts(s.idle, s.pinProc[b]); }
    var s1 := if b == "" then s else TakePinned(s, b, alive, now).0;
    PopFacts(s1.idle, s1.pinRev, alive);
  }

  lemma AcquirePins(s: Pool, b: string, alive: set<Proc>, now: int, victim: string)
    requires PinsOk(s)
    ensures PinsOk(Acquire(s, b, alive, now, victim).0)
  {
    hide PinsOk, FirstAttempts, Steal;
    var s2 := FirstAttempts(s, b, alive, now).0;
    FirstPins(s, b, alive, now);
    PinsFrame(s2, s2.(busy := s2.busy + 1));
    StealPins(s2, victim, alive);
  }

  lemma FirstPins(s: Pool, b: string, alive: set<Proc>, now: int)
    requires PinsOk(s)
    ensures PinsOk(FirstAttempts(s, b, alive, now).0)
  {
    hide PinsOk, TakePinned, PopUnpinned;
    TakePinnedPins(s, b, alive, now);
    PinsFrame(if b == "" then s else TakePinned(s, b, alive, now).0, FirstAttempts(s, b, alive, now).0);
  }

  lemma StealPins(s: Pool, victim: string, alive: set<Proc>)
    requires PinsOk(s)
    ensures PinsOk(Steal(s, victim, alive).0)
  {
    hide PinsOk, Unpin;
    UnpinOk(s, victim);
    PinsFrame(Unpin(s, victim), Steal(s, victim, alive).0);
  }

  lemma TakePinnedPins(s: Pool, b: string, alive: set<Proc>, now: int)
    requires PinsOk(s)
    ensures PinsOk(TakePinned(s, b, alive, now).0)
  {
    hide PinsOk, Unpin, Touch;
    if b in s.pinProc && s.pinProc[b] in s.idle {
      var s1 := s.(idle := Drop(s.idle, s.pinProc[b]));
      PinsFrame(s, s1);
      PinsFrame(s, s1.(busy := s1.busy + 1));
      UnpinOk(s1, b);
      TouchOk(s1.(busy := s1.busy + 1), b, now);
    }
  }

  /** Only the affinity maps and the pin limit matter to the affinity invariant. */
  lemma PinsFrame(s: Pool, s': Pool)
    requires PinsOk(s)
    ensures (s'.pinProc == s.pinProc && s'.pinRev == s.pinRev && s'.lastUsed == s.lastUsed && s'.epoch == s.epoch
             && s'.maxPins == s.maxPins)
            ==> PinsOk(s')
  {
  }

  lemma AcquireAccounted(y: System, b: string, now: int, victim: string)
    requires Accounted(y) && PinsOk(y.pool) && StealVictim(y.pool, b, y.alive, now, victim)
    ensures Accounted(Next(y, AcquireFor(b, now, victim)))
  {
    hide Accounted, Acquire, TakePinned, PinsOk, StealVictim;
    var (pool, r) := Acquire(y.pool, b, y.alive, now, victim);
    IdleNoDup(y);
    AcquireCounts(y.pool, b, y.alive, now, victim);
    HandOut(y, pool, r);
    TouchedAccounted(AfterAcquire(y, r), pool, b);
  }

  lemma IdleNoDup(y: System)
    requires Accounted(y)
    ensures NoDup(y.pool.idle)
  {
  }

  lemma TouchedAccounted(y: System, pool: Pool, b: string)
    requires Accounted(Untouched(y, pool))
    ensures Accounted(Touched(y, pool, b, false))
  {
  }

  lemma HandOut(y: System, pool: Pool, r: Acquired)
    requires Accounted(y) && NoDup(pool.idle) && pool.maxSize == y.pool.maxSize && |pool.idle| <= |y.pool.idle|
    requires forall q | q in pool.idle :: q in y.pool.idle
    requires r.Got? ==> r.proc in y.pool.idle && r.proc !in pool.idle && |pool.idle| < |y.pool.idle|
    requires pool.busy == (if r.Exhausted? then y.pool.busy else y.pool.busy + 1)
    requires r.MustSpawn? ==> pool.busy + |pool.idle| <= pool.maxSize
    ensures Accounted(Untouched(AfterAcquire(y, r), pool))
  {
    hide NoDup;
    if r.Got? {
      assert |y.held + multiset{r.proc}| == |y.held| + 1;
    }
  }

  // ---------------------------------------------------------------- closures

  /** Pins only disappear: what was armed stays armed. */
  ghost predicate FewerPins(s: Pool, s': Pool) {
    forall b | b in s'.pinProc :: b in s.pinProc && EpochOf(s', b) == EpochOf(s, b)
  }

  lemma ArmedFewer(y: System, pool: Pool)
    requires Armed(y) && FewerPins(y.pool, pool)
    ensures Timers(pool, y.life, Running(y.armed, pool), y.fired)
  {
  }

  /** Pins may disappear and `b` is touched: its epoch grows by one, or restarts with a new lifetime. */
  lemma ArmedTouched(y: System, pool: Pool, b: string, anew: bool)
    requires Armed(y) && b in pool.pinProc
    requires forall c | c in pool.pinProc && c != b :: c in y.pool.pinProc && EpochOf(pool, c) == EpochOf(y.pool, c)
    requires !anew ==> b in y.pool.pinProc && EpochOf(pool, b) > EpochOf(y.pool, b)
    ensures Armed(Touched(y, pool, b, anew))
  {
    var z := Touched(y, pool, b, anew);
    forall c | c in pool.pinProc && c != b ensures Latest(pool, z.life, c) == Latest(y.pool, y.life, c) {
    }
  }

  /** A closure that has run is gone, and so is the pin if it was the one of the latest touch. */
  lemma ArmedExpired(y: System, c: Closure)
    requires Armed(y)
    ensures Armed(Next(y, TtlTimer(c)))
  {
    hide Unpin;
    var pool := Expire(y.pool, c.build, c.epoch);
    UnpinFewer(y.pool, c.build);
    UnpinGone(y.pool, c.build);
    ArmedFewer(y, pool);
    forall b | b in pool.pinProc && b !in y.armed ensures Latest(pool, y.life, b) in y.fired - {c} {
    }
  }

  lemma UnpinGone(s: Pool, b: string)
    ensures b !in Unpin(s, b).pinProc
  {
  }

  lemma ArmedFired(y: System, b: string)
    requires Armed(y) && b in y.armed
    ensures Armed(Next(y, Fire(b)))
  {
  }

  lemma UnpinFewer(s: Pool, b: string)
    ensures FewerPins(s, Unpin(s, b))
  {
  }

  lemma FewerTrans(s: Pool, s': Pool, s'': Pool)
    requires FewerPins(s, s') && FewerPins(s', s'')
    ensures FewerPins(s, s'')
  {
  }

  /** Installing and touching affect `b` only. */
  lemma InstallOthers(s: Pool, p: Proc, b: string, now: int)
    ensures var s' := Install(s, p, b, now);
            && b in s'.pinProc
            && (forall c | c in s'.pinProc && c != b :: c in s.pinProc && EpochOf(s', c) == EpochOf(s, c))
  {
  }

  lemma PinEffect(s: Pool, p: Proc, b: string, now: int, victim: string)
    requires b != "" && s.maxPins > 0
    ensures var s' := Pin(s, p, b, now, victim);
            && (p !in s.pinRev || s.pinRev[p] != b ==> b in s'.pinProc)
            && (forall c | c in s'.pinProc && c != b :: c in s.pinProc && EpochOf(s', c) == EpochOf(s, c))
            && (p in s.pinRev && s.pinRev[p] == b ==> s'.pinProc == s.pinProc && EpochOf(s', b) == EpochOf(s, b) + 1)
  {
    hide Unpin, Install;
    if !(p in s.pinRev && s.pinRev[p] == b) {
      var d := Detach(s, p);
      if p in s.pinRev { UnpinFewer(s, s.pinRev[p]); }
      UnpinFewer(d, b);
      var s1 := Unpin(d, b);
      UnpinFewer(s1, victim);
      FewerTrans(s, d, s1);
      FewerTrans(s, s1, Unpin(s1, victim));
      InstallOthers(if |s1.pinProc| >= s.maxPins then Unpin(s1, victim) else s1, p, b, now);
    }
  }

  lemma SwapEffect(s: Pool, oldB: string, newB: string, now: int)
    ensures var s' := Swap(s, oldB, newB, now);
            && (oldB != "" && newB != "" && oldB != newB && oldB in s.pinProc ==> newB in s'.pinProc)
            && forall c | c in s'.pinProc && c != newB :: c in s.pinProc && EpochOf(s', c) == EpochOf(s, c)
  {
    hide Unpin, Install;
    var s1 := Unpin(s, newB);
    UnpinFewer(s, newB);
    UnpinFewer(s1, oldB);
    FewerTrans(s, s1, Unpin(s1, oldB));
    if oldB in s.pinProc { InstallOthers(Unpin(s1, oldB), s.pinProc[oldB], newB, now); }
  }

  lemma AcquireArmed(y: System, b: string, now: int, victim: string)
    requires Armed(y) && PinsOk(y.pool)
    ensures Armed(Next(y, AcquireFor(b, now, victim)))
  {
    hide Timers, PinsOk, Acquire, Running, TakePinned;
    var pool := Acquire(y.pool, b, y.alive, now, victim).0;
    if PinHit(y, b, now) {
      HitTouches(y.pool, b, y.alive, now, victim);
      ArmedTouched(y, pool, b, false);
    } else {
      AcquireFewer(y.pool, b, y.alive, now, victim);
      ArmedFewer(y, pool);
    }
  }

  lemma HitTouches(s: Pool, b: string, alive: set<Proc>, now: int, victim: string)
    requires b != "" && TakePinned(s, b, alive, now).1.Some?
    ensures var s' := Acquire(s, b, alive, now, victim).0;
            s'.pinProc == s.pinProc && b in s.pinProc && s'.epoch == s.epoch[b := EpochOf(s, b) + 1]
  {
    hide Drop, Unpin, PopUnpinned;
  }

  lemma AcquireFewer(s: Pool, b: string, alive: set<Proc>, now: int, victim: string)
    requires !(b != "" && TakePinned(s, b, alive, now).1.Some?)
    ensures FewerPins(s, Acquire(s, b, alive, now, victim).0)
  {
    hide FirstAttempts, Unpin, TakePinned;
    var s2 := FirstAttempts(s, b, alive, now).0;
    FirstFewer(s, b, alive, now);
    UnpinFewer(s2, victim);
    FewerTrans(s, s2, Unpin(s2, victim));
  }

  lemma FirstFewer(s: Pool, b: string, alive: set<Proc>, now: int)
    requires !(b != "" && TakePinned(s, b, alive, now).1.Some?)
    ensures FewerPins(s, FirstAttempts(s, b, alive, now).0)
  {
    hide PopUnpinned;
    UnpinFewer(s, b);
  }

  // ---------------------------------------------------------------- every step keeps the invariant

  lemma ReleaseAccounted(y: System, p: Proc)
    requires Accounted(y) && p in y.held
    ensures Accounted(Next(y, GiveBack(p)))
  {
  }

  lemma KillAccounted(y: System, p: Proc)
    requires Accounted(y)
    ensures Accounted(Next(y, IdleTimer(p)))
  {
    hide NoDup, Unpin;
    DropFacts(y.pool.idle, p);
    if p in y.pool.pinRev { UnpinFrame(y.pool.(idle := Drop(y.pool.idle, p)), y.pool.pinRev[p], p, ""); }
  }

  lemma PinFrame(s: Pool, p: Proc, b: string, now: int, victim: string)
    ensures var s' := Pin(s, p, b, now, victim); s'.idle == s.idle && s'.busy == s.busy && s'.maxSize == s.maxSize
  {
  }

  lemma SwapFrame(s: Pool, oldB: string, newB: string, now: int)
    ensures var s' := Swap(s, oldB, newB, now); s'.idle == s.idle && s'.busy == s.busy && s'.maxSize == s.maxSize
  {
  }

  lemma StepAccounted(y: System, a: Action)
    requires Accounted(y) && PinsOk(y.pool) && Enabled(y, a)
    ensures Accounted(Next(y, a))
  {
    hide NoDup, PinsOk, Pin, Swap, Acquire, StealVictim, PinVictim, KillIdle;
    match a
    case AcquireFor(b, now, victim) => AcquireAccounted(y, b, now, victim);
    case GiveBack(p) => ReleaseAccounted(y, p);
    case PinTo(p, b, now, victim) => PinFrame(y.pool, p, b, now, victim);
    case SwapTo(oldB, newB, now) => SwapFrame(y.pool, oldB, newB, now);
    case IdleTimer(p) => KillAccounted(y, p);
    case TtlTimer(c) => UnpinFrame(y.pool, c.build, Proc(0), "");
    case IdleFire(p) =>
    case Fire(b) =>
    case Stop => NoDupEmpty();
    case SpawnOk(p) =>
    case SpawnFail =>
    case Die(p) =>
  }

  lemma NoDupEmpty()
    ensures NoDup([])
  {
  }

  lemma StepPins(y: System, a: Action)
    requires PinsOk(y.pool) && Enabled(y, a)
    ensures PinsOk(Next(y, a).pool)
  {
    hide PinsOk, Acquire, Pin, Swap, Unpin, Drop, Running, StealVictim, PinVictim;
    PinsFrame(y.pool, Next(y, a).pool);
    match a
    case AcquireFor(b, now, victim) => AcquirePins(y.pool, b, y.alive, now, victim);
    case PinTo(p, b, now, victim) => PinOk(y.pool, p, b, now, victim);
    case SwapTo(oldB, newB, now) => SwapOk(y.pool, oldB, newB, now);
    case IdleTimer(p) =>
      var s1 := y.pool.(idle := Drop(y.pool.idle, p));
      PinsFrame(y.pool, s1);
      if p in s1.pinRev { UnpinOk(s1, s1.pinRev[p]); }
    case TtlTimer(c) => UnpinOk(y.pool, c.build);
    case Stop => ShutdownPins(y.pool);
    case IdleFire(p) =>
    case Fire(b) =>
    case SpawnOk(p) =>
    case SpawnFail =>
    case GiveBack(p) =>
    case Die(p) =>
  }

  lemma ShutdownPins(s: Pool)
    ensures PinsOk(Shutdown(s))
  {
  }

  lemma StepArmed(y: System, a: Action)
    requires Armed(y) && PinsOk(y.pool) && Enabled(y, a)
    ensures Armed(Next(y, a))
  {
    hide Timers, PinsOk, Acquire, Pin, Swap, Unpin, Running;
    match a
    case AcquireFor(b, now, victim) => AcquireArmed(y, b, now, victim);
    case PinTo(p, b, now, victim) =>
      if b != "" && y.pool.maxPins > 0 {
        PinEffect(y.pool, p, b, now, victim);
        PinsFacts(y.pool);
        ArmedTouched(y, Pin(y.pool, p, b, now, victim), b, !(p in y.pool.pinRev && y.pool.pinRev[p] == b));
      }
    case SwapTo(oldB, newB, now) =>
      SwapEffect(y.pool, oldB, newB, now);
      if !(oldB == "" || newB == "" || oldB == newB || oldB !in y.pool.pinProc) {
        ArmedTouched(y, Swap(y.pool, oldB, newB, now), newB, true);
      }
    case IdleTimer(p) =>
      var s1 := y.pool.(idle := Drop(y.pool.idle, p));
      if p in s1.pinRev { UnpinFewer(s1, s1.pinRev[p]); }
      FewerTrans(y.pool, s1, KillIdle(y.pool, p));
      ArmedFewer(y, KillIdle(y.pool, p));
    case IdleFire(p) =>
    case Fire(b) => ArmedFired(y, b);
    case TtlTimer(c) => ArmedExpired(y, c);
    case SpawnFail => ArmedSame(y, y.pool.(busy := y.pool.busy - 1));
    case GiveBack(p) => ArmedSame(y, Release(y.pool, p, y.alive));
    case Stop => ArmedFewer(y, Shutdown(y.pool));
    case SpawnOk(p) =>
    case Die(p) =>
  }

  lemma ArmedSame(y: System, pool: Pool)
    requires Armed(y) && pool.pinProc == y.pool.pinProc && pool.epoch == y.pool.epoch
    ensures Timers(pool, y.life, y.armed, y.fired)
  {
  }

  /** The idle list only shrinks: timers of what is left are kept. */
  lemma WatchedFewer(y: System, z: System)
    requires Watched(y) && z.ticking == Ticking(y.ticking, z.pool) && z.loose == y.loose && y.seen <= z.seen
    requires forall p | p in z.pool.idle :: p in y.pool.idle
    ensures Watched(z)
  {
  }

  lemma AcquireWatched(y: System, b: string, now: int, victim: string)
    requires Accounted(y) && PinsOk(y.pool) && Watched(y) && Enabled(y, AcquireFor(b, now, victim))
    ensures Watched(Next(y, AcquireFor(b, now, victim)))
  {
    hide Accounted, PinsOk, Watched, Acquire, TakePinned, StealVictim, NoDup;
    IdleNoDup(y);
    AcquireCounts(y.pool, b, y.alive, now, victim);
    WatchedFewer(y, Next(y, AcquireFor(b, now, victim)));
  }

  lemma KillWatched(y: System, p: Proc)
    requires Accounted(y) && Watched(y)
    ensures Watched(Next(y, IdleTimer(p)))
  {
    hide Accounted, NoDup, Unpin;
    IdleNoDup(y);
    DropFacts(y.pool.idle, p);
    if p in y.pool.pinRev { UnpinFrame(y.pool.(idle := Drop(y.pool.idle, p)), y.pool.pinRev[p], p, ""); }
  }

  lemma StepWatched(y: System, a: Action)
    requires Accounted(y) && PinsOk(y.pool) && Watched(y) && Enabled(y, a)
    ensures Watched(Next(y, a))
  {
    hide NoDup, PinsOk, Pin, Swap, Acquire, StealVictim, PinVictim, KillIdle, Running;
    match a
    case AcquireFor(b, now, victim) => AcquireWatched(y, b, now, victim);
    case PinTo(p, b, now, victim) => PinFrame(y.pool, p, b, now, victim);
    case SwapTo(oldB, newB, now) => SwapFrame(y.pool, oldB, newB, now);
    case IdleTimer(p) => KillWatched(y, p);
    case TtlTimer(c) => UnpinFrame(y.pool, c.build, Proc(0), "");
    case IdleFire(p) =>
    case Fire(b) =>
    case Stop =>
    case GiveBack(p) =>
    case SpawnOk(p) =>
    case SpawnFail =>
    case Die(p) =>
  }

  lemma StepInv(y: System, a: Action)
    requires Inv(y) && Enabled(y, a)
    ensures Inv(Next(y, a))
  {
    hide Accounted, PinsOk, Armed, Watched, Next, Enabled;
    StepAccounted(y, a);
    StepPins(y, a);
    StepArmed(y, a);
    StepWatched(y, a);
  }

  // ---------------------------------------------------------------- runs

  function Run(y: System, actions: seq<Action>): System
    decreases |actions|
  {
    if actions == [] then y else Run(Next(y, actions[0]), actions[1..])
  }

  ghost predicate Legal(y: System, actions: seq<Action>)
    decreases |actions|
  {
    actions != [] ==> Enabled(y, actions[0]) && Legal(Next(y, actions[0]), actions[1..])
  }

  lemma {:induction false} RunInv(y: System, actions: seq<Action>)
    requires Inv(y) && Legal(y, actions)
    ensures Inv(Run(y, actions))
    decreases |actions|
  {
    hide Inv, Next, Enabled;
    if actions != [] {
      StepInv(y, actions[0]);
      RunInv(Next(y, actions[0]), actions[1..]);
    }
  }

  ghost predicate SameLimits(s: Pool, s': Pool) {
    s'.maxSize == s.maxSize && s'.maxPins == s.maxPins
  }

  lemma AcquireLimits(s: Pool, b: string, alive: set<Proc>, now: int, victim: string)
    ensures SameLimits(s, Acquire(s, b, alive, now, victim).0)
  {
    hide PopUnpinned, Drop, Unpin;
    UnpinFrame(s.(idle := Drop(s.idle, if b in s.pinProc then s.pinProc[b] else Proc(0))), b, Proc(0), "");
    UnpinFrame(FirstAttempts(s, b, alive, now).0, victim, Proc(0), "");
  }

  lemma PinLimits(s: Pool, p: Proc, b: string, now: int, victim: string)
    ensures SameLimits(s, Pin(s, p, b, now, victim))
  {
    hide Unpin;
    if p in s.pinRev { UnpinFrame(s, s.pinRev[p], p, b); }
    UnpinFrame(Detach(s, p), b, p, b);
    UnpinFrame(Unpin(Detach(s, p), b), victim, p, b);
  }

  lemma SwapLimits(s: Pool, oldB: string, newB: string, now: int)
    ensures SameLimits(s, Swap(s, oldB, newB, now))
  {
    hide Unpin;
    UnpinFrame(s, newB, Proc(0), "");
    UnpinFrame(Unpin(s, newB), oldB, Proc(0), "");
  }

  /** No step changes the limits. */
  lemma StepLimits(y: System, a: Action)
    ensures SameLimits(y.pool, Next(y, a).pool)
  {
    hide Acquire, Pin, Swap, Unpin, Drop, Running;
    match a
    case AcquireFor(b, now, victim) => AcquireLimits(y.pool, b, y.alive, now, victim);
    case PinTo(p, b, now, victim) => PinLimits(y.pool, p, b, now, victim);
    case SwapTo(oldB, newB, now) => SwapLimits(y.pool, oldB, newB, now);
    case IdleTimer(p) =>
      var s1 := y.pool.(idle := Drop(y.pool.idle, p));
      if p in s1.pinRev { UnpinFrame(s1, s1.pinRev[p], p, ""); }
    case TtlTimer(c) => UnpinFrame(y.pool, c.build, Proc(0), "");
    case _ =>
  }

  lemma {:induction false} RunLimits(y: System, actions: seq<Action>)
    ensures SameLimits(y.pool, Run(y, actions).pool)
    decreases |actions|
  {
    hide Next;
    if actions != [] {
      StepLimits(y, actions[0]);
      RunLimits(Next(y, actions[0]), actions[1..]);
    }
  }

  /** In every interleaving: no slot is lost or overcommitted, the idle list has no duplicates, no
      process is held twice or both held and idle, and the affinity maps stay consistent; the limits are
      those the pool was made with. */
  lemma PoolSafe(maxSize: nat, actions: seq<Action>)
    requires Legal(Start(maxSize), actions)
    ensures var y := Run(Start(maxSize), actions);
            && y.pool.busy == |y.held| + y.spawning
            && y.pool.busy + |y.pool.idle| <= maxSize
            && NoDup(y.pool.idle)
            && (forall p :: y.held[p] <= 1 && (p in y.pool.idle ==> p !in y.held))
            && PinsOk(y.pool) && |y.pool.pinProc| <= maxSize
            && y.pool.maxSize == maxSize && y.pool.maxPins == maxSize
  {
    hide NoDup, Armed, Watched, Run, Legal;
    StartInv(maxSize);
    RunInv(Start(maxSize), actions);
    RunLimits(Start(maxSize), actions);
  }
}
