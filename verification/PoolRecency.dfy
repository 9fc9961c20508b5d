/** The order in which pins age: the four affinity maps refine a bounded list. */
module PoolRecency {
  import opened Options
  import opened PoolModel
  import opened PoolSystem

  function At(used: map<string, int>, b: string): int {
    if b in used then used[b] else 0
  }

  ghost predicate Increasing(order: seq<string>, used: map<string, int>) {
    forall i, j | 0 <= i < j < |order| :: At(used, order[i]) < At(used, order[j])
  }

  /** `order` lists the pins from the least to the most recently touched. */
  ghost predicate Recency(order: seq<string>, used: map<string, int>) {
    && (forall b :: b in order <==> b in used)
    && Increasing(order, used)
  }

  function Without(order: seq<string>, b: string): (r: seq<string>)
    ensures forall c :: c in r <==> c in order && c != b
  {
    if order == [] then []
    else if order[0] == b then Without(order[1..], b)
    else [order[0]] + Without(order[1..], b)
  }

  ghost predicate Later(used: map<string, int>, now: int) {
    forall b | b in used :: used[b] < now
  }

  lemma IncreasingByMembers(x: string, rest: seq<string>, used: map<string, int>)
    requires Increasing(rest, used) && forall c | c in rest :: At(used, x) < At(used, c)
    ensures Increasing([x] + rest, used)
  {
    var r := [x] + rest;
    forall i, j | 0 <= i < j < |r| ensures At(used, r[i]) < At(used, r[j]) {
      assert r[j] == rest[j - 1] && r[j] in rest;
      if i > 0 { assert r[i] == rest[i - 1]; }
    }
  }

  lemma HeadBelow(order: seq<string>, used: map<string, int>)
    requires Increasing(order, used) && order != []
    ensures Increasing(order[1..], used) && forall c | c in order[1..] :: At(used, order[0]) < At(used, c)
  {
    forall c | c in order[1..] ensures At(used, order[0]) < At(used, c) {
      var i :| 0 <= i < |order[1..]| && order[1..][i] == c;
      assert order[i + 1] == c;
    }
  }

  lemma {:induction false} WithoutIncreasing(order: seq<string>, b: string, used: map<string, int>)
    requires Increasing(order, used)
    ensures Increasing(Without(order, b), used)
    ensures b in order ==> |Without(order, b)| == |order| - 1
    ensures b !in order ==> Without(order, b) == order
  {
    hide Increasing, At;
    if order != [] {
      HeadBelow(order, used);
      WithoutIncreasing(order[1..], b, used);
      assert order == [order[0]] + order[1..] && order[0] !in order[1..];
      if order[0] != b {
        IncreasingByMembers(order[0], Without(order[1..], b), used);
      }
    }
  }

  lemma IncreasingFrame(order: seq<string>, used: map<string, int>, used': map<string, int>)
    requires Increasing(order, used) && forall c | c in order :: At(used', c) == At(used, c)
    ensures Increasing(order, used')
  {
    assert forall i | 0 <= i < |order| :: order[i] in order;
  }

  lemma IncreasingAppend(order: seq<string>, b: string, used: map<string, int>)
    requires Increasing(order, used) && forall c | c in order :: At(used, c) < At(used, b)
    ensures Increasing(order + [b], used)
  {
    var r := order + [b];
    forall i, j | 0 <= i < j < |r| ensures At(used, r[i]) < At(used, r[j]) {
      assert r[i] == order[i] && r[i] in order;
    }
  }

  lemma RecencyRemove(order: seq<string>, used: map<string, int>, b: string)
    requires Recency(order, used)
    ensures Recency(Without(order, b), used - {b})
    ensures b in used ==> |Without(order, b)| == |order| - 1
    ensures b !in used ==> Without(order, b) == order && used - {b} == used
  {
    hide Increasing;
    WithoutIncreasing(order, b, used);
    IncreasingFrame(Without(order, b), used, used - {b});
    if b !in used { assert used - {b} == used; }
  }

  lemma RecencyAppend(order: seq<string>, used: map<string, int>, b: string, now: int)
    requires Recency(order, used) && Later(used, now)
    ensures Recency(Without(order, b) + [b], used[b := now])
    ensures b !in used ==> Recency(order + [b], used[b := now])
  {
    hide Increasing;
    var w, used' := Without(order, b), used[b := now];
    WithoutIncreasing(order, b, used);
    IncreasingFrame(w, used, used');
    IncreasingAppend(w, b, used');
    forall c ensures c in w + [b] <==> c in used' {
      assert c in w + [b] <==> c in w || c == b;
    }
  }

  lemma RecencyUnpin(order: seq<string>, s: Pool, b: string)
    requires PinsOk(s) && Recency(order, s.lastUsed)
    ensures Recency(Without(order, b), Unpin(s, b).lastUsed)
    ensures b !in s.pinProc ==> Without(order, b) == order
  {
    hide Recency;
    RecencyRemove(order, s.lastUsed, b);
  }

  lemma OldestIsFirst(order: seq<string>, s: Pool, b: string)
    requires Recency(order, s.lastUsed) && Oldest(s, b)
    ensures |order| > 0 && order[0] == b && Without(order, b) == order[1..]
  {
    var i :| 0 <= i < |order| && order[i] == b;
    HeadBelow(order, s.lastUsed);
    assert order[0] in order;
    assert order == [order[0]] + order[1..];
    WithoutIncreasing(order[1..], b, s.lastUsed);
  }

  lemma {:induction false} RecencyCount(order: seq<string>, used: map<string, int>)
    requires Recency(order, used)
    ensures |order| == |used|
    decreases |order|
  {
    hide Increasing;
    if order == [] {
      forall b ensures b !in used { assert b !in []; }
      assert used == map[];
    } else {
      var b := order[0];
      assert b in order;
      RecencyRemove(order, used, b);
      assert |(used - {b}).Keys| == |used.Keys - {b}|;
      RecencyCount(Without(order, b), used - {b});
    }
  }

  /** Pin on the list: the process's old entry and the build's old entry go, the head goes if the list
      is still full, and the build becomes the most recent. */
  function ListPin(order: seq<string>, limit: int, oldB: Option<string>, b: string): seq<string> {
    if oldB == Some(b) then Without(order, b) + [b]
    else
      var o1 := if oldB.Some? then Without(order, oldB.value) else order;
      var o2 := Without(o1, b);
      (if |o2| >= limit && |o2| > 0 then o2[1..] else o2) + [b]
  }

  function PinnedAs(s: Pool, p: Proc): Option<string> {
    if p in s.pinRev then Some(s.pinRev[p]) else None
  }

  /** Under a strictly increasing clock Pin is the list operation: only the least recently touched pin is
      ever evicted. */
  lemma PinIsListPin(order: seq<string>, s: Pool, p: Proc, b: string, now: int, victim: string)
    requires PinsOk(s) && Recency(order, s.lastUsed) && Later(s.lastUsed, now) && PinVictim(s, p, b, victim)
    requires b != "" && s.maxPins > 0
    ensures Recency(ListPin(order, s.maxPins, PinnedAs(s, p), b), Pin(s, p, b, now, victim).lastUsed)
  {
    hide PinsOk, Recency, Unpin, Later, Without;
    if PinnedAs(s, p) == Some(b) {
      RecencyAppend(order, s.lastUsed, b, now);
    } else {
      var d := Detach(s, p);
      var o1 := if p in s.pinRev then Without(order, s.pinRev[p]) else order;
      if p in s.pinRev {
        RecencyUnpin(order, s, s.pinRev[p]);
        UnpinOk(s, s.pinRev[p]);
        LaterUnpin(s, s.pinRev[p], now);
      }
      var s1 := Unpin(d, b);
      var o2 := Without(o1, b);
      RecencyUnpin(o1, d, b);
      UnpinOk(d, b);
      LaterUnpin(d, b, now);
      Unpinned(s, p, b);
      RecencyCount(o2, s1.lastUsed);
      PinCount(s1);
      var s2 := if |s1.pinProc| >= s.maxPins then Unpin(s1, victim) else s1;
      var o3 := if |o2| >= s.maxPins && |o2| > 0 then o2[1..] else o2;
      if |s1.pinProc| >= s.maxPins {
        RecencyUnpin(o2, s1, victim);
        OldestIsFirst(o2, s1, victim);
        UnpinOk(s1, victim);
        LaterUnpin(s1, victim, now);
      }
      UnpinFrame(s1, victim, p, b);
      InstallRecency(o3, s2, p, b, now);
    }
  }

  lemma PinCount(s: Pool)
    requires PinsOk(s)
    ensures |s.lastUsed| == |s.pinProc|
  {
    assert |s.lastUsed.Keys| == |s.pinProc.Keys|;
  }

  lemma LaterUnpin(s: Pool, b: string, now: int)
    requires Later(s.lastUsed, now)
    ensures Later(Unpin(s, b).lastUsed, now)
  {
  }

  lemma InstallRecency(order: seq<string>, s: Pool, p: Proc, b: string, now: int)
    requires PinsOk(s) && Recency(order, s.lastUsed) && Later(s.lastUsed, now) && b !in s.pinProc
    ensures Recency(order + [b], Install(s, p, b, now).lastUsed)
  {
    hide Recency, Later;
    RecencyAppend(order, s.lastUsed, b, now);
  }

  /** Swap replaces the old build's entry by the new build as the most recent one. */
  lemma SwapIsListSwap(order: seq<string>, s: Pool, oldB: string, newB: string, now: int)
    requires PinsOk(s) && Recency(order, s.lastUsed) && Later(s.lastUsed, now)
    requires oldB != "" && newB != "" && oldB != newB && oldB in s.pinProc
    ensures Recency(Without(Without(order, newB), oldB) + [newB], Swap(s, oldB, newB, now).lastUsed)
  {
    hide PinsOk, Recency, Unpin, Later, Without;
    var s1 := Unpin(s, newB);
    RecencyUnpin(order, s, newB);
    UnpinOk(s, newB);
    LaterUnpin(s, newB, now);
    RecencyUnpin(Without(order, newB), s1, oldB);
    UnpinOk(s1, oldB);
    LaterUnpin(s1, oldB, now);
    SwapParts(s, oldB, newB);
    InstallRecency(Without(Without(order, newB), oldB), Unpin(s1, oldB), s.pinProc[oldB], newB, now);
  }

  /** A pin hit moves its entry to the recent end. */
  lemma HitIsListTouch(order: seq<string>, s: Pool, b: string, alive: set<Proc>, now: int)
    requires Recency(order, s.lastUsed) && Later(s.lastUsed, now)
    requires TakePinned(s, b, alive, now).1.Some?
    ensures Recency(Without(order, b) + [b], TakePinned(s, b, alive, now).0.lastUsed)
  {
    hide Recency, Later, Without;
    RecencyAppend(order, s.lastUsed, b, now);
  }

  // ---------------------------------------------------------------- every step on the list

  /** The builds whose process is idle. */
  function IdleBuilds(s: Pool): set<string> {
    set b | b in s.pinProc && s.pinProc[b] in s.idle
  }

  /** The list without its first entry among `builds`. */
  function WithoutFirst(order: seq<string>, builds: set<string>): seq<string> {
    if order == [] then []
    else if order[0] in builds then order[1..]
    else [order[0]] + WithoutFirst(order[1..], builds)
  }

  /** The build's own process is idle but dead. */
  predicate DeadHit(y: System, b: string) {
    b != "" && b in y.pool.pinProc && y.pool.pinProc[b] in y.pool.idle && y.pool.pinProc[b] !in y.alive
  }

  /** Two attempts failed and there is no room for another process. */
  predicate Stealing(y: System, b: string, now: int) {
    var (s2, found) := FirstAttempts(y.pool, b, y.alive, now);
    found.None? && s2.busy + |s2.idle| >= s2.maxSize
  }

  /** What each step does to the list. No time and no choice of a victim enters here: a pin hit, a pin and
      a swap go to the recent end, a full list loses its head, a steal takes the first idle entry, and
      everything else only removes entries. */
  function ListStep(order: seq<string>, y: System, a: Action): seq<string> {
    match a
    case AcquireFor(b, now, _) =>
      if PinHit(y, b, now) then Without(order, b) + [b]
      else
        var o1 := if DeadHit(y, b) then Without(order, b) else order;
        if Stealing(y, b, now) then WithoutFirst(o1, IdleBuilds(FirstAttempts(y.pool, b, y.alive, now).0)) else o1
    case PinTo(p, b, _, _) =>
      if b == "" || y.pool.maxPins <= 0 then order else ListPin(order, y.pool.maxPins, PinnedAs(y.pool, p), b)
    case SwapTo(oldB, newB, _) =>
      if oldB == "" || newB == "" || oldB == newB || oldB !in y.pool.pinProc then order
      else Without(Without(order, newB), oldB) + [newB]
    case IdleTimer(p) => if p in y.pool.pinRev then Without(order, y.pool.pinRev[p]) else order
    case TtlTimer(c) => if EpochOf(y.pool, c.build) == c.epoch then Without(order, c.build) else order
    case Stop => []
    case _ => order
  }

  /** The clock reading of a step that takes one. */
  function Time(a: Action): Option<int> {
    match a
    case AcquireFor(_, now, _) => Some(now)
    case PinTo(_, _, now, _) => Some(now)
    case SwapTo(_, _, now) => Some(now)
    case _ => None
  }

  function Clock(clock: int, a: Action): int {
    if Time(a).Some? then Time(a).value else clock
  }

  /** Every clock reading is later than the one before. */
  predicate Ticks(clock: int, actions: seq<Action>)
    decreases |actions|
  {
    actions != [] ==>
        (Time(actions[0]).Some? ==> clock < Time(actions[0]).value)
        && Ticks(Clock(clock, actions[0]), actions[1..])
  }

  lemma {:induction false} FirstIdleIsOldest(order: seq<string>, used: map<string, int>, builds: set<string>,
      victim: string)
    requires Increasing(order, used) && victim in order && victim in builds
    requires forall b | b in order && b in builds :: At(used, victim) <= At(used, b)
    ensures WithoutFirst(order, builds) == Without(order, victim)
  {
    hide Increasing, At;
    HeadBelow(order, used);
    HeadOrLater(order, used, victim);
    assert order == [order[0]] + order[1..];
    if order[0] in builds {
      WithoutIncreasing(order[1..], victim, used);
    } else {
      FirstIdleIsOldest(order[1..], used, builds, victim);
    }
  }

  /** In an increasing list an entry no later than the head is the head, and the head comes once. */
  lemma HeadOrLater(order: seq<string>, used: map<string, int>, b: string)
    requires Increasing(order, used) && b in order
    ensures order != [] && (b == order[0] || b in order[1..]) && order[0] !in order[1..]
    ensures At(used, b) <= At(used, order[0]) ==> b == order[0]
  {
    HeadBelow(order, used);
    assert order == [order[0]] + order[1..];
  }

  lemma {:induction false} NoneIdle(order: seq<string>, builds: set<string>)
    requires forall b | b in order :: b !in builds
    ensures WithoutFirst(order, builds) == order
  {
    if order != [] { NoneIdle(order[1..], builds); }
  }

  lemma StealAges(order: seq<string>, s: Pool, alive: set<Proc>, victim: string)
    requires PinsOk(s) && Recency(order, s.lastUsed)
    requires if SomePinnedIdle(s) then OldestIdle(s, victim) else victim == ""
    ensures Recency(WithoutFirst(order, IdleBuilds(s)), Steal(s, victim, alive).0.lastUsed)
  {
    hide PinsOk, Increasing, Unpin, Drop;
    PinsFacts(s);
    if SomePinnedIdle(s) {
      FirstIdleIsOldest(order, s.lastUsed, IdleBuilds(s), victim);
      RecencyUnpin(order, s, victim);
    } else {
      NoneIdle(order, IdleBuilds(s));
    }
  }

  lemma FirstAges(order: seq<string>, y: System, b: string, now: int)
    requires PinsOk(y.pool) && Recency(order, y.pool.lastUsed) && !PinHit(y, b, now)
    ensures Recency(if DeadHit(y, b) then Without(order, b) else order,
        FirstAttempts(y.pool, b, y.alive, now).0.lastUsed)
  {
    hide PinsOk, Recency, Unpin, Drop, PopUnpinned;
    if DeadHit(y, b) {
      var s1 := y.pool.(idle := Drop(y.pool.idle, y.pool.pinProc[b]));
      PinsFrame(y.pool, s1);
      RecencyUnpin(order, s1, b);
    }
  }

  lemma AcquireAges(order: seq<string>, y: System, b: string, now: int, victim: string)
    requires PinsOk(y.pool) && Recency(order, y.pool.lastUsed) && Later(y.pool.lastUsed, now)
    requires Enabled(y, AcquireFor(b, now, victim))
    ensures Recency(ListStep(order, y, AcquireFor(b, now, victim)), Acquire(y.pool, b, y.alive, now, victim).0.lastUsed)
  {
    hide PinsOk, Recency, Later, Without, WithoutFirst, TakePinned, PopUnpinned, Steal, SomePinnedIdle, OldestIdle;
    if PinHit(y, b, now) {
      HitIsListTouch(order, y.pool, b, y.alive, now);
    } else {
      FirstAges(order, y, b, now);
      FirstPins(y.pool, b, y.alive, now);
      StealAges(if DeadHit(y, b) then Without(order, b) else order, FirstAttempts(y.pool, b, y.alive, now).0, y.alive,
          victim);
    }
  }

  /** Use times come from before or are `now`. */
  ghost predicate UsedFrom(used: map<string, int>, used': map<string, int>, now: int) {
    forall b | b in used' :: used'[b] == now || (b in used && used'[b] == used[b])
  }

  lemma UnpinUsed(s: Pool, b: string, now: int)
    ensures UsedFrom(s.lastUsed, Unpin(s, b).lastUsed, now)
  {
  }

  lemma AcquireUsed(s: Pool, b: string, alive: set<Proc>, now: int, victim: string)
    ensures UsedFrom(s.lastUsed, Acquire(s, b, alive, now, victim).0.lastUsed, now)
  {
    hide Unpin, Drop, PopUnpinned;
    if b in s.pinProc { UnpinUsed(s.(idle := Drop(s.idle, s.pinProc[b])), b, now); }
    UnpinUsed(FirstAttempts(s, b, alive, now).0, victim, now);
  }

  lemma PinUsed(s: Pool, p: Proc, b: string, now: int, victim: string)
    ensures UsedFrom(s.lastUsed, Pin(s, p, b, now, victim).lastUsed, now)
  {
    hide Unpin;
    if p in s.pinRev { UnpinUsed(s, s.pinRev[p], now); }
    UnpinUsed(Detach(s, p), b, now);
    UnpinUsed(Unpin(Detach(s, p), b), victim, now);
  }

  lemma SwapUsed(s: Pool, oldB: string, newB: string, now: int)
    ensures UsedFrom(s.lastUsed, Swap(s, oldB, newB, now).lastUsed, now)
  {
    hide Unpin;
    UnpinUsed(s, newB, now);
    UnpinUsed(Unpin(s, newB), oldB, now);
  }

  lemma StepUsed(y: System, a: Action, now: int)
    requires Time(a).Some? ==> Time(a).value == now
    ensures UsedFrom(y.pool.lastUsed, Next(y, a).pool.lastUsed, now)
  {
    hide Acquire, Pin, Swap, Unpin, Drop, Running;
    match a
    case AcquireFor(b, _, victim) => AcquireUsed(y.pool, b, y.alive, now, victim);
    case PinTo(p, b, _, victim) => PinUsed(y.pool, p, b, now, victim);
    case SwapTo(oldB, newB, _) => SwapUsed(y.pool, oldB, newB, now);
    case IdleTimer(p) =>
      var s1 := y.pool.(idle := Drop(y.pool.idle, p));
      if p in s1.pinRev { UnpinUsed(s1, s1.pinRev[p], now); }
    case TtlTimer(c) => UnpinUsed(y.pool, c.build, now);
    case _ =>
  }

  lemma StepLater(y: System, a: Action, clock: int)
    requires Later(y.pool.lastUsed, clock + 1) && (Time(a).Some? ==> clock < Time(a).value)
    ensures Later(Next(y, a).pool.lastUsed, Clock(clock, a) + 1)
  {
    hide Next;
    StepUsed(y, a, Clock(clock, a));
  }

  /** Every step takes the pins and their list together. */
  lemma StepAges(order: seq<string>, y: System, a: Action, clock: int)
    requires PinsOk(y.pool) && Enabled(y, a) && Recency(order, y.pool.lastUsed)
    requires Later(y.pool.lastUsed, clock + 1) && (Time(a).Some? ==> clock < Time(a).value)
    ensures Recency(ListStep(order, y, a), Next(y, a).pool.lastUsed)
  {
    hide PinsOk, Increasing, Acquire, Pin, Swap, Unpin, Drop, Running, ListPin, Without, WithoutFirst, StealVictim,
        PinVictim;
    match a
    case AcquireFor(b, now, victim) => AcquireAges(order, y, b, now, victim);
    case PinTo(p, b, now, victim) =>
      if b != "" && y.pool.maxPins > 0 { PinIsListPin(order, y.pool, p, b, now, victim); }
    case SwapTo(oldB, newB, now) =>
      if oldB != "" && newB != "" && oldB != newB && oldB in y.pool.pinProc {
        SwapIsListSwap(order, y.pool, oldB, newB, now);
      }
    case IdleTimer(p) =>
      var s1 := y.pool.(idle := Drop(y.pool.idle, p));
      PinsFrame(y.pool, s1);
      if p in s1.pinRev { RecencyUnpin(order, s1, s1.pinRev[p]); }
    case TtlTimer(c) => RecencyUnpin(order, y.pool, c.build);
    case Stop => NoPins();
    case _ =>
  }

  lemma NoPins()
    ensures Recency([], map[])
  {
  }

  // ---------------------------------------------------------------- runs

  function ListRun(order: seq<string>, y: System, actions: seq<Action>): seq<string>
    decreases |actions|
  {
    if actions == [] then order else ListRun(ListStep(order, y, actions[0]), Next(y, actions[0]), actions[1..])
  }

  lemma {:induction false} RunAges(order: seq<string>, y: System, actions: seq<Action>, clock: int)
    requires Inv(y) && Legal(y, actions) && Ticks(clock, actions)
    requires Recency(order, y.pool.lastUsed) && Later(y.pool.lastUsed, clock + 1)
    ensures Recency(ListRun(order, y, actions), Run(y, actions).pool.lastUsed)
    decreases |actions|
  {
    hide Accounted, PinsOk, Armed, Watched, Next, Enabled, Recency, Later, ListStep, Time;
    if actions != [] {
      StepAges(order, y, actions[0], clock);
      StepLater(y, actions[0], clock);
      StepInv(y, actions[0]);
      RunAges(ListStep(order, y, actions[0]), Next(y, actions[0]), actions[1..], Clock(clock, actions[0]));
    }
  }

  /** Under a strictly increasing clock, at every point of every interleaving the pins and their use times
      are those of the list that the steps build up from the empty one, and the list is never longer than
      the pin limit. */
  lemma PinsAgeAsList(maxSize: nat, actions: seq<Action>, clock: int)
    requires Legal(Start(maxSize), actions) && Ticks(clock, actions)
    ensures var y, order := Run(Start(maxSize), actions), ListRun([], Start(maxSize), actions);
            Recency(order, y.pool.lastUsed) && y.pool.lastUsed.Keys == y.pool.pinProc.Keys && |order| <= maxSize
  {
    hide Accounted, Armed, Watched, Legal, Run, ListRun, Recency, Ticks, NoDup, Inverse;
    StartInv(maxSize);
    NoPins();
    RunAges([], Start(maxSize), actions, clock);
    PoolSafe(maxSize, actions);
    var y := Run(Start(maxSize), actions);
    RecencyCount(ListRun([], Start(maxSize), actions), y.pool.lastUsed);
    PinCount(y.pool);
  }
}
