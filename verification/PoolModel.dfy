/** The process pool as a value: the idle list, the busy counter and the four affinity maps, and what
    each operation does to them while the lock is held. Processes are opaque handles; whether one is
    alive is known to the environment only. */
module PoolModel {
  import opened Options

  datatype Proc = Proc(handle: nat)

  datatype Pool = Pool(
    idle: seq<Proc>, busy: int, maxSize: int, maxPins: int,
    pinProc: map<string, Proc>, pinRev: map<Proc, string>,
    lastUsed: map<string, int>, epoch: map<string, nat>)

  /** What an acquire returns when it gives up the lock; `MustSpawn` has reserved a busy slot. */
  datatype Acquired = Got(proc: Proc) | MustSpawn | Exhausted

  // ---------------------------------------------------------------- affinity

  ghost predicate Inverse(proc: map<string, Proc>, rev: map<Proc, string>) {
    && (forall b | b in proc :: proc[b] in rev && rev[proc[b]] == b)
    && (forall p | p in rev :: rev[p] in proc && proc[rev[p]] == p)
  }

  /** The four affinity maps agree on what is pinned, and no more is pinned than allowed. */
  ghost predicate PinsOk(s: Pool) {
    && Inverse(s.pinProc, s.pinRev)
    && s.pinProc.Keys == s.lastUsed.Keys == s.epoch.Keys
    && |s.pinProc| <= (if s.maxPins < 0 then 0 else s.maxPins)
    && "" !in s.pinProc
    && forall b | b in s.epoch :: s.epoch[b] >= 1
  }

  function Unpin(s: Pool, b: string): Pool {
    if b !in s.pinProc then s
    else s.(pinProc := s.pinProc - {b}, pinRev := s.pinRev - {s.pinProc[b]},
            lastUsed := s.lastUsed - {b}, epoch := s.epoch - {b})
  }

  function EpochOf(s: Pool, b: string): nat {
    if b in s.epoch then s.epoch[b] else 0
  }

  function Touch(s: Pool, b: string, now: int): Pool {
    s.(lastUsed := s.lastUsed[b := now], epoch := s.epoch[b := EpochOf(s, b) + 1])
  }

  function Install(s: Pool, p: Proc, b: string, now: int): Pool {
    Touch(s.(pinProc := s.pinProc[b := p], pinRev := s.pinRev[p := b]), b, now)
  }

  /** `b` is a least recently used pin. */
  ghost predicate Oldest(s: Pool, b: string) {
    b in s.lastUsed && forall c | c in s.lastUsed :: s.lastUsed[b] <= s.lastUsed[c]
  }

  function Detach(s: Pool, p: Proc): Pool {
    if p in s.pinRev then Unpin(s, s.pinRev[p]) else s
  }

  /** Pin installs `b` for `p`; `victim` names the pin evicted when the map is full. */
  function Pin(s: Pool, p: Proc, b: string, now: int, victim: string): Pool {
    if b == "" || s.maxPins <= 0 then s
    else if p in s.pinRev && s.pinRev[p] == b then Touch(s, b, now)
    else
      var s1 := Unpin(Detach(s, p), b);
      Install(if |s1.pinProc| >= s.maxPins then Unpin(s1, victim) else s1, p, b, now)
  }

  ghost predicate PinVictim(s: Pool, p: Proc, b: string, victim: string) {
    var s1 := Unpin(Detach(s, p), b);
    s.maxPins > 0 && |s1.pinProc| >= s.maxPins ==> Oldest(s1, victim)
  }

  function Swap(s: Pool, oldB: string, newB: string, now: int): Pool {
    if oldB == "" || newB == "" || oldB == newB || oldB !in s.pinProc then s
    else Install(Unpin(Unpin(s, newB), oldB), s.pinProc[oldB], newB, now)
  }

  // ---------------------------------------------------------------- the idle list

  /** The list without its first occurrence of `p`. */
  function Drop(idle: seq<Proc>, p: Proc): seq<Proc> {
    if idle == [] then []
    else if idle[0] == p then idle[1..]
    else [idle[0]] + Drop(idle[1..], p)
  }

  ghost predicate NoDup(idle: seq<Proc>) {
    forall i, j | 0 <= i < j < |idle| :: idle[i] != idle[j]
  }

  /** From the back: pinned processes are passed over, dead unpinned ones discarded, and the first
      live unpinned one is taken. */
  function PopUnpinned(idle: seq<Proc>, rev: map<Proc, string>, alive: set<Proc>): (seq<Proc>, Option<Proc>) {
    if idle == [] then ([], None)
    else
      var last, init := idle[|idle| - 1], idle[..|idle| - 1];
      if last in rev then
        var (rest, found) := PopUnpinned(init, rev, alive);
        (rest + [last], found)
      else if last in alive then (init, Some(last))
      else PopUnpinned(init, rev, alive)
  }

  /** A pin hit: the process pinned to `b`, if it is idle. A dead one is discarded with its pin. */
  function TakePinned(s: Pool, b: string, alive: set<Proc>, now: int): (Pool, Option<Proc>) {
    if b !in s.pinProc || s.pinProc[b] !in s.idle then (s, None)
    else
      var p := s.pinProc[b];
      var s1 := s.(idle := Drop(s.idle, p));
      if p !in alive then (Unpin(s1, b), None)
      else (Touch(s1.(busy := s1.busy + 1), b, now), Some(p))
  }

  /** `b` is a least recently used pin among those whose process is idle. */
  ghost predicate OldestIdle(s: Pool, b: string) {
    && b in s.pinProc && b in s.lastUsed && s.pinProc[b] in s.idle
    && forall c | c in s.pinProc && s.pinProc[c] in s.idle && c in s.lastUsed :: s.lastUsed[b] <= s.lastUsed[c]
  }

  ghost predicate SomePinnedIdle(s: Pool) {
    exists b :: b in s.pinProc && s.pinProc[b] in s.idle
  }

  /** Takes over the process pinned to `victim`, if it is alive; its pin goes either way. */
  function Steal(s: Pool, victim: string, alive: set<Proc>): (Pool, Option<Proc>) {
    if victim !in s.pinProc then (s, None)
    else
      var p := s.pinProc[victim];
      var s1 := Unpin(s, victim).(idle := Drop(s.idle, p));
      if p in alive then (s1.(busy := s1.busy + 1), Some(p)) else (s1, None)
  }

  /** State and outcome after the first two attempts: pin hit, then unpinned idle. */
  function FirstAttempts(s: Pool, b: string, alive: set<Proc>, now: int): (Pool, Option<Proc>) {
    var (s1, hit) := if b == "" then (s, None) else TakePinned(s, b, alive, now);
    if hit.Some? then (s1, hit)
    else
      var (idle, found) := PopUnpinned(s1.idle, s1.pinRev, alive);
      (s1.(idle := idle, busy := if found.Some? then s1.busy + 1 else s1.busy), found)
  }

  /** The five attempts in order. `victim` is the pin considered for stealing when there is one. */
  function Acquire(s: Pool, b: string, alive: set<Proc>, now: int, victim: string): (Pool, Acquired) {
    var (s2, found) := FirstAttempts(s, b, alive, now);
    if found.Some? then (s2, Got(found.value))
    else if s2.busy + |s2.idle| < s2.maxSize then (s2.(busy := s2.busy + 1), MustSpawn)
    else
      var (s3, stolen) := Steal(s2, victim, alive);
      (s3, if stolen.Some? then Got(stolen.value) else Exhausted)
  }

  ghost predicate StealVictim(s: Pool, b: string, alive: set<Proc>, now: int, victim: string) {
    var s2 := FirstAttempts(s, b, alive, now).0;
    if SomePinnedIdle(s2) then OldestIdle(s2, victim) else victim == ""
  }

  function Release(s: Pool, p: Proc, alive: set<Proc>): Pool {
    s.(busy := s.busy - 1, idle := if p in alive then s.idle + [p] else s.idle)
  }

  /** The idle timer of `p` fires: whatever `p` is doing, it leaves the list, loses its pin and is killed. */
  function KillIdle(s: Pool, p: Proc): Pool {
    Detach(s.(idle := Drop(s.idle, p)), p)
  }

  /** A TTL timer armed for `b` at `epoch` runs. */
  function Expire(s: Pool, b: string, epoch: nat): Pool {
    if EpochOf(s, b) != epoch then s else Unpin(s, b)
  }

  function Shutdown(s: Pool): Pool {
    s.(idle := [], pinProc := map[], pinRev := map[], lastUsed := map[], epoch := map[])
  }

  // ---------------------------------------------------------------- affinity is kept consistent

  lemma UnpinOk(s: Pool, b: string)
    requires PinsOk(s)
    ensures PinsOk(Unpin(s, b)) && b !in Unpin(s, b).pinProc
    ensures b in s.pinProc ==> |Unpin(s, b).pinProc| == |s.pinProc| - 1
  {
    hide Inverse;
    if b in s.pinProc {
      var s' := Unpin(s, b);
      InverseRemove(s.pinProc, s.pinRev, b);
      assert s'.pinProc.Keys == s.pinProc.Keys - {b};
      assert |s'.pinProc.Keys| == |s.pinProc.Keys| - 1;
    }
  }

  lemma TouchOk(s: Pool, b: string, now: int)
    requires PinsOk(s) && b in s.pinProc
    ensures PinsOk(Touch(s, b, now))
  {
  }

  lemma InstallOk(s: Pool, p: Proc, b: string, now: int)
    requires PinsOk(s) && b !in s.pinProc && p !in s.pinRev && b != "" && |s.pinProc| < s.maxPins
    ensures PinsOk(Install(s, p, b, now))
    ensures forall c :: c in Install(s, p, b, now).pinProc <==> c in s.pinProc || c == b
  {
    hide Inverse;
    var s' := Install(s, p, b, now);
    InverseAdd(s.pinProc, s.pinRev, p, b);
    assert s'.pinProc.Keys == s.pinProc.Keys + {b};
    assert |s'.pinProc.Keys| == |s.pinProc.Keys| + 1;
  }

  lemma InverseAdd(proc: map<string, Proc>, rev: map<Proc, string>, p: Proc, b: string)
    requires Inverse(proc, rev) && b !in proc && p !in rev
    ensures Inverse(proc[b := p], rev[p := b])
  {
  }

  lemma InverseRemove(proc: map<string, Proc>, rev: map<Proc, string>, b: string)
    requires Inverse(proc, rev) && b in proc
    ensures Inverse(proc - {b}, rev - {proc[b]})
  {
  }

  lemma PinOk(s: Pool, p: Proc, b: string, now: int, victim: string)
    requires PinsOk(s) && PinVictim(s, p, b, victim)
    ensures PinsOk(Pin(s, p, b, now, victim))
  {
    hide PinsOk, Unpin, Install, Touch;
    if b != "" && s.maxPins > 0 {
      if p in s.pinRev && s.pinRev[p] == b {
        PinsFacts(s);
        TouchOk(s, b, now);
      } else {
        Unpinned(s, p, b);
        var s1 := Unpin(Detach(s, p), b);
        PinsFacts(s1);
        UnpinOk(s1, victim);
        UnpinFrame(s1, victim, p, b);
        InstallOk(if |s1.pinProc| >= s.maxPins then Unpin(s1, victim) else s1, p, b, now);
      }
    }
  }

  lemma PinsFacts(s: Pool)
    requires PinsOk(s)
    ensures forall p | p in s.pinRev :: s.pinRev[p] in s.pinProc && s.pinProc[s.pinRev[p]] == p
    ensures forall b | b in s.pinProc ::
        b in s.lastUsed && b in s.epoch && b != "" && s.pinProc[b] in s.pinRev
        && s.pinRev[s.pinProc[b]] == b
    ensures forall b | b in s.lastUsed || b in s.epoch :: b in s.pinProc
    ensures |s.pinProc| <= (if s.maxPins < 0 then 0 else s.maxPins)
  {
  }

  /** After dropping `p`'s pin and `b`'s pin neither is left, and nothing was added. */
  lemma Unpinned(s: Pool, p: Proc, b: string)
    requires PinsOk(s)
    ensures var s1 := Unpin(Detach(s, p), b);
            PinsOk(s1) && p !in s1.pinRev && b !in s1.pinProc && s1.maxPins == s.maxPins && s1.idle == s.idle
                && s1.busy == s.busy && s1.maxSize == s.maxSize
  {
    hide PinsOk;
    if p in s.pinRev { UnpinOk(s, s.pinRev[p]); }
    PinsFacts(s);
    UnpinOk(Detach(s, p), b);
  }

  lemma UnpinFrame(s: Pool, v: string, p: Proc, b: string)
    ensures var s' := Unpin(s, v);
            && (p !in s.pinRev ==> p !in s'.pinRev) && (b !in s.pinProc ==> b !in s'.pinProc)
            && s'.maxPins == s.maxPins && s'.idle == s.idle && s'.busy == s.busy && s'.maxSize == s.maxSize
  {
  }

  lemma SwapOk(s: Pool, oldB: string, newB: string, now: int)
    requires PinsOk(s)
    ensures PinsOk(Swap(s, oldB, newB, now))
  {
    hide PinsOk, Unpin, Install;
    if oldB != "" && newB != "" && oldB != newB && oldB in s.pinProc {
      SwapParts(s, oldB, newB);
      InstallOk(Unpin(Unpin(s, newB), oldB), s.pinProc[oldB], newB, now);
    }
  }

  lemma SwapParts(s: Pool, oldB: string, newB: string)
    requires PinsOk(s) && oldB != newB && oldB in s.pinProc
    ensures var s1 := Unpin(Unpin(s, newB), oldB);
            PinsOk(s1) && newB !in s1.pinProc && s.pinProc[oldB] !in s1.pinRev && |s1.pinProc| < s1.maxPins
                && s1.maxPins == s.maxPins
  {
    hide PinsOk;
    UnpinOk(s, newB);
    UnpinOk(Unpin(s, newB), oldB);
    PinsFacts(s);
    PinsFacts(Unpin(s, newB));
  }

  // ---------------------------------------------------------------- idle list facts

  lemma {:induction false} DropFacts(idle: seq<Proc>, p: Proc)
    ensures p !in idle ==> Drop(idle, p) == idle
    ensures p in idle ==> |Drop(idle, p)| == |idle| - 1
    ensures forall q | q in Drop(idle, p) :: q in idle
    ensures forall q | q in idle && q != p :: q in Drop(idle, p)
    ensures NoDup(idle) ==> NoDup(Drop(idle, p)) && p !in Drop(idle, p)
  {
    if idle != [] && idle[0] != p {
      DropFacts(idle[1..], p);
      var d := Drop(idle[1..], p);
      assert forall q :: q in idle <==> q == idle[0] || q in idle[1..];
      if NoDup(idle) {
        assert forall i | 0 <= i < |d| :: d[i] in d;
      }
    }
  }

  lemma {:induction false} DropAt(idle: seq<Proc>, p: Proc, i: nat)
    requires i < |idle| && idle[i] == p && p !in idle[..i]
    ensures Drop(idle, p) == idle[..i] + idle[i + 1..]
  {
    if i > 0 {
      assert idle[..i] == [idle[0]] + idle[1..][..i - 1];
      DropAt(idle[1..], p, i - 1);
    }
  }

  /** The result keeps exactly the pinned processes behind the one taken, and everything before it. */
  lemma {:induction false} PopFacts(idle: seq<Proc>, rev: map<Proc, string>, alive: set<Proc>)
    ensures var (rest, found) := PopUnpinned(idle, rev, alive);
            && (found.Some? ==> found.value in idle && found.value !in rev && found.value in alive && |rest| < |idle|)
            && (found.None? ==> forall q | q in idle && q !in rev :: q !in alive)
            && (found.None? ==> forall q :: q in rest <==> q in idle && q in rev)
            && |rest| <= |idle|
            && (forall q | q in rest :: q in idle)
            && (forall q | q in idle && q in rev :: q in rest)
            && (NoDup(idle) ==> NoDup(rest) && (found.Some? ==> found.value !in rest))
  {
    if idle != [] {
      var last, init := idle[|idle| - 1], idle[..|idle| - 1];
      PopFacts(init, rev, alive);
      assert forall q :: q in idle <==> q == last || q in init;
      if NoDup(idle) { assert last !in init; }
      var (rest, found) := PopUnpinned(init, rev, alive);
      assert forall i | 0 <= i < |rest| :: rest[i] in rest;
    }
  }
}
