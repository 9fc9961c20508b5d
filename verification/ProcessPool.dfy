/** The pool as the program runs it: fields updated in place by methods that hold the lock, with
    loops over the idle list and over the pins. `alive` answers the liveness checks made while the
    lock is held; no process is checked twice in one critical section. `now` is the clock reading. */
module ProcessPool {
  import opened Options
  import opened PoolModel
  import opened Sets

  class LockedPool {
    var idle: seq<Proc>
    var busy: int
    const maxSize: int
    const affinityMaxPins: int
    var affinityProc: map<string, Proc>
    var affinityRev: map<Proc, string>
    var affinityLastUsed: map<string, int>
    var affinityEpoch: map<string, nat>

    ghost function State(): Pool
      reads this
    {
      Pool(idle, busy, maxSize, affinityMaxPins, affinityProc, affinityRev, affinityLastUsed, affinityEpoch)
    }

    constructor (poolMax: int)
      ensures State() == Pool([], 0, poolMax, poolMax, map[], map[], map[], map[])
    {
      idle, busy := [], 0;
      maxSize, affinityMaxPins := poolMax, poolMax;
      affinityProc, affinityRev, affinityLastUsed, affinityEpoch := map[], map[], map[], map[];
    }

    method RemoveFromIdle(proc: Proc) returns (removed: bool)
      modifies this`idle
      ensures removed <==> proc in old(idle)
      ensures State() == old(State()).(idle := Drop(old(idle), proc))
    {
      hide Drop, NoDup;
      var i := 0;
      while i < |idle| && idle[i] != proc
        invariant 0 <= i <= |idle| && proc !in idle[..i]
      {
        i := i + 1;
      }
      if i == |idle| {
        assert idle[..i] == idle;
        DropFacts(idle, proc);
        return false;
      }
      DropAt(idle, proc, i);
      idle := idle[..i] + idle[i + 1..];
      return true;
    }

    method UnpinLocked(buildID: string)
      modifies this
      ensures State() == Unpin(old(State()), buildID)
    {
      if buildID !in affinityProc {
        return;
      }
      var proc := affinityProc[buildID];
      affinityProc := affinityProc - {buildID};
      affinityRev := affinityRev - {proc};
      affinityLastUsed := affinityLastUsed - {buildID};
      affinityEpoch := affinityEpoch - {buildID};
    }

    /** Also arms a timer whose closure captures `buildID` and the returned epoch. */
    method TouchAffinity(buildID: string, now: int) returns (epoch: nat)
      modifies this`affinityLastUsed, this`affinityEpoch
      ensures State() == Touch(old(State()), buildID, now)
      ensures epoch == EpochOf(State(), buildID)
    {
      affinityLastUsed := affinityLastUsed[buildID := now];
      affinityEpoch := affinityEpoch[buildID := (if buildID in affinityEpoch then affinityEpoch[buildID] else 0) + 1];
      epoch := affinityEpoch[buildID];
    }

    method TakePinnedIdle(buildID: string, alive: set<Proc>, now: int) returns (r: Option<Proc>)
      modifies this
      ensures (State(), r) == TakePinned(old(State()), buildID, alive, now)
    {
      if buildID !in affinityProc {
        return None;
      }
      var proc := affinityProc[buildID];
      DropFacts(idle, proc);
      var removed := RemoveFromIdle(proc);
      if !removed {
        return None;
      }
      if proc !in alive {
        UnpinLocked(buildID);
        return None;
      }
      busy := busy + 1;
      var epoch := TouchAffinity(buildID, now);
      return Some(proc);
    }

    method PopUnpinnedIdle(alive: set<Proc>) returns (r: Option<Proc>)
      modifies this`idle, this`busy
      ensures var (rest, found) := PopUnpinned(old(idle), affinityRev, alive);
              r == found && State() == old(State()).(idle := rest, busy := if found.Some? then old(busy) + 1
                  else old(busy))
    {
      hide PopUnpinned, Popped;
      ghost var whole := PopUnpinned(idle, affinityRev, alive);
      var i := |idle| - 1;
      PoppedAll(idle, affinityRev, alive);
      while i >= 0
        invariant -1 <= i < |idle| && busy == old(busy)
        invariant whole == Popped(idle, i + 1, affinityRev, alive)
      {
        var proc := idle[i];
        PopStep(idle, i, affinityRev, alive);
        if proc in affinityRev {
          i := i - 1;
          continue;
        }
        idle := idle[..i] + idle[i + 1..];
        if proc !in alive {
          i := i - 1;
          continue;
        }
        busy := busy + 1;
        return Some(proc);
      }
      PoppedNone(idle, affinityRev, alive);
      return None;
    }

    /** The least recently used pin of all, "" when there is none. Pins are visited in any order. */
    method LruPin() returns (oldestID: string)
      requires "" !in affinityLastUsed
      ensures if affinityLastUsed == map[] then oldestID == "" else Oldest(State(), oldestID)
    {
      oldestID := "";
      var oldestTime, first := 0, true;
      var todo := affinityLastUsed.Keys;
      while todo != {}
        invariant todo <= affinityLastUsed.Keys
        invariant first ==> todo == affinityLastUsed.Keys && oldestID == ""
        invariant !first ==> oldestID in affinityLastUsed && oldestTime == affinityLastUsed[oldestID]
        invariant !first ==> forall c | c in affinityLastUsed && c !in todo :: oldestTime <= affinityLastUsed[c]
        decreases todo
      {
        ghost var some := SomeElement(todo);
        var id :| id in todo;
        todo := todo - {id};
        var t := affinityLastUsed[id];
        if first || t < oldestTime {
          oldestID, oldestTime, first := id, t, false;
        }
      }
    }

    method StealLRUPinnedIdle(alive: set<Proc>) returns (r: Option<Proc>, ghost victim: string)
      requires PinsOk(State())
      modifies this
      ensures if SomePinnedIdle(old(State())) then OldestIdle(old(State()), victim) else victim == ""
      ensures (State(), r) == Steal(old(State()), victim, alive)
    {
      hide PinsOk, Unpin, Drop, OldestIdle, SomePinnedIdle;
      ghost var s0 := State();
      PinsFacts(s0);
      var oldestID := "";
      var oldestTime, first := 0, true;
      var todo := affinityProc.Keys;
      while todo != {}
        invariant todo <= affinityProc.Keys && State() == s0
        invariant forall c | c in affinityProc :: c in affinityLastUsed && c != ""
        invariant first ==> oldestID == ""
        invariant first ==> forall c | c in affinityProc && c !in todo :: affinityProc[c] !in idle
        invariant !first ==>
            oldestID in affinityProc && affinityProc[oldestID] in idle && oldestID in affinityLastUsed
            && oldestTime == affinityLastUsed[oldestID]
        invariant !first ==> forall c | c in affinityProc && c !in todo && affinityProc[c] in idle
            && c in affinityLastUsed :: oldestTime <= affinityLastUsed[c]
        decreases todo
      {
        ghost var some := SomeElement(todo);
        var id :| id in todo;
        todo := todo - {id};
        var proc := affinityProc[id];
        if proc !in idle {
          continue;
        }
        var t := affinityLastUsed[id];
        if first || t < oldestTime {
          oldestID, oldestTime, first := id, t, false;
        }
      }
      victim := oldestID;
      Scanned(s0, first, victim, oldestTime);
      if oldestID == "" {
        return None, victim;
      }
      var proc := affinityProc[oldestID];
      UnpinFrame(s0, oldestID, proc, "");
      UnpinLocked(oldestID);
      var removed := RemoveFromIdle(proc);
      if proc !in alive {
        return None, victim;
      }
      busy := busy + 1;
      return Some(proc), victim;
    }

    /** Up to the point where the lock is dropped to spawn a process. */
    method AcquireForBuild(buildID: string, alive: set<Proc>, now: int) returns (r: Acquired, ghost victim: string)
      requires PinsOk(State())
      modifies this
      ensures StealVictim(old(State()), buildID, alive, now, victim)
      ensures (State(), r) == PoolModel.Acquire(old(State()), buildID, alive, now, victim)
    {
      hide PinsOk, TakePinned, PopUnpinned, Steal, SomePinnedIdle, OldestIdle;
      victim := "";
      ghost var s0 := State();
      if buildID != "" {
        var hit := TakePinnedIdle(buildID, alive, now);
        TakePinnedOk(s0, buildID, alive, now);
        if hit.Some? {
          victim := AnyVictim(s0, buildID, alive, now);
          return Got(hit.value), victim;
        }
      }
      ghost var s1 := State();
      var found := PopUnpinnedIdle(alive);
      if found.Some? {
        victim := AnyVictim(s0, buildID, alive, now);
        return Got(found.value), victim;
      }
      if busy + |idle| < maxSize {
        busy := busy + 1;
        victim := AnyVictim(s0, buildID, alive, now);
        return MustSpawn, victim;
      }
      SamePins(s1, State());
      var stolen;
      stolen, victim := StealLRUPinnedIdle(alive);
      if stolen.Some? {
        return Got(stolen.value), victim;
      }
      return Exhausted, victim;
    }

    method SpawnFailed()
      modifies this`busy
      ensures State() == old(State()).(busy := old(busy) - 1)
    {
      busy := busy - 1;
    }

    method Pin(proc: Proc, buildID: string, now: int) returns (ghost victim: string)
      requires PinsOk(State())
      modifies this
      ensures PinVictim(old(State()), proc, buildID, victim)
      ensures State() == PoolModel.Pin(old(State()), proc, buildID, now, victim)
    {
      hide PinsOk, Unpin, Touch, Oldest;
      ghost var s0 := State();
      victim := PinVictimExists(s0, proc, buildID);
      if buildID == "" {
        return;
      }
      if affinityMaxPins <= 0 {
        return;
      }
      if proc in affinityRev {
        var oldID := affinityRev[proc];
        if oldID == buildID {
          var refreshed := TouchAffinity(buildID, now);
          return;
        }
        UnpinLocked(oldID);
      }
      Unpinned(s0, proc, buildID);
      DetachOk(s0, proc);
      if buildID in affinityProc && affinityProc[buildID] != proc {
        UnpinLocked(buildID);
      }
      ghost var s1 := Unpin(Detach(s0, proc), buildID);
      NotPinnedTo(Detach(s0, proc), proc, buildID);
      assert State() == s1;
      PinsFacts(s1);
      while |affinityProc| >= affinityMaxPins
        invariant PinsOk(State()) && maxSize == s0.maxSize && affinityMaxPins == s0.maxPins
        invariant State() == s1 || (|s1.pinProc| >= s1.maxPins && Oldest(s1, victim) && State() == Unpin(s1, victim)
            && |affinityProc| < affinityMaxPins)
        decreases |affinityProc|
      {
        PinsFacts(State());
        var candidate := LruPin();
        NoPins(State());
        if candidate == "" {
          break;
        }
        victim := candidate;
        OldestPinned(State(), candidate);
        UnpinOk(State(), candidate);
        UnpinLocked(candidate);
      }
      affinityProc := affinityProc[buildID := proc];
      affinityRev := affinityRev[proc := buildID];
      var epoch := TouchAffinity(buildID, now);
    }

    method SwapAffinity(oldBuildID: string, newBuildID: string, now: int)
      requires PinsOk(State())
      modifies this
      ensures State() == Swap(old(State()), oldBuildID, newBuildID, now)
    {
      hide PinsOk, Unpin, Touch;
      if oldBuildID == "" || newBuildID == "" || oldBuildID == newBuildID {
        return;
      }
      if oldBuildID !in affinityProc {
        return;
      }
      var proc := affinityProc[oldBuildID];
      PinsFacts(State());
      if newBuildID in affinityProc && affinityProc[newBuildID] != proc {
        UnpinLocked(newBuildID);
      } else {
        UnpinAbsent(State(), newBuildID);
      }
      UnpinLocked(oldBuildID);
      affinityProc := affinityProc[newBuildID := proc];
      affinityRev := affinityRev[proc := newBuildID];
      var epoch := TouchAffinity(newBuildID, now);
    }

    method UnpinIfEpochCurrent(buildID: string, epoch: nat)
      modifies this
      ensures State() == Expire(old(State()), buildID, epoch)
    {
      if (if buildID in affinityEpoch then affinityEpoch[buildID] else 0) != epoch {
        return;
      }
      UnpinLocked(buildID);
    }

    method Release(proc: Proc, alive: set<Proc>)
      modifies this`idle, this`busy
      ensures State() == PoolModel.Release(old(State()), proc, alive)
    {
      busy := busy - 1;
      if proc !in alive {
        return;
      }
      idle := idle + [proc];
    }

    /** The caller kills `proc` afterwards, still under the lock. */
    method KillIdle(proc: Proc)
      modifies this
      ensures State() == PoolModel.KillIdle(old(State()), proc)
    {
      var removed := RemoveFromIdle(proc);
      if proc in affinityRev {
        UnpinLocked(affinityRev[proc]);
      }
    }

    method Shutdown()
      modifies this
      ensures State() == PoolModel.Shutdown(old(State()))
    {
      affinityProc, affinityRev, affinityLastUsed, affinityEpoch := map[], map[], map[], map[];
      idle := [];
    }
  }

  // ---------------------------------------------------------------- support for the methods above

  /** What the scan over the pins has found when it has seen all of them. */
  lemma Scanned(s: Pool, none: bool, oldest: string, time: int)
    requires forall c | c in s.pinProc :: c in s.lastUsed && c != ""
    requires none ==> oldest == "" && forall c | c in s.pinProc :: s.pinProc[c] !in s.idle
    requires !none ==>
        oldest in s.pinProc && s.pinProc[oldest] in s.idle && oldest in s.lastUsed
        && time == s.lastUsed[oldest]
    requires !none ==> forall c | c in s.pinProc && s.pinProc[c] in s.idle && c in s.lastUsed :: time <= s.lastUsed[c]
    ensures if SomePinnedIdle(s) then OldestIdle(s, oldest) else oldest == ""
    ensures "" !in s.pinProc
  {
  }

  /** What is popped when everything from `i` on has been passed over. */
  ghost function Popped(idle: seq<Proc>, i: nat, rev: map<Proc, string>, alive: set<Proc>): (seq<Proc>, Option<Proc>)
    requires i <= |idle|
  {
    var (rest, found) := PopUnpinned(idle[..i], rev, alive);
    (rest + idle[i..], found)
  }

  lemma PopStep(idle: seq<Proc>, i: nat, rev: map<Proc, string>, alive: set<Proc>)
    requires i < |idle|
    ensures var without := idle[..i] + idle[i + 1..];
            Popped(idle, i + 1, rev, alive) ==
              if idle[i] in rev then Popped(idle, i, rev, alive)
              else if idle[i] in alive then (without, Some(idle[i]))
              else Popped(without, i, rev, alive)
  {
    var without := idle[..i] + idle[i + 1..];
    assert idle[..i + 1][..i] == idle[..i];
    assert idle[i..] == [idle[i]] + idle[i + 1..];
    assert without[..i] == idle[..i] && without[i..] == idle[i + 1..];
    var part := PopUnpinned(idle[..i], rev, alive);
    assert (part.0 + [idle[i]]) + idle[i + 1..] == part.0 + idle[i..];
  }

  lemma PoppedAll(idle: seq<Proc>, rev: map<Proc, string>, alive: set<Proc>)
    ensures Popped(idle, |idle|, rev, alive) == PopUnpinned(idle, rev, alive)
  {
    hide PopUnpinned;
    assert idle[..|idle|] == idle && idle[|idle|..] == [];
    var whole := PopUnpinned(idle, rev, alive);
    assert whole.0 + [] == whole.0;
  }

  lemma PoppedNone(idle: seq<Proc>, rev: map<Proc, string>, alive: set<Proc>)
    ensures Popped(idle, 0, rev, alive) == (idle, None)
  {
    assert idle[..0] == [] && [] + idle[0..] == idle;
  }

  lemma TakePinnedOk(s: Pool, b: string, alive: set<Proc>, now: int)
    requires PinsOk(s)
    ensures PinsOk(TakePinned(s, b, alive, now).0)
  {
    hide PinsOk, Unpin, Touch;
    if b in s.pinProc && s.pinProc[b] in s.idle {
      var s1 := s.(idle := Drop(s.idle, s.pinProc[b]));
      SamePins(s, s1);
      SamePins(s, s1.(busy := s1.busy + 1));
      UnpinOk(s1, b);
      TouchOk(s1.(busy := s1.busy + 1), b, now);
    }
  }

  lemma SamePins(s: Pool, s': Pool)
    requires PinsOk(s) && s' == s.(idle := s'.idle, busy := s'.busy)
    ensures PinsOk(s')
  {
  }

  lemma AnyVictim(s: Pool, b: string, alive: set<Proc>, now: int) returns (victim: string)
    requires PinsOk(s)
    ensures StealVictim(s, b, alive, now, victim)
  {
    hide PinsOk, TakePinned, PopUnpinned;
    TakePinnedOk(s, b, alive, now);
    var s1 := if b == "" then s else TakePinned(s, b, alive, now).0;
    var s2 := FirstAttempts(s, b, alive, now).0;
    SamePins(s1, s2);
    PinsFacts(s2);
    victim := "";
    if c :| c in s2.pinProc && s2.pinProc[c] in s2.idle {
      victim := OldestIdleExists(s2, c, s2.pinProc.Keys);
    }
  }

  /** Among the pins in `keys` whose process is idle there is a least recently used one. */
  lemma {:induction false} OldestIdleExists(s: Pool, seen: string, keys: set<string>) returns (victim: string)
    requires seen in s.pinProc && s.pinProc[seen] in s.idle && s.pinProc.Keys == s.lastUsed.Keys
        && keys <= s.pinProc.Keys
    ensures victim in s.pinProc && s.pinProc[victim] in s.idle && s.lastUsed[victim] <= s.lastUsed[seen]
    ensures forall c | c in keys && c in s.pinProc && s.pinProc[c] in s.idle :: s.lastUsed[victim] <= s.lastUsed[c]
    decreases keys
  {
    if keys == {} {
      victim := seen;
    } else {
      var k := SomeElement(keys);
      victim := OldestIdleExists(s, seen, keys - {k});
      if s.pinProc[k] in s.idle && s.lastUsed[k] < s.lastUsed[victim] {
        victim := k;
      }
    }
  }

  lemma PinVictimExists(s: Pool, p: Proc, b: string) returns (victim: string)
    requires PinsOk(s)
    ensures PinVictim(s, p, b, victim)
  {
    hide PinsOk, Unpin;
    Unpinned(s, p, b);
    var s1 := Unpin(Detach(s, p), b);
    PinsFacts(s1);
    victim := "";
    if s1.lastUsed.Keys != {} {
      var seen := SomeElement(s1.lastUsed.Keys);
      victim := OldestExists(s1, seen, s1.lastUsed.Keys);
    }
    NoPins(s1);
  }

  lemma {:induction false} OldestExists(s: Pool, seen: string, keys: set<string>) returns (victim: string)
    requires seen in s.lastUsed && keys <= s.lastUsed.Keys
    ensures victim in s.lastUsed && s.lastUsed[victim] <= s.lastUsed[seen]
    ensures forall c | c in keys && c in s.lastUsed :: s.lastUsed[victim] <= s.lastUsed[c]
    decreases keys
  {
    if keys == {} {
      victim := seen;
    } else {
      var k := SomeElement(keys);
      victim := OldestExists(s, seen, keys - {k});
      if s.lastUsed[k] < s.lastUsed[victim] {
        victim := k;
      }
    }
  }

  lemma DetachOk(s: Pool, p: Proc)
    requires PinsOk(s)
    ensures PinsOk(Detach(s, p)) && p !in Detach(s, p).pinRev
  {
    hide PinsOk;
    PinsFacts(s);
    if p in s.pinRev { UnpinOk(s, s.pinRev[p]); }
  }

  lemma NotPinnedTo(s: Pool, p: Proc, b: string)
    requires PinsOk(s) && p !in s.pinRev
    ensures b in s.pinProc ==> s.pinProc[b] != p
    ensures b !in s.pinProc ==> Unpin(s, b) == s
  {
  }

  lemma UnpinAbsent(s: Pool, b: string)
    ensures b !in s.pinProc ==> Unpin(s, b) == s
  {
  }

  lemma NoPins(s: Pool)
    requires PinsOk(s)
    ensures s.lastUsed == map[] ==> |s.pinProc| == 0
    ensures s.lastUsed.Keys == {} ==> |s.pinProc| == 0
  {
    if s.lastUsed == map[] {
      assert s.lastUsed.Keys == {};
    }
    if s.lastUsed.Keys == {} {
      var none: set<string> := {};
      assert s.pinProc.Keys == none && |none| == 0;
      assert |s.pinProc| == |s.pinProc.Keys|;
    }
  }

  lemma OldestPinned(s: Pool, b: string)
    requires PinsOk(s) && Oldest(s, b)
    ensures b in s.pinProc
  {
  }
}
