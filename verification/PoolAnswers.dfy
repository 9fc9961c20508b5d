/** What the pool's operations do, said of the maps and the list themselves: which process a build gets, who
    loses a pin, and in which order idle processes are handed out. */
module PoolAnswers {
  import opened Options
  import opened PoolModel
  import opened PoolProperties
  import opened PoolSystem
  import opened Sets

  // ---------------------------------------------------------------- pins

  /** Apart from `b` exactly these builds keep their pin, each with its process, use time and epoch. */
  ghost predicate OthersKeep(s: Pool, s': Pool, b: string, kept: set<string>) {
    forall c | c != b ::
      && (c in s'.pinProc <==> c in kept)
      && (c in kept ==>
          && c in s.pinProc && s'.pinProc[c] == s.pinProc[c]
          && c in s.lastUsed && c in s'.lastUsed && s'.lastUsed[c] == s.lastUsed[c]
          && c in s.epoch && c in s'.epoch && s'.epoch[c] == s.epoch[c])
  }

  /** `b` has just been given `p`. */
  ghost predicate HasJust(s': Pool, b: string, p: Proc, now: int, epoch: nat) {
    && b in s'.pinProc && s'.pinProc[b] == p && p in s'.pinRev && s'.pinRev[p] == b
    && b in s'.lastUsed && s'.lastUsed[b] == now && b in s'.epoch && s'.epoch[b] == epoch
  }

  lemma UnpinKeeps(s: Pool, b: string, gone: string)
    requires PinsOk(s)
    ensures OthersKeep(s, Unpin(s, gone), b, s.pinProc.Keys - {gone})
  {
    PinsFacts(s);
  }

  lemma KeepTwice(s: Pool, s1: Pool, s2: Pool, b: string, first: set<string>, second: set<string>)
    requires OthersKeep(s, s1, b, first) && OthersKeep(s1, s2, b, second)
    ensures OthersKeep(s, s2, b, second)
  {
    forall c | c != b && c in second
      ensures c in s1.pinProc
    {
    }
  }

  lemma KeepSame(s: Pool, s': Pool, b: string, kept: set<string>, same: set<string>)
    requires OthersKeep(s, s', b, kept) && forall c | c != b :: c in kept <==> c in same
    ensures OthersKeep(s, s', b, same)
  {
  }

  lemma InstallKeeps(s: Pool, p: Proc, b: string, now: int)
    requires PinsOk(s)
    ensures OthersKeep(s, Install(s, p, b, now), b, s.pinProc.Keys)
    ensures HasJust(Install(s, p, b, now), b, p, now, EpochOf(s, b) + 1)
  {
    PinsFacts(s);
  }

  /** Swapping moves the process that the old build had to the new build. The old build is left without a
      pin, what the new build had before is given up, and every other build keeps what it has. */
  lemma SwapMoves(s: Pool, oldB: string, newB: string, now: int)
    requires PinsOk(s)
    ensures var s' := Swap(s, oldB, newB, now);
            if oldB != "" && newB != "" && oldB != newB && oldB in s.pinProc then
              && HasJust(s', newB, s.pinProc[oldB], now, 1)
              && OthersKeep(s, s', newB, s.pinProc.Keys - {oldB, newB})
              && s'.idle == s.idle && s'.busy == s.busy
            else s' == s
  {
    hide PinsOk, Unpin, Install, OthersKeep;
    if oldB != "" && newB != "" && oldB != newB && oldB in s.pinProc {
      var s1 := Unpin(s, newB);
      var s2 := Unpin(s1, oldB);
      var p := s.pinProc[oldB];
      UnpinOk(s, newB);
      UnpinOk(s1, oldB);
      UnpinKeeps(s, newB, newB);
      UnpinKeeps(s1, newB, oldB);
      InstallKeeps(s2, p, newB, now);
      KeepTwice(s, s1, s2, newB, s.pinProc.Keys - {newB}, s1.pinProc.Keys - {oldB});
      KeepTwice(s, s2, Install(s2, p, newB, now), newB, s1.pinProc.Keys - {oldB}, s2.pinProc.Keys);
      Unpinned2(s, newB, oldB);
      KeepSame(s, Install(s2, p, newB, now), newB, s2.pinProc.Keys, s.pinProc.Keys - {oldB, newB});
      SwapFrame(s, oldB, newB, now);
    }
  }

  lemma Unpinned2(s: Pool, a: string, b: string)
    requires PinsOk(s)
    ensures var s2 := Unpin(Unpin(s, a), b);
            && (forall c :: c in s2.pinProc <==> c in s.pinProc && c != a && c != b)
            && EpochOf(s2, a) == 0
  {
    PinsFacts(s);
  }

  /** The pins that Pin has no quarrel with: of other builds and on other processes. */
  function Bystanders(s: Pool, p: Proc, b: string): set<string> {
    set c | c in s.pinProc && c != b && s.pinProc[c] != p
  }

  /** Pinning gives the build this process. What the process was pinned to and what the build had are given
      up; of the others, if they fill the limit, the least recently used one, and no more. */
  lemma PinMoves(s: Pool, p: Proc, b: string, now: int, victim: string)
    requires PinsOk(s) && PinVictim(s, p, b, victim)
    ensures var s', others := Pin(s, p, b, now, victim), Bystanders(s, p, b);
            if b != "" && s.maxPins > 0 then
              && HasJust(s', b, p, now, if b in s.pinProc && s.pinProc[b] == p then EpochOf(s, b) + 1 else 1)
              && (|others| < s.maxPins ==> OthersKeep(s, s', b, others))
              && (|others| >= s.maxPins ==>
                  && victim in others && OthersKeep(s, s', b, others - {victim})
                  && forall c | c in others :: c in s.lastUsed && victim in s.lastUsed
                                               && s.lastUsed[victim] <= s.lastUsed[c])
              && s'.idle == s.idle && s'.busy == s.busy
            else s' == s
  {
    hide PinsOk, Unpin, Install, OthersKeep, Touch;
    if b != "" && s.maxPins > 0 {
      PinFrame(s, p, b, now, victim);
      PinsFacts(s);
      if p in s.pinRev && s.pinRev[p] == b {
        RefreshKeeps(s, p, b, now);
      } else {
        FreshPin(s, p, b, now, victim);
      }
    }
  }

  lemma RefreshKeeps(s: Pool, p: Proc, b: string, now: int)
    requires PinsOk(s) && p in s.pinRev && s.pinRev[p] == b
    ensures HasJust(Touch(s, b, now), b, p, now, EpochOf(s, b) + 1)
    ensures OthersKeep(s, Touch(s, b, now), b, Bystanders(s, p, b)) && |Bystanders(s, p, b)| < s.maxPins
  {
    PinsFacts(s);
    assert Bystanders(s, p, b) == s.pinProc.Keys - {b};
    assert |s.pinProc.Keys - {b}| == |s.pinProc| - 1;
  }

  lemma FreshPin(s: Pool, p: Proc, b: string, now: int, victim: string)
    requires PinsOk(s) && PinVictim(s, p, b, victim) && b != "" && s.maxPins > 0
    requires !(p in s.pinRev && s.pinRev[p] == b)
    ensures var s', others := Pin(s, p, b, now, victim), Bystanders(s, p, b);
            && HasJust(s', b, p, now, 1)
            && (|others| < s.maxPins ==> OthersKeep(s, s', b, others))
            && (|others| >= s.maxPins ==>
                && victim in others && OthersKeep(s, s', b, others - {victim})
                && forall c | c in others :: c in s.lastUsed && victim in s.lastUsed
                                             && s.lastUsed[victim] <= s.lastUsed[c])
  {
    hide PinsOk, Unpin, Install, OthersKeep, Oldest;
    var s1 := Unpin(Detach(s, p), b);
    Unpinned(s, p, b);
    LeftAlone(s, p, b);
    var s2 := if |s1.pinProc| >= s.maxPins then Unpin(s1, victim) else s1;
    UnpinOk(s1, victim);
    InstallKeeps(s2, p, b, now);
    var others := Bystanders(s, p, b);
    if |others| >= s.maxPins {
      VictimIsOther(s, s1, b, others, victim);
      UnpinKeeps(s1, b, victim);
      KeepTwice(s, s1, s2, b, others, s1.pinProc.Keys - {victim});
      KeepTwice(s, s2, Install(s2, p, b, now), b, s1.pinProc.Keys - {victim}, s2.pinProc.Keys);
      KeysLess(s1, victim);
      KeepSame(s, Install(s2, p, b, now), b, s2.pinProc.Keys, others - {victim});
    } else {
      KeepTwice(s, s1, Install(s1, p, b, now), b, others, s1.pinProc.Keys);
    }
    EpochStarts(s1, victim, b);
  }

  lemma EpochStarts(s: Pool, victim: string, b: string)
    requires PinsOk(s) && b !in s.pinProc
    ensures EpochOf(s, b) == 0 && EpochOf(Unpin(s, victim), b) == 0
  {
    PinsFacts(s);
  }

  lemma KeysLess(s: Pool, victim: string)
    ensures forall c :: c in Unpin(s, victim).pinProc.Keys <==> c in s.pinProc.Keys && c != victim
  {
  }

  lemma VictimIsOther(s: Pool, s1: Pool, b: string, others: set<string>, victim: string)
    requires PinsOk(s1) && Oldest(s1, victim) && s1.pinProc.Keys == others && b !in others
    requires OthersKeep(s, s1, b, others)
    ensures victim in others
    ensures forall c | c in others :: c in s.lastUsed && victim in s.lastUsed && s.lastUsed[victim] <= s.lastUsed[c]
  {
    PinsFacts(s1);
  }

  lemma LeftAlone(s: Pool, p: Proc, b: string)
    requires PinsOk(s)
    ensures var s1, others := Unpin(Detach(s, p), b), Bystanders(s, p, b);
            s1.pinProc.Keys == others && |s1.pinProc| == |others| && OthersKeep(s, s1, b, others)
  {
    PinsFacts(s);
    var s1, others := Unpin(Detach(s, p), b), Bystanders(s, p, b);
    forall c ensures c in s1.pinProc.Keys <==> c in others {
      if c in s.pinProc && s.pinProc[c] == p { assert s.pinRev[p] == c; }
    }
    assert s1.pinProc.Keys == others;
    assert |s1.pinProc| == |s1.pinProc.Keys|;
  }

  /** An idle closure takes its process out of the list and away from its build, and touches nothing else. */
  lemma KillTakes(s: Pool, p: Proc)
    requires PinsOk(s) && NoDup(s.idle)
    ensures var s' := KillIdle(s, p);
            && (forall q :: q in s'.idle <==> q in s.idle && q != p) && s'.busy == s.busy
            && OthersKeep(s, s', "", set c | c in s.pinProc && s.pinProc[c] != p)
  {
    hide NoDup, Drop;
    PinsFacts(s);
    DropFacts(s.idle, p);
  }

  /** A TTL closure takes the pin of its build when its epoch is the current one, and touches nothing else. */
  lemma ExpireTakes(s: Pool, b: string, epoch: nat)
    requires PinsOk(s) && epoch > 0
    ensures var s' := Expire(s, b, epoch);
            && s'.idle == s.idle && s'.busy == s.busy
            && OthersKeep(s, s', "", if b in s.epoch && s.epoch[b] == epoch then s.pinProc.Keys - {b}
                else s.pinProc.Keys)
  {
    PinsFacts(s);
  }

  // ---------------------------------------------------------------- which process an acquire hands out

  /** The process pinned to the build is idle and alive. */
  predicate OwnReady(s: Pool, b: string, alive: set<Proc>) {
    b != "" && b in s.pinProc && s.pinProc[b] in s.idle && s.pinProc[b] in alive
  }

  /** `i` is the last place in the list with a live process that is not pinned. */
  ghost predicate LastFree(idle: seq<Proc>, rev: map<Proc, string>, alive: set<Proc>, i: nat) {
    && i < |idle| && idle[i] !in rev && idle[i] in alive
    && forall j | i < j < |idle| :: idle[j] in rev || idle[j] !in alive
  }

  lemma {:induction false} PopLast(idle: seq<Proc>, rev: map<Proc, string>, alive: set<Proc>, i: nat)
    requires LastFree(idle, rev, alive, i)
    ensures PopUnpinned(idle, rev, alive).1 == Some(idle[i])
  {
    if i < |idle| - 1 {
      assert idle[|idle| - 1] in rev || idle[|idle| - 1] !in alive;
      PopLast(idle[..|idle| - 1], rev, alive, i);
    }
  }

  lemma {:induction false} LastFreeExists(idle: seq<Proc>, rev: map<Proc, string>, alive: set<Proc>, q: Proc)
    returns (i: nat)
    requires q in idle && q !in rev && q in alive
    ensures LastFree(idle, rev, alive, i)
  {
    var last := idle[|idle| - 1];
    if last !in rev && last in alive {
      i := |idle| - 1;
    } else {
      assert q in idle[..|idle| - 1];
      i := LastFreeExists(idle[..|idle| - 1], rev, alive, q);
    }
  }

  predicate AnyFree(s: Pool, alive: set<Proc>) {
    exists q :: q in s.idle && q !in s.pinRev && q in alive
  }

  lemma FirstAnswers(s: Pool, b: string, alive: set<Proc>, now: int)
    requires PinsOk(s) && NoDup(s.idle)
    ensures var found := FirstAttempts(s, b, alive, now).1;
            && (OwnReady(s, b, alive) ==> found == Some(s.pinProc[b]))
            && (!OwnReady(s, b, alive) ==> forall i: nat | LastFree(s.idle, s.pinRev, alive, i) ::
                found == Some(s.idle[i]))
            && (!OwnReady(s, b, alive) && !AnyFree(s, alive) ==> found == None)
  {
    hide PinsOk, NoDup, PopUnpinned, Drop;
    PinsFacts(s);
    if b in s.pinProc { DropFacts(s.idle, s.pinProc[b]); }
    if !OwnReady(s, b, alive) {
      var s1 := if b == "" then s else TakePinned(s, b, alive, now).0;
      PopFacts(s1.idle, s1.pinRev, alive);
      forall i: nat | LastFree(s.idle, s.pinRev, alive, i)
        ensures PopUnpinned(s1.idle, s1.pinRev, alive).1 == Some(s.idle[i])
      {
        FreeAfterDrop(s, s1, b, alive, i);
      }
    }
  }

  /** Dropping the build's own dead process does not change which free process is the last. */
  lemma FreeAfterDrop(s: Pool, s1: Pool, b: string, alive: set<Proc>, i: nat)
    requires PinsOk(s) && LastFree(s.idle, s.pinRev, alive, i)
    requires (s1.idle == s.idle && s1.pinRev == s.pinRev)
             || (b in s.pinProc && s.pinProc[b] !in alive && s1.idle == Drop(s.idle, s.pinProc[b])
                 && s1.pinRev == s.pinRev - {s.pinProc[b]})
    ensures PopUnpinned(s1.idle, s1.pinRev, alive).1 == Some(s.idle[i])
  {
    if s1.idle == s.idle && s1.pinRev == s.pinRev {
      PopLast(s.idle, s.pinRev, alive, i);
    } else {
      var k := DropPlace(s.idle, s.pinProc[b], i);
      forall j | k < j < |s1.idle| ensures s1.idle[j] in s1.pinRev || s1.idle[j] !in alive {
        var m :| 0 <= m < |s.idle[i + 1..]| && s.idle[i + 1..][m] == s1.idle[j];
        assert s.idle[i + 1 + m] == s1.idle[j];
      }
      PopLast(s1.idle, s1.pinRev, alive, k);
    }
  }

  /** Where an element is after another has been dropped; what follows it followed it before. */
  lemma DropPlace(idle: seq<Proc>, p: Proc, i: nat) returns (k: nat)
    requires i < |idle| && idle[i] != p
    ensures k < |Drop(idle, p)| && Drop(idle, p)[k] == idle[i]
    ensures forall j | k < j < |Drop(idle, p)| :: Drop(idle, p)[j] in idle[i + 1..]
  {
    hide Drop;
    if p in idle {
      var n := FirstOf(idle, p);
      DropAt(idle, p, n);
      k := if i < n then i else i - 1;
      var d := Drop(idle, p);
      forall j | k < j < |d| ensures d[j] in idle[i + 1..] {
        assert d[j] == idle[i + 1..][if j < n then j - i - 1 else j - i];
      }
    } else {
      DropFacts(idle, p);
      k := i;
    }
  }

  lemma {:induction false} FirstOf(idle: seq<Proc>, p: Proc) returns (n: nat)
    requires p in idle
    ensures n < |idle| && idle[n] == p && p !in idle[..n]
  {
    if idle[0] == p {
      n := 0;
    } else {
      n := FirstOf(idle[1..], p);
      n := n + 1;
      assert idle[..n] == [idle[0]] + idle[1..][..n - 1];
    }
  }

  /** The answer of an acquire, read off the pool before the call. The build's own process comes first, if it
      is idle and alive; then the last live process in the list without a pin; then a new process, if there
      is room beside those of other builds; then the process of the least recently used other build. */
  lemma AcquireAnswers(s: Pool, b: string, alive: set<Proc>, now: int, victim: string)
    requires PinsOk(s) && NoDup(s.idle) && StealVictim(s, b, alive, now, victim)
    ensures var r := Acquire(s, b, alive, now, victim).1;
            if OwnReady(s, b, alive) then r == Got(s.pinProc[b])
            else if AnyFree(s, alive) then
              exists i: nat :: LastFree(s.idle, s.pinRev, alive, i) && r == Got(s.idle[i])
            else if s.busy + |Others(s, b)| < s.maxSize then r == MustSpawn
            else if Others(s, b) == {} then r == Exhausted
            else
              LeastRecent(s, b, victim)
              && r == if s.pinProc[victim] in alive then Got(s.pinProc[victim]) else Exhausted
  {
    hide PinsOk, NoDup, FirstAttempts, Unpin, Drop, LeastRecent, OldestIdle, LastFree, SomePinnedIdle;
    FirstAnswers(s, b, alive, now);
    if !OwnReady(s, b, alive) {
      if AnyFree(s, alive) {
        var q :| q in s.idle && q !in s.pinRev && q in alive;
        var i := LastFreeExists(s.idle, s.pinRev, alive, q);
      } else {
        var s2 := FirstAttempts(s, b, alive, now).0;
        OthersLeft(s, b, alive, now);
        FirstCounts(s, b, alive, now);
        NoVictim(s2, alive);
        FirstPins(s, b, alive, now);
        PinsFacts(s2);
        IdleVictim(s2, victim);
      }
    }
  }

  /** No live process is lost: apart from the one handed out, every live idle process stays in the list. */
  lemma LiveStay(s: Pool, b: string, alive: set<Proc>, now: int, victim: string)
    requires PinsOk(s) && NoDup(s.idle) && StealVictim(s, b, alive, now, victim)
    ensures var (s', r) := Acquire(s, b, alive, now, victim);
            && (forall q | q in s.idle && q in alive && r != Got(q) :: q in s'.idle)
            && (forall q | q in s'.idle :: q in s.idle && r != Got(q))
  {
    hide PinsOk, NoDup, Unpin, FirstAttempts, StealVictim, Drop;
    AcquireCounts(s, b, alive, now, victim);
    FirstCounts(s, b, alive, now);
    FirstKeepsLive(s, b, alive, now);
    var s2 := FirstAttempts(s, b, alive, now).0;
    if victim in s2.pinProc { DropFacts(s2.idle, s2.pinProc[victim]); }
  }

  lemma FirstKeepsLive(s: Pool, b: string, alive: set<Proc>, now: int)
    requires NoDup(s.idle)
    ensures var (s2, found) := FirstAttempts(s, b, alive, now);
            forall q | q in s.idle && q in alive && found != Some(q) :: q in s2.idle
  {
    hide NoDup, Drop, PopUnpinned;
    if b in s.pinProc { DropFacts(s.idle, s.pinProc[b]); }
    var s1 := if b == "" then s else TakePinned(s, b, alive, now).0;
    PopKeepsLive(s1.idle, s1.pinRev, alive);
  }

  lemma {:induction false} PopKeepsLive(idle: seq<Proc>, rev: map<Proc, string>, alive: set<Proc>)
    ensures var (rest, found) := PopUnpinned(idle, rev, alive);
            forall q | q in idle && q in alive && found != Some(q) :: q in rest
  {
    if idle != [] {
      var last, init := idle[|idle| - 1], idle[..|idle| - 1];
      PopKeepsLive(init, rev, alive);
      assert forall q :: q in idle <==> q == last || q in init;
    }
  }

  /** The builds that lose their pin when an acquire looks for a process: its own, if the process is idle and
      dead, and the one considered for stealing. */
  function OwnDead(s: Pool, b: string, alive: set<Proc>): set<string> {
    if b != "" && b in s.pinProc && s.pinProc[b] in s.idle && s.pinProc[b] !in alive then {b} else {}
  }

  function Considered(s: Pool, b: string, alive: set<Proc>, victim: string): set<string> {
    if !OwnReady(s, b, alive) && !AnyFree(s, alive) && s.busy + |Others(s, b)| >= s.maxSize && Others(s, b) != {}
    then {victim} else {}
  }

  /** No other pin is lost; a hit renews the pin. */
  lemma PinsStay(s: Pool, b: string, alive: set<Proc>, now: int, victim: string)
    requires PinsOk(s) && NoDup(s.idle) && StealVictim(s, b, alive, now, victim)
    ensures var s' := Acquire(s, b, alive, now, victim).0;
            if OwnReady(s, b, alive) then
              HasJust(s', b, s.pinProc[b], now, EpochOf(s, b) + 1) && OthersKeep(s, s', b, s.pinProc.Keys)
            else OthersKeep(s, s', "", s.pinProc.Keys - OwnDead(s, b, alive) - Considered(s, b, alive, victim))
  {
    hide PinsOk, NoDup, Unpin, Drop, PopUnpinned, OldestIdle, SomePinnedIdle, OthersKeep, FirstAttempts, Steal, AnyFree,
        OwnDead;
    FirstAnswers(s, b, alive, now);
    var (s2, found) := FirstAttempts(s, b, alive, now);
    FirstKeeps(s, b, alive, now);
    if !OwnReady(s, b, alive) {
      var kept := s.pinProc.Keys - OwnDead(s, b, alive);
      var s' := Acquire(s, b, alive, now, victim).0;
      if AnyFree(s, alive) {
        FreeTaken(s, b, alive, now);
        KeepSame(s, s', "", kept, kept - Considered(s, b, alive, victim));
      } else {
        OthersLeft(s, b, alive, now);
        FirstCounts(s, b, alive, now);
        FirstPins(s, b, alive, now);
        if Considered(s, b, alive, victim) == {victim} {
          StealKeeps(s2, victim, alive);
          KeepTwice(s, s2, s', "", kept, s2.pinProc.Keys - {victim});
          FirstKeys(s, b, alive, now);
          KeepSame(s, s', "", s2.pinProc.Keys - {victim}, kept - {victim});
        } else {
          NoVictim(s2, alive);
          PinsFacts(s2);
          SamePinsKeep(s, s2, s', kept);
          KeepSame(s, s', "", kept, kept - Considered(s, b, alive, victim));
        }
      }
    }
  }

  lemma SamePinsKeep(s: Pool, s2: Pool, s': Pool, kept: set<string>)
    requires OthersKeep(s, s2, "", kept)
    requires s'.pinProc == s2.pinProc && s'.lastUsed == s2.lastUsed && s'.epoch == s2.epoch
    ensures OthersKeep(s, s', "", kept)
  {
  }

  lemma FreeTaken(s: Pool, b: string, alive: set<Proc>, now: int)
    requires PinsOk(s) && NoDup(s.idle) && AnyFree(s, alive) && !OwnReady(s, b, alive)
    ensures FirstAttempts(s, b, alive, now).1.Some?
  {
    hide PinsOk, NoDup, FirstAttempts;
    FirstAnswers(s, b, alive, now);
    var q :| q in s.idle && q !in s.pinRev && q in alive;
    var i := LastFreeExists(s.idle, s.pinRev, alive, q);
    assert FirstAttempts(s, b, alive, now).1 == Some(s.idle[i]);
  }

  lemma FirstKeys(s: Pool, b: string, alive: set<Proc>, now: int)
    requires PinsOk(s) && !OwnReady(s, b, alive)
    ensures FirstAttempts(s, b, alive, now).0.pinProc.Keys == s.pinProc.Keys - OwnDead(s, b, alive)
  {
    hide PopUnpinned, Drop;
  }

  lemma FirstKeeps(s: Pool, b: string, alive: set<Proc>, now: int)
    requires PinsOk(s)
    ensures var s2 := FirstAttempts(s, b, alive, now).0;
            if OwnReady(s, b, alive) then
              HasJust(s2, b, s.pinProc[b], now, EpochOf(s, b) + 1) && OthersKeep(s, s2, b, s.pinProc.Keys)
            else OthersKeep(s, s2, "", s.pinProc.Keys - OwnDead(s, b, alive))
  {
    hide PopUnpinned, Drop;
    PinsFacts(s);
  }

  lemma StealKeeps(s: Pool, victim: string, alive: set<Proc>)
    requires PinsOk(s)
    ensures OthersKeep(s, Steal(s, victim, alive).0, "", s.pinProc.Keys - {victim})
  {
    hide Drop;
    PinsFacts(s);
  }

  // ---------------------------------------------------------------- the order of the idle list

  /** When each process was last given back, counting actions. */
  function Backs(actions: seq<Action>): map<Proc, nat>
    decreases |actions|
  {
    if actions == [] then map[]
    else
      var before, last := Backs(actions[..|actions| - 1]), actions[|actions| - 1];
      if last.GiveBack? then before[last.proc := |actions|] else before
  }

  /** The list is in the order in which its processes were given back. */
  ghost predicate Rising(idle: seq<Proc>, back: map<Proc, nat>) {
    && (forall p | p in idle :: p in back)
    && forall i, j | 0 <= i < j < |idle| :: idle[i] in back && idle[j] in back && back[idle[i]] < back[idle[j]]
  }

  lemma {:induction false} DropRising(idle: seq<Proc>, p: Proc, back: map<Proc, nat>)
    requires Rising(idle, back)
    ensures Rising(Drop(idle, p), back)
  {
    if p in idle {
      var n := FirstOf(idle, p);
      DropAt(idle, p, n);
    } else {
      DropFacts(idle, p);
    }
  }

  lemma {:induction false} PopRising(idle: seq<Proc>, rev: map<Proc, string>, alive: set<Proc>, back: map<Proc, nat>)
    requires Rising(idle, back)
    ensures Rising(PopUnpinned(idle, rev, alive).0, back)
  {
    if idle != [] {
      var last, init := idle[|idle| - 1], idle[..|idle| - 1];
      PopRising(init, rev, alive, back);
      PopFacts(init, rev, alive);
      var rest := PopUnpinned(init, rev, alive).0;
      forall i | 0 <= i < |rest| ensures rest[i] in back && last in back && back[rest[i]] < back[last] {
        assert rest[i] in init;
      }
    }
  }

  lemma AcquireRising(s: Pool, b: string, alive: set<Proc>, now: int, victim: string, back: map<Proc, nat>)
    requires Rising(s.idle, back)
    ensures Rising(Acquire(s, b, alive, now, victim).0.idle, back)
  {
    hide Rising, Drop, PopUnpinned;
    if b in s.pinProc { DropRising(s.idle, s.pinProc[b], back); }
    var s1 := if b == "" then s else TakePinned(s, b, alive, now).0;
    PopRising(s1.idle, s1.pinRev, alive, back);
    var s2 := FirstAttempts(s, b, alive, now).0;
    if victim in s2.pinProc { DropRising(s2.idle, s2.pinProc[victim], back); }
  }

  lemma GiveBackRising(idle: seq<Proc>, p: Proc, back: map<Proc, nat>, n: nat)
    requires Rising(idle, back) && p !in idle && forall q | q in back :: back[q] < n
    ensures Rising(idle, back[p := n]) && Rising(idle + [p], back[p := n])
  {
    forall i | 0 <= i < |idle| ensures idle[i] != p {
      assert idle[i] in idle;
    }
  }

  lemma {:induction false} BacksBefore(actions: seq<Action>)
    ensures forall q | q in Backs(actions) :: Backs(actions)[q] <= |actions|
    decreases |actions|
  {
    if actions != [] { BacksBefore(actions[..|actions| - 1]); }
  }

  lemma StepRising(y: System, a: Action, back: map<Proc, nat>, n: nat)
    requires Inv(y) && Enabled(y, a) && Rising(y.pool.idle, back) && forall q | q in back :: back[q] < n
    ensures Rising(Next(y, a).pool.idle, if a.GiveBack? then back[a.proc := n] else back)
  {
    hide Inv, Rising, Acquire, Pin, Swap, Drop, Unpin, StealVictim, PinVictim, Running, Ticking;
    match a
    case AcquireFor(b, now, victim) => AcquireRising(y.pool, b, y.alive, now, victim, back);
    case GiveBack(p) =>
      HeldNotIdle(y, p);
      GiveBackRising(y.pool.idle, p, back, n);
    case PinTo(p, b, now, victim) => PinFrame(y.pool, p, b, now, victim);
    case SwapTo(oldB, newB, now) => SwapFrame(y.pool, oldB, newB, now);
    case IdleTimer(p) =>
      DropRising(y.pool.idle, p, back);
      if p in y.pool.pinRev { UnpinFrame(y.pool.(idle := Drop(y.pool.idle, p)), y.pool.pinRev[p], p, ""); }
    case TtlTimer(c) => UnpinFrame(y.pool, c.build, Proc(0), "");
    case Stop => NoneRising(back);
    case IdleFire(p) =>
    case Fire(b) =>
    case SpawnOk(p) =>
    case SpawnFail =>
    case Die(p) =>
  }

  lemma NoneRising(back: map<Proc, nat>)
    ensures Rising([], back)
  {
  }

  lemma HeldNotIdle(y: System, p: Proc)
    requires Inv(y) && p in y.held
    ensures p !in y.pool.idle
  {
    hide PinsOk, Armed, Watched, NoDup;
  }

  /** In every interleaving the idle list is in the order of return. */
  lemma {:induction false} IdleInOrder(maxSize: nat, actions: seq<Action>)
    requires Legal(Start(maxSize), actions)
    ensures Rising(Run(Start(maxSize), actions).pool.idle, Backs(actions)) && Inv(Run(Start(maxSize), actions))
    decreases |actions|
  {
    hide Inv, Next, Enabled, Rising;
    StartInv(maxSize);
    RunInv(Start(maxSize), actions);
    if actions == [] {
      NoneRising(map[]);
    } else {
      var init, last := actions[..|actions| - 1], actions[|actions| - 1];
      assert actions == init + [last];
      RunSnoc(Start(maxSize), init, last);
      IdleInOrder(maxSize, init);
      BacksBefore(init);
      StepRising(Run(Start(maxSize), init), last, Backs(init), |actions|);
    }
  }

  /** So of the live processes without a pin an acquire takes the one given back last, in every interleaving. */
  lemma LastReturnedFirst(maxSize: nat, actions: seq<Action>, b: string, now: int, victim: string, p: Proc, q: Proc)
    requires Legal(Start(maxSize), actions + [AcquireFor(b, now, victim)])
    requires var y := Run(Start(maxSize), actions);
             && Acquire(y.pool, b, y.alive, now, victim).1 == Got(p) && p !in y.pool.pinRev
             && q in y.pool.idle && q in y.alive && q !in y.pool.pinRev && q != p
    ensures p in Backs(actions) && q in Backs(actions) && Backs(actions)[q] < Backs(actions)[p]
  {
    hide Acquire, Next, Run, Legal, Backs, StealVictim;
    var y := Run(Start(maxSize), actions);
    RunSnoc(Start(maxSize), actions, AcquireFor(b, now, victim));
    IdleInOrder(maxSize, actions);
    FreeGiven(y, b, now, victim, p, q, Backs(actions));
  }

  lemma FreeGiven(y: System, b: string, now: int, victim: string, p: Proc, q: Proc, back: map<Proc, nat>)
    requires Inv(y) && StealVictim(y.pool, b, y.alive, now, victim) && Rising(y.pool.idle, back)
    requires Acquire(y.pool, b, y.alive, now, victim).1 == Got(p) && p !in y.pool.pinRev
    requires q in y.pool.idle && q in y.alive && q !in y.pool.pinRev && q != p
    ensures p in back && q in back && back[q] < back[p]
  {
    hide Acquire, StealVictim, Armed, Watched, NoDup;
    var s := y.pool;
    PinsFacts(s);
    AcquireAnswers(s, b, y.alive, now, victim);
    var i: nat :| LastFree(s.idle, s.pinRev, y.alive, i) && p == s.idle[i];
    var j :| 0 <= j < |s.idle| && s.idle[j] == q;
    assert j < i;
  }
}
