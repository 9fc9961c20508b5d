/** Both ends of the delta protocol together, over whole runs of parses. */
module SyncRuns {
  import opened DaemonSync
  import opened Options
  import opened SaveDb
  import SaveStore
  import opened Sets

  /** What is fixed for a run: the account behind the source, the game of each watched file, the one file
      that writes each save, and the section hash. */
  datatype Link = Link(user: Option<string>, source: string, gameOf: string -> string,
                       writer: (string, string) -> string, hash: (string, Section) -> int)
  {
    /** Different contents of one section never hash alike. */
    ghost predicate Injective() {
      forall n, a, b :: hash(n, a) == hash(n, b) ==> a == b
    }
  }

  /** `sent` and `latest` are history: what the last recorded push of each file held, and the latest parse
      of each file and name that was delivered or needed no delivery. */
  datatype State = State(memory: Memory, db: Db, clock: int,
                         sent: map<string, Filed>, latest: map<(string, string), map<string, Section>>)

  datatype Filed = Filed(name: string, secs: map<string, Section>)

  /** One parse: what came out of the file, when, whether the connection took the message, the id the
      server would generate, and what was sent and stored. */
  datatype Event = Event(path: string, parsed: Parsed, at: int, sendOk: bool, newId: string, out: Option<Push>,
      stored: Stored)

  function Name(s: State, e: Event): string {
    Resolved(s.memory, e.path, e.parsed.saveName)
  }

  function Args(l: Link, e: Event, p: Push): PushArgs {
    PushArgs(l.user, l.source, l.gameOf(e.path), p.saveName, p.summary, e.at, p.sections, p.all, p.display)
  }

  function Init(): State {
    State(Memory(map[], map[]), Db(map[], map[], map[], map[]), 0, map[], map[])
  }

  /** The clock moves on, ids are new, and the file is the one that writes this save. */
  predicate Legal(l: Link, s: State, e: Event) {
    s.clock < e.at && e.newId !in s.db.saves && l.writer(l.gameOf(e.path), Name(s, e)) == e.path
  }

  /** The message was refused by the connection: something had to be sent and could not be. */
  predicate Failed(l: Link, s: State, e: Event) {
    !e.sendOk && Changed(l.hash, Previous(s.memory, e.path, Name(s, e)), Valid(e.parsed.sections)) != map[]
  }

  ghost predicate Next(l: Link, s: State, e: Event, s': State) {
    var name, secs := Name(s, e), Valid(e.parsed.sections);
    && Sends(s.memory, l.hash, e.path, name, e.parsed, e.sendOk, e.out)
    && s'.memory == AfterPush(Remember(s.memory, e.path, e.parsed.saveName), l.hash, e.path, name, secs, e.sendOk)
    && s'.clock == e.at
    && (if e.out.Some? then PushEffect(s.db, s'.db, Args(l, e, e.out.value), e.newId, e.stored) else s'.db == s.db)
    && s'.sent == (if e.out.Some? then s.sent[e.path := Filed(name, secs)] else s.sent)
    && s'.latest == (if Failed(l, s, e) then s.latest else s.latest[(e.path, name) := secs])
  }

  // ---------------------------------------------------------------- invariant

  /** The save of this game and name holds all these sections, exactly. */
  ghost predicate Holds(l: Link, db: Db, game: string, name: string, secs: map<string, Section>) {
    exists id :: id in db.saves && Owns(db.saves[id], l.user, l.source, game, name) && Matches(db, id, secs)
  }

  ghost predicate Cached(l: Link, m: Memory, sent: map<string, Filed>, db: Db) {
    forall path | path in m.lastPushed ::
      && path in sent && l.writer(l.gameOf(path), sent[path].name) == path
      && m.lastPushed[path] == HashCache(sent[path].name, Hashes(l.hash, sent[path].secs))
      && Holds(l, db, l.gameOf(path), sent[path].name, sent[path].secs)
  }

  ghost predicate Current(l: Link, latest: map<(string, string), map<string, Section>>, db: Db) {
    forall k | k in latest :: l.writer(l.gameOf(k.0), k.1) == k.0
                              && (latest[k] != map[] ==> Holds(l, db, l.gameOf(k.0), k.1, latest[k]))
  }

  ghost predicate Past(db: Db, clock: int) {
    forall id | id in db.saves :: db.saves[id].lastUpdated <= clock
  }

  ghost predicate Inv(l: Link, s: State) {
    DbOk(s.db) && Past(s.db, s.clock) && Cached(l, s.memory, s.sent, s.db) && Current(l, s.latest, s.db)
  }

  // ---------------------------------------------------------------- one push, section by section

  /** What a push that is not stale leaves behind. */
  ghost predicate Outcome(db: Db, db': Db, p: PushArgs, r: Stored) {
    && r.id in db'.saves && Owns(db'.saves[r.id], p.user, p.source, p.game, p.name)
    && (forall id | id in db.saves :: id == r.id <==> Owns(db.saves[id], p.user, p.source, p.game, p.name))
    && (forall n | n in p.secs :: Sec(db', r.id, n) == Some(p.secs[n]))
    && (forall n | n in p.all && n !in p.secs :: Sec(db', r.id, n) == Sec(db, r.id, n))
    && (r.changed ==> forall n | n !in p.all :: Sec(db', r.id, n) == None)
    && (forall id | id in db.saves && id != r.id :: id in db'.saves && db'.saves[id] == db.saves[id])
    && (forall id, n | id != r.id :: Sec(db', id, n) == Sec(db, id, n))
  }

  lemma InsertOutcome(db: Db, db': Db, p: PushArgs, id: string)
    requires References(db) && id !in db.saves && InsertEffect(db, db', p, id)
    requires forall i | i in db.saves :: !Owns(db.saves[i], p.user, p.source, p.game, p.name)
    requires forall n | n in p.secs :: n in p.all
    ensures Outcome(db, db', p, Stored(id, true))
    ensures db'.saves.Keys == db.saves.Keys + {id} && db'.saves[id].lastUpdated == p.at
  {
    forall n ensures Sec(db', id, n) == if n in p.secs then Some(p.secs[n]) else None {
      assert Sec(db, id, n) == None;
    }
  }

  lemma UpdateOutcome(db: Db, db': Db, p: PushArgs, r: Stored)
    requires Unique(db) && r.changed && |p.all| > 0 && forall n | n in p.secs :: n in p.all
    requires r.id in db.saves && Owns(db.saves[r.id], p.user, p.source, p.game, p.name)
    requires UpdateEffect(db, db', r.id, p.name, p.summary, p.at, p.source, p.secs, p.all, p.display)
    ensures Outcome(db, db', p, r)
    ensures db'.saves.Keys == db.saves.Keys && db'.saves[r.id].lastUpdated == p.at
  {
    forall n ensures Sec(db', r.id, n) == Updated(p.secs, p.all, n, Sec(db, r.id, n)) {
    }
  }

  lemma IgnoredOutcome(db: Db, p: PushArgs, r: Stored)
    requires Unique(db) && !r.changed && Matches(db, r.id, p.secs)
    requires r.id in db.saves && Owns(db.saves[r.id], p.user, p.source, p.game, p.name)
    ensures Outcome(db, db, p, r)
  {
  }

  lemma PushOutcome(db: Db, db': Db, p: PushArgs, newId: string, r: Stored, clock: int)
    requires DbOk(db) && newId !in db.saves && PushEffect(db, db', p, newId, r)
    requires |p.all| > 0 && forall n | n in p.secs :: n in p.all
    requires Past(db, clock) && clock < p.at
    ensures Outcome(db, db', p, r) && Past(db', p.at)
  {
    hide InStep, InsertEffect, UpdateEffect, Matches, Outcome;
    if exists id :: id in db.saves && Owns(db.saves[id], p.user, p.source, p.game, p.name) {
      if r.changed {
        UpdateOutcome(db, db', p, r);
      } else {
        IgnoredOutcome(db, p, r);
      }
    } else {
      InsertOutcome(db, db', p, newId);
    }
  }

  /** Another save keeps what it holds. */
  lemma OtherHolds(l: Link, db: Db, db': Db, p: PushArgs, r: Stored, game: string, name: string,
      secs: map<string, Section>)
    requires Outcome(db, db', p, r) && p.user == l.user && p.source == l.source
    requires (game, name) != (p.game, p.name) && Holds(l, db, game, name, secs)
    ensures Holds(l, db', game, name, secs)
  {
    var id :| id in db.saves && Owns(db.saves[id], l.user, l.source, game, name) && Matches(db, id, secs);
    assert id in db'.saves && Matches(db', id, secs);
  }

  /** The pushed save holds the whole parse: changed sections arrive, the others were there already. */
  lemma PushedHolds(l: Link, db: Db, db': Db, p: PushArgs, r: Stored, secs: map<string, Section>,
      earlier: map<string, Section>)
    requires Outcome(db, db', p, r) && p.user == l.user && p.source == l.source
    requires forall n | n in p.secs :: n in secs && p.secs[n] == secs[n]
    requires forall n :: n in p.all <==> n in secs
    requires forall n | n in secs && n !in p.secs :: n in earlier && earlier[n] == secs[n]
    requires earlier != map[] ==> Holds(l, db, p.game, p.name, earlier)
    ensures Matches(db', r.id, secs) && Holds(l, db', p.game, p.name, secs)
  {
    forall n | n in secs ensures Sec(db', r.id, n) == Some(secs[n]) {
      if n !in p.secs {
        var id :| id in db.saves && Owns(db.saves[id], l.user, l.source, p.game, p.name) && Matches(db, id, earlier);
        assert Sec(db', r.id, n) == Sec(db, r.id, n);
      }
    }
  }

  // ---------------------------------------------------------------- one step

  /** The contents of the recorded push the daemon compares with. */
  function Recorded(s: State, path: string, name: string): map<string, Section> {
    if path in s.memory.lastPushed && s.memory.lastPushed[path].saveName == name && path in s.sent
        then s.sent[path].secs else map[]
  }

  lemma RecordedFacts(l: Link, s: State, path: string, name: string, secs: map<string, Section>)
    requires l.Injective() && Cached(l, s.memory, s.sent, s.db)
    ensures forall n | n in secs && n !in Changed(l.hash, Previous(s.memory, path, name), secs) ::
              n in Recorded(s, path, name) && Recorded(s, path, name)[n] == secs[n]
    ensures Recorded(s, path, name) != map[] ==> Holds(l, s.db, l.gameOf(path), name, Recorded(s, path, name))
  {
    hide Holds;
    var earlier := Recorded(s, path, name);
    if path in s.memory.lastPushed && s.memory.lastPushed[path].saveName == name {
      assert Previous(s.memory, path, name) == Hashes(l.hash, earlier);
      forall n | n in secs && n !in Changed(l.hash, Previous(s.memory, path, name), secs)
        ensures n in earlier && earlier[n] == secs[n]
      {
        assert l.hash(n, earlier[n]) == l.hash(n, secs[n]);
      }
    }
  }

  lemma FewerHeld(l: Link, db: Db, game: string, name: string, more: map<string, Section>, secs: map<string, Section>)
    requires forall n | n in secs :: n in more && more[n] == secs[n]
    requires Holds(l, db, game, name, more)
    ensures Holds(l, db, game, name, secs)
  {
    var id :| id in db.saves && Owns(db.saves[id], l.user, l.source, game, name) && Matches(db, id, more);
    assert Matches(db, id, secs);
  }

  /** The push that a step sends, and what the save holds afterwards. */
  lemma SentHolds(l: Link, s: State, e: Event, s': State)
    requires l.Injective() && Inv(l, s) && Legal(l, s, e) && Next(l, s, e, s') && e.out.Some?
    ensures var p, secs := Args(l, e, e.out.value), Valid(e.parsed.sections);
            && Outcome(s.db, s'.db, p, e.stored) && Past(s'.db, e.at) && DbOk(s'.db)
            && Matches(s'.db, e.stored.id, secs) && Holds(l, s'.db, p.game, p.name, secs)
            && p.name == Name(s, e) && forall n :: n in p.all <==> n in secs
  {
    hide DbOk, PushEffect, Outcome, Holds, Matches, Current, Past;
    var name, secs := Name(s, e), Valid(e.parsed.sections);
    var p := Args(l, e, e.out.value);
    RecordedFacts(l, s, e.path, name, secs);
    SentShape(l.hash, Previous(s.memory, e.path, name), secs, p.secs, p.all);
    PushOutcome(s.db, s'.db, p, e.newId, e.stored, s.clock);
    PushKeepsDb(s.db, s'.db, p, e.newId, e.stored);
    PushedHolds(l, s.db, s'.db, p, e.stored, secs, Recorded(s, e.path, name));
  }

  lemma SentShape(hash: (string, Section) -> int, prev: map<string, int>, secs: map<string, Section>,
                  sections: map<string, Section>, all: seq<string>)
    requires sections == Changed(hash, prev, secs) && sections != map[] && Lists(all, secs)
    ensures |all| > 0 && (forall n | n in sections :: n in secs && sections[n] == secs[n] && n in all)
    ensures forall n :: n in all <==> n in secs
  {
    var n := SomeElement(sections.Keys);
    assert n in all;
  }

  lemma {:induction false} StepInv(l: Link, s: State, e: Event, s': State)
    requires l.Injective() && Inv(l, s) && Legal(l, s, e) && Next(l, s, e, s')
    ensures Inv(l, s')
  {
    hide DbOk, PushEffect, Outcome, Holds, Matches, Changed, Valid, Hashes;
    if e.out.Some? {
      StepSent(l, s, e, s');
    } else {
      StepQuiet(l, s, e, s');
    }
  }

  lemma StepQuiet(l: Link, s: State, e: Event, s': State)
    requires l.Injective() && Inv(l, s) && Legal(l, s, e) && Next(l, s, e, s') && e.out.None?
    ensures Inv(l, s')
  {
    hide DbOk, PushEffect, Holds, Changed, Valid, Hashes;
    var name, secs := Name(s, e), Valid(e.parsed.sections);
    if !Failed(l, s, e) {
      RecordedFacts(l, s, e.path, name, secs);
      FewerHeldOrNone(l, s, e.path, name, secs);
    }
  }

  lemma FewerHeldOrNone(l: Link, s: State, path: string, name: string, secs: map<string, Section>)
    requires var earlier := Recorded(s, path, name);
             && (forall n | n in secs :: n in earlier && earlier[n] == secs[n])
             && (earlier != map[] ==> Holds(l, s.db, l.gameOf(path), name, earlier))
    ensures secs != map[] ==> Holds(l, s.db, l.gameOf(path), name, secs)
  {
    var earlier := Recorded(s, path, name);
    if earlier != map[] {
      FewerHeld(l, s.db, l.gameOf(path), name, earlier, secs);
    } else {
      assert secs == map[];
    }
  }

  lemma StepSent(l: Link, s: State, e: Event, s': State)
    requires l.Injective() && Inv(l, s) && Legal(l, s, e) && Next(l, s, e, s') && e.out.Some?
    ensures Inv(l, s')
  {
    hide DbOk, PushEffect, Outcome, Holds, Matches, Valid, Hashes, Changed;
    SentHolds(l, s, e, s');
    var name, secs := Name(s, e), Valid(e.parsed.sections);
    var p := Args(l, e, e.out.value);
    forall path | path in s'.memory.lastPushed && path != e.path
      ensures Holds(l, s'.db, l.gameOf(path), s.sent[path].name, s.sent[path].secs)
    {
      OtherHolds(l, s.db, s'.db, p, e.stored, l.gameOf(path), s.sent[path].name, s.sent[path].secs);
    }
    forall k | k in s.latest && k != (e.path, name) && s.latest[k] != map[]
      ensures Holds(l, s'.db, l.gameOf(k.0), k.1, s.latest[k])
    {
      OtherHolds(l, s.db, s'.db, p, e.stored, l.gameOf(k.0), k.1, s.latest[k]);
    }
  }

  // ---------------------------------------------------------------- runs

  ghost predicate Run(l: Link, states: seq<State>, events: seq<Event>) {
    && |states| == |events| + 1 && states[0] == Init()
    && forall i | 0 <= i < |events| :: Legal(l, states[i], events[i]) && Next(l, states[i], events[i], states[i + 1])
  }

  lemma {:induction false} RunInv(l: Link, states: seq<State>, events: seq<Event>, i: nat)
    requires l.Injective() && Run(l, states, events) && i < |states|
    ensures Inv(l, states[i])
  {
    hide Inv, Next, Legal;
    if i == 0 {
      InitInv(l);
    } else {
      RunInv(l, states, events, i - 1);
      StepInv(l, states[i - 1], events[i - 1], states[i]);
    }
  }

  lemma InitInv(l: Link)
    ensures Inv(l, Init())
  {
  }

  /** At every point of every run, each save holds every section of the latest parse that was filed under
      its name and delivered or found unchanged, with exactly the parsed content. */
  lemma Agreement(l: Link, states: seq<State>, events: seq<Event>, i: nat, path: string, name: string)
    requires l.Injective() && Run(l, states, events) && i < |states|
    requires (path, name) in states[i].latest && states[i].latest[(path, name)] != map[]
    ensures Holds(l, states[i].db, l.gameOf(path), name, states[i].latest[(path, name)])
  {
    hide Holds;
    RunInv(l, states, events, i);
  }

  /** After a push that the server applied, the save holds the parse and nothing else. */
  lemma AppliedExactly(l: Link, states: seq<State>, events: seq<Event>, i: nat)
    requires l.Injective() && Run(l, states, events) && i < |events|
    requires events[i].out.Some? && events[i].stored.changed
    ensures var secs := Valid(events[i].parsed.sections);
            forall n :: Sec(states[i + 1].db, events[i].stored.id, n) == if n in secs then Some(secs[n]) else None
  {
    hide DbOk, PushEffect, Valid;
    RunInv(l, states, events, i);
    SentHolds(l, states[i], events[i], states[i + 1]);
  }

  /** The save of this game and name has these sections with exactly this content, and no other. */
  ghost predicate Mirrors(l: Link, db: Db, game: string, name: string, secs: map<string, Section>) {
    exists id :: id in db.saves && Owns(db.saves[id], l.user, l.source, game, name) && Exactly(db, id, secs)
  }

  ghost predicate Exactly(db: Db, id: string, secs: map<string, Section>) {
    forall n :: Sec(db, id, n) == if n in secs then Some(secs[n]) else None
  }

  /** No save of this game and name has a section beyond these. */
  ghost predicate NothingElse(l: Link, db: Db, game: string, name: string, secs: map<string, Section>) {
    forall id, n | id in db.saves && Owns(db.saves[id], l.user, l.source, game, name) && Sec(db, id, n).Some? ::
      n in secs
  }

  predicate Applied(e: Event) {
    e.out.Some? && e.stored.changed
  }

  lemma UnappliedChangesNothing(l: Link, s: State, e: Event, s': State)
    requires Next(l, s, e, s') && !Applied(e)
    ensures s'.db == s.db
  {
    hide UpdateEffect, InsertEffect, Sends;
  }

  lemma MirrorsIfNothingElse(l: Link, db: Db, game: string, name: string, secs: map<string, Section>)
    requires Unique(db) && Holds(l, db, game, name, secs)
    ensures Mirrors(l, db, game, name, secs) <==> NothingElse(l, db, game, name, secs)
  {
    var id :| id in db.saves && Owns(db.saves[id], l.user, l.source, game, name) && Matches(db, id, secs);
    forall i | i in db.saves && Owns(db.saves[i], l.user, l.source, game, name) ensures i == id {
      assert SameKey(db.saves[i], db.saves[id]);
    }
    if NothingElse(l, db, game, name, secs) {
      assert Exactly(db, id, secs);
    }
  }

  /** After any parse with a readable section that was not refused, the save is a copy of the parse if and
      only if the server applied the push or the save had no other section before. A full push that
      the server ignores as identical, and a parse that is not sent, leave what they no longer list. */
  lemma CopiedExactly(l: Link, states: seq<State>, events: seq<Event>, i: nat)
    requires l.Injective() && Run(l, states, events) && i < |events|
    requires !Failed(l, states[i], events[i]) && Valid(events[i].parsed.sections) != map[]
    ensures var game, name := l.gameOf(events[i].path), Name(states[i], events[i]);
            var secs := Valid(events[i].parsed.sections);
            Mirrors(l, states[i + 1].db, game, name, secs)
            <==> Applied(events[i]) || NothingElse(l, states[i].db, game, name, secs)
  {
    hide DbOk, PushEffect, Valid, Holds, Mirrors, NothingElse, Failed, Inv, Legal, Cached, Owns;
    var s, e, s' := states[i], events[i], states[i + 1];
    var game, name, secs := l.gameOf(e.path), Name(s, e), Valid(e.parsed.sections);
    RunInv(l, states, events, i);
    RunInv(l, states, events, i + 1);
    if Applied(e) {
      AppliedExactly(l, states, events, i);
      AppliedMirrors(l, s, e, s');
    } else {
      UnappliedChangesNothing(l, s, e, s');
      LatestHeld(l, s', e.path, name);
      MirrorsIfNothingElse(l, s'.db, game, name, secs);
    }
  }

  lemma LatestHeld(l: Link, s: State, path: string, name: string)
    requires Inv(l, s) && (path, name) in s.latest && s.latest[(path, name)] != map[]
    ensures Unique(s.db) && Holds(l, s.db, l.gameOf(path), name, s.latest[(path, name)])
  {
    hide Holds, Cached;
  }

  lemma AppliedMirrors(l: Link, s: State, e: Event, s': State)
    requires l.Injective() && Inv(l, s) && Legal(l, s, e) && Next(l, s, e, s') && Applied(e)
    requires Exactly(s'.db, e.stored.id, Valid(e.parsed.sections))
    ensures Mirrors(l, s'.db, l.gameOf(e.path), Name(s, e), Valid(e.parsed.sections))
  {
    hide DbOk, PushEffect, Valid, Holds, Exactly, Inv;
    SentHolds(l, s, e, s');
  }

  /** The search index stays in step with the stored sections over every run. */
  lemma IndexInStep(l: Link, states: seq<State>, events: seq<Event>, i: nat, r: IndexRow)
    requires l.Injective() && Run(l, states, events) && i < |states| && r.kind.SectionRow?
    ensures Count(states[i].db, r) == Expected(states[i].db, r)
  {
    RunInv(l, states, events, i);
  }

  // ---------------------------------------------------------------- the program takes these steps

  /** One file parse carried through both ends. */
  method Relay(d: Daemon, store: SaveStore.Store, l: Link, ghost s: State, path: string, parsed: Parsed, at: int,
               sendOk: bool, newId: string) returns (ghost e: Event, ghost s': State)
    requires s.memory == d.State() && s.db == store.db && d.hash == l.hash
    modifies d, store
    ensures e.path == path && e.parsed == parsed && e.at == at && e.sendOk == sendOk && e.newId == newId
    ensures Next(l, s, e, s') && s'.memory == d.State() && s'.db == store.db
  {
    hide Sends, PushEffect, Valid, Changed, Hashes;
    var name, out := d.ParseAndPush(path, parsed, sendOk);
    var stored := Stored("", false);
    if out.Some? {
      var p := out.value;
      stored := store.StorePush(PushArgs(l.user, l.source, l.gameOf(path), p.saveName, p.summary, at, p.sections, p.all,
          p.display), newId);
    }
    e := Event(path, parsed, at, sendOk, newId, out, stored);
    ghost var secs := Valid(parsed.sections);
    s' := State(d.State(), store.db, at,
                if out.Some? then s.sent[path := Filed(name, secs)] else s.sent,
                if Failed(l, s, e) then s.latest else s.latest[(path, name) := secs]);
  }

  // ---------------------------------------------------------------- why delivery is assumed

  /** A message that the connection accepts and then loses is never made up for: the same parse again is
      silent, however often it is repeated. */
  lemma LostPushStays(hash: (string, Section) -> int, m: Memory, path: string, name: string, secs: map<string, Section>)
    requires name != ""
    ensures var m' := AfterPush(Remember(m, path, name), hash, path, name, secs, true);
            && Changed(hash, Previous(m', path, name), secs) == map[]
            && AfterPush(Remember(m', path, name), hash, path, name, secs, true) == m'
  {
    var m1 := Remember(m, path, name);
    var m' := AfterPush(m1, hash, path, name, secs, true);
    SilentExactly(hash, Previous(m', path, name), secs);
    SilentExactly(hash, Previous(m1, path, name), secs);
  }
}
