/** The delta protocol as seen from outside: what the parses, the messages and the tables of a run have to do
    with each other, without the daemon's memory. */
module SyncLaws {
  import opened DaemonSync
  import opened Options
  import opened PushLaws
  import opened SaveDb
  import opened Sets
  import opened SyncRuns

  // ---------------------------------------------------------------- what a parse holds

  /** A section that the parse produced in readable form. */
  function Content(e: Event, n: string): Option<Section> {
    if n in e.parsed.sections && e.parsed.sections[n].Readable? then Some(e.parsed.sections[n].section) else None
  }

  lemma ContentIsValid(e: Event, n: string)
    ensures n in Valid(e.parsed.sections) <==> Content(e, n).Some?
    ensures n in Valid(e.parsed.sections) ==> Content(e, n) == Some(Valid(e.parsed.sections)[n])
  {
  }

  // ---------------------------------------------------------------- names

  predicate Speaks(e: Event, path: string) {
    e.path == path && e.parsed.saveName != ""
  }

  /** Event `j` is the latest before `i` in which the file told its name. */
  ghost predicate LastSpoke(events: seq<Event>, path: string, i: nat, j: nat) {
    j < i <= |events| && Speaks(events[j], path) && forall k | j < k < i :: !Speaks(events[k], path)
  }

  /** The name that a parse is filed under: its own; without one, the one the file told last; and without
      that, a fixed text. */
  ghost predicate FiledUnder(events: seq<Event>, i: nat, name: string)
    requires i < |events|
  {
    var e := events[i];
    if e.parsed.saveName != "" then name == e.parsed.saveName
    else
      && (forall j: nat | LastSpoke(events, e.path, i, j) :: name == events[j].parsed.saveName)
      && ((forall j: nat :: !LastSpoke(events, e.path, i, j)) ==> name == "Unknown Player")
  }

  /** What the daemon remembers of a file's name is what the file told last. */
  ghost predicate KnownName(events: seq<Event>, path: string, i: nat, m: Memory) {
    && (forall j: nat | LastSpoke(events, path, i, j) ::
          path in m.lastKnown && m.lastKnown[path] == events[j].parsed.saveName)
    && ((forall j: nat :: !LastSpoke(events, path, i, j)) ==> path !in m.lastKnown)
  }

  ghost predicate KnownNames(events: seq<Event>, i: nat, m: Memory) {
    forall path :: KnownName(events, path, i, m)
  }

  lemma SpokeNow(events: seq<Event>, path: string, i: nat, i': nat)
    requires i' == i + 1 <= |events|
    ensures Speaks(events[i], path) ==>
        LastSpoke(events, path, i', i) && forall j: nat :: LastSpoke(events, path, i', j) ==> j == i
    ensures !Speaks(events[i], path) ==>
        forall j: nat :: LastSpoke(events, path, i', j) <==> LastSpoke(events, path, i, j)
  {
    forall j: nat | j != i && !Speaks(events[i], path)
      ensures LastSpoke(events, path, i', j) <==> LastSpoke(events, path, i, j)
    {
    }
  }

  lemma NameStep(events: seq<Event>, path: string, i: nat, i': nat, m: Memory, m': Memory)
    requires i' == i + 1 <= |events| && KnownName(events, path, i, m)
    requires m'.lastKnown == Remember(m, events[i].path, events[i].parsed.saveName).lastKnown
    ensures KnownName(events, path, i', m')
  {
    SpokeNow(events, path, i, i');
  }

  lemma NamesStep(l: Link, events: seq<Event>, i: nat, i': nat, s: State, s': State)
    requires i' == i + 1 <= |events| && KnownNames(events, i, s.memory) && Next(l, s, events[i], s')
    ensures KnownNames(events, i', s'.memory)
  {
    hide KnownName, Sends, PushEffect, Failed, Valid, Changed, Hashes, Previous;
    var e := events[i];
    assert s'.memory.lastKnown == Remember(s.memory, e.path, e.parsed.saveName).lastKnown;
    forall path ensures KnownName(events, path, i', s'.memory) {
      NameStep(events, path, i, i', s.memory, s'.memory);
    }
  }

  lemma {:induction false} RunNames(l: Link, states: seq<State>, events: seq<Event>, i: nat)
    requires Run(l, states, events) && i < |states|
    ensures KnownNames(events, i, states[i].memory)
  {
    hide KnownNames, Next, Legal;
    if i == 0 {
      NobodyKnown(l, events);
    } else {
      RunNames(l, states, events, i - 1);
      NamesStep(l, events, i - 1, i, states[i - 1], states[i]);
    }
  }

  lemma NobodyKnown(l: Link, events: seq<Event>)
    ensures KnownNames(events, 0, Init().memory)
  {
  }

  lemma {:induction false} SomeoneSpoke(events: seq<Event>, path: string, i: nat) returns (j: nat)
    requires i <= |events|
    ensures LastSpoke(events, path, i, j) || forall k: nat :: !LastSpoke(events, path, i, k)
  {
    j := 0;
    if k: nat :| LastSpoke(events, path, i, k) {
      j := k;
    }
  }

  lemma OneSpoke(events: seq<Event>, path: string, i: nat, j: nat, k: nat)
    requires LastSpoke(events, path, i, j) && LastSpoke(events, path, i, k)
    ensures j == k
  {
  }

  /** In every run a parse is filed under exactly the name that the parses of its file so far give it, and a
      message made from it carries that name. */
  lemma NamesInRun(l: Link, states: seq<State>, events: seq<Event>, i: nat, name: string)
    requires Run(l, states, events) && i < |events|
    ensures FiledUnder(events, i, name) <==> name == Name(states[i], events[i])
    ensures events[i].out.Some? ==> (FiledUnder(events, i, name) <==> name == events[i].out.value.saveName)
  {
    hide LastSpoke, PushEffect, Failed, AfterPush, Valid, Changed, Hashes, Previous, Legal;
    RunNames(l, states, events, i);
    var e := events[i];
    assert Next(l, states[i], e, states[i + 1]);
    assert KnownName(events, e.path, i, states[i].memory);
    var j := SomeoneSpoke(events, e.path, i);
    if LastSpoke(events, e.path, i, j) {
      forall k: nat | LastSpoke(events, e.path, i, k) ensures k == j {
        OneSpoke(events, e.path, i, j, k);
      }
    }
  }

  // ---------------------------------------------------------------- messages

  /** Event `j` is the latest before `i` from which a message about this file was sent. */
  ghost predicate LastSent(events: seq<Event>, path: string, i: nat, j: nat) {
    && j < i <= |events| && events[j].path == path && events[j].out.Some?
    && forall k | j < k < i :: !(events[k].path == path && events[k].out.Some?)
  }

  /** The last message about this file went out under the same name and from a parse with the same content of
      this section. */
  ghost predicate SentBefore(events: seq<Event>, i: nat, name: string, n: string)
    requires i < |events|
  {
    exists j: nat :: LastSent(events, events[i].path, i, j) && events[j].out.value.saveName == name
                     && Content(events[j], n) == Content(events[i], n)
  }

  /** What the daemon remembers of its pushes is the last message of each file. */
  ghost predicate KnownPush(l: Link, events: seq<Event>, path: string, i: nat, m: Memory) {
    && (forall j: nat | LastSent(events, path, i, j) ::
          && path in m.lastPushed
          && m.lastPushed[path] == HashCache(events[j].out.value.saveName,
                                             Hashes(l.hash, Valid(events[j].parsed.sections))))
    && ((forall j: nat :: !LastSent(events, path, i, j)) ==> path !in m.lastPushed)
  }

  ghost predicate KnownPushes(l: Link, events: seq<Event>, i: nat, m: Memory) {
    forall path :: KnownPush(l, events, path, i, m)
  }

  lemma SentNow(events: seq<Event>, path: string, i: nat, i': nat)
    requires i' == i + 1 <= |events|
    ensures events[i].path == path && events[i].out.Some? ==>
        LastSent(events, path, i', i) && forall j: nat :: LastSent(events, path, i', j) ==> j == i
    ensures !(events[i].path == path && events[i].out.Some?) ==>
        forall j: nat :: LastSent(events, path, i', j) <==> LastSent(events, path, i, j)
  {
    forall j: nat | j != i && !(events[i].path == path && events[i].out.Some?)
      ensures LastSent(events, path, i', j) <==> LastSent(events, path, i, j)
    {
    }
  }

  lemma PushStep(l: Link, events: seq<Event>, path: string, i: nat, i': nat, m: Memory, m': Memory)
    requires i' == i + 1 <= |events| && KnownPush(l, events, path, i, m)
    requires var e := events[i];
             m'.lastPushed == if e.out.None? then m.lastPushed
                 else m.lastPushed[e.path := HashCache(e.out.value.saveName, Hashes(l.hash, Valid(e.parsed.sections)))]
    ensures KnownPush(l, events, path, i', m')
  {
    hide Hashes, Valid;
    SentNow(events, path, i, i');
  }

  lemma PushesStep(l: Link, events: seq<Event>, i: nat, i': nat, s: State, s': State)
    requires i' == i + 1 <= |events| && KnownPushes(l, events, i, s.memory) && Next(l, s, events[i], s')
    ensures KnownPushes(l, events, i', s'.memory)
  {
    hide KnownPush, PushEffect, Failed, Valid, Changed, Hashes, Previous;
    var e := events[i];
    SamePrevious(s.memory, e.path, e.parsed.saveName, Name(s, e));
    forall path ensures KnownPush(l, events, path, i', s'.memory) {
      PushStep(l, events, path, i, i', s.memory, s'.memory);
    }
  }

  lemma SamePrevious(m: Memory, path: string, saveName: string, name: string)
    ensures Previous(Remember(m, path, saveName), path, name) == Previous(m, path, name)
  {
  }

  lemma {:induction false} RunPushes(l: Link, states: seq<State>, events: seq<Event>, i: nat)
    requires Run(l, states, events) && i < |states|
    ensures KnownPushes(l, events, i, states[i].memory)
  {
    hide KnownPushes, Next, Legal;
    if i == 0 {
      NothingPushed(l, events);
    } else {
      RunPushes(l, states, events, i - 1);
      PushesStep(l, events, i - 1, i, states[i - 1], states[i]);
    }
  }

  lemma NothingPushed(l: Link, events: seq<Event>)
    ensures KnownPushes(l, events, 0, Init().memory)
  {
  }

  /** A section counts as known exactly when the last message had it, or would have, under the same name. */
  lemma KnownExactly(l: Link, events: seq<Event>, i: nat, m: Memory, name: string, n: string)
    requires l.Injective() && i < |events| && KnownPushes(l, events, i, m) && Content(events[i], n).Some?
    ensures n in Changed(l.hash, Previous(m, events[i].path, name), Valid(events[i].parsed.sections))
            <==> !SentBefore(events, i, name, n)
  {
    var e := events[i];
    var secs := Valid(e.parsed.sections);
    assert KnownPush(l, events, e.path, i, m);
    if SentBefore(events, i, name, n) {
      var j: nat :| LastSent(events, e.path, i, j) && events[j].out.value.saveName == name
                    && Content(events[j], n) == Content(e, n);
      assert Known(Previous(m, e.path, name), n, l.hash(n, secs[n]));
    }
    if Known(Previous(m, e.path, name), n, l.hash(n, secs[n])) {
      assert KnownPush(l, events, e.path, i, m);
      var j: nat :| LastSent(events, e.path, i, j);
      ContentIsValid(events[j], n);
      var sent := Valid(events[j].parsed.sections);
      assert l.hash(n, sent[n]) == l.hash(n, secs[n]);
      assert SentBefore(events, i, name, n);
    }
  }

  /** In every run: a message goes out exactly when the connection takes it and some section was not in the
      last message of this file under this name. It has exactly those sections, with the content of
      the parse, lists all readable sections once, and carries the parse's own summary and display name. */
  lemma MessageInRun(l: Link, states: seq<State>, events: seq<Event>, i: nat, name: string)
    requires l.Injective() && Run(l, states, events) && i < |events| && FiledUnder(events, i, name)
    ensures var e := events[i];
            && (e.out.Some? <==> e.sendOk && exists n :: Content(e, n).Some? && !SentBefore(events, i, name, n))
            && (e.out.Some? ==>
                var p := e.out.value;
                && p.saveName == name && p.summary == e.parsed.summary && p.display == e.parsed.display
                && Distinct(p.all) && (forall n :: n in p.all <==> Content(e, n).Some?)
                && (forall n :: n in p.sections <==> Content(e, n).Some? && !SentBefore(events, i, name, n))
                && (forall n | n in p.sections :: Content(e, n) == Some(p.sections[n])))
  {
    hide PushEffect, Failed, AfterPush, Valid, Changed, Hashes, Previous, Legal, SentBefore, Content, KnownPushes,
        FiledUnder, Distinct;
    NamesInRun(l, states, events, i, name);
    RunPushes(l, states, events, i);
    var s, e := states[i], events[i];
    assert Next(l, s, e, states[i + 1]);
    var secs := Valid(e.parsed.sections);
    var changed := Changed(l.hash, Previous(s.memory, e.path, name), secs);
    forall n
      ensures n in secs <==> Content(e, n).Some?
      ensures n in secs ==> Content(e, n) == Some(secs[n])
      ensures n in changed <==> Content(e, n).Some? && !SentBefore(events, i, name, n)
      ensures n in changed ==> n in secs && changed[n] == secs[n]
    {
      ContentIsValid(e, n);
      ChangedAmong(l.hash, Previous(s.memory, e.path, name), secs, n);
      if Content(e, n).Some? { KnownExactly(l, events, i, s.memory, name, n); }
    }
    if changed != map[] {
      var n := SomeElement(changed.Keys);
      assert n in changed;
    }
  }

  lemma ChangedAmong(hash: (string, Section) -> int, prev: map<string, int>, secs: map<string, Section>, n: string)
    ensures var changed := Changed(hash, prev, secs); n in changed ==> n in secs && changed[n] == secs[n]
  {
  }

  // ---------------------------------------------------------------- what the server holds

  /** There is a save of this account, game and name with every section of the parse. */
  ghost predicate HoldsParse(l: Link, db: Db, e: Event, name: string) {
    exists id :: id in db.saves && IsOurs(l, db.saves[id], l.gameOf(e.path), name) && HasSections(db, id, e)
  }

  predicate IsOurs(l: Link, row: SaveRow, game: string, name: string) {
    row.user == l.user && row.game == game && row.name == name && (l.user == None ==> row.source == l.source)
  }

  ghost predicate HasSections(db: Db, id: string, e: Event) {
    forall n | Content(e, n).Some? :: (id, n) in db.sections && Content(e, n) == Some(db.sections[(id, n)])
  }

  lemma HoldsIsParse(l: Link, db: Db, e: Event, name: string)
    requires Holds(l, db, l.gameOf(e.path), name, Valid(e.parsed.sections))
    ensures HoldsParse(l, db, e, name)
  {
    var id :| id in db.saves && Owns(db.saves[id], l.user, l.source, l.gameOf(e.path), name)
              && Matches(db, id, Valid(e.parsed.sections));
    forall n | Content(e, n).Some? ensures (id, n) in db.sections && Content(e, n) == Some(db.sections[(id, n)]) {
      ContentIsValid(e, n);
    }
    assert HasSections(db, id, e);
  }

  /** No parse of this file between the two is filed under this name. */
  ghost predicate NoneSince(events: seq<Event>, k: nat, i: nat, name: string)
    requires k < i <= |events|
  {
    forall j | k < j < i :: events[j].path == events[k].path ==> !FiledUnder(events, j, name)
  }

  lemma {:induction false} LatestStays(l: Link, states: seq<State>, events: seq<Event>, k: nat, i: nat, name: string)
    requires Run(l, states, events) && k < i < |states| && FiledUnder(events, k, name) && events[k].sendOk
    requires NoneSince(events, k, i, name)
    ensures var key := (events[k].path, name);
            key in states[i].latest && states[i].latest[key] == Valid(events[k].parsed.sections)
    decreases i
  {
    hide PushEffect, AfterPush, Valid, Changed, Hashes, Previous, Legal, FiledUnder, Sends;
    var e := events[i - 1];
    assert Next(l, states[i - 1], e, states[i]);
    NamesInRun(l, states, events, i - 1, name);
    if i - 1 > k {
      assert NoneSince(events, k, i - 1, name);
      LatestStays(l, states, events, k, i - 1, name);
      assert e.path == events[k].path ==> !FiledUnder(events, i - 1, name);
    }
  }

  /** In every run: a parse whose message the connection took, or would have taken, is held by the server with
      every readable section, from then on until the file is parsed again under the same name. */
  lemma LastParseHeld(l: Link, states: seq<State>, events: seq<Event>, k: nat, i: nat, name: string)
    requires l.Injective() && Run(l, states, events) && k < i < |states|
    requires FiledUnder(events, k, name) && events[k].sendOk && NoneSince(events, k, i, name)
    requires exists n :: Content(events[k], n).Some?
    ensures HoldsParse(l, states[i].db, events[k], name)
  {
    hide Next, Legal, Holds, HoldsParse, FiledUnder, NoneSince, Valid;
    LatestStays(l, states, events, k, i, name);
    var n :| Content(events[k], n).Some?;
    ContentIsValid(events[k], n);
    Agreement(l, states, events, i, events[k].path, name);
    HoldsIsParse(l, states[i].db, events[k], name);
  }

  /** After an applied push: the save is the one of this account, game and name, its row says what the parse
      said, its display name survives an empty one, its sections are those of the parse and no others,
      and no other save is touched. */
  lemma AppliedInRun(l: Link, states: seq<State>, events: seq<Event>, i: nat, name: string)
    requires l.Injective() && Run(l, states, events) && i < |events| && FiledUnder(events, i, name)
    requires events[i].out.Some? && events[i].stored.changed
    ensures var e, db, db' := events[i], states[i].db, states[i + 1].db;
            var id := e.stored.id;
            && id in db'.saves && IsOurs(l, db'.saves[id], l.gameOf(e.path), name)
            && db'.saves[id].source == l.source && db'.saves[id].summary == e.parsed.summary
            && db'.saves[id].lastUpdated == e.at
            && db'.saves[id].displayName == (if e.parsed.display != "" then Some(e.parsed.display)
                                             else if id in db.saves then db.saves[id].displayName else None)
            && (forall n :: (id, n) in db'.sections <==> Content(e, n).Some?)
            && (forall n | (id, n) in db'.sections :: Content(e, n) == Some(db'.sections[(id, n)]))
            && OthersUntouched(db, db', id)
  {
    hide Next, FiledUnder, DbOk, PushEffect, OthersUntouched, SectionsWritten, Valid, SentBefore, Distinct, Legal;
    MessageInRun(l, states, events, i, name);
    NamesInRun(l, states, events, i, name);
    AppliedExactly(l, states, events, i);
    StepFacts(l, states, events, i);
    var e := events[i];
    PushMeans(states[i].db, states[i + 1].db, Args(l, e, e.out.value), e.newId, e.stored);
    forall n
      ensures (e.stored.id, n) in states[i + 1].db.sections <==> Content(e, n).Some?
      ensures (e.stored.id, n) in states[i + 1].db.sections ==>
          Content(e, n) == Some(states[i + 1].db.sections[(e.stored.id, n)])
    {
      ContentIsValid(e, n);
      assert Sec(states[i + 1].db, e.stored.id, n) ==
          if n in Valid(e.parsed.sections) then Some(Valid(e.parsed.sections)[n]) else None;
    }
  }

  lemma StepFacts(l: Link, states: seq<State>, events: seq<Event>, i: nat)
    requires l.Injective() && Run(l, states, events) && i < |events| && events[i].out.Some?
    ensures var e := events[i];
            && DbOk(states[i].db) && e.newId !in states[i].db.saves
            && PushEffect(states[i].db, states[i + 1].db, Args(l, e, e.out.value), e.newId, e.stored)
  {
    hide DbOk, PushEffect, Sends, Cached, Current, Past;
    RunInv(l, states, events, i);
    assert Next(l, states[i], events[i], states[i + 1]);
  }
}
