/** Any mixture of pushes and account links, in any order: the tables stay in order throughout. */
module StoreRuns {
  import opened Options
  import opened PushLaws
  import opened Reconcile
  import opened SaveDb

  datatype Step =
    | Pushed(p: PushArgs, newId: string, stored: Stored)
    | Noted(note: string, id: string, title: string, content: string)
    | Unnoted(note: string)
    | Linked(source: string, user: string, rivals: map<string, string>, done: seq<string>, ok: bool)

  /** New ids are new, what a push sends is among what it announces, and notes go on a user's save. */
  predicate Proper(db: Db, step: Step) {
    match step
    case Pushed(p, newId, _) => newId !in db.saves && (|p.all| == 0 || forall n | n in p.secs :: n in p.all)
    case Noted(note, id, _, _) => note !in db.notes && id in db.saves && db.saves[id].user.Some?
    case Unnoted(note) => note in db.notes
    case Linked(_, _, _, _, _) => true
  }

  /** A new note, replacing what the index has under its id. */
  function NoteStatements(db: Db, note: string, id: string, title: string, content: string): seq<Statement>
    requires id in db.saves
  {
    [AddNote(note, id), DropNoteRows(note), AddRow(IndexRow(id, db.saves[id].name, OtherRow, note, title, content))]
  }

  ghost predicate Next(db: Db, step: Step, db': Db) {
    match step
    case Pushed(p, newId, stored) => PushEffect(db, db', p, newId, stored)
    case Noted(note, id, title, content) =>
      id in db.saves && TryAll(db, NoteStatements(db, note, id, title, content)) == Some(db')
    case Unnoted(note) => TryAll(db, [DropNote(note), DropNoteRows(note)]) == Some(db')
    case Linked(source, user, rivals, done, ok) => LinkEffect(db, db', source, user, rivals, done, ok)
  }

  ghost predicate Run(dbs: seq<Db>, steps: seq<Step>) {
    && |dbs| == |steps| + 1 && dbs[0] == Db(map[], map[], map[], map[])
    && forall i | 0 <= i < |steps| :: Proper(dbs[i], steps[i]) && Next(dbs[i], steps[i], dbs[i + 1])
  }

  /** Adding or removing a note touches only its own rows of the index. */
  lemma NotesKeepDb(db: Db, db': Db)
    requires DbOk(db) && db'.saves == db.saves && db'.sections == db.sections
    requires forall n | n in db'.notes :: db'.notes[n] in db.saves
    requires forall r: IndexRow | r.kind.SectionRow? :: Count(db', r) == Count(db, r)
    requires forall r: IndexRow | Count(db', r) > 0 :: Count(db, r) > 0 || r.saveId in db.saves
    ensures DbOk(db')
  {
    forall r: IndexRow | r.kind.SectionRow? ensures Count(db', r) == Expected(db', r) {
      assert Count(db, r) == Expected(db, r);
    }
  }

  lemma NoteAdded(db: Db, note: string, id: string, title: string, content: string)
    requires id in db.saves && note !in db.notes
    ensures var row := IndexRow(id, db.saves[id].name, OtherRow, note, title, content);
            TryAll(db, NoteStatements(db, note, id, title, content))
            == Some(Exec(Exec(Exec(db, AddNote(note, id)), DropNoteRows(note)), AddRow(row)))
  {
    hide TryAll;
    var row := IndexRow(id, db.saves[id].name, OtherRow, note, title, content);
    TryFirst(db, AddNote(note, id));
    TryOne(db, [AddNote(note, id)], DropNoteRows(note));
    TryOne(db, [AddNote(note, id)] + [DropNoteRows(note)], AddRow(row));
    assert [AddNote(note, id)] + [DropNoteRows(note)] + [AddRow(row)]
        == NoteStatements(db, note, id, title, content);
  }

  lemma NoteDropped(db: Db, note: string)
    ensures TryAll(db, [DropNote(note), DropNoteRows(note)])
            == Some(Exec(Exec(db, DropNote(note)), DropNoteRows(note)))
  {
    hide TryAll;
    TryFirst(db, DropNote(note));
    TryOne(db, [DropNote(note)], DropNoteRows(note));
    assert [DropNote(note)] + [DropNoteRows(note)] == [DropNote(note), DropNoteRows(note)];
  }

  lemma NotedKeepsDb(db: Db, db': Db, note: string, id: string, title: string, content: string)
    requires DbOk(db) && note !in db.notes && id in db.saves
    requires TryAll(db, NoteStatements(db, note, id, title, content)) == Some(db')
    ensures DbOk(db') && db'.saves == db.saves && db'.notes == db.notes[note := id]
  {
    hide InStep, Unique, TryAll, NoteStatements;
    NoteAdded(db, note, id, title, content);
    NotesKeepDb(db, db');
  }

  lemma UnnotedKeepsDb(db: Db, db': Db, note: string)
    requires DbOk(db) && TryAll(db, [DropNote(note), DropNoteRows(note)]) == Some(db')
    ensures DbOk(db') && db'.saves == db.saves && db'.notes == db.notes - {note}
  {
    hide InStep, Unique, TryAll;
    NoteDropped(db, note);
    NotesKeepDb(db, db');
  }

  lemma StepKeepsDb(db: Db, step: Step, db': Db)
    requires DbOk(db) && Proper(db, step) && Next(db, step, db')
    ensures DbOk(db')
  {
    hide DbOk, PushEffect, Reconciled, Blocked, TryAll, NoteStatements;
    match step
    case Pushed(p, newId, stored) => PushKeepsDb(db, db', p, newId, stored);
    case Noted(note, id, title, content) => NotedKeepsDb(db, db', note, id, title, content);
    case Unnoted(note) => UnnotedKeepsDb(db, db', note);
    case Linked(source, user, rivals, done, ok) =>
      if ok { ReconcileKeepsDb(db, db', source, user, rivals, done); }
  }

  lemma EmptyOk()
    ensures DbOk(Db(map[], map[], map[], map[]))
  {
  }

  /** At every point of every run: one save per user, game and name, one orphan per source, game and name,
      no row without its save, and exactly one index row per stored section, with its text. */
  lemma {:induction false} RunKeepsDb(dbs: seq<Db>, steps: seq<Step>, i: nat)
    requires Run(dbs, steps) && i < |dbs|
    ensures DbOk(dbs[i])
  {
    hide DbOk, Next, Proper;
    if i == 0 {
      EmptyOk();
    } else {
      RunKeepsDb(dbs, steps, i - 1);
      StepKeepsDb(dbs[i - 1], steps[i - 1], dbs[i]);
    }
  }

  // ---------------------------------------------------------------- notes in the index

  /** The index has this row, about this note. */
  predicate RowAbout(db: Db, r: IndexRow, note: string) {
    r.kind.OtherRow? && r.refId == note && Count(db, r) > 0
  }

  /** Every row about a note is there once, under the note's save and its name, and is the only one about it;
      and every note has its row. */
  ghost predicate NotesIndexed(db: Db) {
    && (forall r: IndexRow | r.kind.OtherRow? && Count(db, r) > 0 ::
          && Count(db, r) == 1 && r.refId in db.notes && db.notes[r.refId] == r.saveId
          && r.saveId in db.saves && db.saves[r.saveId].name == r.saveName)
    && (forall n, r, t | RowAbout(db, r, n) && RowAbout(db, t, n) :: r == t)
    && (forall n | n in db.notes :: exists r :: RowAbout(db, r, n))
  }

  lemma NotedIndexed(db: Db, db': Db, note: string, id: string, title: string, content: string)
    requires NotesIndexed(db) && note !in db.notes && id in db.saves
    requires TryAll(db, NoteStatements(db, note, id, title, content)) == Some(db')
    ensures NotesIndexed(db')
  {
    hide TryAll, NoteStatements, NotesIndexed;
    NoteAdded(db, note, id, title, content);
    var row := IndexRow(id, db.saves[id].name, OtherRow, note, title, content);
    forall r: IndexRow ensures Count(db', r) == (if r == row then 1 else Count(db, r)) {
      NoneAbout(db, note, r);
    }
    OneMoreIndexed(db, db', note, id, row);
  }

  lemma NoneAbout(db: Db, note: string, r: IndexRow)
    requires NotesIndexed(db) && note !in db.notes
    ensures r.kind.OtherRow? && r.refId == note ==> Count(db, r) == 0
  {
  }

  lemma OneMoreIndexed(db: Db, db': Db, note: string, id: string, row: IndexRow)
    requires NotesIndexed(db) && note !in db.notes && id in db.saves && row.saveId == id && row.refId == note
    requires row.kind.OtherRow? && row.saveName == db.saves[id].name
    requires db'.saves == db.saves && db'.notes == db.notes[note := id]
    requires forall r: IndexRow :: Count(db', r) == if r == row then 1 else Count(db, r)
    ensures NotesIndexed(db')
  {
    assert RowAbout(db', row, note);
    forall n | n in db'.notes ensures exists r :: RowAbout(db', r, n) {
      if n != note {
        var r :| RowAbout(db, r, n);
        assert RowAbout(db', r, n);
      }
    }
    forall n, r, t | RowAbout(db', r, n) && RowAbout(db', t, n) ensures r == t {
      NoneAbout(db, note, r);
      NoneAbout(db, note, t);
      assert r != row ==> RowAbout(db, r, n);
      assert t != row ==> RowAbout(db, t, n);
    }
  }

  lemma UnnotedIndexed(db: Db, db': Db, note: string)
    requires NotesIndexed(db) && TryAll(db, [DropNote(note), DropNoteRows(note)]) == Some(db')
    ensures NotesIndexed(db')
  {
    hide TryAll;
    NoteDropped(db, note);
    forall r: IndexRow ensures Count(db', r) == if r.kind.OtherRow? && r.refId == note then 0 else Count(db, r) {
    }
    forall n, r | RowAbout(db', r, n) ensures RowAbout(db, r, n) {
    }
    forall n | n in db'.notes ensures exists r :: RowAbout(db', r, n) {
      var r :| RowAbout(db, r, n);
      assert RowAbout(db', r, n);
    }
  }

  /** Nothing about notes changes, and their saves stay under their names. */
  lemma SameIndexed(db: Db, db': Db)
    requires NotesIndexed(db) && db'.notes == db.notes
    requires forall r: IndexRow | r.kind.OtherRow? && Count(db, r) > 0 :: Count(db', r) == Count(db, r)
    requires forall r: IndexRow | r.kind.OtherRow? && Count(db', r) > 0 :: Count(db, r) > 0
    requires forall n | n in db.notes && db.notes[n] in db.saves ::
        db.notes[n] in db'.saves && db'.saves[db.notes[n]].name == db.saves[db.notes[n]].name
    ensures NotesIndexed(db')
  {
    forall n | n in db'.notes ensures exists r :: RowAbout(db', r, n) {
      var r :| RowAbout(db, r, n);
      assert RowAbout(db', r, n);
    }
    forall n, r | RowAbout(db', r, n) ensures RowAbout(db, r, n) {
    }
  }

  lemma PushIndexed(db: Db, db': Db, p: PushArgs, newId: string, stored: Stored)
    requires DbOk(db) && NotesIndexed(db) && newId !in db.saves && PushEffect(db, db', p, newId, stored)
    ensures NotesIndexed(db')
  {
    hide PushEffect, NotesIndexed, SectionsWritten, SomethingNew, InStep, Unique;
    PushMeans(db, db', p, newId, stored);
    SameIndexed(db, db');
  }

  lemma LinkIndexed(db: Db, db': Db, source: string, user: string, rivals: map<string, string>, done: seq<string>)
    requires DbOk(db) && NotesIndexed(db) && Reconciled(db, db', source, user, rivals, done)
    requires !Blocked(db, source, user)
    ensures NotesIndexed(db')
  {
    hide Reconciled, NotesIndexed, Blocked, InStep, Unique;
    NotesKeepSaves(db, db', source, user, rivals, done);
    NoOrphansLeft(db, db', source, user, rivals, done);
    SameNames(db, db', source, user, rivals, done);
    SameNotes(db, db', source, user, rivals, done);
    forall r: IndexRow | r.kind.OtherRow? && Count(db, r) > 0 ensures Count(db', r) == Count(db, r) {
      OwnSave(db, r);
    }
    SameIndexed(db, db');
  }

  lemma SameNotes(db: Db, db': Db, source: string, user: string, rivals: map<string, string>, done: seq<string>)
    requires Reconciled(db, db', source, user, rivals, done)
    ensures db'.notes == db.notes
  {
    hide Removed, RivalsOk, AllOrphans;
  }

  lemma OwnSave(db: Db, r: IndexRow)
    requires NotesIndexed(db) && r.kind.OtherRow? && Count(db, r) > 0
    ensures r.refId in db.notes && db.notes[r.refId] == r.saveId
  {
  }

  /** In every run the search index has exactly one row for every note, under the note's save, and no other
      rows about notes. */
  lemma {:induction false} RunKeepsNotesIndexed(dbs: seq<Db>, steps: seq<Step>, i: nat)
    requires Run(dbs, steps) && i < |dbs|
    ensures NotesIndexed(dbs[i])
  {
    hide DbOk, Next, Proper, NotesIndexed;
    if i == 0 {
      NothingIndexed();
    } else {
      RunKeepsNotesIndexed(dbs, steps, i - 1);
      RunKeepsDb(dbs, steps, i - 1);
      StepKeepsNotes(dbs[i - 1], steps[i - 1], dbs[i]);
    }
  }

  lemma NothingIndexed()
    ensures NotesIndexed(Db(map[], map[], map[], map[]))
  {
  }

  lemma StepKeepsNotes(db: Db, step: Step, db': Db)
    requires DbOk(db) && NotesIndexed(db) && Proper(db, step) && Next(db, step, db')
    ensures NotesIndexed(db')
  {
    hide DbOk, NotesIndexed, PushEffect, Reconciled, Blocked, TryAll, NoteStatements;
    match step
    case Pushed(p, newId, stored) => PushIndexed(db, db', p, newId, stored);
    case Noted(note, id, title, content) => NotedIndexed(db, db', note, id, title, content);
    case Unnoted(note) => UnnotedIndexed(db, db', note);
    case Linked(source, user, rivals, done, ok) =>
      if ok { LinkIndexed(db, db', source, user, rivals, done); }
  }

  // ---------------------------------------------------------------- display names

  /** Step `k` is an applied push that named the save, and the save has been there ever since, up to `i`. */
  ghost predicate Named(dbs: seq<Db>, steps: seq<Step>, id: string, i: nat, k: nat)
    requires i < |dbs| <= |steps| + 1
  {
    && k < i && steps[k].Pushed? && steps[k].stored == Stored(id, true) && steps[k].p.display != ""
    && forall m | k < m <= i :: id in dbs[m].saves
  }

  /** And none did after it. */
  ghost predicate LastNamed(dbs: seq<Db>, steps: seq<Step>, id: string, i: nat, k: nat)
    requires i < |dbs| <= |steps| + 1
  {
    Named(dbs, steps, id, i, k) && forall m: nat | k < m :: !Named(dbs, steps, id, i, m)
  }

  /** The display name of a save in every run: the one of the latest applied push that gave one, whatever
      pushes without a name, links and notes came after it, and none if no push did. */
  lemma {:induction false} DisplayInRun(dbs: seq<Db>, steps: seq<Step>, i: nat, id: string)
    requires Run(dbs, steps) && i < |dbs| && id in dbs[i].saves
    ensures forall k: nat | LastNamed(dbs, steps, id, i, k) ::
              k < |steps| && steps[k].Pushed? && dbs[i].saves[id].displayName == Some(steps[k].p.display)
    ensures (forall k: nat :: !Named(dbs, steps, id, i, k)) ==> dbs[i].saves[id].displayName == None
  {
    hide DbOk, Next, Proper, Named, LastNamed;
    if i > 0 {
      var j := i - 1;
      RunKeepsDb(dbs, steps, j);
      StepDisplays(dbs[j], steps[j], dbs[i], id);
      if id in dbs[j].saves {
        DisplayInRun(dbs, steps, j, id);
        NamedLonger(dbs, steps, id, i, j);
      } else {
        NamedFirst(dbs, steps, id, i, j);
      }
    } else {
      NothingYet(dbs, steps);
    }
  }

  lemma NothingYet(dbs: seq<Db>, steps: seq<Step>)
    requires Run(dbs, steps)
    ensures dbs[0].saves == map[]
  {
  }

  /** Whether this step names the save. */
  predicate Names(step: Step, id: string) {
    step.Pushed? && step.stored == Stored(id, true) && step.p.display != ""
  }

  lemma NamedLonger(dbs: seq<Db>, steps: seq<Step>, id: string, i: nat, j: nat)
    requires i == j + 1 && j < |steps| && |dbs| == |steps| + 1 && id in dbs[i].saves && id in dbs[j].saves
    ensures Names(steps[j], id) ==>
        Named(dbs, steps, id, i, j) && forall k: nat :: LastNamed(dbs, steps, id, i, k) ==> k == j
    ensures !Names(steps[j], id) ==> forall k: nat :: Named(dbs, steps, id, i, k) <==> Named(dbs, steps, id, j, k)
    ensures !Names(steps[j], id) ==>
        forall k: nat :: LastNamed(dbs, steps, id, i, k) <==> LastNamed(dbs, steps, id, j, k)
  {
    assert Named(dbs, steps, id, i, j) <==> Names(steps[j], id);
    forall k: nat | k != j ensures Named(dbs, steps, id, i, k) <==> Named(dbs, steps, id, j, k) {
    }
    if !Names(steps[j], id) { SameLast(dbs, steps, id, i, j); }
  }

  lemma SameLast(dbs: seq<Db>, steps: seq<Step>, id: string, i: nat, j: nat)
    requires i < |dbs| && j < |dbs| == |steps| + 1
    requires forall k: nat :: Named(dbs, steps, id, i, k) <==> Named(dbs, steps, id, j, k)
    ensures forall k: nat :: LastNamed(dbs, steps, id, i, k) <==> LastNamed(dbs, steps, id, j, k)
  {
    hide Named;
  }

  lemma NamedFirst(dbs: seq<Db>, steps: seq<Step>, id: string, i: nat, j: nat)
    requires i == j + 1 && j < |steps| && |dbs| == |steps| + 1 && id in dbs[i].saves && id !in dbs[j].saves
    ensures Named(dbs, steps, id, i, j) <==> Names(steps[j], id)
    ensures forall k: nat :: LastNamed(dbs, steps, id, i, k) ==> k == j && Names(steps[j], id)
  {
    forall k: nat | k != j ensures !Named(dbs, steps, id, i, k) {
    }
  }

  lemma StepDisplays(db: Db, step: Step, db': Db, id: string)
    requires DbOk(db) && Proper(db, step) && Next(db, step, db') && id in db'.saves
    ensures db'.saves[id].displayName ==
            if Names(step, id) then Some(step.p.display)
            else if id in db.saves then db.saves[id].displayName else None
  {
    hide DbOk, PushEffect, Blocked, TryAll, NoteStatements, Reconciled, SectionsWritten, SomethingNew;
    match step
    case Pushed(p, newId, stored) => PushMeans(db, db', p, newId, stored);
    case Noted(note, n, title, content) => NotedKeepsDb(db, db', note, n, title, content);
    case Unnoted(note) => UnnotedKeepsDb(db, db', note);
    case Linked(source, user, rivals, done, ok) =>
      if ok { LinkDisplays(db, db', source, user, rivals, done, id); }
  }

  lemma LinkDisplays(db: Db, db': Db, source: string, user: string, rivals: map<string, string>, done: seq<string>,
                     id: string)
    requires Reconciled(db, db', source, user, rivals, done) && id in db'.saves
    ensures id in db.saves && db'.saves[id].displayName == db.saves[id].displayName
  {
    hide Removed, RivalsOk, AllOrphans;
  }

  // ---------------------------------------------------------------- links that are refused

  /** Only saves that belong to someone have notes. */
  ghost predicate NotesOwned(db: Db) {
    forall n | n in db.notes :: db.notes[n] in db.saves && db.saves[db.notes[n]].user.Some?
  }

  lemma StepKeepsOwners(db: Db, step: Step, db': Db)
    requires DbOk(db) && DbOk(db') && NotesOwned(db) && Proper(db, step) && Next(db, step, db')
    ensures NotesOwned(db')
  {
    hide DbOk, Reconciled, Blocked, TryAll, NoteStatements, PushEffect;
    match step
    case Pushed(p, newId, stored) => PushKeepsOwners(db, db', p, newId, stored);
    case Noted(note, id, title, content) => NotedKeepsDb(db, db', note, id, title, content);
    case Unnoted(note) => UnnotedKeepsDb(db, db', note);
    case Linked(source, user, rivals, done, ok) =>
      if ok { LinkKeepsOwners(db, db', source, user, rivals, done); }
  }

  lemma PushKeepsOwners(db: Db, db': Db, p: PushArgs, newId: string, stored: Stored)
    requires NotesOwned(db) && newId !in db.saves && PushEffect(db, db', p, newId, stored)
    ensures NotesOwned(db')
  {
    hide Incoming, Updated, KeepsRows, Overlay, Matches;
  }

  lemma LinkKeepsOwners(db: Db, db': Db, source: string, user: string, rivals: map<string, string>, done: seq<string>)
    requires NotesOwned(db) && Reconciled(db, db', source, user, rivals, done) && DbOk(db')
    ensures NotesOwned(db')
  {
    hide Removed, RivalsOk, AllOrphans, InStep, Unique;
    SameNames(db, db', source, user, rivals, done);
  }

  lemma {:induction false} RunKeepsOwners(dbs: seq<Db>, steps: seq<Step>, i: nat)
    requires Run(dbs, steps) && i < |dbs|
    ensures NotesOwned(dbs[i])
  {
    hide DbOk, Next, Proper;
    if i > 0 {
      RunKeepsOwners(dbs, steps, i - 1);
      RunKeepsDb(dbs, steps, i - 1);
      RunKeepsDb(dbs, steps, i);
      StepKeepsOwners(dbs[i - 1], steps[i - 1], dbs[i]);
    }
  }

  /** A newer orphan of the source would replace a save of the user that has a note. */
  ghost predicate WouldLoseNote(db: Db, source: string, user: string) {
    exists o, e :: Orphan(db, source, o) && Rival(db, user, o, e) && Newer(db, o, e) && HasNote(db, e)
  }

  lemma BlockedByOwnNote(db: Db, source: string, user: string)
    requires NotesOwned(db)
    ensures Blocked(db, source, user) <==> WouldLoseNote(db, source, user)
  {
    hide Newer;
    forall o, e | Orphan(db, source, o) && Rival(db, user, o, e) && HasNote(db, Loser(db, o, e))
      ensures Newer(db, o, e) && HasNote(db, e)
    {
      assert Loser(db, o, e) == o || Newer(db, o, e);
    }
    forall o, e | Orphan(db, source, o) && Rival(db, user, o, e) && Newer(db, o, e) && HasNote(db, e)
      ensures HasNote(db, Loser(db, o, e))
    {
    }
  }

  /** In every run a link leaves no orphan of its source behind if and only if no newer orphan would
      replace a save of the user that has a note. Otherwise the tables do not change. */
  lemma LinkSucceedsInRunExactly(dbs: seq<Db>, steps: seq<Step>, i: nat)
    requires Run(dbs, steps) && i < |steps| && steps[i].Linked?
    ensures Adopted(dbs[i + 1], steps[i].source) <==> !WouldLoseNote(dbs[i], steps[i].source, steps[i].user)
    ensures WouldLoseNote(dbs[i], steps[i].source, steps[i].user) ==> dbs[i + 1] == dbs[i]
  {
    hide Blocked, WouldLoseNote, LinkEffect, NotesOwned, InStep, Unique, References, Proper, Adopted;
    RunKeepsDb(dbs, steps, i);
    RunKeepsOwners(dbs, steps, i);
    var source, user := steps[i].source, steps[i].user;
    BlockedByOwnNote(dbs[i], source, user);
    LinkSucceedsExactly(dbs[i], dbs[i + 1], source, user, steps[i].rivals, steps[i].done, steps[i].ok);
  }

  function Push(user: Option<string>, source: string, at: int): PushArgs {
    PushArgs(user, source, "game", "hero", "", at, map[], [], "")
  }

  function Row(user: Option<string>, source: string, at: int): SaveRow {
    SaveRow(user, "game", "hero", "", at, source, None)
  }

  lemma PushInserts(db: Db, user: Option<string>, source: string, at: int, id: string)
    requires forall i | i in db.saves :: db.saves[i].user != user
    ensures PushEffect(db, Exec(db, InsertSave(id, Row(user, source, at))), Push(user, source, at), id,
                       Stored(id, true))
  {
  }

  lemma NewerOrphanBlocked(db: Db, note: string)
    requires db.saves == map["old" := Row(Some("user"), "desk", 1), "new" := Row(None, "laptop", 2)]
    requires note in db.notes && db.notes[note] == "old"
    ensures Orphan(db, "laptop", "new") && Rival(db, "user", "new", "old") && Newer(db, "new", "old")
    ensures Blocked(db, "laptop", "user")
  {
    assert HasNote(db, Loser(db, "new", "old"));
  }

  /** A user with a note on a save links a source that holds a newer copy of it: the link is refused, the
      newer copy stays an orphan, and the stale one stays the user's. */
  lemma LinkCanBeRefused() returns (dbs: seq<Db>, steps: seq<Step>)
    ensures Run(dbs, steps) && |steps| == 4 && dbs[4] == dbs[3]
    ensures steps[3] == Linked("laptop", "user", map[], [], false)
    ensures Orphan(dbs[4], "laptop", "new") && Rival(dbs[4], "user", "new", "old") && Newer(dbs[4], "new", "old")
  {
    hide PushEffect, TryAll, NoteStatements, Blocked, Reconciled, Rival, Newer, Orphan;
    var d0 := Db(map[], map[], map[], map[]);
    var d1 := Exec(d0, InsertSave("old", Row(Some("user"), "desk", 1)));
    NoteAdded(d1, "note", "old", "", "");
    var d2 := TryAll(d1, NoteStatements(d1, "note", "old", "", "")).value;
    var d3 := Exec(d2, InsertSave("new", Row(None, "laptop", 2)));
    PushInserts(d0, Some("user"), "desk", 1, "old");
    PushInserts(d2, None, "laptop", 2, "new");
    dbs := [d0, d1, d2, d3, d3];
    steps := [Pushed(Push(Some("user"), "desk", 1), "old", Stored("old", true)), Noted("note", "old", "", ""),
              Pushed(Push(None, "laptop", 2), "new", Stored("new", true)), Linked("laptop", "user", map[], [], false)];
    NewerOrphanBlocked(d3, "note");
  }
}
