/** The server's tables as values, the statements that change them, and what a batch amounts to when
    looked at row by row. */
module SaveDb {
  import opened Options

  /** A section as stored: its data is the JSON text. */
  datatype Section = Section(description: string, data: string)

  datatype SaveRow = SaveRow(user: Option<string>, game: string, name: string, summary: string,
                             lastUpdated: int, source: string, displayName: Option<string>)

  datatype RowKind = SectionRow | OtherRow

  datatype IndexRow = IndexRow(saveId: string, saveName: string, kind: RowKind, refId: string, title: string,
      content: string)

  /** `index` counts the copies of each row: the search table has no key. `notes` gives each note's save. */
  datatype Db = Db(saves: map<string, SaveRow>, sections: map<(string, string), Section>, index: map<IndexRow, nat>,
                   notes: map<string, string>)

  function Sec(db: Db, id: string, name: string): Option<Section> {
    if (id, name) in db.sections then Some(db.sections[(id, name)]) else None
  }

  function Count(db: Db, r: IndexRow): nat {
    if r in db.index then db.index[r] else 0
  }

  function RowFor(id: string, saveName: string, name: string, s: Section): IndexRow {
    IndexRow(id, saveName, SectionRow, name, s.description, s.data)
  }

  // ---------------------------------------------------------------- statements

  datatype Statement =
    | InsertSave(id: string, row: SaveRow)
    | UpdateSave(id: string, summary: string, at: int, source: string, display: string)
    | PutSection(id: string, name: string, section: Section)
    | AddRow(entry: IndexRow)
    | DropRowsNotIn(id: string, names: set<string>)
    | DropRowsIn(id: string, names: set<string>)
    | DropSectionsNotIn(id: string, names: set<string>)
    | SetUser(id: string, user: string)
    | DropSections(id: string)
    | DropRows(id: string)
    | DropSave(id: string)
    | AddNote(note: string, id: string)
    | DropNote(note: string)
    | DropNoteRows(note: string)

  /** A stored display name survives an empty incoming one. */
  function Display(incoming: string, stored: Option<string>): Option<string> {
    if incoming == "" then stored else Some(incoming)
  }

  function Exec(db: Db, st: Statement): Db {
    match st
    case InsertSave(id, row) => db.(saves := db.saves[id := row])
    case UpdateSave(id, summary, at, source, display) =>
      if id !in db.saves then db
      else
        var row := db.saves[id];
        db.(saves := db.saves[id := row.(summary := summary, lastUpdated := at, source := source,
                                         displayName := Display(display, row.displayName))])
    case PutSection(id, name, section) => db.(sections := db.sections[(id, name) := section])
    case AddRow(r) => db.(index := db.index[r := Count(db, r) + 1])
    case DropRowsNotIn(id, names) =>
      db.(index := map r | r in db.index && !(r.saveId == id && r.kind.SectionRow? && r.refId !in names) :: db.index[r])
    case DropRowsIn(id, names) =>
      db.(index := map r | r in db.index && !(r.saveId == id && r.kind.SectionRow? && r.refId in names) :: db.index[r])
    case DropSectionsNotIn(id, names) =>
      db.(sections := map k | k in db.sections && !(k.0 == id && k.1 !in names) :: db.sections[k])
    case SetUser(id, user) =>
      if id !in db.saves then db else db.(saves := db.saves[id := db.saves[id].(user := Some(user))])
    case DropSections(id) => db.(sections := map k | k in db.sections && k.0 != id :: db.sections[k])
    case DropRows(id) => db.(index := map r | r in db.index && r.saveId != id :: db.index[r])
    case DropSave(id) =>
      db.(saves := db.saves - {id}, sections := map k | k in db.sections && k.0 != id :: db.sections[k])
    case AddNote(note, id) => db.(notes := db.notes[note := id])
    case DropNote(note) => db.(notes := db.notes - {note})
    case DropNoteRows(note) =>
      db.(index := map r | r in db.index && !(r.kind.OtherRow? && r.refId == note) :: db.index[r])
  }

  function ExecAll(db: Db, batch: seq<Statement>): Db
    decreases |batch|
  {
    if batch == [] then db else Exec(ExecAll(db, batch[..|batch| - 1]), batch[|batch| - 1])
  }

  lemma {:induction false} ExecAppend(db: Db, a: seq<Statement>, b: seq<Statement>)
    ensures ExecAll(db, a + b) == ExecAll(ExecAll(db, a), b)
    decreases |b|
  {
    hide Exec;
    if b == [] {
      assert a + b == a;
    } else {
      ExecAppend(db, a, b[..|b| - 1]);
      assert (a + b)[..|a + b| - 1] == a + b[..|b| - 1];
    }
  }

  lemma ExecOne(db: Db, a: seq<Statement>, st: Statement)
    ensures ExecAll(db, a + [st]) == Exec(ExecAll(db, a), st)
  {
    hide Exec;
    assert (a + [st])[..|a|] == a;
  }

  // ---------------------------------------------------------------- constraints and transactions

  /** The key that the two unique indexes give a save. */
  predicate SameKey(a: SaveRow, b: SaveRow) {
    a.game == b.game && a.name == b.name && a.user == b.user && (a.user.None? ==> a.source == b.source)
  }

  predicate Taken(db: Db, id: string, row: SaveRow) {
    exists i :: i in db.saves && i != id && SameKey(db.saves[i], row)
  }

  predicate HasNote(db: Db, id: string) {
    exists n :: n in db.notes && db.notes[n] == id
  }

  /** What the schema forbids: taking a key twice, a section or note without its save, and removing a save
      that still has a note. Sections go with their save. */
  predicate Refused(db: Db, st: Statement) {
    match st
    case InsertSave(id, row) => id in db.saves || Taken(db, id, row)
    case UpdateSave(id, _, _, source, _) => id in db.saves && Taken(db, id, db.saves[id].(source := source))
    case SetUser(id, user) => id in db.saves && Taken(db, id, db.saves[id].(user := Some(user)))
    case PutSection(id, _, _) => id !in db.saves
    case DropSave(id) => HasNote(db, id)
    case AddNote(note, id) => note in db.notes || id !in db.saves
    case _ => false
  }

  /** A batch is one transaction: it runs whole, or one refused statement undoes all of it. */
  function TryAll(db: Db, batch: seq<Statement>): Option<Db>
    decreases |batch|
  {
    if batch == [] then Some(db)
    else
      var before := TryAll(db, batch[..|batch| - 1]);
      if before.None? || Refused(before.value, batch[|batch| - 1]) then None
      else Some(Exec(before.value, batch[|batch| - 1]))
  }

  lemma {:induction false} TryIsExec(db: Db, batch: seq<Statement>)
    ensures TryAll(db, batch).Some? ==> TryAll(db, batch).value == ExecAll(db, batch)
    decreases |batch|
  {
    hide Exec, Refused;
    if batch != [] { TryIsExec(db, batch[..|batch| - 1]); }
  }

  lemma {:induction false} TryAppend(db: Db, a: seq<Statement>, b: seq<Statement>)
    ensures TryAll(db, a + b) == if TryAll(db, a).None? then None else TryAll(TryAll(db, a).value, b)
    decreases |b|
  {
    hide Exec, Refused;
    if b == [] {
      assert a + b == a;
    } else {
      TryAppend(db, a, b[..|b| - 1]);
      assert (a + b)[..|a + b| - 1] == a + b[..|b| - 1];
    }
  }

  lemma TryOne(db: Db, a: seq<Statement>, st: Statement)
    ensures TryAll(db, a + [st]) ==
            if TryAll(db, a).None? || Refused(TryAll(db, a).value, st) then None
            else Some(Exec(TryAll(db, a).value, st))
  {
    hide Exec, Refused;
    assert (a + [st])[..|a|] == a;
  }

  lemma TryFirst(db: Db, st: Statement)
    ensures TryAll(db, [st]) == if Refused(db, st) then None else Some(Exec(db, st))
  {
    hide Exec, Refused;
    assert [st][..0] == [];
    assert TryAll(db, []) == Some(db);
  }

  // ---------------------------------------------------------------- writing sections

  /** The statement list for the sections named by `order`, each a replacement and an index insert. */
  function SectionStatements(id: string, saveName: string, secs: map<string, Section>,
      order: seq<string>): seq<Statement>
    requires forall n | n in order :: n in secs
  {
    if order == [] then []
    else
      var n := order[|order| - 1];
      SectionStatements(id, saveName, secs, order[..|order| - 1])
      + [PutSection(id, n, secs[n]), AddRow(RowFor(id, saveName, n, secs[n]))]
  }

  ghost predicate Distinct(order: seq<string>) {
    forall i, j | 0 <= i < j < |order| :: order[i] != order[j]
  }

  function Incoming(id: string, saveName: string, secs: map<string, Section>, r: IndexRow): nat {
    if r.saveId == id && r.refId in secs && r == RowFor(id, saveName, r.refId, secs[r.refId]) then 1 else 0
  }

  function Overlay(id: string, secs: map<string, Section>, i: string, n: string, earlier: Option<Section>)
    : Option<Section>
  {
    if i == id && n in secs then Some(secs[n]) else earlier
  }

  /** Row by row: the named sections are written, each adds one copy of its own index row, nothing else changes. */
  ghost predicate Wrote(db: Db, db': Db, id: string, saveName: string, secs: map<string, Section>) {
    && db'.saves == db.saves && db'.notes == db.notes
    && (forall i, n :: Sec(db', i, n) == Overlay(id, secs, i, n, Sec(db, i, n)))
    && (forall r :: Count(db', r) == Count(db, r) + Incoming(id, saveName, secs, r))
  }

  function Restrict(secs: map<string, Section>, order: seq<string>): map<string, Section> {
    map n | n in secs && n in order :: secs[n]
  }

  lemma {:induction false} SectionStatementsWrite(db: Db, id: string, saveName: string, secs: map<string, Section>,
      order: seq<string>)
    requires Distinct(order) && forall n | n in order :: n in secs
    ensures Wrote(db, ExecAll(db, SectionStatements(id, saveName, secs, order)), id, saveName, Restrict(secs, order))
  {
    if order == [] {
      assert ExecAll(db, []) == db;
    } else {
      var n, init := order[|order| - 1], order[..|order| - 1];
      var before := SectionStatements(id, saveName, secs, init);
      var put, add := PutSection(id, n, secs[n]), AddRow(RowFor(id, saveName, n, secs[n]));
      SectionStatementsWrite(db, id, saveName, secs, init);
      ExecOne(db, before, put);
      ExecOne(db, before + [put], add);
      assert before + [put, add] == before + [put] + [add];
      OneMore(db, ExecAll(db, before), id, saveName, secs, init, n);
      assert init + [n] == order;
    }
  }

  lemma OneMore(db: Db, d: Db, id: string, saveName: string, secs: map<string, Section>, init: seq<string>, n: string)
    requires n in secs && n !in init
    requires Wrote(db, d, id, saveName, Restrict(secs, init))
    ensures Wrote(db, Exec(Exec(d, PutSection(id, n, secs[n])), AddRow(RowFor(id, saveName, n, secs[n]))),
                  id, saveName, Restrict(secs, init + [n]))
  {
    var r0 := RowFor(id, saveName, n, secs[n]);
    var d1 := Exec(d, PutSection(id, n, secs[n]));
    var d2 := Exec(d1, AddRow(r0));
    var a, b := Restrict(secs, init), Restrict(secs, init + [n]);
    assert forall m :: m in b <==> m in a || m == n;
    forall r: IndexRow ensures Count(d2, r) == Count(db, r) + Incoming(id, saveName, b, r) {
      assert Count(d, r) == Count(db, r) + Incoming(id, saveName, a, r);
    }
  }

  /** No constraint refuses the sections of a save that is there. */
  lemma {:induction false} SectionsAccepted(db: Db, id: string, saveName: string, secs: map<string, Section>,
                                            order: seq<string>)
    requires id in db.saves && Distinct(order) && forall n | n in order :: n in secs
    ensures TryAll(db, SectionStatements(id, saveName, secs, order)).Some?
  {
    hide Exec, Wrote;
    if order != [] {
      var n, init := order[|order| - 1], order[..|order| - 1];
      var before := SectionStatements(id, saveName, secs, init);
      var put, add := PutSection(id, n, secs[n]), AddRow(RowFor(id, saveName, n, secs[n]));
      SectionsAccepted(db, id, saveName, secs, init);
      TryIsExec(db, before);
      SectionStatementsWrite(db, id, saveName, secs, init);
      WroteSaves(db, ExecAll(db, before), id, saveName, Restrict(secs, init));
      TryOne(db, before, put);
      TryOne(db, before + [put], add);
      assert before + [put, add] == before + [put] + [add];
    }
  }

  lemma WroteSaves(db: Db, db': Db, id: string, saveName: string, secs: map<string, Section>)
    requires Wrote(db, db', id, saveName, secs)
    ensures db'.saves == db.saves && db'.notes == db.notes
  {
  }

  // ---------------------------------------------------------------- what has to hold of the tables

  ghost predicate References(db: Db) {
    && (forall k | k in db.sections :: k.0 in db.saves)
    && (forall r: IndexRow | Count(db, r) > 0 :: r.saveId in db.saves)
    && (forall n | n in db.notes :: db.notes[n] in db.saves)
  }

  /** The section rows of the search index: exactly one per stored section, with its text. */
  function Expected(db: Db, r: IndexRow): nat {
    if r.saveId in db.saves && (r.saveId, r.refId) in db.sections
       && r == RowFor(r.saveId, db.saves[r.saveId].name, r.refId, db.sections[(r.saveId, r.refId)])
    then 1 else 0
  }

  ghost predicate InStepFor(db: Db, id: string) {
    forall r: IndexRow | r.kind.SectionRow? && r.saveId == id :: Count(db, r) == Expected(db, r)
  }

  ghost predicate InStep(db: Db) {
    forall r: IndexRow | r.kind.SectionRow? :: Count(db, r) == Expected(db, r)
  }

  /** At most one save per user, game and name, and at most one orphan per source, game and name. */
  ghost predicate Unique(db: Db) {
    forall i, j | i in db.saves && j in db.saves && SameKey(db.saves[i], db.saves[j]) :: i == j
  }

  ghost predicate DbOk(db: Db) {
    References(db) && InStep(db) && Unique(db)
  }

  // ---------------------------------------------------------------- the update batch

  /** The statements of an update, with the section statements in the order `order`. */
  function UpdateBatch(id: string, saveName: string, summary: string, at: int, source: string,
                       secs: map<string, Section>, all: seq<string>, display: string, order: seq<string>)
    : seq<Statement>
    requires forall n | n in order :: n in secs
  {
    [UpdateSave(id, summary, at, source, display)]
    + (if |all| > 0 then [DropRowsNotIn(id, Untouched(secs, all))]
       else if secs != map[] then [DropRowsIn(id, secs.Keys)]
       else [])
    + SectionStatements(id, saveName, secs, order)
    + (if |all| > 0 then [DropSectionsNotIn(id, Names(all))] else [])
  }

  function Names(all: seq<string>): set<string> {
    set n | n in all
  }

  /** The announced names that are not being rewritten. */
  function Untouched(secs: map<string, Section>, all: seq<string>): set<string> {
    set n | n in all && n !in secs
  }

  /** The section a save holds after an update. */
  function Updated(secs: map<string, Section>, all: seq<string>, n: string, stored: Option<Section>): Option<Section> {
    if |all| > 0 && n !in all then None
    else if n in secs then Some(secs[n])
    else stored
  }

  /** Whether the old index rows of a section survive an update. */
  predicate KeepsRows(secs: map<string, Section>, all: seq<string>, n: string) {
    if |all| > 0 then n in all && n !in secs else n !in secs
  }

  ghost predicate UpdateEffect(db: Db, db': Db, id: string, saveName: string, summary: string, at: int, source: string,
                               secs: map<string, Section>, all: seq<string>, display: string)
    requires id in db.saves
  {
    && db'.saves == db.saves[id := db.saves[id].(summary := summary, lastUpdated := at, source := source,
                                                 displayName := Display(display, db.saves[id].displayName))]
    && db'.notes == db.notes
    && (forall i, n :: Sec(db', i, n) == if i == id then Updated(secs, all, n, Sec(db, i, n)) else Sec(db, i, n))
    && (forall r: IndexRow :: Count(db', r) ==
          (if r.saveId == id && r.kind.SectionRow? && !KeepsRows(secs, all, r.refId) then 0 else Count(db, r))
          + Incoming(id, saveName, secs, r))
  }

  lemma UpdateBatchEffect(db: Db, id: string, saveName: string, summary: string, at: int, source: string,
                          secs: map<string, Section>, all: seq<string>, display: string, order: seq<string>)
    requires id in db.saves && Distinct(order) && (forall n :: n in order <==> n in secs)
    ensures UpdateEffect(db, ExecAll(db, UpdateBatch(id, saveName, summary, at, source, secs, all, display, order)),
                         id, saveName, summary, at, source, secs, all, display)
  {
    hide Exec, ExecAll, SectionStatements, Wrote, UpdateEffect, KeepsRows, Distinct;
    var up := UpdateSave(id, summary, at, source, display);
    var drop := if |all| > 0 then [DropRowsNotIn(id, Untouched(secs, all))] else if secs != map[]
        then [DropRowsIn(id, secs.Keys)] else [];
    var puts := SectionStatements(id, saveName, secs, order);
    var purge := if |all| > 0 then [DropSectionsNotIn(id, Names(all))] else [];
    var d1 := Exec(db, up);
    var d2 := ExecAll(d1, drop);
    var d3 := ExecAll(d2, puts);
    FourParts(db, up, drop, puts, purge);
    DropEffect(d1, id, secs, all, drop);
    SectionStatementsWrite(d2, id, saveName, secs, order);
    assert Restrict(secs, order) == secs;
    PurgeEffect(d3, id, all, purge);
    ComposeUpdate(db, d2, d3, ExecAll(d3, purge), id, saveName, summary, at, source, secs, all, display);
  }

  lemma ComposeUpdate(db: Db, d2: Db, d3: Db, d4: Db, id: string, saveName: string, summary: string, at: int,
      source: string,
                      secs: map<string, Section>, all: seq<string>, display: string)
    requires id in db.saves
    requires var d1 := Exec(db, UpdateSave(id, summary, at, source, display));
             d2.saves == d1.saves && d2.sections == d1.sections && d2.notes == d1.notes
             && forall r: IndexRow :: Count(d2, r) == (if r.saveId == id && r.kind.SectionRow?
                 && !KeepsRows(secs, all, r.refId) then 0 else Count(d1, r))
    requires Wrote(d2, d3, id, saveName, secs)
    requires d4.saves == d3.saves && d4.index == d3.index && d4.notes == d3.notes
             && forall i, n :: Sec(d4, i, n) == if i == id && |all| > 0 && n !in all then None else Sec(d3, i, n)
    ensures UpdateEffect(db, d4, id, saveName, summary, at, source, secs, all, display)
  {
    hide Incoming, Display, KeepsRows;
    forall i, n ensures Sec(d4, i, n) == if i == id then Updated(secs, all, n, Sec(db, i, n)) else Sec(db, i, n) {
      assert Sec(d3, i, n) == Overlay(id, secs, i, n, Sec(d2, i, n));
      assert Sec(d2, i, n) == Sec(db, i, n);
    }
    forall r: IndexRow ensures Count(d4, r) ==
                     (if r.saveId == id && r.kind.SectionRow? && !KeepsRows(secs, all, r.refId) then 0
                         else Count(db, r))
                     + Incoming(id, saveName, secs, r)
    {
      assert Count(d3, r) == Count(d2, r) + Incoming(id, saveName, secs, r);
    }
  }

  lemma FourParts(db: Db, up: Statement, drop: seq<Statement>, puts: seq<Statement>, purge: seq<Statement>)
    ensures ExecAll(db, [up] + drop + puts + purge) == ExecAll(ExecAll(ExecAll(Exec(db, up), drop), puts), purge)
  {
    hide Exec;
    ExecAppend(db, [up] + drop + puts, purge);
    ExecAppend(db, [up] + drop, puts);
    ExecAppend(db, [up], drop);
    ExecOne(db, [], up);
    assert [] + [up] == [up] && ExecAll(db, []) == db;
  }

  lemma DropEffect(d: Db, id: string, secs: map<string, Section>, all: seq<string>, drop: seq<Statement>)
    requires drop == (if |all| > 0 then [DropRowsNotIn(id, Untouched(secs, all))] else if secs != map[]
        then [DropRowsIn(id, secs.Keys)] else [])
    ensures var d' := ExecAll(d, drop);
            && d'.saves == d.saves && d'.sections == d.sections && d'.notes == d.notes
            && forall r: IndexRow :: Count(d', r) == (if r.saveId == id && r.kind.SectionRow?
                && !KeepsRows(secs, all, r.refId) then 0 else Count(d, r))
  {
    assert ExecAll(d, []) == d;
    if |drop| > 0 {
      assert drop[..0] == [];
      assert ExecAll(d, drop) == Exec(d, drop[0]);
    }
  }

  lemma PurgeEffect(d: Db, id: string, all: seq<string>, purge: seq<Statement>)
    requires purge == (if |all| > 0 then [DropSectionsNotIn(id, Names(all))] else [])
    ensures var d' := ExecAll(d, purge);
            && d'.saves == d.saves && d'.index == d.index && d'.notes == d.notes
            && forall i, n :: Sec(d', i, n) == if i == id && |all| > 0 && n !in all then None else Sec(d, i, n)
  {
    assert ExecAll(d, []) == d;
    if |purge| > 0 {
      assert purge[..0] == [];
      assert ExecAll(d, purge) == Exec(d, purge[0]);
    }
  }

  /** The single NOT-IN scan removes the same rows as removing the incoming sections' rows and then
      the rows of every section no longer announced. */
  lemma OneScanIsTwo(d: Db, id: string, secs: map<string, Section>, all: seq<string>)
    ensures Exec(d, DropRowsNotIn(id, Untouched(secs, all)))
            == Exec(Exec(d, DropRowsIn(id, secs.Keys)), DropRowsNotIn(id, Names(all)))
  {
    var a := Exec(d, DropRowsNotIn(id, Untouched(secs, all)));
    var m := Exec(d, DropRowsIn(id, secs.Keys));
    var b := Exec(m, DropRowsNotIn(id, Names(all)));
    forall r: IndexRow ensures r in a.index <==> r in b.index {
      assert r.refId in Untouched(secs, all) <==> r.refId in all && r.refId !in secs;
      assert r.refId in Names(all) <==> r.refId in all;
    }
    assert a.index == b.index;
  }

  /** After an update the index is in step for the save exactly when every incoming section is also
      announced: one that is not would be indexed and then have its section deleted. */
  lemma UpdateInStepExactly(db: Db, db': Db, id: string, summary: string, at: int, source: string,
                            secs: map<string, Section>, all: seq<string>, display: string)
    requires id in db.saves && InStep(db)
    requires UpdateEffect(db, db', id, db.saves[id].name, summary, at, source, secs, all, display)
    ensures InStepFor(db', id) <==> (|all| == 0 || forall n | n in secs :: n in all)
    ensures InStepFor(db', id) ==> InStep(db')
  {
    var name := db.saves[id].name;
    if |all| > 0 && exists n :: n in secs && n !in all {
      var n :| n in secs && n !in all;
      var r := RowFor(id, name, n, secs[n]);
      assert Count(db', r) == 1;
      assert Sec(db', id, n) == None;
    } else {
      forall r: IndexRow | r.kind.SectionRow? && r.saveId == id ensures Count(db', r) == Expected(db', r) {
        assert Sec(db', id, r.refId) == Updated(secs, all, r.refId, Sec(db, id, r.refId));
        assert Count(db, r) == Expected(db, r);
      }
    }
    if InStepFor(db', id) {
      forall r: IndexRow | r.kind.SectionRow? ensures Count(db', r) == Expected(db', r) {
        assert Sec(db', r.saveId, r.refId) == if r.saveId == id then Updated(secs, all, r.refId, Sec(db, id, r.refId))
            else Sec(db, r.saveId, r.refId);
        if r.saveId != id { assert Count(db, r) == Expected(db, r); }
      }
    }
  }

  /** No constraint refuses an update: it changes no key. */
  lemma UpdateAccepted(db: Db, id: string, saveName: string, summary: string, at: int, source: string,
                       secs: map<string, Section>, all: seq<string>, display: string, order: seq<string>)
    requires Unique(db) && id in db.saves && (db.saves[id].user.None? ==> db.saves[id].source == source)
    requires Distinct(order) && (forall n :: n in order <==> n in secs)
    ensures var batch := UpdateBatch(id, saveName, summary, at, source, secs, all, display, order);
            TryAll(db, batch) == Some(ExecAll(db, batch))
  {
    hide Exec, ExecAll, TryAll, SectionStatements, Wrote, KeepsRows, Distinct, Refused, Unique;
    var batch := UpdateBatch(id, saveName, summary, at, source, secs, all, display, order);
    var up := UpdateSave(id, summary, at, source, display);
    var drop := if |all| > 0 then [DropRowsNotIn(id, Untouched(secs, all))] else if secs != map[]
        then [DropRowsIn(id, secs.Keys)] else [];
    var puts := SectionStatements(id, saveName, secs, order);
    var purge := if |all| > 0 then [DropSectionsNotIn(id, Names(all))] else [];
    KeyKept(db, id, summary, at, source, display);
    var d1 := Exec(db, up);
    TryFirst(db, up);
    TryDrops(d1, drop);
    var d2 := ExecAll(d1, drop);
    DropEffect(d1, id, secs, all, drop);
    SectionsAccepted(d2, id, saveName, secs, order);
    TryDrops(TryAll(d2, puts).value, purge);
    TryAppend(db, [up], drop);
    TryAppend(db, [up] + drop, puts);
    TryAppend(db, [up] + drop + puts, purge);
    TryIsExec(db, batch);
  }

  lemma KeyKept(db: Db, id: string, summary: string, at: int, source: string, display: string)
    requires Unique(db) && id in db.saves && (db.saves[id].user.None? ==> db.saves[id].source == source)
    ensures !Refused(db, UpdateSave(id, summary, at, source, display))
    ensures id in Exec(db, UpdateSave(id, summary, at, source, display)).saves
  {
    forall i | i in db.saves && SameKey(db.saves[i], db.saves[id].(source := source)) ensures i == id {
      assert SameKey(db.saves[i], db.saves[id]);
    }
  }

  lemma TryDrops(d: Db, drop: seq<Statement>)
    requires |drop| <= 1
    requires forall st | st in drop :: st.DropRowsNotIn? || st.DropRowsIn? || st.DropSectionsNotIn?
    ensures TryAll(d, drop) == Some(ExecAll(d, drop))
  {
    hide Exec;
    if |drop| == 1 {
      assert drop[..0] == [] && drop[0] in drop;
      assert TryAll(d, []) == Some(d) && ExecAll(d, []) == d;
    }
  }

  // ---------------------------------------------------------------- one push

  predicate Owns(row: SaveRow, user: Option<string>, source: string, game: string, name: string) {
    row.game == game && row.name == name && row.user == user && (user.None? ==> row.source == source)
  }

  /** The stored sections already say what the push says. */
  predicate Matches(db: Db, id: string, secs: map<string, Section>) {
    forall n | n in secs :: Sec(db, id, n) == Some(secs[n])
  }

  datatype PushArgs = PushArgs(user: Option<string>, source: string, game: string, name: string, summary: string,
                               at: int, secs: map<string, Section>, all: seq<string>, display: string)

  datatype Stored = Stored(id: string, changed: bool)

  /** What one push does: insert under a new id, ignore a stale or identical one, or update. */
  ghost predicate PushEffect(db: Db, db': Db, p: PushArgs, newId: string, r: Stored) {
    if exists id :: id in db.saves && Owns(db.saves[id], p.user, p.source, p.game, p.name) then
      && r.id in db.saves && Owns(db.saves[r.id], p.user, p.source, p.game, p.name)
      && (if p.at <= db.saves[r.id].lastUpdated || (db.saves[r.id].summary == p.summary && Matches(db, r.id, p.secs))
          then !r.changed && db' == db
          else r.changed && UpdateEffect(db, db', r.id, p.name, p.summary, p.at, p.source, p.secs, p.all, p.display))
    else
      r == Stored(newId, true) && InsertEffect(db, db', p, newId)
  }

  ghost predicate InsertEffect(db: Db, db': Db, p: PushArgs, id: string) {
    var row := SaveRow(p.user, p.game, p.name, p.summary, p.at, p.source, Display(p.display, None));
    Wrote(Exec(db, InsertSave(id, row)), db', id, p.name, p.secs)
  }

  /** Every push keeps the tables in order, provided what it sends is among what it announces. */
  lemma PushKeepsDb(db: Db, db': Db, p: PushArgs, newId: string, r: Stored)
    requires DbOk(db) && newId !in db.saves && PushEffect(db, db', p, newId, r)
    requires |p.all| == 0 || forall n | n in p.secs :: n in p.all
    ensures DbOk(db')
    ensures r.id in db'.saves && Owns(db'.saves[r.id], p.user, p.source, p.game, p.name)
  {
    hide UpdateEffect, InsertEffect, Wrote, InStep, References, Matches;
    if exists id :: id in db.saves && Owns(db.saves[id], p.user, p.source, p.game, p.name) {
      if r.changed {
        UpdateKeeps(db, db', p, r.id);
      }
    } else {
      InsertKeeps(db, db', p, newId);
    }
  }

  lemma UpdateKeeps(db: Db, db': Db, p: PushArgs, id: string)
    requires DbOk(db) && id in db.saves && Owns(db.saves[id], p.user, p.source, p.game, p.name)
    requires UpdateEffect(db, db', id, p.name, p.summary, p.at, p.source, p.secs, p.all, p.display)
    requires |p.all| == 0 || forall n | n in p.secs :: n in p.all
    ensures DbOk(db') && id in db'.saves && Owns(db'.saves[id], p.user, p.source, p.game, p.name)
  {
    hide InStep;
    UpdateInStepExactly(db, db', id, p.summary, p.at, p.source, p.secs, p.all, p.display);
    forall k | k in db'.sections ensures k.0 in db'.saves {
      assert Sec(db', k.0, k.1).Some?;
      if k.0 != id { assert Sec(db, k.0, k.1).Some?; }
    }
  }

  lemma InsertKeeps(db: Db, db': Db, p: PushArgs, id: string)
    requires DbOk(db) && id !in db.saves && InsertEffect(db, db', p, id)
    requires !exists i :: i in db.saves && Owns(db.saves[i], p.user, p.source, p.game, p.name)
    ensures DbOk(db') && id in db'.saves && Owns(db'.saves[id], p.user, p.source, p.game, p.name)
  {
    InsertReferences(db, db', p, id);
    InsertInStep(db, db', p, id);
    assert forall i | i in db.saves :: !Owns(db.saves[i], p.user, p.source, p.game, p.name);
  }

  lemma InsertReferences(db: Db, db': Db, p: PushArgs, id: string)
    requires References(db) && InsertEffect(db, db', p, id)
    ensures References(db')
  {
    forall k | k in db'.sections ensures k.0 in db'.saves {
      assert Sec(db', k.0, k.1).Some?;
      if k.0 != id { assert Sec(db, k.0, k.1).Some?; }
    }
    forall r: IndexRow | Count(db', r) > 0 ensures r.saveId in db'.saves {
      if r.saveId != id { assert Count(db, r) > 0; }
    }
  }

  lemma InsertInStep(db: Db, db': Db, p: PushArgs, id: string)
    requires References(db) && InStep(db) && id !in db.saves && InsertEffect(db, db', p, id)
    ensures InStep(db')
  {
    var row := SaveRow(p.user, p.game, p.name, p.summary, p.at, p.source, Display(p.display, None));
    var mid := Exec(db, InsertSave(id, row));
    forall r: IndexRow | r.kind.SectionRow? ensures Count(db', r) == Expected(db', r) {
      assert Sec(db', r.saveId, r.refId) == Overlay(id, p.secs, r.saveId, r.refId, Sec(mid, r.saveId, r.refId));
      assert Count(db', r) == Count(mid, r) + Incoming(id, p.name, p.secs, r);
      assert Count(db, r) == Expected(db, r);
      assert Sec(mid, r.saveId, r.refId) == Sec(db, r.saveId, r.refId);
    }
  }

  /** No constraint refuses the insertion of a save that the lookup did not find. */
  lemma InsertAccepted(db: Db, p: PushArgs, id: string, row: SaveRow, order: seq<string>)
    requires id !in db.saves && !exists i :: i in db.saves && Owns(db.saves[i], p.user, p.source, p.game, p.name)
    requires row.user == p.user && row.game == p.game && row.name == p.name && row.source == p.source
    requires Distinct(order) && (forall n :: n in order <==> n in p.secs)
    ensures !Refused(db, InsertSave(id, row))
    ensures TryAll(Exec(db, InsertSave(id, row)), SectionStatements(id, p.name, p.secs, order)).Some?
  {
    hide Distinct;
    forall i | i in db.saves ensures !SameKey(db.saves[i], row) {
      assert !Owns(db.saves[i], p.user, p.source, p.game, p.name);
    }
    SectionsAccepted(Exec(db, InsertSave(id, row)), id, p.name, p.secs, order);
  }
}
