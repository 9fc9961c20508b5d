/** What a push does, said of the tables themselves: when it is ignored, what becomes of the save's row and
    of each section, and that nothing else is touched. */
module PushLaws {
  import opened Options
  import opened SaveDb

  /** The row is the pusher's save of this game and name. */
  predicate IsTheirs(row: SaveRow, p: PushArgs) {
    row.game == p.game && row.name == p.name && row.user == p.user && (p.user == None ==> row.source == p.source)
  }

  /** Some section of the push is not stored with this content. */
  ghost predicate SomethingNew(db: Db, id: string, p: PushArgs) {
    exists n :: n in p.secs && !((id, n) in db.sections && db.sections[(id, n)] == p.secs[n])
  }

  /** The row after an applied push. A display name survives an empty one. */
  ghost predicate RowWritten(db: Db, db': Db, p: PushArgs, id: string) {
    && id in db'.saves
    && var row := db'.saves[id];
       && row.user == p.user && row.game == p.game && row.name == p.name && row.source == p.source
       && row.summary == p.summary && row.lastUpdated == p.at
       && row.displayName == (if p.display != "" then Some(p.display)
                              else if id in db.saves then db.saves[id].displayName else None)
  }

  /** The sections after an applied push: what was sent replaces what was stored, and what is no longer
      announced goes. A new save has what was sent. */
  ghost predicate SectionsWritten(db: Db, db': Db, p: PushArgs, id: string) {
    forall n ::
      && ((id, n) in db'.sections <==>
          (id !in db.saves || p.all == [] || n in p.all) && (n in p.secs || (id, n) in db.sections))
      && ((id, n) in db'.sections ==>
          db'.sections[(id, n)] == if n in p.secs then p.secs[n] else
            if (id, n) in db.sections then db.sections[(id, n)] else Section("", ""))
  }

  /** Nothing of other saves changes, and no note and no row of the index about one. */
  ghost predicate OthersUntouched(db: Db, db': Db, id: string) {
    && (forall i | i != id :: (i in db'.saves <==> i in db.saves) && (i in db.saves ==> db'.saves[i] == db.saves[i]))
    && (forall i, n | i != id ::
      && ((i, n) in db'.sections <==> (i, n) in db.sections)
      && ((i, n) in db.sections ==> db'.sections[(i, n)] == db.sections[(i, n)]))
    && (forall r: IndexRow | r.saveId != id || r.kind.OtherRow? :: Count(db', r) == Count(db, r))
    && db'.notes == db.notes
  }

  /** The whole answer of the server to a push. */
  lemma PushMeans(db: Db, db': Db, p: PushArgs, newId: string, r: Stored)
    requires DbOk(db) && newId !in db.saves && PushEffect(db, db', p, newId, r)
    ensures if exists id :: id in db.saves && IsTheirs(db.saves[id], p) then
              && r.id in db.saves && IsTheirs(db.saves[r.id], p)
              && (r.changed <==> p.at > db.saves[r.id].lastUpdated
                                 && (p.summary != db.saves[r.id].summary || SomethingNew(db, r.id, p)))
            else r == Stored(newId, true)
    ensures if r.changed then
              RowWritten(db, db', p, r.id) && SectionsWritten(db, db', p, r.id) && OthersUntouched(db, db', r.id)
            else db' == db
  {
    hide UpdateEffect, InsertEffect, InStep, Unique, References, RowWritten, SectionsWritten, OthersUntouched, Matches,
        SomethingNew;
    SameOwner(db, p);
    if exists id :: id in db.saves && IsTheirs(db.saves[id], p) {
      NewnessIsMismatch(db, r.id, p);
      if r.changed { UpdateMeans(db, db', p, r.id); }
    } else {
      InsertMeans(db, db', p, newId);
    }
  }

  lemma SameOwner(db: Db, p: PushArgs)
    ensures forall id | id in db.saves ::
              IsTheirs(db.saves[id], p) <==> Owns(db.saves[id], p.user, p.source, p.game, p.name)
  {
  }

  lemma NewnessIsMismatch(db: Db, id: string, p: PushArgs)
    ensures SomethingNew(db, id, p) <==> !Matches(db, id, p.secs)
  {
  }

  lemma UpdateMeans(db: Db, db': Db, p: PushArgs, id: string)
    requires id in db.saves && IsTheirs(db.saves[id], p)
    requires UpdateEffect(db, db', id, p.name, p.summary, p.at, p.source, p.secs, p.all, p.display)
    ensures RowWritten(db, db', p, id) && SectionsWritten(db, db', p, id) && OthersUntouched(db, db', id)
  {
    hide KeepsRows;
    forall i, n ensures Sec(db', i, n) == if i == id then Updated(p.secs, p.all, n, Sec(db, i, n)) else Sec(db, i, n) {
    }
    SecsAre(db, db', p, id);
  }

  lemma SecsAre(db: Db, db': Db, p: PushArgs, id: string)
    requires id in db.saves
    requires forall i, n :: Sec(db', i, n) == if i == id then Updated(p.secs, p.all, n, Sec(db, i, n))
        else Sec(db, i, n)
    ensures SectionsWritten(db, db', p, id)
    ensures forall i, n | i != id ::
              && ((i, n) in db'.sections <==> (i, n) in db.sections)
              && ((i, n) in db.sections ==> db'.sections[(i, n)] == db.sections[(i, n)])
  {
    forall n ensures (id, n) in db'.sections <==> Updated(p.secs, p.all, n, Sec(db, id, n)).Some? {
      assert Sec(db', id, n) == Updated(p.secs, p.all, n, Sec(db, id, n));
    }
    forall n | (id, n) in db'.sections ensures Some(db'.sections[(id, n)]) == Updated(p.secs, p.all, n, Sec(db, id, n))
    {
      assert Sec(db', id, n) == Updated(p.secs, p.all, n, Sec(db, id, n));
    }
    forall i, n | i != id
      ensures (i, n) in db'.sections <==> (i, n) in db.sections
      ensures (i, n) in db.sections ==> db'.sections[(i, n)] == db.sections[(i, n)]
    {
      assert Sec(db', i, n) == Sec(db, i, n);
    }
  }

  lemma InsertMeans(db: Db, db': Db, p: PushArgs, id: string)
    requires References(db) && id !in db.saves && InsertEffect(db, db', p, id)
    ensures RowWritten(db, db', p, id) && SectionsWritten(db, db', p, id) && OthersUntouched(db, db', id)
  {
    var row := SaveRow(p.user, p.game, p.name, p.summary, p.at, p.source, Display(p.display, None));
    var mid := Exec(db, InsertSave(id, row));
    assert mid.sections == db.sections && mid.index == db.index && mid.notes == db.notes;
    forall i, n
      ensures (i, n) in db'.sections <==> (i == id && n in p.secs) || (i, n) in db.sections
      ensures (i, n) in db'.sections ==>
          Some(db'.sections[(i, n)]) == if i == id && n in p.secs then Some(p.secs[n]) else Sec(db, i, n)
    {
      assert Sec(db', i, n) == Overlay(id, p.secs, i, n, Sec(mid, i, n));
      assert Sec(mid, i, n) == Sec(db, i, n);
    }
    forall r: IndexRow | r.saveId != id || r.kind.OtherRow? ensures Count(db', r) == Count(db, r) {
      assert Count(db', r) == Count(mid, r) + Incoming(id, p.name, p.secs, r);
      assert Count(mid, r) == Count(db, r);
    }
  }

  /** A push can be repeated: the second one changes nothing. */
  lemma RepeatIgnored(db: Db, db': Db, p: PushArgs, newId: string, r: Stored, later: int, db'': Db, newId': string,
                      r': Stored)
    requires DbOk(db) && newId !in db.saves && PushEffect(db, db', p, newId, r) && r.changed
    requires |p.all| == 0 || forall n | n in p.secs :: n in p.all
    requires newId' !in db'.saves && PushEffect(db', db'', p.(at := later), newId', r')
    ensures db'' == db' && r'.id == r.id && !r'.changed
  {
    hide PushEffect, InStep, References, OthersUntouched;
    PushMeans(db, db', p, newId, r);
    PushKeepsDb(db, db', p, newId, r);
    PushMeans(db', db'', p.(at := later), newId', r');
    assert IsTheirs(db'.saves[r.id], p.(at := later));
    assert r'.id == r.id by { assert SameKey(db'.saves[r'.id], db'.saves[r.id]); }
    assert !SomethingNew(db', r.id, p.(at := later));
  }

  // ---------------------------------------------------------------- the index

  /** The row of the search index for a stored section: its description is the title, its data the text. */
  function RowOf(db: Db, id: string, n: string): IndexRow
    requires (id, n) in db.sections && id in db.saves
  {
    IndexRow(id, db.saves[id].name, SectionRow, n, db.sections[(id, n)].description, db.sections[(id, n)].data)
  }

  /** In tables that are in order every section is in the index once, under its own text, and nothing else is
      there as a section. */
  lemma IndexMeans(db: Db)
    requires DbOk(db)
    ensures forall id, n | (id, n) in db.sections :: id in db.saves && Count(db, RowOf(db, id, n)) == 1
    ensures forall r: IndexRow | r.kind.SectionRow? && Count(db, r) > 0 ::
              r.saveId in db.saves && (r.saveId, r.refId) in db.sections && r == RowOf(db, r.saveId, r.refId)
  {
    forall id, n | (id, n) in db.sections ensures id in db.saves && Count(db, RowOf(db, id, n)) == 1 {
      assert (id, n).0 in db.saves;
      assert Count(db, RowOf(db, id, n)) == Expected(db, RowOf(db, id, n));
    }
    forall r: IndexRow | r.kind.SectionRow? && Count(db, r) > 0
      ensures r.saveId in db.saves && (r.saveId, r.refId) in db.sections && r == RowOf(db, r.saveId, r.refId)
    {
      assert Count(db, r) == Expected(db, r);
    }
  }
}
