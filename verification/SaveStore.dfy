/** The server side as the program runs it: statement batches are pushed in loops and then executed. */
module SaveStore {
  import opened Options
  import opened Reconcile
  import opened SaveDb
  import opened Sets

  method BuildSectionStatements(id: string, saveName: string, secs: map<string, Section>)
    returns (statements: seq<Statement>, ghost order: seq<string>)
    ensures Distinct(order) && forall n :: n in order <==> n in secs
    ensures (forall n | n in order :: n in secs) && statements == SectionStatements(id, saveName, secs, order)
    ensures forall n | n in secs ::
        PutSection(id, n, secs[n]) in statements
        && AddRow(RowFor(id, saveName, n, secs[n])) in statements
    ensures |statements| == 2 * |secs|
  {
    statements, order := [], [];
    var todo := secs.Keys;
    while todo != {}
      invariant todo <= secs.Keys && Distinct(order)
      invariant forall n :: n in order <==> n in secs && n !in todo
      invariant (forall n | n in order :: n in secs) && statements == SectionStatements(id, saveName, secs, order)
      invariant forall n | n in secs && n !in todo ::
                  PutSection(id, n, secs[n]) in statements && AddRow(RowFor(id, saveName, n, secs[n])) in statements
      invariant |statements| == 2 * (|secs.Keys| - |todo|)
      decreases todo
    {
      ghost var some := SomeElement(todo);
      var name :| name in todo;
      todo := todo - {name};
      ghost var before := order;
      order := order + [name];
      assert order[..|order| - 1] == before;
      statements := statements + [PutSection(id, name, secs[name]), AddRow(RowFor(id, saveName, name, secs[name]))];
    }
  }

  method BuildUpdateBatch(id: string, saveName: string, summary: string, at: int, source: string,
                          secs: map<string, Section>, all: seq<string>, display: string)
    returns (batch: seq<Statement>, ghost order: seq<string>)
    ensures Distinct(order) && forall n :: n in order <==> n in secs
    ensures (forall n | n in order :: n in secs)
        && batch == UpdateBatch(id, saveName, summary, at, source, secs, all, display, order)
    ensures |batch| > 0 && batch[0] == UpdateSave(id, summary, at, source, display)
    ensures |all| > 0 ==>
        batch[1] == DropRowsNotIn(id, Untouched(secs, all))
        && batch[|batch| - 1] == DropSectionsNotIn(id, Names(all))
  {
    hide SectionStatements, Distinct;
    batch := [UpdateSave(id, summary, at, source, display)];
    if |all| > 0 {
      var untouched := set n | n in all && n !in secs;
      batch := batch + [DropRowsNotIn(id, untouched)];
    } else if secs != map[] {
      batch := batch + [DropRowsIn(id, secs.Keys)];
    }
    var puts;
    puts, order := BuildSectionStatements(id, saveName, secs);
    batch := batch + puts;
    if |all| > 0 {
      batch := batch + [DropSectionsNotIn(id, set n | n in all)];
    }
  }

  class Store {
    var db: Db

    constructor ()
      ensures db == Db(map[], map[], map[], map[])
    {
      db := Db(map[], map[], map[], map[]);
    }

    /** Every incoming section is stored with the same description and data. */
    method SectionsMatch(id: string, incoming: map<string, Section>) returns (same: bool)
      ensures same == Matches(db, id, incoming)
    {
      var todo := incoming.Keys;
      while todo != {}
        invariant todo <= incoming.Keys
        invariant forall n | n in incoming && n !in todo :: Sec(db, id, n) == Some(incoming[n])
        decreases todo
      {
        ghost var some := SomeElement(todo);
        var name :| name in todo;
        todo := todo - {name};
        if (id, name) !in db.sections {
          return false;
        }
        var s := db.sections[(id, name)];
        if s.description != incoming[name].description {
          return false;
        }
        if s.data != incoming[name].data {
          return false;
        }
      }
      return true;
    }

    /** `newId` is the freshly generated id. */
    method InsertNewSave(p: PushArgs, newId: string) returns (r: Stored)
      modifies this
      ensures r == Stored(newId, true) && InsertEffect(old(db), db, p, newId)
    {
      hide Wrote, SectionStatements;
      db := Exec(db, InsertSave(newId, SaveRow(p.user, p.game, p.name, p.summary, p.at, p.source,
          Display(p.display, None))));
      var puts, order := BuildSectionStatements(newId, p.name, p.secs);
      SectionStatementsWrite(db, newId, p.name, p.secs, order);
      assert Restrict(p.secs, order) == p.secs;
      db := ExecAll(db, puts);
      return Stored(newId, true);
    }

    method StorePush(p: PushArgs, newId: string) returns (r: Stored)
      modifies this
      ensures PushEffect(old(db), db, p, newId, r)
    {
      hide UpdateEffect, InsertEffect, UpdateBatch, Distinct;
      if id :| id in db.saves && Owns(db.saves[id], p.user, p.source, p.game, p.name) {
        if p.at <= db.saves[id].lastUpdated {
          return Stored(id, false);
        }
        if db.saves[id].summary == p.summary {
          var same := SectionsMatch(id, p.secs);
          if same {
            return Stored(id, false);
          }
        }
        var batch, order := BuildUpdateBatch(id, p.name, p.summary, p.at, p.source, p.secs, p.all, p.display);
        UpdateBatchEffect(db, id, p.name, p.summary, p.at, p.source, p.secs, p.all, p.display, order);
        db := ExecAll(db, batch);
        return Stored(id, true);
      }
      r := InsertNewSave(p, newId);
    }

    /** The user's saves that share game and name with an orphan of the source, by game and name. */
    method ConflictingSaves(source: string, user: string) returns (existing: map<(string, string), string>)
      ensures ConflictMap(db, source, user, existing)
    {
      existing := map[];
      var rows := set e | e in db.saves && db.saves[e].user == Some(user)
                          && exists o :: o in db.saves && Orphan(db, source, o) && Rival(db, user, o, e);
      var todo := rows;
      while todo != {}
        invariant todo <= rows
        invariant forall k | k in existing :: existing[k] in db.saves && db.saves[existing[k]].user == Some(user)
                                              && (db.saves[existing[k]].game, db.saves[existing[k]].name) == k
        invariant forall e | e in rows && e !in todo :: (db.saves[e].game, db.saves[e].name) in existing
        decreases todo
      {
        ghost var some := SomeElement(todo);
        var e :| e in todo;
        todo := todo - {e};
        existing := existing[(db.saves[e].game, db.saves[e].name) := e];
      }
      forall o, e | Orphan(db, source, o) && Rival(db, user, o, e)
        ensures (db.saves[o].game, db.saves[o].name) in existing
      {
        assert e in rows;
        assert (db.saves[e].game, db.saves[e].name) in existing;
      }
    }

    /** `ok` is false when the database refuses the batch, which is a transaction. */
    method ReconcileOrphanSaves(source: string, user: string)
      returns (ok: bool, ghost rivals: map<string, string>, ghost done: seq<string>)
      modifies this
      ensures if ok then Reconciled(old(db), db, source, user, rivals, done) else db == old(db)
      ensures Unique(old(db)) ==> LinkEffect(old(db), db, source, user, rivals, done, ok)
    {
      hide TryAll, OrphanStatements, ReconcileBatch, AllOrphans, RivalsOk, Unique, Reconciled, LinkEffect;
      var orphans := set i | i in db.saves && Orphan(db, source, i);
      var existing := ConflictingSaves(source, user);
      rivals := map o | o in orphans && (db.saves[o].game, db.saves[o].name) in existing ::
          existing[(db.saves[o].game, db.saves[o].name)];
      RivalsFound(db, source, user, existing, rivals);
      done := [];
      NoOrphanYet(db, source, user, rivals);
      var batch := [];
      var todo := orphans;
      while todo != {}
        invariant todo <= orphans && db == old(db)
        invariant AllOrphans(db, source, done) && forall i :: i in done <==> i in orphans && i !in todo
        invariant batch == ReconcileBatch(db, user, rivals, done)
        decreases todo
      {
        ghost var some := SomeElement(todo);
        var orphan :| orphan in todo;
        todo := todo - {orphan};
        OrphanAdded(db, source, user, rivals, done, orphan);
        done := done + [orphan];
        var key := (db.saves[orphan].game, db.saves[orphan].name);
        var rival := if key in existing then Some(existing[key]) else None;
        assert rival == RivalOf(rivals, orphan);
        batch := batch + OrphanStatements(db, user, orphan, rival);
      }
      LinkOutcome(db, source, user, rivals, done);
      var after := TryAll(db, batch);
      ok := after.Some?;
      if ok {
        db := after.value;
      }
    }
  }

  lemma NoOrphanYet(db: Db, source: string, user: string, rivals: map<string, string>)
    ensures AllOrphans(db, source, []) && ReconcileBatch(db, user, rivals, []) == []
  {
  }

  lemma OrphanAdded(db: Db, source: string, user: string, rivals: map<string, string>, done: seq<string>, o: string)
    requires AllOrphans(db, source, done) && Orphan(db, source, o) && o !in done
    ensures AllOrphans(db, source, done + [o])
    ensures ReconcileBatch(db, user, rivals, done + [o])
            == ReconcileBatch(db, user, rivals, done) + OrphanStatements(db, user, o, RivalOf(rivals, o))
  {
    hide OrphanStatements;
    assert (done + [o])[..|done|] == done;
  }

  ghost predicate ConflictMap(db: Db, source: string, user: string, existing: map<(string, string), string>) {
    && (forall k | k in existing :: existing[k] in db.saves && db.saves[existing[k]].user == Some(user)
                                    && (db.saves[existing[k]].game, db.saves[existing[k]].name) == k)
    && (forall o, e | Orphan(db, source, o) && Rival(db, user, o, e) ::
        (db.saves[o].game, db.saves[o].name) in existing)
  }

  lemma RivalsFound(db: Db, source: string, user: string, existing: map<(string, string), string>,
      rivals: map<string, string>)
    requires ConflictMap(db, source, user, existing)
    requires rivals == map o | o in db.saves && Orphan(db, source, o)
        && (db.saves[o].game, db.saves[o].name) in existing
                       :: existing[(db.saves[o].game, db.saves[o].name)]
    ensures RivalsOk(db, source, user, rivals)
  {
  }
}
