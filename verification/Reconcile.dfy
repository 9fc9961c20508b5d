/** Linking a source to a user: its orphan saves are adopted, and where the user already has a save
    of the same game and name the one updated later is kept. All of it is one transaction, which the
    database refuses when a save to be removed still has a note. */
module Reconcile {
  import opened Options
  import opened SaveDb

  predicate Orphan(db: Db, source: string, i: string) {
    i in db.saves && db.saves[i].user.None? && db.saves[i].source == source
  }

  /** `e` is the user's own save that competes with `o`. */
  predicate Rival(db: Db, user: string, o: string, e: string) {
    && o in db.saves && e in db.saves && db.saves[e].user == Some(user)
    && db.saves[e].game == db.saves[o].game && db.saves[e].name == db.saves[o].name
  }

  predicate Newer(db: Db, o: string, e: string) {
    o in db.saves && e in db.saves && db.saves[o].lastUpdated > db.saves[e].lastUpdated
  }

  function DropAll(i: string): seq<Statement> {
    [DropSections(i), DropRows(i), DropSave(i)]
  }

  /** The statements for one orphan; `rival` is the user's competing save, if any. */
  function OrphanStatements(db: Db, user: string, o: string, rival: Option<string>): seq<Statement> {
    match rival
    case None => [SetUser(o, user)]
    case Some(e) => if Newer(db, o, e) then DropAll(e) + [SetUser(o, user)] else DropAll(o)
  }

  /** `rivals` gives the competing save of every orphan that has one. */
  ghost predicate RivalsOk(db: Db, source: string, user: string, rivals: map<string, string>) {
    && (forall o | o in rivals :: Rival(db, user, o, rivals[o]))
    && (forall o, e | Orphan(db, source, o) && Rival(db, user, o, e) :: o in rivals)
  }

  function RivalOf(rivals: map<string, string>, o: string): Option<string> {
    if o in rivals then Some(rivals[o]) else None
  }

  function ReconcileBatch(db: Db, user: string, rivals: map<string, string>, orphans: seq<string>): seq<Statement> {
    if orphans == [] then []
    else
      var o := orphans[|orphans| - 1];
      ReconcileBatch(db, user, rivals, orphans[..|orphans| - 1]) + OrphanStatements(db, user, o, RivalOf(rivals, o))
  }

  predicate Wins(db: Db, rivals: map<string, string>, o: string) {
    o in rivals ==> Newer(db, o, rivals[o])
  }

  /** The saves removed once the orphans in `done` have been handled. */
  ghost predicate Removed(db: Db, rivals: map<string, string>, done: seq<string>, i: string) {
    || (i in done && !Wins(db, rivals, i))
    || (exists o :: o in done && o in rivals && rivals[o] == i && Newer(db, o, i))
  }

  ghost predicate Handled(db: Db, db': Db, user: string, rivals: map<string, string>, done: seq<string>) {
    && (forall i :: i in db'.saves <==> i in db.saves && !Removed(db, rivals, done, i))
    && (forall i | i in db'.saves && i in db.saves ::
          db'.saves[i] == if i in done then db.saves[i].(user := Some(user)) else db.saves[i])
    && (forall i, n :: Sec(db', i, n) == if Removed(db, rivals, done, i) then None else Sec(db, i, n))
    && (forall r: IndexRow :: Count(db', r) == if Removed(db, rivals, done, r.saveId) then 0 else Count(db, r))
    && db'.notes == db.notes
  }

  // ---------------------------------------------------------------- one orphan

  lemma ExecDropAll(d: Db, i: string)
    ensures var d' := ExecAll(d, DropAll(i));
            && d'.saves == d.saves - {i} && d'.notes == d.notes
            && (forall j, n :: Sec(d', j, n) == if j == i then None else Sec(d, j, n))
            && (forall r: IndexRow :: Count(d', r) == if r.saveId == i then 0 else Count(d, r))
  {
    assert DropAll(i)[..2][..1][..0] == [];
    assert ExecAll(d, []) == d;
    assert DropAll(i)[..2][..1] == [DropSections(i)] && DropAll(i)[..2] == [DropSections(i), DropRows(i)];
    var d1 := Exec(d, DropSections(i));
    assert ExecAll(d, [DropSections(i)]) == d1;
    assert ExecAll(d, DropAll(i)[..2]) == Exec(d1, DropRows(i));
  }

  /** `lost` is removed and `o`, unless it is the one removed, belongs to the user. */
  ghost predicate Settled(d: Db, d': Db, user: string, o: string, lost: Option<string>) {
    && (forall i :: i in d'.saves <==> i in d.saves && lost != Some(i))
    && (forall i | i in d'.saves && i in d.saves ::
          d'.saves[i] == if i == o && lost != Some(o) then d.saves[i].(user := Some(user)) else d.saves[i])
    && (forall i, n :: Sec(d', i, n) == if lost == Some(i) then None else Sec(d, i, n))
    && (forall r: IndexRow :: Count(d', r) == if lost == Some(r.saveId) then 0 else Count(d, r))
    && d'.notes == d.notes
  }

  function Lost(db: Db, o: string, rival: Option<string>): Option<string> {
    match rival
    case None => None
    case Some(e) => if Newer(db, o, e) then Some(e) else Some(o)
  }

  lemma SetUserSettles(d: Db, d1: Db, user: string, o: string, lost: Option<string>)
    requires lost != Some(o)
    requires if lost.Some? then d1.saves == d.saves - {lost.value} else d1.saves == d.saves
    requires d1.notes == d.notes
    requires forall j, n :: Sec(d1, j, n) == if lost == Some(j) then None else Sec(d, j, n)
    requires forall r: IndexRow :: Count(d1, r) == if lost == Some(r.saveId) then 0 else Count(d, r)
    ensures Settled(d, Exec(d1, SetUser(o, user)), user, o, lost)
  {
    var d2 := Exec(d1, SetUser(o, user));
    assert d2.sections == d1.sections && d2.index == d1.index;
    forall j, n ensures Sec(d2, j, n) == Sec(d1, j, n) {}
    forall r: IndexRow ensures Count(d2, r) == Count(d1, r) {}
  }

  /** Handling one orphan settles it and its rival. */
  lemma ExecOrphan(db: Db, d: Db, user: string, o: string, rival: Option<string>)
    requires rival != Some(o)
    ensures Settled(d, ExecAll(d, OrphanStatements(db, user, o, rival)), user, o, Lost(db, o, rival))
  {
    hide Exec, Newer, Settled;
    assert ExecAll(d, []) == d;
    match rival
    case None =>
      ExecOne(d, [], SetUser(o, user));
      assert [] + [SetUser(o, user)] == [SetUser(o, user)];
      SetUserSettles(d, d, user, o, None);
    case Some(e) =>
      if Newer(db, o, e) {
        ExecDropAll(d, e);
        ExecOne(d, DropAll(e), SetUser(o, user));
        SetUserSettles(d, ExecAll(d, DropAll(e)), user, o, Some(e));
      } else {
        ExecDropAll(d, o);
        DropSettles(d, ExecAll(d, DropAll(o)), user, o);
      }
  }

  lemma DropSettles(d: Db, d1: Db, user: string, o: string)
    requires d1.saves == d.saves - {o} && d1.notes == d.notes
    requires forall j, n :: Sec(d1, j, n) == if j == o then None else Sec(d, j, n)
    requires forall r: IndexRow :: Count(d1, r) == if r.saveId == o then 0 else Count(d, r)
    ensures Settled(d, d1, user, o, Some(o))
  {
  }

  lemma RemovedStep(db: Db, rivals: map<string, string>, init: seq<string>, o: string, i: string)
    requires o !in init
    ensures Removed(db, rivals, init + [o], i) <==>
        Removed(db, rivals, init, i)
        || Lost(db, o, RivalOf(rivals, o)) == Some(i)
  {
    assert forall x :: x in init + [o] <==> x in init || x == o;
  }

  ghost predicate AllOrphans(db: Db, source: string, orphans: seq<string>) {
    Distinct(orphans) && forall i | i in orphans :: Orphan(db, source, i)
  }

  lemma {:induction false} BatchHandles(db: Db, source: string, user: string, rivals: map<string, string>,
      orphans: seq<string>)
    requires AllOrphans(db, source, orphans) && RivalsOk(db, source, user, rivals)
    ensures Handled(db, ExecAll(db, ReconcileBatch(db, user, rivals, orphans)), user, rivals, orphans)
  {
    hide Exec, OrphanStatements, Newer, Wins, Removed;
    if orphans == [] {
      NothingRemoved(db, rivals);
    } else {
      var o, init := orphans[|orphans| - 1], orphans[..|orphans| - 1];
      assert orphans == init + [o];
      assert o !in init;
      BatchHandles(db, source, user, rivals, init);
      var before := ReconcileBatch(db, user, rivals, init);
      ExecAppend(db, before, OrphanStatements(db, user, o, RivalOf(rivals, o)));
      HandleOne(db, ExecAll(db, before), source, user, rivals, init, o);
    }
  }

  lemma NothingRemoved(db: Db, rivals: map<string, string>)
    ensures forall i :: !Removed(db, rivals, [], i)
    ensures ExecAll(db, []) == db
  {
  }

  lemma HandleOne(db: Db, d: Db, source: string, user: string, rivals: map<string, string>, init: seq<string>,
      o: string)
    requires Handled(db, d, user, rivals, init) && o !in init && RivalsOk(db, source, user, rivals)
        && Orphan(db, source, o)
    requires forall i | i in init :: Orphan(db, source, i)
    ensures Handled(db, ExecAll(d, OrphanStatements(db, user, o, RivalOf(rivals, o))), user, rivals, init + [o])
  {
    hide ExecAll, OrphanStatements, Removed, Settled, Handled, Lost;
    var rival := RivalOf(rivals, o);
    assert rival != Some(o) by { if o in rivals { assert Rival(db, user, o, rivals[o]); } }
    ExecOrphan(db, d, user, o, rival);
    forall i ensures Removed(db, rivals, init + [o], i) <==>
        Removed(db, rivals, init, i)
        || Lost(db, o, rival) == Some(i)
    {
      RemovedStep(db, rivals, init, o, i);
    }
    SettledHandled(db, d, ExecAll(d, OrphanStatements(db, user, o, rival)), user, rivals, init, o, Lost(db, o, rival));
  }

  lemma SettledHandled(db: Db, d: Db, d': Db, user: string, rivals: map<string, string>, init: seq<string>, o: string,
      lost: Option<string>)
    requires Handled(db, d, user, rivals, init) && o !in init && Settled(d, d', user, o, lost)
    requires forall i :: Removed(db, rivals, init + [o], i) <==> Removed(db, rivals, init, i) || lost == Some(i)
    ensures Handled(db, d', user, rivals, init + [o])
  {
    hide Removed;
    assert forall i :: i in init + [o] <==> i in init || i == o;
    forall i | i in d'.saves && i in db.saves
      ensures d'.saves[i] == if i in init + [o] then db.saves[i].(user := Some(user)) else db.saves[i]
    {
      assert i in d.saves && lost != Some(i);
    }
  }

  // ---------------------------------------------------------------- when the database accepts the batch

  /** Of an orphan and its rival, the save that is to be removed. */
  function Loser(db: Db, o: string, e: string): string {
    if Newer(db, o, e) then e else o
  }

  predicate LoserNoted(db: Db, rivals: map<string, string>, o: string) {
    o in rivals && HasNote(db, Loser(db, o, rivals[o]))
  }

  /** Some save that linking would remove still has a note. */
  ghost predicate Blocked(db: Db, source: string, user: string) {
    exists o, e :: Orphan(db, source, o) && Rival(db, user, o, e) && HasNote(db, Loser(db, o, e))
  }

  lemma TryDropAll(d: Db, i: string)
    ensures TryAll(d, DropAll(i)) == if HasNote(d, i) then None else Some(ExecAll(d, DropAll(i)))
  {
    var d1 := Exec(d, DropSections(i));
    var d2 := Exec(d1, DropRows(i));
    hide TryAll, ExecAll;
    TryFirst(d, DropSections(i));
    TryOne(d, [DropSections(i)], DropRows(i));
    TryOne(d, [DropSections(i)] + [DropRows(i)], DropSave(i));
    assert [DropSections(i)] + [DropRows(i)] + [DropSave(i)] == DropAll(i);
    assert d2.notes == d.notes;
    assert HasNote(d2, i) <==> HasNote(d, i);
    TryIsExec(d, DropAll(i));
  }

  lemma OnlyRival(db: Db, source: string, user: string, rivals: map<string, string>, o: string, e: string)
    requires Unique(db) && RivalsOk(db, source, user, rivals) && Orphan(db, source, o)
    ensures Rival(db, user, o, e) ==> o in rivals && rivals[o] == e
  {
    if Rival(db, user, o, e) {
      assert Rival(db, user, o, rivals[o]) && SameKey(db.saves[rivals[o]], db.saves[e]);
    }
  }

  /** Giving an orphan to the user takes no key once its rival is gone. */
  lemma KeyFree(db: Db, d: Db, d1: Db, source: string, user: string, rivals: map<string, string>, init: seq<string>,
      o: string)
    requires Unique(db) && RivalsOk(db, source, user, rivals) && Orphan(db, source, o)
    requires Handled(db, d, user, rivals, init) && o !in init && forall i | i in init :: Orphan(db, source, i)
    requires if o in rivals then d1.saves == d.saves - {rivals[o]} else d1.saves == d.saves
    ensures !Refused(d1, SetUser(o, user))
  {
    hide Removed;
    forall j | j in d1.saves && j != o && o in d1.saves
      ensures !SameKey(d1.saves[j], d1.saves[o].(user := Some(user)))
    {
      assert d.saves[j] == if j in init then db.saves[j].(user := Some(user)) else db.saves[j];
      assert SameKey(db.saves[j], db.saves[o]) ==> j == o;
      OnlyRival(db, source, user, rivals, o, j);
    }
  }

  lemma OrphanTried(db: Db, d: Db, source: string, user: string, rivals: map<string, string>, init: seq<string>,
      o: string)
    requires Unique(db) && RivalsOk(db, source, user, rivals) && Orphan(db, source, o)
    requires Handled(db, d, user, rivals, init) && o !in init && forall i | i in init :: Orphan(db, source, i)
    ensures var batch := OrphanStatements(db, user, o, RivalOf(rivals, o));
            TryAll(d, batch) == if LoserNoted(db, rivals, o) then None else Some(ExecAll(d, batch))
  {
    hide Exec, Newer, Refused, Unique, RivalsOk, Removed;
    assert d.notes == db.notes;
    assert forall i :: HasNote(d, i) <==> HasNote(db, i);
    var batch := OrphanStatements(db, user, o, RivalOf(rivals, o));
    TryIsExec(d, batch);
    if o !in rivals {
      KeyFree(db, d, d, source, user, rivals, init, o);
      TryFirst(d, SetUser(o, user));
    } else {
      var e := rivals[o];
      TryDropAll(d, Loser(db, o, e));
      if Newer(db, o, e) {
        ExecDropAll(d, e);
        KeyFree(db, d, ExecAll(d, DropAll(e)), source, user, rivals, init, o);
        TryOne(d, DropAll(e), SetUser(o, user));
      }
    }
  }

  /** The batch runs whole unless a save it removes has a note: nothing else is ever refused. */
  lemma {:induction false} BatchAcceptedExactly(db: Db, source: string, user: string, rivals: map<string, string>,
      orphans: seq<string>)
    requires AllOrphans(db, source, orphans) && RivalsOk(db, source, user, rivals) && Unique(db)
    ensures var batch := ReconcileBatch(db, user, rivals, orphans);
            TryAll(db, batch) ==
            if exists o :: o in orphans && LoserNoted(db, rivals, o) then None else Some(ExecAll(db, batch))
  {
    hide Exec, Refused, OrphanStatements, LoserNoted, RivalsOk, Unique, Handled;
    if orphans == [] {
      assert TryAll(db, []) == Some(db) && ExecAll(db, []) == db;
    } else {
      var o, init := orphans[|orphans| - 1], orphans[..|orphans| - 1];
      assert orphans == init + [o];
      assert o !in init;
      assert forall i :: i in orphans <==> i in init || i == o;
      var before, own := ReconcileBatch(db, user, rivals, init), OrphanStatements(db, user, o, RivalOf(rivals, o));
      BatchAcceptedExactly(db, source, user, rivals, init);
      BatchHandles(db, source, user, rivals, init);
      TryAppend(db, before, own);
      ExecAppend(db, before, own);
      OrphanTried(db, ExecAll(db, before), source, user, rivals, init, o);
    }
  }

  lemma BlockedIsNoted(db: Db, source: string, user: string, rivals: map<string, string>, done: seq<string>)
    requires AllOrphans(db, source, done) && (forall i | Orphan(db, source, i) :: i in done)
    requires RivalsOk(db, source, user, rivals) && Unique(db)
    ensures Blocked(db, source, user) <==> exists o :: o in done && LoserNoted(db, rivals, o)
  {
    hide Newer;
    forall o | o in done && LoserNoted(db, rivals, o) ensures Blocked(db, source, user) {
      assert Orphan(db, source, o) && Rival(db, user, o, rivals[o]);
    }
    forall o, e | Orphan(db, source, o) && Rival(db, user, o, e) && HasNote(db, Loser(db, o, e))
      ensures o in done && LoserNoted(db, rivals, o)
    {
      OnlyRival(db, source, user, rivals, o, e);
    }
  }

  // ---------------------------------------------------------------- what linking achieves

  /** `done` are all the orphans of the source. */
  ghost predicate Reconciled(db: Db, db': Db, source: string, user: string, rivals: map<string, string>,
      done: seq<string>)
  {
    && AllOrphans(db, source, done) && (forall i | Orphan(db, source, i) :: i in done)
    && RivalsOk(db, source, user, rivals)
    && Handled(db, db', user, rivals, done)
  }

  ghost predicate Adopted(db: Db, source: string) {
    forall i :: !Orphan(db, source, i)
  }

  /** Linking as a whole: either every orphan is handled, or the transaction is undone. It is undone
      exactly when a save to be removed still has a note. */
  ghost predicate LinkEffect(db: Db, db': Db, source: string, user: string, rivals: map<string, string>,
      done: seq<string>, ok: bool)
  {
    && (ok <==> !Blocked(db, source, user))
    && (if ok then Reconciled(db, db', source, user, rivals, done) else db' == db)
  }

  /** What trying the batch amounts to. */
  lemma LinkOutcome(db: Db, source: string, user: string, rivals: map<string, string>, done: seq<string>)
    requires AllOrphans(db, source, done) && (forall i | Orphan(db, source, i) :: i in done)
    requires RivalsOk(db, source, user, rivals)
    ensures var after := TryAll(db, ReconcileBatch(db, user, rivals, done));
            && (after.Some? ==> Reconciled(db, after.value, source, user, rivals, done))
            && (Unique(db) ==>
                LinkEffect(db, if after.Some? then after.value else db, source, user, rivals, done, after.Some?))
  {
    hide TryAll, ExecAll, ReconcileBatch, Handled, RivalsOk, Blocked, LoserNoted, Unique, AllOrphans, Orphan;
    BatchHandles(db, source, user, rivals, done);
    TryIsExec(db, ReconcileBatch(db, user, rivals, done));
    if Unique(db) {
      BatchAcceptedExactly(db, source, user, rivals, done);
      BlockedIsNoted(db, source, user, rivals, done);
    }
  }

  /** No orphan of the source is left, nothing else appears, and losers leave no section and no index row. */
  lemma NoOrphansLeft(db: Db, db': Db, source: string, user: string, rivals: map<string, string>, done: seq<string>)
    requires Reconciled(db, db', source, user, rivals, done) && References(db)
    ensures forall i :: !Orphan(db', source, i)
    ensures forall i | i in db'.saves :: i in db.saves
    ensures forall i, n | i !in db'.saves :: Sec(db', i, n) == None
    ensures forall r: IndexRow | r.saveId !in db'.saves :: Count(db', r) == 0
    ensures forall i, n | i in db'.saves :: Sec(db', i, n) == Sec(db, i, n)
    ensures forall r: IndexRow | r.saveId in db'.saves :: Count(db', r) == Count(db, r)
  {
    hide Removed, RivalsOk;
    forall i, n | i !in db'.saves ensures Sec(db', i, n) == None {
      if Sec(db, i, n).Some? { assert (i, n) in db.sections; }
    }
  }

  /** Of an orphan and its rival exactly one is kept, the one updated later; a tie keeps the user's own
      copy. An orphan without a rival is adopted. Saves that take no part are untouched. */
  lemma LaterOneWins(db: Db, db': Db, source: string, user: string, rivals: map<string, string>, done: seq<string>)
    requires Reconciled(db, db', source, user, rivals, done) && Unique(db)
    ensures forall o, e | Orphan(db, source, o) && Rival(db, user, o, e) ::
              && (o in db'.saves <==> db.saves[o].lastUpdated > db.saves[e].lastUpdated)
              && (e in db'.saves <==> db.saves[o].lastUpdated <= db.saves[e].lastUpdated)
    ensures forall o | Orphan(db, source, o) && (forall e :: !Rival(db, user, o, e)) :: o in db'.saves
    ensures forall o | Orphan(db, source, o) && o in db'.saves :: db'.saves[o] == db.saves[o].(user := Some(user))
    ensures forall i | i in db.saves && !Orphan(db, source, i)
        && (forall o | Orphan(db, source, o) :: !Rival(db, user, o, i)) ::
              i in db'.saves && db'.saves[i] == db.saves[i]
  {
    forall o, e | Orphan(db, source, o) && Rival(db, user, o, e)
      ensures o in db'.saves <==> db.saves[o].lastUpdated > db.saves[e].lastUpdated
      ensures e in db'.saves <==> db.saves[o].lastUpdated <= db.saves[e].lastUpdated
    {
      PairOutcome(db, source, user, rivals, done, o, e);
    }
    forall i | i in db.saves && !Orphan(db, source, i) && (forall o | Orphan(db, source, o) :: !Rival(db, user, o, i))
      ensures !Removed(db, rivals, done, i)
    {
      forall o | o in done && o in rivals ensures rivals[o] != i {
        assert Orphan(db, source, o) && Rival(db, user, o, rivals[o]);
      }
    }
    forall o | Orphan(db, source, o) && (forall e :: !Rival(db, user, o, e)) ensures !Removed(db, rivals, done, o) {
      AloneStays(db, source, user, rivals, done, o);
    }
  }

  /** Linking leaves no orphan of the source behind if and only if no save it has to remove has a note.
      Otherwise nothing changes at all: the orphans stay, also those that have no part in the conflict. */
  lemma LinkSucceedsExactly(db: Db, db': Db, source: string, user: string, rivals: map<string, string>,
      done: seq<string>, ok: bool)
    requires LinkEffect(db, db', source, user, rivals, done, ok) && References(db)
    ensures Adopted(db', source) <==> !Blocked(db, source, user)
    ensures Blocked(db, source, user) ==> db' == db
  {
    hide Reconciled;
    if ok {
      NoOrphansLeft(db, db', source, user, rivals, done);
    } else {
      var o, e :| Orphan(db, source, o) && Rival(db, user, o, e) && HasNote(db, Loser(db, o, e));
      assert Orphan(db', source, o);
    }
  }

  lemma AloneStays(db: Db, source: string, user: string, rivals: map<string, string>, done: seq<string>, o: string)
    requires RivalsOk(db, source, user, rivals) && Orphan(db, source, o) && forall e :: !Rival(db, user, o, e)
    ensures !Removed(db, rivals, done, o)
  {
    forall p | p in rivals ensures rivals[p] != o && p != o {
      assert Rival(db, user, p, rivals[p]);
    }
  }

  lemma PairOutcome(db: Db, source: string, user: string, rivals: map<string, string>, done: seq<string>, o: string,
      e: string)
    requires AllOrphans(db, source, done) && (forall i | Orphan(db, source, i) :: i in done)
    requires RivalsOk(db, source, user, rivals) && Unique(db)
    requires Orphan(db, source, o) && Rival(db, user, o, e)
    ensures Removed(db, rivals, done, o) <==> db.saves[o].lastUpdated <= db.saves[e].lastUpdated
    ensures Removed(db, rivals, done, e) <==> db.saves[o].lastUpdated > db.saves[e].lastUpdated
  {
    OnlyRival(db, source, user, rivals, o, e);
    forall p | p in done && p in rivals ensures rivals[p] != o && (rivals[p] == e ==> p == o) {
      assert Rival(db, user, p, rivals[p]) && Orphan(db, source, p);
      if rivals[p] == e { assert SameKey(db.saves[p], db.saves[o]); }
    }
  }

  /** The tables stay in order: one save per key, references resolved, index in step. */
  lemma ReconcileKeepsDb(db: Db, db': Db, source: string, user: string, rivals: map<string, string>, done: seq<string>)
    requires DbOk(db) && Reconciled(db, db', source, user, rivals, done) && !Blocked(db, source, user)
    ensures DbOk(db')
  {
    hide Removed, Handled, InStep, References, Unique, Blocked;
    NoOrphansLeft(db, db', source, user, rivals, done);
    LaterOneWins(db, db', source, user, rivals, done);
    NotesKeepSaves(db, db', source, user, rivals, done);
    KeepsReferences(db, db');
    SameNames(db, db', source, user, rivals, done);
    KeepsInStep(db, db');
    KeepsUnique(db, db', source, user, rivals, done);
  }

  lemma NotesKeepSaves(db: Db, db': Db, source: string, user: string, rivals: map<string, string>, done: seq<string>)
    requires References(db) && Reconciled(db, db', source, user, rivals, done) && !Blocked(db, source, user)
    ensures forall n | n in db'.notes :: db'.notes[n] in db'.saves
  {
    hide Removed, Blocked, RivalsOk, AllOrphans;
    forall n | n in db'.notes ensures db'.notes[n] in db'.saves {
      if Removed(db, rivals, done, db.notes[n]) { LostNote(db, source, user, rivals, done, n); }
    }
  }

  lemma LostNote(db: Db, source: string, user: string, rivals: map<string, string>, done: seq<string>, n: string)
    requires RivalsOk(db, source, user, rivals) && AllOrphans(db, source, done)
    requires n in db.notes && Removed(db, rivals, done, db.notes[n])
    ensures Blocked(db, source, user)
  {
    var i := db.notes[n];
    var o := if i in done && !Wins(db, rivals, i) then i
      else var o :| o in done && o in rivals && rivals[o] == i && Newer(db, o, i); o;
    assert Orphan(db, source, o) && Rival(db, user, o, rivals[o]);
    assert Loser(db, o, rivals[o]) == i && HasNote(db, i);
  }

  lemma KeepsReferences(db: Db, db': Db)
    requires forall i, n | i !in db'.saves :: Sec(db', i, n) == None
    requires forall r: IndexRow | r.saveId !in db'.saves :: Count(db', r) == 0
    requires forall n | n in db'.notes :: db'.notes[n] in db'.saves
    ensures References(db')
  {
    forall k | k in db'.sections ensures k.0 in db'.saves {
      assert Sec(db', k.0, k.1).Some?;
    }
  }

  lemma SameNames(db: Db, db': Db, source: string, user: string, rivals: map<string, string>, done: seq<string>)
    requires Reconciled(db, db', source, user, rivals, done)
    ensures forall i | i in db'.saves :: i in db.saves && db'.saves[i].name == db.saves[i].name
                                         && db'.saves[i].game == db.saves[i].game
                                         && db'.saves[i].source == db.saves[i].source
    ensures forall i | i in db'.saves :: db'.saves[i].user == if Orphan(db, source, i) then Some(user)
        else db.saves[i].user
  {
    hide Removed, RivalsOk;
  }

  lemma KeepsInStep(db: Db, db': Db)
    requires InStep(db)
    requires forall i | i in db'.saves :: i in db.saves && db'.saves[i].name == db.saves[i].name
    requires forall i, n | i in db'.saves :: Sec(db', i, n) == Sec(db, i, n)
    requires forall r: IndexRow | r.saveId in db'.saves :: Count(db', r) == Count(db, r)
    requires forall r: IndexRow | r.saveId !in db'.saves :: Count(db', r) == 0
    ensures InStep(db')
  {
    forall r: IndexRow | r.kind.SectionRow? ensures Count(db', r) == Expected(db', r) {
      assert Count(db, r) == Expected(db, r);
      if r.saveId in db'.saves {
        assert Sec(db', r.saveId, r.refId) == Sec(db, r.saveId, r.refId);
      }
    }
  }

  lemma KeepsUnique(db: Db, db': Db, source: string, user: string, rivals: map<string, string>, done: seq<string>)
    requires Reconciled(db, db', source, user, rivals, done) && Unique(db)
    ensures Unique(db')
  {
    hide Handled, Removed, RivalsOk, AllOrphans;
    SameNames(db, db', source, user, rivals, done);
    LaterOneWins(db, db', source, user, rivals, done);
    forall i, j | i in db'.saves && j in db'.saves && SameKey(db'.saves[i], db'.saves[j]) ensures i == j {
      assert Orphan(db, source, i) && !Orphan(db, source, j) ==> Rival(db, user, i, j);
      assert !Orphan(db, source, i) && Orphan(db, source, j) ==> Rival(db, user, j, i);
      assert (Orphan(db, source, i) <==> Orphan(db, source, j)) ==> SameKey(db.saves[i], db.saves[j]);
    }
  }
}
