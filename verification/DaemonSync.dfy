/** The daemon's side of the delta protocol: which name a parse is filed under, which sections are sent,
    and what is remembered about the last push of each file. */
module DaemonSync {
  import opened Options
  import opened SaveDb
  import opened Sets

  const UNKNOWN_SAVE_NAME := "Unknown Player"

  /** A section as parsed: an object that survives conversion, or something that is skipped. */
  datatype RawSection = Readable(section: Section) | Unreadable

  datatype Parsed = Parsed(saveName: string, summary: string, display: string, sections: map<string, RawSection>)

  datatype HashCache = HashCache(saveName: string, hashes: map<string, int>)

  datatype Memory = Memory(lastPushed: map<string, HashCache>, lastKnown: map<string, string>)

  /** A push as sent: the changed sections and the names of all of them. */
  datatype Push = Push(saveName: string, summary: string, display: string, sections: map<string, Section>,
      all: seq<string>)

  // ---------------------------------------------------------------- specification

  function Resolved(m: Memory, path: string, saveName: string): string {
    if saveName != "" then saveName
    else if path in m.lastKnown then m.lastKnown[path]
    else UNKNOWN_SAVE_NAME
  }

  function Remember(m: Memory, path: string, saveName: string): Memory {
    if saveName != "" then m.(lastKnown := m.lastKnown[path := saveName]) else m
  }

  function Valid(raw: map<string, RawSection>): map<string, Section> {
    map n | n in raw && raw[n].Readable? :: raw[n].section
  }

  function Hashes(hash: (string, Section) -> int, secs: map<string, Section>): map<string, int> {
    map n | n in secs :: hash(n, secs[n])
  }

  /** The hashes to compare with: those of the last push of this file under the same name, else none. */
  function Previous(m: Memory, path: string, saveName: string): map<string, int> {
    if path in m.lastPushed && m.lastPushed[path].saveName == saveName then m.lastPushed[path].hashes else map[]
  }

  predicate Known(prev: map<string, int>, n: string, h: int) {
    n in prev && prev[n] == h
  }

  function Changed(hash: (string, Section) -> int, prev: map<string, int>, secs: map<string, Section>)
    : map<string, Section>
  {
    map n | n in secs && !Known(prev, n, hash(n, secs[n])) :: secs[n]
  }

  ghost predicate Lists(all: seq<string>, secs: map<string, Section>) {
    Distinct(all) && forall n :: n in all <==> n in secs
  }

  /** Memory after pushing: replaced only when something was sent. */
  function AfterPush(m: Memory, hash: (string, Section) -> int, path: string, name: string, secs: map<string, Section>,
      sendOk: bool): Memory
  {
    if Changed(hash, Previous(m, path, name), secs) == map[] || !sendOk then m
    else m.(lastPushed := m.lastPushed[path := HashCache(name, Hashes(hash, secs))])
  }

  /** The message sent, if any. The names are listed in some order. */
  ghost predicate Sends(m: Memory, hash: (string, Section) -> int, path: string, name: string, p: Parsed, sendOk: bool,
      out: Option<Push>)
  {
    var secs := Valid(p.sections);
    var changed := Changed(hash, Previous(m, path, name), secs);
    if changed == map[] || !sendOk then out == None
    else
      && out.Some? && out.value.saveName == name && out.value.summary == p.summary && out.value.display == p.display
      && out.value.sections == changed && Lists(out.value.all, secs)
  }

  // ---------------------------------------------------------------- the program

  class Daemon {
    const hash: (string, Section) -> int
    var lastPushedSectionHashes: map<string, HashCache>
    var lastKnownSaveNames: map<string, string>

    ghost function State(): Memory
      reads this
    {
      Memory(lastPushedSectionHashes, lastKnownSaveNames)
    }

    constructor (h: (string, Section) -> int)
      ensures State() == Memory(map[], map[]) && hash == h
    {
      hash, lastPushedSectionHashes, lastKnownSaveNames := h, map[], map[];
    }

    method ResolveIdentity(path: string, saveName: string) returns (name: string)
      modifies this`lastKnownSaveNames
      ensures name == Resolved(old(State()), path, saveName)
      ensures State() == Remember(old(State()), path, saveName)
    {
      if saveName != "" {
        lastKnownSaveNames := lastKnownSaveNames[path := saveName];
        return saveName;
      }
      if path in lastKnownSaveNames {
        return lastKnownSaveNames[path];
      }
      return UNKNOWN_SAVE_NAME;
    }

    method FilterChangedSections(path: string, saveName: string, names: seq<string>, secs: map<string, Section>)
      returns (changed: map<string, Section>, newHashes: map<string, int>)
      requires Lists(names, secs)
      ensures changed == Changed(hash, Previous(State(), path, saveName), secs)
      ensures newHashes == Hashes(hash, secs)
    {
      hide Changed, Hashes, Lists, Known;
      ListsAll(names, secs);
      var prevHashes := map[];
      if path in lastPushedSectionHashes && lastPushedSectionHashes[path].saveName == saveName {
        prevHashes := lastPushedSectionHashes[path].hashes;
      }
      changed, newHashes := map[], map[];
      for i := 0 to |names|
        invariant forall n :: n in newHashes <==> n in names[..i]
        invariant forall n | n in newHashes :: n in secs && newHashes[n] == hash(n, secs[n])
        invariant forall n | n in names[..i] && n in secs :: n !in changed <==> Known(prevHashes, n, hash(n, secs[n]))
        invariant forall n | n in changed :: n in names[..i] && n in secs && changed[n] == secs[n]
      {
        var name := names[i];
        assert name in secs && names[..i + 1] == names[..i] + [name];
        var h := hash(name, secs[name]);
        newHashes := newHashes[name := h];
        if !Known(prevHashes, name, h) {
          changed := changed[name := secs[name]];
        }
      }
      assert names[..|names|] == names;
      Filtered(hash, prevHashes, secs, changed, newHashes);
    }

    /** Keeps the readable sections and lists their names. */
    method Convert(raw: map<string, RawSection>) returns (secs: map<string, Section>, names: seq<string>)
      ensures secs == Valid(raw) && Lists(names, secs)
    {
      secs, names := map[], [];
      var todo := raw.Keys;
      while todo != {}
        invariant todo <= raw.Keys && Lists(names, secs)
        invariant secs == map n | n in raw && raw[n].Readable? && n !in todo :: raw[n].section
        decreases todo
      {
        ghost var some := SomeElement(todo);
        var name :| name in todo;
        todo := todo - {name};
        if raw[name].Unreadable? {
          continue;
        }
        Listed(names, secs, name, raw[name].section);
        secs := secs[name := raw[name].section];
        names := names + [name];
      }
    }

    /** `sendOk` is what the connection answers if something is sent. */
    method PushState(path: string, name: string, p: Parsed, sendOk: bool) returns (out: Option<Push>)
      modifies this`lastPushedSectionHashes
      ensures Sends(old(State()), hash, path, name, p, sendOk, out)
      ensures State() == AfterPush(old(State()), hash, path, name, Valid(p.sections), sendOk)
    {
      hide Valid, Changed, Hashes, Lists;
      var secs, names := Convert(p.sections);
      var changed, newHashes := FilterChangedSections(path, name, names, secs);
      if |changed| == 0 {
        NoEntries(changed);
        return None;
      }
      NoEntries(changed);
      if !sendOk {
        return None;
      }
      lastPushedSectionHashes := lastPushedSectionHashes[path := HashCache(name, newHashes)];
      return Some(Push(name, p.summary, p.display, changed, names));
    }

    method ParseAndPush(path: string, p: Parsed, sendOk: bool) returns (name: string, out: Option<Push>)
      modifies this
      ensures name == Resolved(old(State()), path, p.saveName)
      ensures Sends(old(State()), hash, path, name, p, sendOk, out)
      ensures State() == AfterPush(Remember(old(State()), path, p.saveName), hash, path, name, Valid(p.sections),
          sendOk)
    {
      hide Valid, Changed, Hashes, Lists;
      ghost var before := State();
      name := ResolveIdentity(path, p.saveName);
      assert Previous(State(), path, name) == Previous(before, path, name);
      out := PushState(path, name, p, sendOk);
    }
  }

  lemma ListsAll(all: seq<string>, secs: map<string, Section>)
    requires Lists(all, secs)
    ensures forall n :: n in all <==> n in secs
  {
  }

  lemma Filtered(hash: (string, Section) -> int, prev: map<string, int>, secs: map<string, Section>,
                 changed: map<string, Section>, hashes: map<string, int>)
    requires forall n :: n in hashes <==> n in secs
    requires forall n | n in hashes :: n in secs && hashes[n] == hash(n, secs[n])
    requires forall n | n in secs :: n !in changed <==> Known(prev, n, hash(n, secs[n]))
    requires forall n | n in changed :: n in secs && changed[n] == secs[n]
    ensures changed == Changed(hash, prev, secs) && hashes == Hashes(hash, secs)
  {
  }

  lemma Listed(all: seq<string>, secs: map<string, Section>, n: string, s: Section)
    requires Lists(all, secs) && n !in secs
    ensures Lists(all + [n], secs[n := s])
  {
    forall i, j | 0 <= i < j < |all + [n]| ensures (all + [n])[i] != (all + [n])[j] {
      assert all[i] in all;
    }
  }

  lemma NoEntries(m: map<string, Section>)
    ensures |m| == 0 <==> m == map[]
  {
    if |m| == 0 {
      EmptyOrNot(m.Keys);
      assert |m.Keys| == 0;
    }
  }

  // ---------------------------------------------------------------- when nothing is sent

  /** Nothing is sent exactly when every section was in the last push of this file under this name with
      the same hash. Sections that disappeared do not matter. */
  lemma SilentExactly(hash: (string, Section) -> int, prev: map<string, int>, secs: map<string, Section>)
    ensures Changed(hash, prev, secs) == map[] <==> forall n | n in secs :: n in prev && prev[n] == hash(n, secs[n])
  {
    var changed := Changed(hash, prev, secs);
    if changed == map[] {
      forall n | n in secs ensures n in prev && prev[n] == hash(n, secs[n]) {
        assert n !in changed;
      }
    } else {
      var n := SomeElement(changed.Keys);
      assert n in secs;
    }
  }

  /** So a parse that only lost sections since the last push is not reported to the server. */
  lemma RemovalNotSent(hash: (string, Section) -> int, before: map<string, Section>, after: map<string, Section>)
    requires forall n | n in after :: n in before && before[n] == after[n]
    ensures Changed(hash, Hashes(hash, before), after) == map[]
  {
    SilentExactly(hash, Hashes(hash, before), after);
  }
}
