/** Snapshots of a change log: grouping, chunking, and reassembly (src/snapshot.rs). */
module Snapshot {
  import opened Changes
  import Arithmetic
  import Sequences

  datatype KeyValueEntry = KeyValueEntry(key: Option<Bytes>, value: Option<Bytes>)

  datatype DbSnapshot = DbSnapshot(name: string, entries: seq<KeyValueEntry>)

  datatype NamespaceSnapshot = NamespaceSnapshot(name: string, databases: seq<DbSnapshot>)

  datatype DatabaseSnapshot = DatabaseSnapshot(namespaces: seq<NamespaceSnapshot>)

  function DbTotal(dbs: seq<DbSnapshot>): nat {
    if dbs == [] then 0 else |dbs[0].entries| + DbTotal(dbs[1..])
  }

  function NamespaceTotal(nss: seq<NamespaceSnapshot>): nat {
    if nss == [] then 0 else DbTotal(nss[0].databases) + NamespaceTotal(nss[1..])
  }

  function TotalEntries(s: DatabaseSnapshot): nat {
    NamespaceTotal(s.namespaces)
  }

  // ---------- grouping ----------

  function EntryOf(c: Change): KeyValueEntry {
    KeyValueEntry(c.key, c.value)
  }

  /** The log's subsequence for one database, as entries, in log order. */
  function EntriesOf(log: seq<Change>, ns: string, db: string): seq<KeyValueEntry> {
    if log == [] then []
    else
      var last := log[|log| - 1];
      EntriesOf(log[..|log| - 1], ns, db)
      + (if last.namespace == ns && last.database == db then [EntryOf(last)] else [])
  }

  type Groups = map<string, map<string, seq<KeyValueEntry>>>

  function GroupAt(groups: Groups, ns: string, db: string): seq<KeyValueEntry> {
    if ns in groups && db in groups[ns] then groups[ns][db] else []
  }

  ghost predicate IsGrouped(groups: Groups, log: seq<Change>) {
    && (forall ns, db :: GroupAt(groups, ns, db) == EntriesOf(log, ns, db))
    && (forall ns, db :: ns in groups && db in groups[ns] ==> groups[ns][db] != [])
  }

  ghost predicate DistinctDbs(dbs: seq<DbSnapshot>) {
    forall i, j :: 0 <= i < j < |dbs| ==> dbs[i].name != dbs[j].name
  }

  ghost predicate DistinctNamespaces(nss: seq<NamespaceSnapshot>) {
    forall i, j :: 0 <= i < j < |nss| ==> nss[i].name != nss[j].name
  }

  /** The databases of one namespace, each once, in any order. */
  ghost predicate ListsDbs(dbs: seq<DbSnapshot>, groups: map<string, seq<KeyValueEntry>>) {
    && DistinctDbs(dbs)
    && (forall i :: 0 <= i < |dbs| ==> dbs[i].name in groups && dbs[i].entries == groups[dbs[i].name])
    && (forall db :: db in groups ==> exists i :: 0 <= i < |dbs| && dbs[i].name == db)
  }

  ghost predicate ListsNamespaces(nss: seq<NamespaceSnapshot>, groups: Groups) {
    && DistinctNamespaces(nss)
    && (forall i :: 0 <= i < |nss| ==> nss[i].name in groups && ListsDbs(nss[i].databases, groups[nss[i].name]))
    && (forall ns :: ns in groups ==> exists i :: 0 <= i < |nss| && nss[i].name == ns)
  }

  /** The snapshot of a log, up to the order in which the hash maps yield their entries. */
  ghost predicate IsSnapshotOf(s: DatabaseSnapshot, log: seq<Change>) {
    exists groups: Groups :: IsGrouped(groups, log) && ListsNamespaces(s.namespaces, groups)
  }

  class SnapshotSerializer {
    var pending: seq<Change>

    constructor ()
      ensures pending == []
    {
      pending := [];
    }

    method AddChange(change: Change)
      modifies this
      ensures pending == old(pending) + [change]
    {
      pending := pending + [change];
    }

    method BuildSnapshot() returns (s: DatabaseSnapshot)
      modifies this
      ensures pending == []
      ensures IsSnapshotOf(s, old(pending))
    {
      var changes := pending;
      pending := [];
      var groups: Groups := map[];
      var i := 0;
      while i < |changes|
        invariant 0 <= i <= |changes| && pending == []
        invariant IsGrouped(groups, changes[..i])
      {
        var change := changes[i];
        var dbMap := if change.namespace in groups then groups[change.namespace] else map[];
        var entries := if change.database in dbMap then dbMap[change.database] else [];
        GroupOne(groups, changes[..i], change);
        groups := groups[change.namespace := dbMap[change.database := entries + [EntryOf(change)]]];
        assert changes[..i + 1] == changes[..i] + [change];
        i := i + 1;
      }
      assert changes[..i] == changes;
      var namespaces := CollectNamespaces(groups);
      s := DatabaseSnapshot(namespaces);
    }
  }

  lemma GroupOne(groups: Groups, log: seq<Change>, c: Change)
    requires IsGrouped(groups, log)
    ensures var dbMap := if c.namespace in groups then groups[c.namespace] else map[];
            var entries := if c.database in dbMap then dbMap[c.database] else [];
            IsGrouped(groups[c.namespace := dbMap[c.database := entries + [EntryOf(c)]]], log + [c])
  {
    var dbMap := if c.namespace in groups then groups[c.namespace] else map[];
    var entries := if c.database in dbMap then dbMap[c.database] else [];
    var next := groups[c.namespace := dbMap[c.database := entries + [EntryOf(c)]]];
    assert (log + [c])[..|log|] == log;
    forall ns, db
      ensures GroupAt(next, ns, db) == EntriesOf(log + [c], ns, db)
    {
      assert GroupAt(groups, ns, db) == EntriesOf(log, ns, db);
    }
  }

  method CollectDbs(groups: map<string, seq<KeyValueEntry>>) returns (dbs: seq<DbSnapshot>)
    ensures ListsDbs(dbs, groups)
  {
    dbs := [];
    var left := groups.Keys;
    while left != {}
      invariant left <= groups.Keys
      invariant DistinctDbs(dbs)
      invariant forall i :: 0 <= i < |dbs| ==>
                  dbs[i].name in groups && dbs[i].name !in left && dbs[i].entries == groups[dbs[i].name]
      invariant forall db :: db in groups && db !in left ==> exists i :: 0 <= i < |dbs| && dbs[i].name == db
      decreases left
    {
      var name :| name in left;
      ghost var was := dbs;
      dbs := dbs + [DbSnapshot(name, groups[name])];
      left := left - {name};
      forall db | db in groups && db !in left
        ensures exists i :: 0 <= i < |dbs| && dbs[i].name == db
      {
        if db == name {
          assert dbs[|was|].name == db;
        } else {
          var i :| 0 <= i < |was| && was[i].name == db;
          assert dbs[i].name == db;
        }
      }
    }
  }

  method CollectNamespaces(groups: Groups) returns (nss: seq<NamespaceSnapshot>)
    ensures ListsNamespaces(nss, groups)
  {
    hide ListsDbs;
    nss := [];
    var left := groups.Keys;
    while left != {}
      invariant left <= groups.Keys
      invariant DistinctNamespaces(nss)
      invariant forall i :: 0 <= i < |nss| ==>
                  nss[i].name in groups && nss[i].name !in left && ListsDbs(nss[i].databases, groups[nss[i].name])
      invariant forall ns :: ns in groups && ns !in left ==> exists i :: 0 <= i < |nss| && nss[i].name == ns
      decreases left
    {
      var name :| name in left;
      ghost var was := nss;
      var dbs := CollectDbs(groups[name]);
      nss := nss + [NamespaceSnapshot(name, dbs)];
      left := left - {name};
      forall ns | ns in groups && ns !in left
        ensures exists i :: 0 <= i < |nss| && nss[i].name == ns
      {
        if ns == name {
          assert nss[|was|].name == ns;
        } else {
          var i :| 0 <= i < |was| && was[i].name == ns;
          assert nss[i].name == ns;
        }
      }
    }
  }

  // ---------- what a log and a snapshot mean ----------

  datatype Write = Write(ns: string, db: string, entry: KeyValueEntry)

  type Store = map<(string, string, Bytes), Bytes>

  /** An entry with a value sets its key, one without deletes it, one without a key does nothing. */
  function Apply(kv: Store, w: Write): Store {
    match w.entry.key
    case None => kv
    case Some(k) =>
      match w.entry.value
      case Some(v) => kv[(w.ns, w.db, k) := v]
      case None => kv - {(w.ns, w.db, k)}
  }

  function Replay(ws: seq<Write>): Store {
    if ws == [] then map[] else Apply(Replay(ws[..|ws| - 1]), ws[|ws| - 1])
  }

  /** A change's effect by its kind of operation. */
  function ApplyChange(kv: Store, c: Change): Store {
    if c.key.None? then kv
    else if c.operation == SetKey && c.value.Some? then kv[(c.namespace, c.database, c.key.value) := c.value.value]
    else if c.operation == DeleteKey then kv - {(c.namespace, c.database, c.key.value)}
    else kv
  }

  function ReplayLog(log: seq<Change>): Store {
    if log == [] then map[] else ApplyChange(ReplayLog(log[..|log| - 1]), log[|log| - 1])
  }

  /** A key comes with a set and its value, or with a delete and none, as the constructors of `Change` have it. */
  predicate WellShaped(c: Change) {
    c.key.None? || (c.operation == SetKey && c.value.Some?) || (c.operation == DeleteKey && c.value.None?)
  }

  function WriteOf(c: Change): Write {
    Write(c.namespace, c.database, EntryOf(c))
  }

  function Writes(log: seq<Change>): seq<Write> {
    if log == [] then [] else Writes(log[..|log| - 1]) + [WriteOf(log[|log| - 1])]
  }

  function Tagged(ns: string, db: string, entries: seq<KeyValueEntry>): (ws: seq<Write>)
    ensures |ws| == |entries|
  {
    seq(|entries|, i requires 0 <= i < |entries| => Write(ns, db, entries[i]))
  }

  function FlattenDbs(ns: string, dbs: seq<DbSnapshot>): (ws: seq<Write>)
    ensures |ws| == DbTotal(dbs)
  {
    if dbs == [] then [] else Tagged(ns, dbs[0].name, dbs[0].entries) + FlattenDbs(ns, dbs[1..])
  }

  function FlattenNamespaces(nss: seq<NamespaceSnapshot>): (ws: seq<Write>)
    ensures |ws| == NamespaceTotal(nss)
  {
    if nss == [] then [] else FlattenDbs(nss[0].name, nss[0].databases) + FlattenNamespaces(nss[1..])
  }

  /** The snapshot read from front to back. */
  function Flatten(s: DatabaseSnapshot): (ws: seq<Write>)
    ensures |ws| == TotalEntries(s)
  {
    FlattenNamespaces(s.namespaces)
  }

  /** The writes to one database. */
  function Project(ws: seq<Write>, ns: string, db: string): seq<Write> {
    if ws == [] then []
    else
      var last := ws[|ws| - 1];
      Project(ws[..|ws| - 1], ns, db) + (if last.ns == ns && last.db == db then [last] else [])
  }

  lemma ProjectNothing(ns: string, db: string)
    ensures Project([], ns, db) == []
  {
  }

  lemma ProjectLast(ws: seq<Write>, w: Write, ns: string, db: string)
    ensures Project(ws + [w], ns, db) == Project(ws, ns, db) + if w.ns == ns && w.db == db then [w] else []
  {
    assert (ws + [w])[..|ws|] == ws;
  }

  lemma {:induction false} ProjectJoin(a: seq<Write>, b: seq<Write>, ns: string, db: string)
    ensures Project(a + b, ns, db) == Project(a, ns, db) + Project(b, ns, db)
    decreases |b|
  {
    hide *;
    if b == [] {
      ProjectNothing(ns, db);
      assert a + b == a && Project(a, ns, db) + [] == Project(a, ns, db);
    } else {
      var before, last := b[..|b| - 1], b[|b| - 1];
      ProjectJoin(a, before, ns, db);
      ProjectLast(a + before, last, ns, db);
      ProjectLast(before, last, ns, db);
      assert b == before + [last];
      Sequences.Associative(a, before, [last]);
      Sequences.Associative(Project(a, ns, db), Project(before, ns, db),
                            if last.ns == ns && last.db == db then [last] else []);
    }
  }

  lemma TaggedLast(ns: string, db: string, entries: seq<KeyValueEntry>, entry: KeyValueEntry)
    ensures Tagged(ns, db, entries + [entry]) == Tagged(ns, db, entries) + [Write(ns, db, entry)]
    ensures Tagged(ns, db, []) == []
  {
  }

  lemma {:induction false} ProjectTagged(ns: string, db: string, entries: seq<KeyValueEntry>, ns': string, db': string)
    ensures Project(Tagged(ns, db, entries), ns', db') == if ns == ns' && db == db' then Tagged(ns, db, entries) else []
    decreases |entries|
  {
    hide *;
    if entries == [] {
      TaggedLast(ns, db, [], KeyValueEntry(None, None));
      ProjectNothing(ns', db');
    } else {
      var before, last := entries[..|entries| - 1], entries[|entries| - 1];
      assert entries == before + [last];
      ProjectTagged(ns, db, before, ns', db');
      TaggedLast(ns, db, before, last);
      ProjectLast(Tagged(ns, db, before), Write(ns, db, last), ns', db');
    }
  }

  lemma WritesLast(log: seq<Change>, c: Change)
    ensures Writes(log + [c]) == Writes(log) + [WriteOf(c)]
    ensures Writes([]) == []
  {
    assert (log + [c])[..|log|] == log;
  }

  lemma EntriesLast(log: seq<Change>, c: Change, ns: string, db: string)
    ensures EntriesOf(log + [c], ns, db)
         == EntriesOf(log, ns, db) + if c.namespace == ns && c.database == db then [EntryOf(c)] else []
    ensures EntriesOf([], ns, db) == []
  {
    assert (log + [c])[..|log|] == log;
  }

  lemma {:induction false} ProjectWrites(log: seq<Change>, ns: string, db: string)
    ensures Project(Writes(log), ns, db) == Tagged(ns, db, EntriesOf(log, ns, db))
    decreases |log|
  {
    hide Project, Writes, EntriesOf, Tagged;
    if log == [] {
      WritesLast([], SOME_CHANGE);
      EntriesLast([], SOME_CHANGE, ns, db);
      TaggedLast(ns, db, [], KeyValueEntry(None, None));
      ProjectNothing(ns, db);
    } else {
      var before, last := log[..|log| - 1], log[|log| - 1];
      assert log == before + [last];
      ProjectWrites(before, ns, db);
      WritesLast(before, last);
      EntriesLast(before, last, ns, db);
      TaggedLast(ns, db, EntriesOf(before, ns, db), EntryOf(last));
      ProjectLast(Writes(before), WriteOf(last), ns, db);
      var kept := EntriesOf(before, ns, db);
      assert kept + [] == kept && Tagged(ns, db, kept) + [] == Tagged(ns, db, kept);
    }
  }

  /** The first database's writes, and those of the others. */
  lemma SplitDbs(dbs: seq<DbSnapshot>, ns: string, ns': string, db: string)
    requires dbs != []
    ensures Project(FlattenDbs(ns, dbs), ns', db)
         == (if ns == ns' && dbs[0].name == db then Tagged(ns, db, dbs[0].entries) else [])
            + Project(FlattenDbs(ns, dbs[1..]), ns', db)
  {
    assert FlattenDbs(ns, dbs) == Tagged(ns, dbs[0].name, dbs[0].entries) + FlattenDbs(ns, dbs[1..]);
    hide *;
    ProjectJoin(Tagged(ns, dbs[0].name, dbs[0].entries), FlattenDbs(ns, dbs[1..]), ns', db);
    ProjectTagged(ns, dbs[0].name, dbs[0].entries, ns', db);
  }

  lemma {:induction false} ProjectNoDb(dbs: seq<DbSnapshot>, ns: string, ns': string, db: string)
    requires ns != ns' || forall i :: 0 <= i < |dbs| ==> dbs[i].name != db
    ensures Project(FlattenDbs(ns, dbs), ns', db) == []
    decreases |dbs|
  {
    if dbs != [] {
      hide *;
      SplitDbs(dbs, ns, ns', db);
      assert forall i :: 0 <= i < |dbs[1..]| ==> dbs[1..][i] == dbs[i + 1];
      ProjectNoDb(dbs[1..], ns, ns', db);
    }
  }

  lemma {:induction false} ProjectDb(dbs: seq<DbSnapshot>, ns: string, i: nat)
    requires DistinctDbs(dbs) && i < |dbs|
    ensures Project(FlattenDbs(ns, dbs), ns, dbs[i].name) == Tagged(ns, dbs[i].name, dbs[i].entries)
    decreases |dbs|
  {
    hide Project, FlattenDbs, Tagged;
    SplitDbs(dbs, ns, ns, dbs[i].name);
    assert forall j :: 0 <= j < |dbs[1..]| ==> dbs[1..][j] == dbs[j + 1];
    if i == 0 {
      ProjectNoDb(dbs[1..], ns, ns, dbs[0].name);
      assert Tagged(ns, dbs[0].name, dbs[0].entries) + [] == Tagged(ns, dbs[0].name, dbs[0].entries);
    } else {
      ProjectDb(dbs[1..], ns, i - 1);
    }
  }

  /** The first namespace's writes, and those of the others. */
  lemma SplitNamespaces(nss: seq<NamespaceSnapshot>, ns: string, db: string)
    requires nss != []
    ensures Project(FlattenNamespaces(nss), ns, db)
         == Project(FlattenDbs(nss[0].name, nss[0].databases), ns, db) + Project(FlattenNamespaces(nss[1..]), ns, db)
  {
    assert FlattenNamespaces(nss) == FlattenDbs(nss[0].name, nss[0].databases) + FlattenNamespaces(nss[1..]);
    hide *;
    ProjectJoin(FlattenDbs(nss[0].name, nss[0].databases), FlattenNamespaces(nss[1..]), ns, db);
  }

  lemma {:induction false} ProjectNoNamespace(nss: seq<NamespaceSnapshot>, ns: string, db: string)
    requires forall i :: 0 <= i < |nss| ==> nss[i].name != ns
    ensures Project(FlattenNamespaces(nss), ns, db) == []
    decreases |nss|
  {
    if nss != [] {
      hide *;
      SplitNamespaces(nss, ns, db);
      assert forall i :: 0 <= i < |nss[1..]| ==> nss[1..][i] == nss[i + 1];
      ProjectNoDb(nss[0].databases, nss[0].name, ns, db);
      ProjectNoNamespace(nss[1..], ns, db);
    }
  }

  lemma {:induction false} ProjectNamespace(nss: seq<NamespaceSnapshot>, i: nat, db: string)
    requires DistinctNamespaces(nss) && i < |nss|
    ensures Project(FlattenNamespaces(nss), nss[i].name, db)
         == Project(FlattenDbs(nss[i].name, nss[i].databases), nss[i].name, db)
    decreases |nss|
  {
    hide Project, FlattenDbs, FlattenNamespaces;
    var ns := nss[i].name;
    SplitNamespaces(nss, ns, db);
    assert forall j :: 0 <= j < |nss[1..]| ==> nss[1..][j] == nss[j + 1];
    var first := Project(FlattenDbs(nss[0].name, nss[0].databases), ns, db);
    if i == 0 {
      ProjectNoNamespace(nss[1..], ns, db);
      assert first + [] == first;
    } else {
      ProjectNoDb(nss[0].databases, nss[0].name, ns, db);
      ProjectNamespace(nss[1..], i - 1, db);
    }
  }

  /** Each database's part of a snapshot is the log's subsequence for it, in order. */
  lemma SnapshotProjects(s: DatabaseSnapshot, log: seq<Change>, ns: string, db: string)
    requires IsSnapshotOf(s, log)
    ensures Project(Flatten(s), ns, db) == Project(Writes(log), ns, db)
  {
    var groups: Groups :| IsGrouped(groups, log) && ListsNamespaces(s.namespaces, groups);
    ProjectWrites(log, ns, db);
    hide Project, EntriesOf, Tagged, Writes;
    assert GroupAt(groups, ns, db) == EntriesOf(log, ns, db);
    GroupsProject(s.namespaces, groups, ns, db);
    assert Flatten(s) == FlattenNamespaces(s.namespaces);
  }

  lemma GroupsProject(nss: seq<NamespaceSnapshot>, groups: Groups, ns: string, db: string)
    requires ListsNamespaces(nss, groups)
    ensures Project(FlattenNamespaces(nss), ns, db) == Tagged(ns, db, GroupAt(groups, ns, db))
  {
    hide Project, FlattenNamespaces, ListsDbs;
    assert Tagged(ns, db, []) == [];
    if ns in groups {
      var i :| 0 <= i < |nss| && nss[i].name == ns;
      ProjectNamespace(nss, i, db);
      DbsProject(nss[i].databases, groups[ns], ns, db);
    } else {
      ProjectNoNamespace(nss, ns, db);
    }
  }

  lemma DbsProject(dbs: seq<DbSnapshot>, groups: map<string, seq<KeyValueEntry>>, ns: string, db: string)
    requires ListsDbs(dbs, groups)
    ensures Project(FlattenDbs(ns, dbs), ns, db) == Tagged(ns, db, if db in groups then groups[db] else [])
  {
    hide Project, FlattenDbs;
    assert Tagged(ns, db, []) == [];
    if db in groups {
      var j :| 0 <= j < |dbs| && dbs[j].name == db;
      ProjectDb(dbs, ns, j);
    } else {
      ProjectNoDb(dbs, ns, ns, db);
    }
  }

  function Lookup(kv: Store, at: (string, string, Bytes)): Option<Bytes> {
    if at in kv then Some(kv[at]) else None
  }

  lemma ReplayLast(ws: seq<Write>, w: Write)
    ensures Replay(ws + [w]) == Apply(Replay(ws), w)
  {
    hide Apply;
    assert (ws + [w])[..|ws|] == ws;
  }

  lemma ApplyIsLocal(kv: Store, kv': Store, w: Write, ns: string, db: string, k: Bytes)
    requires Lookup(kv, (ns, db, k)) == Lookup(kv', (ns, db, k))
    ensures Lookup(Apply(kv, w), (ns, db, k)) == Lookup(Apply(kv', w), (ns, db, k))
    ensures !(w.ns == ns && w.db == db) ==> Lookup(Apply(kv, w), (ns, db, k)) == Lookup(kv, (ns, db, k))
  {
  }

  /** What a replay leaves under a key is decided by the writes to the key's database alone. */
  lemma {:induction false} ReplayIsLocal(ws: seq<Write>, ns: string, db: string, k: Bytes)
    ensures Lookup(Replay(ws), (ns, db, k)) == Lookup(Replay(Project(ws, ns, db)), (ns, db, k))
    decreases |ws|
  {
    hide *;
    if ws == [] {
      ProjectNothing(ns, db);
    } else {
      ReplayIsLocal(ws[..|ws| - 1], ns, db, k);
      LocalStep(ws[..|ws| - 1], ws[|ws| - 1], ns, db, k);
      assert ws == ws[..|ws| - 1] + [ws[|ws| - 1]];
    }
  }

  lemma LocalStep(ws: seq<Write>, w: Write, ns: string, db: string, k: Bytes)
    requires Lookup(Replay(ws), (ns, db, k)) == Lookup(Replay(Project(ws, ns, db)), (ns, db, k))
    ensures Lookup(Replay(ws + [w]), (ns, db, k)) == Lookup(Replay(Project(ws + [w], ns, db)), (ns, db, k))
  {
    hide *;
    var p := Project(ws, ns, db);
    ReplayLast(ws, w);
    ReplayLast(p, w);
    ProjectLast(ws, w, ns, db);
    ApplyIsLocal(Replay(ws), Replay(p), w, ns, db, k);
    assert p + [] == p;
  }

  ghost predicate SameProjections(a: seq<Write>, b: seq<Write>) {
    forall ns, db :: Project(a, ns, db) == Project(b, ns, db)
  }

  /** Write sequences that agree database by database replay to the same store, however they interleave. */
  lemma InterleavingIsIrrelevant(a: seq<Write>, b: seq<Write>)
    requires SameProjections(a, b)
    ensures Replay(a) == Replay(b)
  {
    forall at: (string, string, Bytes)
      ensures Lookup(Replay(a), at) == Lookup(Replay(b), at)
    {
      var (ns, db, k) := at;
      ReplayIsLocal(a, ns, db, k);
      ReplayIsLocal(b, ns, db, k);
      assert Project(a, ns, db) == Project(b, ns, db);
    }
    assert forall at: (string, string, Bytes) :: at in Replay(a) <==> Lookup(Replay(a), at).Some?;
    assert forall at: (string, string, Bytes) :: at in Replay(b) <==> Lookup(Replay(b), at).Some?;
    assert forall at :: at in Replay(a) ==> Lookup(Replay(a), at) == Some(Replay(a)[at]);
    assert forall at :: at in Replay(b) ==> Lookup(Replay(b), at) == Some(Replay(b)[at]);
  }

  lemma {:induction false} ReplayOfWrites(log: seq<Change>)
    requires forall c :: c in log ==> WellShaped(c)
    ensures Replay(Writes(log)) == ReplayLog(log)
    decreases |log|
  {
    if log != [] {
      ReplayOfWrites(log[..|log| - 1]);
      assert Writes(log)[..|Writes(log)| - 1] == Writes(log[..|log| - 1]);
      assert WellShaped(log[|log| - 1]);
    }
  }

  /** Replaying a snapshot, in whatever order its databases come, gives the log's own state. */
  lemma SnapshotPreservesMeaning(s: DatabaseSnapshot, log: seq<Change>)
    requires IsSnapshotOf(s, log) && forall c :: c in log ==> WellShaped(c)
    ensures Replay(Flatten(s)) == ReplayLog(log)
  {
    forall ns, db
      ensures Project(Flatten(s), ns, db) == Project(Writes(log), ns, db)
    {
      SnapshotProjects(s, log, ns, db);
    }
    InterleavingIsIrrelevant(Flatten(s), Writes(log));
    ReplayOfWrites(log);
  }

  /** A set of the change's key to another value than the change's own. */
  function Foil(c: Change): Change
    requires c.key.Some?
  {
    Change(0, 0, c.namespace, c.database, None, SetKey, c.key, Some(if c.value == Some([]) then [0] else []), map[])
  }

  lemma ReplayTwo(p: Change, c: Change)
    ensures Replay(Writes([p, c])) == Apply(Apply(map[], WriteOf(p)), WriteOf(c))
    ensures ReplayLog([p, c]) == ApplyChange(ApplyChange(map[], p), c)
  {
    hide Apply, ApplyChange, WriteOf;
    assert [p, c][..1] == [p] && [p][..0] == [];
    assert Writes([p]) == Writes([]) + [WriteOf(p)] && Writes([]) + [WriteOf(p)] == [WriteOf(p)];
    assert Writes([p, c]) == [WriteOf(p)] + [WriteOf(c)];
    ReplayLast([WriteOf(p)], WriteOf(c));
    ReplayLast([], WriteOf(p));
    assert [] + [WriteOf(p)] == [WriteOf(p)];
    assert ReplayLog([p]) == ApplyChange(ReplayLog([]), p);
  }

  ghost predicate KeepsMeaning(log: seq<Change>) {
    Replay(Writes(log)) == ReplayLog(log)
  }

  /**
   The shape is exactly what a snapshot's meaning needs of a change: behind every well-shaped log
   it keeps the meaning, or behind one of them it does not.
   */
  lemma MeaningNeedsShape(c: Change)
    ensures WellShaped(c) <==>
            forall log: seq<Change> :: (forall x :: x in log ==> WellShaped(x)) ==> KeepsMeaning(log + [c])
  {
    if WellShaped(c) {
      forall log: seq<Change> | forall x :: x in log ==> WellShaped(x)
        ensures KeepsMeaning(log + [c])
      {
        ReplayOfWrites(log + [c]);
      }
    } else {
      var p := Foil(c);
      ReplayTwo(p, c);
      FoilTells(c);
      hide Replay, ReplayLog, Writes, Apply, ApplyChange;
      assert [p] + [c] == [p, c];
      assert !KeepsMeaning([p] + [c]);
      assert WellShaped(p) && forall x :: x in [p] ==> x == p;
    }
  }

  lemma FoilTells(c: Change)
    requires !WellShaped(c)
    ensures Apply(Apply(map[], WriteOf(Foil(c))), WriteOf(c)) != ApplyChange(ApplyChange(map[], Foil(c)), c)
  {
    var at := (c.namespace, c.database, c.key.value);
    var before: Store := map[at := Foil(c).value.value];
    assert Apply(map[], WriteOf(Foil(c))) == before && ApplyChange(map[], Foil(c)) == before;
    assert Lookup(Apply(before, WriteOf(c)), at) == c.value;
    assert Lookup(ApplyChange(before, c), at)
        == if c.operation == SetKey && c.value.Some? then c.value
           else if c.operation == DeleteKey then None else Foil(c).value;
  }

  lemma {:induction false} CountInProjection(ws: seq<Write>, w: Write)
    ensures multiset(ws)[w] == multiset(Project(ws, w.ns, w.db))[w]
    decreases |ws|
  {
    hide *;
    if ws == [] {
      ProjectNothing(w.ns, w.db);
    } else {
      var before, last := ws[..|ws| - 1], ws[|ws| - 1];
      assert ws == before + [last];
      CountInProjection(before, w);
      ProjectLast(before, last, w.ns, w.db);
      CountLast(before, last, w);
      CountLast(Project(before, w.ns, w.db), last, w);
    }
  }

  lemma CountLast(before: seq<Write>, last: Write, w: Write)
    ensures multiset(before + [last])[w] == multiset(before)[w] + (if last == w then 1 else 0)
    ensures multiset(before + [])[w] == multiset(before)[w]
  {
    assert before + [] == before;
  }

  /** Nothing is lost or invented: `total_entries` is the number of changes. */
  lemma SnapshotCountsChanges(s: DatabaseSnapshot, log: seq<Change>)
    requires IsSnapshotOf(s, log)
    ensures multiset(Flatten(s)) == multiset(Writes(log))
    ensures TotalEntries(s) == |log|
  {
    hide *;
    forall w: Write
      ensures multiset(Flatten(s))[w] == multiset(Writes(log))[w]
    {
      SnapshotProjects(s, log, w.ns, w.db);
      CountInProjection(Flatten(s), w);
      CountInProjection(Writes(log), w);
    }
    assert |multiset(Flatten(s))| == |Flatten(s)| && |multiset(Writes(log))| == |Writes(log)|;
    WritesLength(log);
  }

  lemma {:induction false} WritesLength(log: seq<Change>)
    ensures |Writes(log)| == |log|
    decreases |log|
  {
    if log != [] {
      WritesLength(log[..|log| - 1]);
    }
  }

  // ---------- chunks ----------

  datatype SnapshotChunk = SnapshotChunk(sequence: nat, total: nat, data: Bytes, isLast: bool)

  /** `data.chunks(n)`. */
  function Pieces(data: Bytes, n: nat): (ps: seq<Bytes>)
    requires n > 0
    ensures forall i :: 0 <= i < |ps| ==> 0 < |ps[i]| <= n
    ensures data != [] <==> ps != []
  {
    if data == [] then []
    else if |data| <= n then [data]
    else [data[..n]] + Pieces(data[n..], n)
  }

  function Join(ps: seq<Bytes>): Bytes {
    if ps == [] then [] else ps[0] + Join(ps[1..])
  }

  lemma JoinFirst(p: Bytes, ps: seq<Bytes>)
    ensures Join([p] + ps) == p + Join(ps)
  {
    assert ([p] + ps)[1..] == ps;
  }

  lemma PiecesCases(data: Bytes, n: nat)
    requires n > 0
    ensures data == [] ==> Pieces(data, n) == [] && Join([]) == []
    ensures 0 < |data| <= n ==> Pieces(data, n) == [data]
    ensures |data| > n ==> Pieces(data, n) == [data[..n]] + Pieces(data[n..], n)
  {
  }

  lemma {:induction false} PiecesJoin(data: Bytes, n: nat)
    requires n > 0
    ensures Join(Pieces(data, n)) == data
    ensures |Pieces(data, n)| == (|data| + n - 1) / n
    decreases |data|
  {
    hide *;
    PiecesCases(data, n);
    if data == [] {
      Arithmetic.DivideBelow(n - 1, n);
    } else {
      Arithmetic.DivideStep(|data| - 1, n);
      if |data| <= n {
        Arithmetic.DivideBelow(|data| - 1, n);
        JoinFirst(data, []);
        PiecesCases([], n);
        assert [data] + [] == [data] && data + [] == data;
      } else {
        PiecesJoin(data[n..], n);
        JoinFirst(data[..n], Pieces(data[n..], n));
        Sequences.Halves(data, n);
      }
    }
  }

  /** `export`, from the serialized snapshot on; a chunk size of zero divides by zero in the source. */
  function ExportChunks(data: Bytes, n: nat): (cs: seq<SnapshotChunk>)
    requires n > 0
    ensures |cs| == |Pieces(data, n)|
  {
    var total := (|data| + n - 1) / n;
    seq(|Pieces(data, n)|, i requires 0 <= i < |Pieces(data, n)| =>
      SnapshotChunk(i, total, Pieces(data, n)[i], i == total - 1))
  }

  // ---------- reassembly ----------

  datatype ImporterState = ImporterState(received: seq<Bytes>, total: Option<nat>)

  /** `import_chunk`: the first chunk's own sequence is not checked against its total. */
  function Import(s: ImporterState, c: SnapshotChunk): (ImporterState, bool) {
    if s.total.Some? && c.sequence >= s.total.value then (s, false)
    else
      var grown :=
        if c.sequence >= |s.received| then s.received + seq(c.sequence + 1 - |s.received|, _ => []) else s.received;
      (ImporterState(grown[c.sequence := c.data], Some(if s.total.Some? then s.total.value else c.total)), true)
  }

  const EMPTY := ImporterState([], None)

  function ImportAll(s: ImporterState, cs: seq<SnapshotChunk>): (ImporterState, bool) {
    if cs == [] then (s, true)
    else
      var (t, ok) := ImportAll(s, cs[..|cs| - 1]);
      var (u, ok') := Import(t, cs[|cs| - 1]);
      (u, ok && ok')
  }

  predicate IsComplete(s: ImporterState) {
    s.total.Some? && forall i :: 0 <= i < |s.received| && i < s.total.value ==> s.received[i] != []
  }

  /** The total that the importer goes by: what the first chunk said. */
  function Announced(cs: seq<SnapshotChunk>): Option<nat> {
    if cs == [] then None else Some(cs[0].total)
  }

  /** Chunk i of a delivery is refused: its number is beyond the announced total, and it is not the first. */
  predicate Refused(cs: seq<SnapshotChunk>, i: nat)
    requires i < |cs|
  {
    i > 0 && cs[i].sequence >= cs[0].total
  }

  /** Chunk i is the last one accepted for its number. */
  ghost predicate Stands(cs: seq<SnapshotChunk>, i: nat) {
    && i < |cs| && !Refused(cs, i)
    && forall j: nat :: i < j < |cs| && !Refused(cs, j) ==> cs[j].sequence != cs[i].sequence
  }

  /** What is filled in: for each number up to the largest accepted one the chunk that stands, or nothing. */
  ghost predicate FilledBy(received: seq<Bytes>, cs: seq<SnapshotChunk>) {
    && (forall i: nat :: Stands(cs, i) ==> cs[i].sequence < |received| && received[cs[i].sequence] == cs[i].data)
    && (forall d :: 0 <= d < |received| && received[d] != [] ==> exists i: nat :: Stands(cs, i) && cs[i].sequence == d)
    && (received != [] ==> exists i: nat :: Stands(cs, i) && cs[i].sequence == |received| - 1)
  }

  lemma RefusedBefore(cs: seq<SnapshotChunk>, c: SnapshotChunk, i: nat)
    requires i < |cs|
    ensures Refused(cs + [c], i) <==> Refused(cs, i)
  {
  }

  lemma StandsBefore(cs: seq<SnapshotChunk>, c: SnapshotChunk, i: nat)
    requires i < |cs|
    ensures Stands(cs + [c], i)
            <==> Stands(cs, i) && (Refused(cs + [c], |cs|) || cs[i].sequence != c.sequence)
  {
    hide Refused;
    forall j: nat | j < |cs|
      ensures Refused(cs + [c], j) <==> Refused(cs, j)
    {
      RefusedBefore(cs, c, j);
    }
  }

  lemma RefusedFillsNothing(received: seq<Bytes>, cs: seq<SnapshotChunk>, c: SnapshotChunk)
    requires FilledBy(received, cs) && Refused(cs + [c], |cs|)
    ensures FilledBy(received, cs + [c])
  {
    hide Refused;
    forall i: nat | i < |cs|
      ensures Stands(cs + [c], i) <==> Stands(cs, i)
    {
      StandsBefore(cs, c, i);
    }
    hide Stands;
  }

  lemma AcceptedFills(received: seq<Bytes>, cs: seq<SnapshotChunk>, c: SnapshotChunk, filled: seq<Bytes>)
    requires FilledBy(received, cs) && !Refused(cs + [c], |cs|)
    requires |filled| == Max(|received|, c.sequence + 1) && filled[c.sequence] == c.data
    requires forall d :: 0 <= d < |filled| && d != c.sequence ==>
               filled[d] == if d < |received| then received[d] else []
    ensures FilledBy(filled, cs + [c])
  {
    var more := cs + [c];
    assert Stands(more, |cs|) && more[|cs|] == c;
    hide Refused;
    forall i: nat | i < |cs|
      ensures Stands(more, i) <==> Stands(cs, i) && cs[i].sequence != c.sequence
      ensures more[i] == cs[i]
    {
      StandsBefore(cs, c, i);
    }
    StandsInside(more);
    StandsInside(cs);
    hide Stands;
    forall d | 0 <= d < |filled| && filled[d] != []
      ensures exists i: nat :: Stands(more, i) && more[i].sequence == d
    {
      if d != c.sequence {
        var i: nat :| Stands(cs, i) && cs[i].sequence == d;
        assert Stands(more, i);
      }
    }
    if |filled| > c.sequence + 1 {
      var i: nat :| Stands(cs, i) && cs[i].sequence == |received| - 1;
      assert Stands(more, i);
    }
  }

  lemma StandsInside(cs: seq<SnapshotChunk>)
    ensures forall i: nat :: Stands(cs, i) ==> i < |cs|
  {
  }

  lemma ImportLast(s: ImporterState, cs: seq<SnapshotChunk>, c: SnapshotChunk)
    ensures var (t, ok) := ImportAll(s, cs);
            var (u, ok') := Import(t, c);
            ImportAll(s, cs + [c]) == (u, ok && ok')
  {
    hide Import;
    assert (cs + [c])[..|cs|] == cs;
  }

  lemma {:induction false} ImportIsExact(cs: seq<SnapshotChunk>)
    ensures var (s, ok) := ImportAll(EMPTY, cs);
            && s.total == Announced(cs) && FilledBy(s.received, cs)
            && (ok <==> forall i: nat :: i < |cs| ==> !Refused(cs, i))
    decreases |cs|
  {
    if cs != [] {
      var before, c := cs[..|cs| - 1], cs[|cs| - 1];
      assert cs == before + [c];
      ImportIsExact(before);
      ImportLast(EMPTY, before, c);
      ImportNext(ImportAll(EMPTY, before).0, before, c);
      RefusedSoFar(before, c);
      hide ImportAll, Import, FilledBy, Refused;
    }
  }

  lemma RefusedSoFar(cs: seq<SnapshotChunk>, c: SnapshotChunk)
    ensures (forall i: nat :: i < |cs| + 1 ==> !Refused(cs + [c], i))
            <==> (forall i: nat :: i < |cs| ==> !Refused(cs, i)) && !Refused(cs + [c], |cs|)
  {
    hide Refused;
    forall i: nat | i < |cs|
      ensures Refused(cs + [c], i) <==> Refused(cs, i)
    {
      RefusedBefore(cs, c, i);
    }
  }

  lemma ImportNext(s: ImporterState, before: seq<SnapshotChunk>, c: SnapshotChunk)
    requires s.total == Announced(before) && FilledBy(s.received, before)
    ensures var (t, ok) := Import(s, c);
            && (ok <==> !Refused(before + [c], |before|))
            && t.total == Announced(before + [c]) && FilledBy(t.received, before + [c])
  {
    hide FilledBy;
    if Refused(before + [c], |before|) {
      RefusedFillsNothing(s.received, before, c);
    } else {
      AcceptedFills(s.received, before, c, Import(s, c).0.received);
    }
  }

  datatype ImportError = Incomplete | InvalidData

  function FinalizeBytes(s: ImporterState): Result<Bytes, ImportError> {
    if IsComplete(s) then Ok(Join(s.received)) else Err(Incomplete)
  }

  function Finalized(codec: Codec<DatabaseSnapshot>, s: ImporterState): Result<DatabaseSnapshot, ImportError> {
    match FinalizeBytes(s)
    case Err(e) => Err(e)
    case Ok(bytes) => match codec.decode(bytes) case None => Err(InvalidData) case Some(v) => Ok(v)
  }

  /** Number d lies below the announced total and below some accepted number, and no bytes stand for it. */
  ghost predicate Missing(cs: seq<SnapshotChunk>, d: nat)
    requires cs != []
  {
    && d < cs[0].total
    && (exists i: nat :: Stands(cs, i) && d <= cs[i].sequence)
    && forall i: nat :: Stands(cs, i) && cs[i].sequence == d ==> cs[i].data == []
  }

  lemma EmptyMeansMissing(received: seq<Bytes>, cs: seq<SnapshotChunk>, d: nat)
    requires FilledBy(received, cs) && cs != []
    ensures d < |received| && received[d] == [] && d < cs[0].total <==> Missing(cs, d)
  {
    hide Refused;
    StandsInside(cs);
    hide Stands;
    if d < |received| && received[d] == [] {
      var i: nat :| Stands(cs, i) && cs[i].sequence == |received| - 1;
      assert d <= cs[i].sequence;
    }
  }

  /**
   What finalizing any delivery yields: an error if nothing came or a number is missing, another if
   the joined bytes do not decode, and else what they decode to.
   */
  lemma FinalizeOutcome(codec: Codec<DatabaseSnapshot>, cs: seq<SnapshotChunk>)
    ensures var s := ImportAll(EMPTY, cs).0;
            var r := Finalized(codec, s);
            && (r == Err(Incomplete) <==> cs == [] || exists d: nat :: Missing(cs, d))
            && (r != Err(Incomplete) ==>
                  r == match codec.decode(Join(s.received)) case None => Err(InvalidData) case Some(v) => Ok(v))
  {
    var s := ImportAll(EMPTY, cs).0;
    ImportIsExact(cs);
    hide ImportAll, FilledBy, Missing, Refused, Join;
    if cs != [] {
      forall d: nat
        ensures d < |s.received| && s.received[d] == [] && d < cs[0].total <==> Missing(cs, d)
      {
        EmptyMeansMissing(s.received, cs, d);
      }
    }
  }

  /** Every delivered number is the number of some chunk. */
  ghost predicate InRange(order: seq<nat>, count: nat) {
    forall i :: 0 <= i < |order| ==> order[i] < count
  }

  /** The deliveries that an order of sequence numbers stands for; a number may come twice or never. */
  ghost function Picked(cs: seq<SnapshotChunk>, order: seq<nat>): (r: seq<SnapshotChunk>)
    requires InRange(order, |cs|)
    ensures |r| == |order|
  {
    seq(|order|, i requires 0 <= i < |order| => cs[order[i]])
  }

  /** Where the importer stands after chunks came in some order, some perhaps twice. */
  ghost predicate HasReceived(s: ImporterState, pieces: seq<Bytes>, order: seq<nat>) {
    && (order == [] ==> s == EMPTY)
    && (order != [] ==> s.total == Some(|pieces|))
    && |s.received| <= |pieces|
    && (forall i :: 0 <= i < |s.received| ==> s.received[i] == if i in order then pieces[i] else [])
    && (forall d :: d in order ==> d < |s.received|)
    && (s.received != [] ==> |s.received| - 1 in order)
  }

  lemma ChunkAt(data: Bytes, n: nat, d: nat)
    requires n > 0 && d < |Pieces(data, n)|
    ensures |ExportChunks(data, n)| == |Pieces(data, n)|
    ensures var c := ExportChunks(data, n)[d];
            && c.sequence == d && c.total == |Pieces(data, n)| && c.data == Pieces(data, n)[d]
            && (c.isLast <==> d == |Pieces(data, n)| - 1)
  {
    PiecesJoin(data, n);
  }

  lemma PickLast(cs: seq<SnapshotChunk>, before: seq<nat>, d: nat)
    requires InRange(before, |cs|) && d < |cs|
    ensures InRange(before + [d], |cs|)
    ensures Picked(cs, before + [d]) == Picked(cs, before) + [cs[d]]
  {
  }

  lemma {:induction false} ImportAnyOrder(data: Bytes, n: nat, order: seq<nat>)
    requires n > 0 && InRange(order, |Pieces(data, n)|)
    ensures var (s, ok) := ImportAll(EMPTY, Picked(ExportChunks(data, n), order));
            ok && HasReceived(s, Pieces(data, n), order)
    decreases |order|
  {
    if order != [] {
      var before, d := order[..|order| - 1], order[|order| - 1];
      assert order == before + [d];
      hide Pieces, ExportChunks, Picked, ImportAll, Import, HasReceived;
      var cs := ExportChunks(data, n);
      ImportAnyOrder(data, n, before);
      ChunkAt(data, n, d);
      PickLast(cs, before, d);
      ImportLast(EMPTY, Picked(cs, before), cs[d]);
      ImportOne(ImportAll(EMPTY, Picked(cs, before)).0, Pieces(data, n), before, cs[d]);
    }
  }

  lemma ImportOne(s: ImporterState, pieces: seq<Bytes>, before: seq<nat>, c: SnapshotChunk)
    requires HasReceived(s, pieces, before)
    requires c.sequence < |pieces| && c.total == |pieces| && c.data == pieces[c.sequence]
    ensures var (t, ok) := Import(s, c);
            ok && HasReceived(t, pieces, before + [c.sequence])
  {
  }

  /** The delivered sequence numbers are exactly 0 to some m. */
  ghost predicate IsInitialSegment(order: seq<nat>) {
    order != [] && forall d, i: nat :: d in order && i < d ==> i in order
  }

  /** What the importer's completeness means, given what it has received. */
  lemma CompleteState(s: ImporterState, pieces: seq<Bytes>, order: seq<nat>)
    requires HasReceived(s, pieces, order) && InRange(order, |pieces|)
    requires forall i :: 0 <= i < |pieces| ==> pieces[i] != []
    ensures IsComplete(s) <==> IsInitialSegment(order)
    ensures pieces != [] ==>
              (IsComplete(s) && |pieces| - 1 in order <==> forall i: nat :: i < |pieces| ==> i in order)
  {
    if order != [] {
      assert order[0] in order;
      if IsComplete(s) {
        forall i: nat | i < |s.received|
          ensures i in order
        {
          assert s.received[i] != [];
        }
      }
    } else if pieces != [] {
      assert 0 !in order && 0 < |pieces|;
    }
  }

  /**
   `is_complete` does not mean that every chunk is in: it is true exactly when the sequence
   numbers seen so far have no hole, and so means "all in" once the last chunk has come.
   */
  lemma CompleteMeansNoHole(data: Bytes, n: nat, order: seq<nat>)
    requires n > 0 && InRange(order, |Pieces(data, n)|)
    ensures var s := ImportAll(EMPTY, Picked(ExportChunks(data, n), order)).0;
            && (IsComplete(s) <==> IsInitialSegment(order))
            && (data != [] ==>
                  (IsComplete(s) && |Pieces(data, n)| - 1 in order
                   <==> forall i: nat :: i < |Pieces(data, n)| ==> i in order))
  {
    hide *;
    ImportAnyOrder(data, n, order);
    PiecesNotEmpty(data, n);
    CompleteState(ImportAll(EMPTY, Picked(ExportChunks(data, n), order)).0, Pieces(data, n), order);
  }

  lemma PiecesNotEmpty(data: Bytes, n: nat)
    requires n > 0
    ensures forall i :: 0 <= i < |Pieces(data, n)| ==> Pieces(data, n)[i] != []
    ensures data != [] <==> Pieces(data, n) != []
  {
  }

  /** And what finalizing it yields. */
  lemma FinalizedState(s: ImporterState, pieces: seq<Bytes>, order: seq<nat>)
    requires HasReceived(s, pieces, order) && InRange(order, |pieces|) && pieces != []
    requires forall i :: 0 <= i < |pieces| ==> pieces[i] != []
    ensures FinalizeBytes(s) == Ok(Join(pieces)) <==> forall i: nat :: i < |pieces| ==> i in order
  {
    CompleteState(s, pieces, order);
    hide Join;
    if IsComplete(s) {
      assert s.received == pieces[..|s.received|];
      if |s.received| < |pieces| {
        ShorterJoin(pieces, |s.received|);
        assert |pieces| - 1 !in order;
      } else {
        assert s.received == pieces;
      }
    }
  }

  /**
   Whatever the order and the repetitions, the importer returns the original bytes if and only
   if every chunk has been delivered.
   */
  lemma ReassemblyIsOrderFree(data: Bytes, n: nat, order: seq<nat>)
    requires data != [] && n > 0 && InRange(order, |Pieces(data, n)|)
    ensures var s := ImportAll(EMPTY, Picked(ExportChunks(data, n), order)).0;
            FinalizeBytes(s) == Ok(data) <==> forall i: nat :: i < |Pieces(data, n)| ==> i in order
  {
    hide *;
    ImportAnyOrder(data, n, order);
    PiecesJoin(data, n);
    PiecesNotEmpty(data, n);
    FinalizedState(ImportAll(EMPTY, Picked(ExportChunks(data, n), order)).0, Pieces(data, n), order);
  }

  lemma {:induction false} ShorterJoin(ps: seq<Bytes>, m: nat)
    requires m < |ps| && forall i :: 0 <= i < |ps| ==> ps[i] != []
    ensures |Join(ps[..m])| < |Join(ps)|
    decreases m
  {
    if m > 0 {
      ShorterJoin(ps[1..], m - 1);
      assert ps[..m][1..] == ps[1..][..m - 1];
    }
  }

  /** The first of several chunks alone already counts as complete, and its bytes are not the snapshot's. */
  lemma PrematureCompletion(data: Bytes, n: nat)
    requires 0 < n < |data|
    ensures var s := ImportAll(EMPTY, Picked(ExportChunks(data, n), [0])).0;
            IsComplete(s) && FinalizeBytes(s).Ok? && FinalizeBytes(s).value != data
  {
    assert |Pieces(data, n)| == 1 + |Pieces(data[n..], n)|;
    var order: seq<nat> := [0];
    assert 0 in order && 1 !in order;
    assert IsInitialSegment(order);
    CompleteMeansNoHole(data, n, order);
    ReassemblyIsOrderFree(data, n, order);
    hide Pieces, Join, ImportAll, Picked, ExportChunks, IsInitialSegment;
  }

  class SnapshotImporter {
    var receivedChunks: seq<Bytes>
    var totalChunks: Option<nat>

    ghost function State(): ImporterState
      reads this
    {
      ImporterState(receivedChunks, totalChunks)
    }

    constructor ()
      ensures State() == EMPTY
    {
      receivedChunks := [];
      totalChunks := None;
    }

    method ImportChunk(chunk: SnapshotChunk) returns (ok: bool)
      modifies this
      ensures (State(), ok) == Import(old(State()), chunk)
    {
      match totalChunks {
        case Some(t) =>
          if chunk.sequence >= t {
            return false;
          }
        case None =>
          totalChunks := Some(chunk.total);
      }
      var idx := chunk.sequence;
      if idx >= |receivedChunks| {
        receivedChunks := receivedChunks + seq(idx + 1 - |receivedChunks|, _ => []);
      }
      receivedChunks := receivedChunks[idx := chunk.data];
      ok := true;
    }

    method Finalize(codec: Codec<DatabaseSnapshot>) returns (r: Result<DatabaseSnapshot, ImportError>)
      ensures r == Finalized(codec, State())
    {
      if !IsComplete(ImporterState(receivedChunks, totalChunks)) {
        return Err(Incomplete);
      }
      var data: Bytes := [];
      var i := 0;
      assert receivedChunks[i..] == receivedChunks;
      while i < |receivedChunks|
        invariant 0 <= i <= |receivedChunks|
        invariant data + Join(receivedChunks[i..]) == Join(receivedChunks)
      {
        assert receivedChunks[i..][1..] == receivedChunks[i + 1..];
        data := data + receivedChunks[i];
        i := i + 1;
      }
      assert data == Join(receivedChunks);
      match codec.decode(data) {
        case None => r := Err(InvalidData);
        case Some(s) => r := Ok(s);
      }
    }

    method Reset()
      modifies this
      ensures State() == EMPTY
    {
      receivedChunks := [];
      totalChunks := None;
    }
  }

  /** `export`: build the snapshot, serialize it, cut it into chunks. */
  method Export(serializer: SnapshotSerializer, codec: Codec<DatabaseSnapshot>, chunkSize: nat)
    returns (s: DatabaseSnapshot, chunks: seq<SnapshotChunk>)
    requires chunkSize > 0
    modifies serializer
    ensures serializer.pending == []
    ensures IsSnapshotOf(s, old(serializer.pending))
    ensures chunks == ExportChunks(codec.encode(s), chunkSize)
  {
    hide *;
    s := serializer.BuildSnapshot();
    chunks := ExportChunks(codec.encode(s), chunkSize);
  }

  /** A receiver that imports chunks as they come, then finalizes. */
  method Receive(codec: Codec<DatabaseSnapshot>, chunks: seq<SnapshotChunk>)
    returns (r: Result<DatabaseSnapshot, ImportError>)
    ensures r == Received(codec, chunks)
  {
    hide Import, FinalizeBytes, ImportAll;
    var importer := new SnapshotImporter();
    var i := 0;
    assert chunks[..i] == [];
    ImportNone(EMPTY);
    while i < |chunks|
      invariant 0 <= i <= |chunks|
      invariant importer.State() == ImportAll(EMPTY, chunks[..i]).0
    {
      ImportLast(EMPTY, chunks[..i], chunks[i]);
      assert chunks[..i + 1] == chunks[..i] + [chunks[i]];
      var _ := importer.ImportChunk(chunks[i]);
      i := i + 1;
    }
    assert chunks[..i] == chunks;
    r := importer.Finalize(codec);
  }

  lemma ImportNone(s: ImporterState)
    ensures ImportAll(s, []) == (s, true)
  {
  }

  ghost function Received(codec: Codec<DatabaseSnapshot>, chunks: seq<SnapshotChunk>)
    : Result<DatabaseSnapshot, ImportError>
  {
    Finalized(codec, ImportAll(EMPTY, chunks).0)
  }

  /**
   What is exported from a log and delivered in full, in any order and with any repetitions,
   is received as a snapshot whose replay is the log's own state.
   */
  lemma TransferPreservesMeaning(log: seq<Change>, s: DatabaseSnapshot, codec: Codec<DatabaseSnapshot>, n: nat,
                                 order: seq<nat>)
    requires IsSnapshotOf(s, log) && forall c :: c in log ==> WellShaped(c)
    requires Lossless(codec) && n > 0
    requires InRange(order, |ExportChunks(codec.encode(s), n)|)
    requires forall i: nat :: i < |ExportChunks(codec.encode(s), n)| ==> i in order
    ensures var r := Received(codec, Picked(ExportChunks(codec.encode(s), n), order));
            r.Ok? && Replay(Flatten(r.value)) == ReplayLog(log) && TotalEntries(r.value) == |log|
  {
    hide IsSnapshotOf, ImportAll, Pieces, Picked, WellShaped, Replay, Flatten, ReplayLog, TotalEntries, FinalizeBytes;
    ReassemblyIsOrderFree(codec.encode(s), n, order);
    SnapshotPreservesMeaning(s, log);
    SnapshotCountsChanges(s, log);
  }
}
