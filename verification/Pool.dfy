/**
 The connection pool (src/pool.rs). The map is locked per step, and `get_connection` awaits a new
 connection between its lookup and its insert, so callers interleave there.
 */
module Pool {
  import opened Changes
  import Sequences

  /** A connection knows its peer; `id` tells two connections to one peer apart. */
  datatype Connection = Connection(peer: string, id: nat)

  datatype PooledConnection = PooledConnection(
    connection: Connection,
    createdAt: nat,
    lastUsed: nat,
    useCount: nat,
    inUse: bool,
    markedClosed: bool)

  /** `maxUses` of zero means unlimited. */
  datatype PoolConfig = PoolConfig(maxConnections: nat, maxAge: nat, maxIdle: nat, maxUses: nat)

  type Connections = map<string, PooledConnection>

  function New(connection: Connection, now: nat): PooledConnection {
    PooledConnection(connection, now, now, 0, false, false)
  }

  function MarkUsed(p: PooledConnection, now: nat): PooledConnection {
    p.(lastUsed := now, useCount := p.useCount + 1, inUse := true)
  }

  predicate Healthy(config: PoolConfig, p: PooledConnection, now: nat) {
    && !p.markedClosed
    && now - p.createdAt <= config.maxAge
    && now - p.lastUsed <= config.maxIdle
    && (config.maxUses > 0 ==> p.useCount < config.maxUses)
  }

  predicate Reusable(config: PoolConfig, pool: Connections, peer: string, now: nat) {
    peer in pool && !pool[peer].inUse && Healthy(config, pool[peer], now)
  }

  predicate HasUnused(pool: Connections) {
    exists k :: k in pool && !pool[k].inUse
  }

  predicate OldestUnused(pool: Connections, k: string) {
    k in pool && !pool[k].inUse
    && forall j :: j in pool && !pool[j].inUse ==> pool[k].createdAt <= pool[j].createdAt
  }

  /** Ties between equally old entries fall as the hash map iterates, so the victim is a parameter. */
  predicate MayEvict(config: PoolConfig, pool: Connections, victim: Option<string>) {
    if |pool| >= config.maxConnections && HasUnused(pool)
    then victim.Some? && OldestUnused(pool, victim.value)
    else victim.None?
  }

  function Evict(pool: Connections, victim: Option<string>): Connections {
    if victim.Some? then pool - {victim.value} else pool
  }

  function Inserted(pool: Connections, victim: Option<string>, c: Connection, now: nat): Connections {
    Evict(pool, victim)[c.peer := MarkUsed(New(c, now), now)]
  }

  function Released(pool: Connections, peer: string, now: nat): Connections {
    if peer in pool then pool[peer := pool[peer].(inUse := false, lastUsed := now)] else pool
  }

  function Cleaned(config: PoolConfig, pool: Connections, now: nat): Connections {
    map k | k in pool && Healthy(config, pool[k], now) && !pool[k].inUse :: pool[k]
  }

  class ConnectionPool {
    const config: PoolConfig
    var connections: Connections

    constructor (config: PoolConfig)
      ensures this.config == config && connections == map[]
    {
      this.config := config;
      connections := map[];
    }

    /** The first half of `get_connection`: reuse a healthy idle connection, if there is one. */
    method Lookup(peer: string, now: nat) returns (r: Option<Connection>)
      modifies this
      ensures r.Some? <==> Reusable(config, old(connections), peer, now)
      ensures r.Some? ==> r.value == old(connections)[peer].connection
                          && connections == old(connections)[peer := MarkUsed(old(connections)[peer], now)]
                          && var before, after := old(connections)[peer], connections[peer];
                             after == before.(lastUsed := now, useCount := before.useCount + 1, inUse := true)
      ensures r.None? ==> connections == old(connections)
    {
      if peer in connections {
        var pooled := connections[peer];
        if !pooled.markedClosed && !pooled.inUse && IsConnectionHealthy(pooled, now) {
          pooled := MarkUsed(pooled, now);
          connections := connections[peer := pooled];
          return Some(pooled.connection);
        }
      }
      r := None;
    }

    /** The second half, once the new connection is there. */
    method Insert(c: Connection, now: nat) returns (ghost victim: Option<string>)
      modifies this
      ensures MayEvict(config, old(connections), victim)
      ensures connections == Inserted(old(connections), victim, c, now)
      ensures c.peer in connections && connections[c.peer] == PooledConnection(c, now, now, 1, true, false)
      ensures forall k :: k in connections && k != c.peer ==>
                k in old(connections) && connections[k] == old(connections)[k]
    {
      victim := None;
      if |connections| >= config.maxConnections {
        var oldest := FindOldestUnusedConnection();
        if oldest.Some? {
          victim := oldest;
          connections := connections - {oldest.value};
        }
      }
      connections := connections[c.peer := MarkUsed(New(c, now), now)];
    }

    method FindOldestUnusedConnection() returns (r: Option<string>)
      ensures r.Some? <==> HasUnused(connections)
      ensures r.Some? ==> OldestUnused(connections, r.value)
    {
      r := None;
      var left := connections.Keys;
      while left != {}
        invariant left <= connections.Keys
        invariant r.None? ==> forall k :: k in connections && k !in left ==> connections[k].inUse
        invariant r.Some? ==>
                    && r.value in connections && !connections[r.value].inUse
                    && forall k :: k in connections && k !in left && !connections[k].inUse ==>
                         connections[r.value].createdAt <= connections[k].createdAt
        decreases left
      {
        var key :| key in left;
        left := left - {key};
        var pooled := connections[key];
        if !pooled.inUse && (r.None? || pooled.createdAt < connections[r.value].createdAt) {
          r := Some(key);
        }
      }
    }

    method Release(peer: string, now: nat)
      modifies this
      ensures connections == Released(old(connections), peer, now)
      ensures connections.Keys == old(connections).Keys
      ensures peer in connections ==> connections[peer] == old(connections)[peer].(inUse := false, lastUsed := now)
    {
      if peer in connections {
        var pooled := connections[peer];
        connections := connections[peer := pooled.(inUse := false, lastUsed := now)];
      }
    }

    method Remove(peer: string)
      modifies this
      ensures connections == old(connections) - {peer}
    {
      connections := connections - {peer};
    }

    predicate IsConnectionHealthy(p: PooledConnection, now: nat) {
      if p.markedClosed then false
      else if now - p.createdAt > config.maxAge then false
      else if now - p.lastUsed > config.maxIdle then false
      else if config.maxUses > 0 && p.useCount >= config.maxUses then false
      else true
    }

    method Cleanup(now: nat)
      modifies this
      ensures connections == Cleaned(config, old(connections), now)
    {
      connections :=
        map k | k in connections && IsConnectionHealthy(connections[k], now) && !connections[k].inUse :: connections[k];
    }
  }

  // ---------- any number of callers ----------

  datatype Caller = Outside | Connecting(peer: string) | Holding(connection: Connection)

  /** `nextId` numbers the connections made; `peak` is the most entries ever in use at once. */
  datatype System = System(callers: seq<Caller>, pool: Connections, nextId: nat, peak: nat)

  function Start(callers: nat): System {
    System(seq(callers, _ => Outside), map[], 0, 0)
  }

  datatype Event =
    | Lookup(who: nat, peer: string, now: nat)
    | Connected(who: nat, victim: Option<string>, now: nat)
    | ConnectFailed(who: nat)
    | Release(who: nat, now: nat)
    | Remove(peer: string)
    | Cleanup(now: nat)

  predicate Enabled(config: PoolConfig, s: System, e: Event) {
    match e
    case Lookup(who, _, _) => who < |s.callers| && s.callers[who].Outside?
    case Connected(who, victim, _) =>
      who < |s.callers| && s.callers[who].Connecting? && MayEvict(config, s.pool, victim)
    case ConnectFailed(who) => who < |s.callers| && s.callers[who].Connecting?
    case Release(who, _) => who < |s.callers| && s.callers[who].Holding?
    case Remove(_) => true
    case Cleanup(_) => true
  }

  function BusyKeys(pool: Connections): set<string> {
    set k | k in pool && pool[k].inUse
  }

  function Settle(s: System, pool: Connections): System {
    s.(pool := pool, peak := Max(s.peak, |BusyKeys(pool)|))
  }

  /** One step; an event that is not enabled changes nothing. */
  function Next(config: PoolConfig, s: System, e: Event): System {
    if !Enabled(config, s, e) then s
    else
      match e
      case Lookup(who, peer, now) =>
        if Reusable(config, s.pool, peer, now) then
          Settle(s.(callers := s.callers[who := Holding(s.pool[peer].connection)]),
                 s.pool[peer := MarkUsed(s.pool[peer], now)])
        else
          s.(callers := s.callers[who := Connecting(peer)])
      case Connected(who, victim, now) =>
        var c := Connection(s.callers[who].peer, s.nextId);
        Settle(s.(callers := s.callers[who := Holding(c)], nextId := s.nextId + 1), Inserted(s.pool, victim, c, now))
      case ConnectFailed(who) => s.(callers := s.callers[who := Outside])
      case Release(who, now) =>
        Settle(s.(callers := s.callers[who := Outside]), Released(s.pool, s.callers[who].connection.peer, now))
      case Remove(peer) => Settle(s, s.pool - {peer})
      case Cleanup(now) => Settle(s, Cleaned(config, s.pool, now))
  }

  function Run(config: PoolConfig, s: System, es: seq<Event>): System {
    if es == [] then s else Next(config, Run(config, s, es[..|es| - 1]), es[|es| - 1])
  }

  // ---------- capacity ----------

  predicate Capacity(config: PoolConfig, s: System) {
    && |s.pool| <= Max(config.maxConnections, s.peak)
    && |BusyKeys(s.pool)| <= s.peak
  }

  lemma EvictSize(pool: Connections, victim: Option<string>, c: Connection, now: nat)
    requires victim.Some? ==> victim.value in pool
    ensures |Inserted(pool, victim, c, now)| <= if victim.Some? then |pool| else |pool| + 1
  {
    hide MarkUsed, New;
    var kept := Evict(pool, victim);
    assert Inserted(pool, victim, c, now).Keys == kept.Keys + {c.peer};
    if victim.Some? {
      assert kept.Keys == pool.Keys - {victim.value};
    }
  }

  lemma AllBusy(pool: Connections, c: Connection, now: nat)
    requires !HasUnused(pool)
    ensures var after := Inserted(pool, None, c, now); |after| == |BusyKeys(after)|
  {
    var after := Inserted(pool, None, c, now);
    assert BusyKeys(after) == after.Keys;
  }

  lemma InsertSize(config: PoolConfig, pool: Connections, victim: Option<string>, c: Connection, now: nat)
    requires MayEvict(config, pool, victim)
    ensures var after := Inserted(pool, victim, c, now);
            |after| <= Max(Max(config.maxConnections, |pool|), |BusyKeys(after)|)
  {
    hide Inserted;
    EvictSize(pool, victim, c, now);
    if !HasUnused(pool) {
      AllBusy(pool, c, now);
    }
  }

  lemma SubMap(pool: Connections, sub: Connections)
    requires sub.Keys <= pool.Keys
    ensures |sub| <= |pool|
  {
    KeysSubset(sub.Keys, pool.Keys);
  }

  lemma {:induction false} KeysSubset<T>(a: set<T>, b: set<T>)
    requires a <= b
    ensures |a| <= |b|
    decreases |a|
  {
    if a != {} {
      var x :| x in a;
      KeysSubset(a - {x}, b - {x});
    }
  }

  lemma StepMovesPeak(config: PoolConfig, s: System, e: Event)
    ensures var t := Next(config, s, e);
            && |t.callers| == |s.callers|
            && (t.peak == Max(s.peak, |BusyKeys(t.pool)|) || (t.peak == s.peak && t.pool == s.pool))
  {
    hide BusyKeys, Inserted, Cleaned, Reusable, MayEvict, MarkUsed, Released;
  }

  lemma StepSize(config: PoolConfig, s: System, e: Event)
    ensures var t := Next(config, s, e);
            |t.pool| <= Max(Max(config.maxConnections, |s.pool|), |BusyKeys(t.pool)|)
  {
    hide Inserted, Cleaned, BusyKeys, MarkUsed, Reusable, MayEvict, Released;
    if Enabled(config, s, e) {
      match e {
        case Lookup(_, peer, now) =>
          if Reusable(config, s.pool, peer, now) {
            ReusableIsThere(config, s.pool, peer, now);
            var pool := s.pool[peer := MarkUsed(s.pool[peer], now)];
            assert pool.Keys == s.pool.Keys;
            SubMap(s.pool, pool);
          }
        case Connected(who, victim, now) =>
          InsertSize(config, s.pool, victim, Connection(s.callers[who].peer, s.nextId), now);
        case ConnectFailed(_) =>
        case Release(who, now) =>
          ReleasedKeys(s.pool, s.callers[who].connection.peer, now);
          SubMap(s.pool, Released(s.pool, s.callers[who].connection.peer, now));
        case Remove(peer) =>
          SubMap(s.pool, s.pool - {peer});
        case Cleanup(now) =>
          CleanedKeys(config, s.pool, now);
          SubMap(s.pool, Cleaned(config, s.pool, now));
      }
    }
  }

  lemma StepKeepsCapacity(config: PoolConfig, s: System, e: Event)
    requires Capacity(config, s)
    ensures Capacity(config, Next(config, s, e))
  {
    hide Next, BusyKeys;
    StepSize(config, s, e);
    StepMovesPeak(config, s, e);
  }

  lemma ReleasedKeys(pool: Connections, peer: string, now: nat)
    ensures Released(pool, peer, now).Keys == pool.Keys
  {
  }

  lemma ReusableIsThere(config: PoolConfig, pool: Connections, peer: string, now: nat)
    requires Reusable(config, pool, peer, now)
    ensures peer in pool
  {
  }

  lemma CleanedKeys(config: PoolConfig, pool: Connections, now: nat)
    ensures Cleaned(config, pool, now).Keys <= pool.Keys
  {
  }

  // ---------- what an entry in use stands for ----------

  predicate Owned(s: System) {
    && (forall k :: k in s.pool ==> s.pool[k].connection.peer == k && s.pool[k].connection.id < s.nextId)
    && (forall t :: 0 <= t < |s.callers| && s.callers[t].Holding? ==> s.callers[t].connection.id < s.nextId)
    && (forall k :: k in s.pool && s.pool[k].inUse ==> Holding(s.pool[k].connection) in s.callers)
  }

  lemma StepKeepsOwned(config: PoolConfig, s: System, e: Event)
    requires Owned(s)
    ensures Owned(Next(config, s, e))
  {
    hide Healthy, MayEvict, BusyKeys;
    if Enabled(config, s, e) && (e.Lookup? || e.Connected? || e.ConnectFailed? || e.Release?) {
      Sequences.UpdateKeepsOthers(s.callers, e.who, Next(config, s, e).callers[e.who]);
    }
  }

  /** The peers somebody holds a connection to. */
  function HeldPeers(callers: seq<Caller>): (ps: set<string>)
    ensures |ps| <= |callers|
    ensures forall t :: 0 <= t < |callers| && callers[t].Holding? ==> callers[t].connection.peer in ps
  {
    if callers == [] then {}
    else
      var last := callers[|callers| - 1];
      HeldPeers(callers[..|callers| - 1]) + if last.Holding? then {last.connection.peer} else {}
  }

  lemma BusyIsHeld(s: System)
    requires Owned(s)
    ensures |BusyKeys(s.pool)| <= |s.callers|
  {
    assert BusyKeys(s.pool) <= HeldPeers(s.callers);
    KeysSubset(BusyKeys(s.pool), HeldPeers(s.callers));
  }

  predicate UsesBounded(config: PoolConfig, s: System) {
    forall k :: k in s.pool ==> s.pool[k].useCount > 0 && (config.maxUses > 0 ==> s.pool[k].useCount <= config.maxUses)
  }

  lemma StepKeepsUses(config: PoolConfig, s: System, e: Event)
    requires UsesBounded(config, s)
    ensures UsesBounded(config, Next(config, s, e))
  {
  }

  predicate Sound(config: PoolConfig, s: System) {
    Capacity(config, s) && Owned(s) && UsesBounded(config, s) && s.peak <= |s.callers|
  }

  lemma StepIsSound(config: PoolConfig, s: System, e: Event)
    requires Sound(config, s)
    ensures Sound(config, Next(config, s, e)) && |Next(config, s, e).callers| == |s.callers|
  {
    StepKeepsCapacity(config, s, e);
    StepKeepsOwned(config, s, e);
    StepKeepsUses(config, s, e);
    StepMovesPeak(config, s, e);
    hide Next, Capacity, Owned, UsesBounded, BusyKeys;
    BusyIsHeld(Next(config, s, e));
  }

  lemma {:induction false} RunIsSound(config: PoolConfig, callers: nat, es: seq<Event>)
    ensures Sound(config, Run(config, Start(callers), es)) && |Run(config, Start(callers), es).callers| == callers
    decreases |es|
  {
    if es == [] {
      assert BusyKeys(Start(callers).pool) == {};
    } else {
      RunIsSound(config, callers, es[..|es| - 1]);
      hide Sound, Next;
      StepIsSound(config, Run(config, Start(callers), es[..|es| - 1]), es[|es| - 1]);
    }
  }

  /**
   Over every run the pool holds at most as many entries as the limit or the most that were ever
   in use at once, whichever is more, and so no more than the limit or the number of callers.
   */
  lemma SizeNeverExceeds(config: PoolConfig, callers: nat, es: seq<Event>)
    ensures var s := Run(config, Start(callers), es);
            && |s.pool| <= Max(config.maxConnections, s.peak) <= Max(config.maxConnections, callers)
            && (config.maxUses > 0 ==> forall k :: k in s.pool ==> s.pool[k].useCount <= config.maxUses)
  {
    RunIsSound(config, callers, es);
  }

  /** The pool still lists a connection as the one in use for its peer. */
  predicate Serves(s: System, c: Connection) {
    c.peer in s.pool && s.pool[c.peer].connection == c && s.pool[c.peer].inUse
  }

  /** The entries a step removes. */
  function Gone(s: System, t: System): set<string> {
    s.pool.Keys - t.pool.Keys
  }

  /**
   What an insert costs, in any state: at most one entry disappears, only from a full pool, and it
   is the oldest of those not in use. Everything else but the peer's own entry stays as it was, so
   no holder of another peer loses its entry.
   */
  lemma InsertCosts(config: PoolConfig, s: System, e: Event)
    requires e.Connected? && Enabled(config, s, e)
    ensures |Gone(s, Next(config, s, e))| <= 1
    ensures Gone(s, Next(config, s, e)) != {} ==> |s.pool| >= config.maxConnections
    ensures forall k :: k in Gone(s, Next(config, s, e)) ==> k != s.callers[e.who].peer && !s.pool[k].inUse
    ensures forall j, k :: k in Gone(s, Next(config, s, e)) && j in s.pool && !s.pool[j].inUse ==>
              s.pool[k].createdAt <= s.pool[j].createdAt
    ensures forall k :: k in s.pool && k != s.callers[e.who].peer && k !in Gone(s, Next(config, s, e)) ==>
              k in Next(config, s, e).pool && Next(config, s, e).pool[k] == s.pool[k]
    ensures forall c: Connection :: Serves(s, c) && c.peer != s.callers[e.who].peer ==> Serves(Next(config, s, e), c)
    ensures |s.pool| >= config.maxConnections && HasUnused(s.pool) ==>
              Gone(s, Next(config, s, e)) != {} || OldestUnused(s.pool, s.callers[e.who].peer)
  {
    var t := Next(config, s, e);
    var c := Connection(s.callers[e.who].peer, s.nextId);
    assert t.pool == Inserted(s.pool, e.victim, c, e.now) && MayEvict(config, s.pool, e.victim);
    hide *;
    InsertedParts(s.pool, e.victim, c, e.now);
    VictimIsOldest(config, s.pool, e.victim);
    InsertGone(s, t, e.victim, c.peer);
    forall d: Connection | Serves(s, d) && d.peer != c.peer
      ensures Serves(t, d)
    {
      ServedIsKept(s, t, e.victim, c.peer, d);
    }
  }

  lemma VictimIsOldest(config: PoolConfig, pool: Connections, victim: Option<string>)
    requires MayEvict(config, pool, victim)
    ensures victim.Some? ==> |pool| >= config.maxConnections && OldestUnused(pool, victim.value)
    ensures |pool| >= config.maxConnections && HasUnused(pool) ==> victim.Some?
  {
  }

  lemma InsertedParts(pool: Connections, victim: Option<string>, c: Connection, now: nat)
    ensures var after := Inserted(pool, victim, c, now);
            && c.peer in after
            && (forall k :: k in pool && k != c.peer && victim != Some(k) ==> k in after && after[k] == pool[k])
            && (forall k :: k in after && k != c.peer ==> k in pool && victim != Some(k))
  {
  }

  lemma InsertGone(s: System, t: System, victim: Option<string>, peer: string)
    requires peer in t.pool && (victim.Some? ==> victim.value in s.pool)
    requires forall k :: k in s.pool && k != peer && victim != Some(k) ==> k in t.pool
    requires forall k :: k in t.pool && k != peer ==> k in s.pool && victim != Some(k)
    ensures Gone(s, t) == if victim.Some? && victim.value != peer then {victim.value} else {}
  {
  }

  lemma ServedIsKept(s: System, t: System, victim: Option<string>, peer: string, c: Connection)
    requires Serves(s, c) && c.peer != peer && (victim.Some? ==> OldestUnused(s.pool, victim.value))
    requires forall k :: k in s.pool && k != peer && victim != Some(k) ==> k in t.pool && t.pool[k] == s.pool[k]
    ensures Serves(t, c)
  {
  }

  /**
   A cleanup drops what callers are using: it leaves no entry in use, so the next lookup of a held
   peer connects it a second time.
   */
  lemma CleanupForgetsHolders(config: PoolConfig, s: System, cleaned: nat, t: nat, u: nat, now: nat)
    requires t < |s.callers| && u < |s.callers|
    requires s.callers[t].Holding? && s.callers[u].Outside? && Serves(s, s.callers[t].connection)
    ensures var c := s.callers[t].connection;
            var after := Run(config, s, [Cleanup(cleaned), Lookup(u, c.peer, now)]);
            && after.callers == s.callers[u := Connecting(c.peer)]
            && c.peer !in after.pool && BusyKeys(after.pool) == {}
  {
    var e, f := Cleanup(cleaned), Lookup(u, s.callers[t].connection.peer, now);
    assert [e, f][..1] == [e] && [e][..0] == [];
    assert Run(config, s, [e]) == Next(config, s, e);
    assert Run(config, s, [e, f]) == Next(config, Run(config, s, [e]), f);
    hide Run, Healthy, MarkUsed;
    assert BusyKeys(Cleaned(config, s.pool, cleaned)) == {};
  }

  /** And such states are reached by the first two steps of any caller. */
  lemma HolderIsServed(config: PoolConfig, callers: nat, peer: string, now: nat)
    requires callers > 0
    ensures var s := Run(config, Start(callers), [Lookup(0, peer, now), Connected(0, None, now)]);
            |s.callers| == callers && s.callers[0] == Holding(Connection(peer, 0)) && Serves(s, Connection(peer, 0))
  {
    var e, f := Lookup(0, peer, now), Connected(0, None, now);
    assert [e, f][..1] == [e] && [e][..0] == [];
    assert Run(config, Start(callers), [e]) == Next(config, Start(callers), e);
  }

  /** A miss whose connect fails leaves everything as it was. */
  lemma FailedConnectCostsNothing(config: PoolConfig, s: System, t: nat, peer: string, now: nat)
    requires t < |s.callers| && s.callers[t].Outside? && !Reusable(config, s.pool, peer, now)
    ensures Run(config, s, [Lookup(t, peer, now), ConnectFailed(t)]) == s
  {
    var e, f := Lookup(t, peer, now), ConnectFailed(t);
    assert [e, f][..1] == [e] && [e][..0] == [];
    assert Run(config, s, [e]) == Next(config, s, e);
    assert Run(config, s, [e, f]) == Next(config, Run(config, s, [e]), f);
    hide Run, Reusable;
    assert s.callers[t := Connecting(peer)][t := Outside] == s.callers;
  }

  /** A removed peer is connected anew by its next lookup, and no other entry is touched. */
  lemma RemovedIsReconnected(config: PoolConfig, s: System, t: nat, peer: string, now: nat)
    requires t < |s.callers| && s.callers[t].Outside?
    ensures var after := Run(config, s, [Remove(peer), Lookup(t, peer, now)]);
            && after.callers == s.callers[t := Connecting(peer)]
            && after.pool.Keys == s.pool.Keys - {peer}
            && forall k :: k in after.pool ==> after.pool[k] == s.pool[k]
  {
    var e, f := Remove(peer), Lookup(t, peer, now);
    assert [e, f][..1] == [e] && [e][..0] == [];
    assert Run(config, s, [e]) == Next(config, s, e);
    assert Run(config, s, [e, f]) == Next(config, Run(config, s, [e]), f);
    hide Run, Healthy, BusyKeys;
  }

  // ---------- how long a connection may be kept ----------

  /** A connection made at t0 and given back at t1. */
  function MadeAndReleased(peer: string, t0: nat, t1: nat): seq<Event> {
    [Lookup(0, peer, t0), Connected(0, None, t0), Release(0, t1)]
  }

  lemma MadeAndReleasedLeaves(config: PoolConfig, callers: nat, peer: string, t0: nat, t1: nat)
    requires callers > 0
    ensures var s := Run(config, Start(callers), MadeAndReleased(peer, t0, t1));
            && s.callers == Start(callers).callers
            && s.pool == map[peer := PooledConnection(Connection(peer, 0), t0, t1, 1, false, false)]
  {
    var e, f, g := Lookup(0, peer, t0), Connected(0, None, t0), Release(0, t1);
    RunThree(config, Start(callers), e, f, g);
    hide Run, BusyKeys;
    var s1 := Next(config, Start(callers), e);
    var s2 := Next(config, s1, f);
    assert s2.pool == map[peer := PooledConnection(Connection(peer, 0), t0, t0, 1, true, false)];
    assert s2.callers[0 := Outside] == Start(callers).callers;
  }

  lemma RunThree(config: PoolConfig, s: System, e: Event, f: Event, g: Event)
    ensures Run(config, s, [e, f, g]) == Next(config, Next(config, Next(config, s, e), f), g)
  {
    assert [e, f, g][..2] == [e, f];
    assert [e, f][..1] == [e];
    assert [e][..0] == [];
    assert Run(config, s, [e]) == Next(config, s, e);
    assert Run(config, s, [e, f]) == Next(config, Run(config, s, [e]), f);
  }

  lemma RunOneMore(config: PoolConfig, s: System, es: seq<Event>, e: Event)
    ensures Run(config, s, es + [e]) == Next(config, Run(config, s, es), e)
  {
    assert (es + [e])[..|es|] == es;
  }

  /**
   A connection given back is handed out again, and outlasts a cleanup, exactly if it is within both
   limits and may be used more than once.
   */
  lemma KeptExactly(config: PoolConfig, callers: nat, peer: string, t0: nat, t1: nat, t2: nat)
    requires callers > 0
    ensures var es, kept := MadeAndReleased(peer, t0, t1),
                            t2 - t0 <= config.maxAge && t2 - t1 <= config.maxIdle && config.maxUses != 1;
            && Run(config, Start(callers), es + [Lookup(0, peer, t2)]).callers
               == Start(callers).callers[0 := if kept then Holding(Connection(peer, 0)) else Connecting(peer)]
            && (peer in Run(config, Start(callers), es + [Cleanup(t2)]).pool <==> kept)
  {
    var es := MadeAndReleased(peer, t0, t1);
    RunOneMore(config, Start(callers), es, Lookup(0, peer, t2));
    RunOneMore(config, Start(callers), es, Cleanup(t2));
    MadeAndReleasedLeaves(config, callers, peer, t0, t1);
    hide Run, BusyKeys, MadeAndReleased;
  }

  /** Event j of a run is the insert of a new connection. */
  predicate ConnectsAt(config: PoolConfig, s: System, es: seq<Event>, j: nat, c: Connection) {
    && j < |es| && es[j].Connected?
    && var before := Run(config, s, es[..j]);
       Enabled(config, before, es[j]) && c == Connection(before.callers[es[j].who].peer, before.nextId)
  }

  /** Event k of a run is some holder's release of a connection to the peer. */
  predicate ReleasesAt(config: PoolConfig, s: System, es: seq<Event>, k: nat, peer: string) {
    && k < |es| && es[k].Release?
    && var before := Run(config, s, es[..k]);
       Enabled(config, before, es[k]) && before.callers[es[k].who].connection.peer == peer
  }

  ghost predicate LastRelease(config: PoolConfig, s: System, es: seq<Event>, k: nat, peer: string) {
    ReleasesAt(config, s, es, k, peer) && forall m: nat :: m > k ==> !ReleasesAt(config, s, es, m, peer)
  }

  ghost predicate LastUsedAt(config: PoolConfig, s: System, es: seq<Event>, j: nat, peer: string, now: nat) {
    exists k: nat :: LastRelease(config, s, es, k, peer) && j < k < |es| && es[k].Release? && es[k].now == now
  }

  /** The entry was made by event j, and unless it is in use its time of last use is that of the peer's last release. */
  ghost predicate MadeBy(config: PoolConfig, s: System, es: seq<Event>, peer: string, p: PooledConnection, j: nat) {
    && ConnectsAt(config, s, es, j, p.connection) && es[j].now == p.createdAt
    && (!p.inUse ==> LastUsedAt(config, s, es, j, peer, p.lastUsed))
  }

  ghost predicate Traced(config: PoolConfig, s: System, es: seq<Event>) {
    forall peer :: peer in Run(config, s, es).pool ==>
      exists j: nat :: MadeBy(config, s, es, peer, Run(config, s, es).pool[peer], j)
  }

  lemma EarlierSteps(config: PoolConfig, s: System, es: seq<Event>, i: nat, c: Connection, peer: string)
    requires i < |es| - 1
    ensures ConnectsAt(config, s, es, i, c) <==> ConnectsAt(config, s, es[..|es| - 1], i, c)
    ensures ReleasesAt(config, s, es, i, peer) <==> ReleasesAt(config, s, es[..|es| - 1], i, peer)
  {
    hide Run, Enabled;
    assert es[..|es| - 1][..i] == es[..i];
  }

  lemma NoReleaseYet(config: PoolConfig, s: System, es: seq<Event>, peer: string)
    ensures forall k: nat :: k >= |es| ==> !ReleasesAt(config, s, es, k, peer)
  {
  }

  /** A step that is no release to the peer leaves its last release where it was. */
  lemma LastReleaseStays(config: PoolConfig, s: System, es: seq<Event>, j: nat, peer: string, now: nat)
    requires es != [] && LastUsedAt(config, s, es[..|es| - 1], j, peer, now)
    requires !ReleasesAt(config, s, es, |es| - 1, peer)
    ensures LastUsedAt(config, s, es, j, peer, now)
  {
    hide ReleasesAt, ConnectsAt;
    var before := es[..|es| - 1];
    var k: nat :|
      LastRelease(config, s, before, k, peer) && j < k < |before| && before[k].Release? && before[k].now == now;
    NoReleaseYet(config, s, es, peer);
    EarlierSteps(config, s, es, k, Connection(peer, 0), peer);
    forall m: nat | m > k
      ensures !ReleasesAt(config, s, es, m, peer)
    {
      if m < |before| {
        EarlierSteps(config, s, es, m, Connection(peer, 0), peer);
      }
    }
    assert LastRelease(config, s, es, k, peer);
  }

  lemma ReleasedNow(config: PoolConfig, s: System, es: seq<Event>, j: nat, peer: string)
    requires es != [] && j < |es| - 1 && ReleasesAt(config, s, es, |es| - 1, peer)
    ensures es[|es| - 1].Release? && LastUsedAt(config, s, es, j, peer, es[|es| - 1].now)
  {
    NoReleaseYet(config, s, es, peer);
    assert es[|es| - 1].Release?;
    hide ReleasesAt;
    assert LastRelease(config, s, es, |es| - 1, peer);
  }

  /** What one step does to the entry of one peer. */
  lemma EntryMoves(config: PoolConfig, s: System, e: Event, peer: string)
    requires peer in Next(config, s, e).pool
    ensures var p := Next(config, s, e).pool[peer];
            || (&& e.Connected? && Enabled(config, s, e) && p.inUse && p.createdAt == e.now
                && p.connection == Connection(s.callers[e.who].peer, s.nextId))
            || (&& peer in s.pool && p.connection == s.pool[peer].connection && p.createdAt == s.pool[peer].createdAt
                && (|| p.inUse
                    || (e.Release? && Enabled(config, s, e) && s.callers[e.who].connection.peer == peer
                        && p.lastUsed == e.now)
                    || (&& p == s.pool[peer]
                        && !(e.Release? && Enabled(config, s, e) && s.callers[e.who].connection.peer == peer))))
  {
    hide Healthy, MayEvict, BusyKeys;
  }

  lemma EntryStaysTraced(config: PoolConfig, s: System, es: seq<Event>, peer: string)
    requires es != [] && Traced(config, s, es[..|es| - 1]) && peer in Run(config, s, es).pool
    ensures exists j: nat :: MadeBy(config, s, es, peer, Run(config, s, es).pool[peer], j)
  {
    var n, before := |es| - 1, Run(config, s, es[..|es| - 1]);
    var p := Run(config, s, es).pool[peer];
    EntryMoves(config, before, es[n], peer);
    if es[n].Connected? && Enabled(config, before, es[n]) && p.inUse && p.createdAt == es[n].now
       && p.connection == Connection(before.callers[es[n].who].peer, before.nextId) {
      assert MadeBy(config, s, es, peer, p, n);
    } else {
      var j: nat :| MadeBy(config, s, es[..n], peer, before.pool[peer], j);
      CarriesOn(config, s, es, peer, j);
    }
  }

  lemma CarriesOn(config: PoolConfig, s: System, es: seq<Event>, peer: string, j: nat)
    requires es != [] && peer in Run(config, s, es).pool && peer in Run(config, s, es[..|es| - 1]).pool
    requires var was, p := Run(config, s, es[..|es| - 1]).pool[peer], Run(config, s, es).pool[peer];
             && MadeBy(config, s, es[..|es| - 1], peer, was, j)
             && p.connection == was.connection && p.createdAt == was.createdAt
             && (|| p.inUse
                 || (ReleasesAt(config, s, es, |es| - 1, peer) && es[|es| - 1].Release?
                     && p.lastUsed == es[|es| - 1].now)
                 || (p == was && !ReleasesAt(config, s, es, |es| - 1, peer)))
    ensures MadeBy(config, s, es, peer, Run(config, s, es).pool[peer], j)
  {
    var was, p := Run(config, s, es[..|es| - 1]).pool[peer], Run(config, s, es).pool[peer];
    ConnectedBefore(config, s, es[..|es| - 1], j, was.connection);
    EarlierSteps(config, s, es, j, was.connection, peer);
    hide Run, ConnectsAt, ReleasesAt, LastUsedAt;
    if !p.inUse {
      if ReleasesAt(config, s, es, |es| - 1, peer) {
        ReleasedNow(config, s, es, j, peer);
      } else {
        LastReleaseStays(config, s, es, j, peer, p.lastUsed);
      }
    }
  }

  lemma ConnectedBefore(config: PoolConfig, s: System, es: seq<Event>, j: nat, c: Connection)
    requires ConnectsAt(config, s, es, j, c)
    ensures j < |es| && es[j].Connected?
  {
  }

  lemma {:induction false} RunIsTraced(config: PoolConfig, callers: nat, es: seq<Event>)
    ensures Traced(config, Start(callers), es)
    decreases |es|
  {
    if es != [] {
      var s := Start(callers);
      RunIsTraced(config, callers, es[..|es| - 1]);
      forall peer | peer in Run(config, s, es).pool
        ensures exists j: nat :: MadeBy(config, s, es, peer, Run(config, s, es).pool[peer], j)
      {
        EntryStaysTraced(config, s, es, peer);
      }
    }
  }

  /**
   In every run, a connection that a lookup hands out was inserted no longer ago than the maximum
   age, and the last release of one to that peer came after that insert and no longer ago than the
   maximum idle time.
   */
  lemma ReuseIsFresh(config: PoolConfig, callers: nat, es: seq<Event>, who: nat, peer: string, now: nat)
    returns (j: nat, k: nat)
    requires var s := Run(config, Start(callers), es);
             && Enabled(config, s, Lookup(who, peer, now))
             && Next(config, s, Lookup(who, peer, now)).callers[who].Holding?
    ensures var s := Run(config, Start(callers), es);
            var c := Next(config, s, Lookup(who, peer, now)).callers[who].connection;
            && c.peer == peer
            && ConnectsAt(config, Start(callers), es, j, c) && LastRelease(config, Start(callers), es, k, peer)
            && j < k < |es| && es[j].Connected? && es[k].Release?
            && now - es[j].now <= config.maxAge && now - es[k].now <= config.maxIdle
  {
    var start := Start(callers);
    var s := Run(config, start, es);
    RunIsTraced(config, callers, es);
    RunIsSound(config, callers, es);
    var p := s.pool[peer];
    assert p.connection.peer == peer;
    j :| MadeBy(config, start, es, peer, p, j);
    ConnectedBefore(config, start, es, j, p.connection);
    hide Run, ConnectsAt, LastRelease, Enabled;
    k :| LastRelease(config, start, es, k, peer) && j < k < |es| && es[k].Release? && es[k].now == p.lastUsed;
  }

  // ---------- who shares a connection with whom ----------

  predicate Exclusive(s: System) {
    forall t, u :: 0 <= t < u < |s.callers| && s.callers[t].Holding? && s.callers[u].Holding? ==>
      s.callers[t].connection != s.callers[u].connection
  }

  predicate PeerHeld(s: System, peer: string) {
    exists t :: 0 <= t < |s.callers| && s.callers[t].Holding? && s.callers[t].connection.peer == peer
  }

  /** No new connection to a peer is inserted while somebody holds one to that peer. */
  predicate WithoutReplacing(config: PoolConfig, s: System, es: seq<Event>)
    decreases |es|
  {
    es == [] ||
    var before, e := es[..|es| - 1], es[|es| - 1];
    && WithoutReplacing(config, s, before)
    && (e.Connected? && Enabled(config, Run(config, s, before), e) ==>
          !PeerHeld(Run(config, s, before), Run(config, s, before).callers[e.who].peer))
  }

  /** One holder per peer, whose entry, if it is still in the pool, is in use. */
  predicate OnePerPeer(s: System) {
    && (forall t, u :: 0 <= t < u < |s.callers| && s.callers[t].Holding? && s.callers[u].Holding? ==>
          s.callers[t].connection.peer != s.callers[u].connection.peer)
    && (forall t :: 0 <= t < |s.callers| && s.callers[t].Holding? && s.callers[t].connection.peer in s.pool ==>
          s.pool[s.callers[t].connection.peer].inUse)
  }

  lemma StepKeepsOnePerPeer(config: PoolConfig, s: System, e: Event)
    requires Owned(s) && OnePerPeer(s)
    requires e.Connected? && Enabled(config, s, e) ==> !PeerHeld(s, s.callers[e.who].peer)
    ensures OnePerPeer(Next(config, s, e))
  {
    hide Healthy, MayEvict, BusyKeys;
  }

  /** While no held peer is connected anew, no two callers ever share a connection. */
  lemma {:induction false} HoldersAreExclusive(config: PoolConfig, callers: nat, es: seq<Event>)
    requires WithoutReplacing(config, Start(callers), es)
    ensures OnePerPeer(Run(config, Start(callers), es)) && Exclusive(Run(config, Start(callers), es))
    decreases |es|
  {
    if es != [] {
      HoldersAreExclusive(config, callers, es[..|es| - 1]);
      RunIsSound(config, callers, es[..|es| - 1]);
      var s := Run(config, Start(callers), es[..|es| - 1]);
      assert Owned(s);
      hide Next, Sound, Owned, PeerHeld, Enabled;
      StepKeepsOnePerPeer(config, s, es[|es| - 1]);
    }
  }

  lemma {:induction false} RunJoin(config: PoolConfig, s: System, a: seq<Event>, b: seq<Event>)
    ensures Run(config, s, a + b) == Run(config, Run(config, s, a), b)
    decreases |b|
  {
    if b == [] {
      assert a + b == a;
    } else {
      RunJoin(config, s, a, b[..|b| - 1]);
      assert (a + b)[..|a + b| - 1] == a + b[..|b| - 1];
    }
  }

  /**
   Without that, sharing is three steps away: the insert over the held peer, the holder's release,
   and the holder's own next lookup put it on the other caller's connection.
   */
  lemma ReplacingShares(config: PoolConfig, s: System, t: nat, u: nat, victim: Option<string>, now: nat)
    requires t < |s.callers| && u < |s.callers| && s.callers[u].Connecting?
    requires s.callers[t].Holding? && s.callers[t].connection.peer == s.callers[u].peer
    requires MayEvict(config, s.pool, victim) && config.maxUses != 1
    ensures var peer := s.callers[u].peer;
            var s' := Run(config, s, [Connected(u, victim, now), Release(t, now), Lookup(t, peer, now)]);
            && |s'.callers| == |s.callers|
            && s'.callers[t] == s'.callers[u] == Holding(Connection(peer, s.nextId))
            && !Exclusive(s')
  {
    var peer := s.callers[u].peer;
    var e1, e2, e3 := Connected(u, victim, now), Release(t, now), Lookup(t, peer, now);
    RunThree(config, s, e1, e2, e3);
    var s1 := Next(config, s, e1);
    var s2 := Next(config, s1, e2);
    hide Run, MayEvict, BusyKeys;
    assert s1.callers[t] == s.callers[t];
    assert s2.callers[u] == Holding(Connection(peer, s.nextId));
    assert Reusable(config, s2.pool, peer, now);
  }

  /** Two callers of one peer suffice: the second misses because the first holds, and replaces. */
  lemma TwoCallersShare(config: PoolConfig, callers: nat, peer: string, now: nat)
    requires callers > 1 && config.maxUses != 1
    ensures var es := [Lookup(0, peer, now), Lookup(1, peer, now), Connected(0, None, now)]
                      + [Connected(1, None, now), Release(0, now), Lookup(0, peer, now)];
            !Exclusive(Run(config, Start(callers), es))
  {
    var first := [Lookup(0, peer, now), Lookup(1, peer, now), Connected(0, None, now)];
    var second := [Connected(1, None, now), Release(0, now), Lookup(0, peer, now)];
    RunJoin(config, Start(callers), first, second);
    RunThree(config, Start(callers), first[0], first[1], first[2]);
    hide Run, BusyKeys, Exclusive;
    var s1 := Next(config, Start(callers), first[0]);
    var s2 := Next(config, s1, first[1]);
    assert s1.callers[1].Outside? && s1.pool == map[];
    assert s2.callers[0] == s2.callers[1] == Connecting(peer) && s2.pool == map[] && s2.nextId == 0;
    var s := Next(config, s2, first[2]);
    assert s.callers[0] == Holding(Connection(peer, 0)) && s.callers[1] == Connecting(peer);
    assert s.pool.Keys == {peer} && s.pool[peer].inUse;
    ReplacingShares(config, s, 0, 1, None, now);
  }

  lemma StepOfSingleUse(config: PoolConfig, s: System, e: Event)
    requires config.maxUses == 1 && Owned(s) && UsesBounded(config, s) && Exclusive(s)
    ensures Exclusive(Next(config, s, e))
  {
    hide MayEvict, BusyKeys, Inserted, Cleaned;
    if e.Lookup? {
      assert !Reusable(config, s.pool, e.peer, e.now);
    }
  }

  /** A connection good for one use is never reused, so never shared. */
  lemma {:induction false} SingleUseIsExclusive(config: PoolConfig, callers: nat, es: seq<Event>)
    requires config.maxUses == 1
    ensures Exclusive(Run(config, Start(callers), es))
    decreases |es|
  {
    if es != [] {
      SingleUseIsExclusive(config, callers, es[..|es| - 1]);
      RunIsSound(config, callers, es[..|es| - 1]);
      var s := Run(config, Start(callers), es[..|es| - 1]);
      assert Owned(s) && UsesBounded(config, s);
      hide Next, Sound, Owned, UsesBounded, Exclusive;
      StepOfSingleUse(config, s, es[|es| - 1]);
    }
  }

  /** When callers never share a connection: exactly if there is at most one, or connections are used once. */
  lemma NeverShares(config: PoolConfig, callers: nat)
    ensures (forall es :: Exclusive(Run(config, Start(callers), es))) <==> callers <= 1 || config.maxUses == 1
  {
    if callers <= 1 {
      forall es
        ensures Exclusive(Run(config, Start(callers), es))
      {
        RunIsSound(config, callers, es);
      }
    } else if config.maxUses == 1 {
      forall es
        ensures Exclusive(Run(config, Start(callers), es))
      {
        SingleUseIsExclusive(config, callers, es);
      }
    } else {
      TwoCallersShare(config, callers, "", 0);
    }
  }
}
