/**
 The batcher's locks (src/batch.rs). `flush` takes batch_start while it holds pending, and the
 background task takes pending while it holds batch_start: the two orders can meet.
 */
module BatchLocks {
  /** Where a thread stands. A name with Want holds no lock; the comments say what the others hold. */
  datatype Place =
    | Idle
    | WantMark
    | InMark          // batch_start for writing
    | WantPush
    | InPush          // pending for writing
    | WantCheck
    | InCheck         // pending for reading
    | WantFlush
    | Leaving         // pending for writing, and it is empty
    | Emptying        // pending for writing, and wants batch_start for writing
    | Resetting       // pending and batch_start for writing
    | Taking          // pending for writing
    | WantNumber
    | InNumber        // sequence for writing
    | Offering
    | WantAge
    | Young           // batch_start for reading
    | Aged            // batch_start for reading, and wants pending for reading
    | InCount         // batch_start and pending for reading

  predicate WritesPending(p: Place) { p.InPush? || p.Leaving? || p.Emptying? || p.Resetting? || p.Taking? }

  predicate HoldsPending(p: Place) { WritesPending(p) || p.InCheck? || p.InCount? }

  predicate WritesStart(p: Place) { p.InMark? || p.Resetting? }

  predicate HoldsStart(p: Place) { WritesStart(p) || p.Young? || p.Aged? || p.InCount? }

  /** Any number of threads, the number of pending changes, and whether batch_start is set. */
  datatype Threads = Threads(places: seq<Place>, pending: nat, started: bool)

  function Start(threads: nat): Threads {
    Threads(seq(threads, _ => Idle), 0, false)
  }

  predicate Free(s: Threads, lock: Place -> bool) {
    forall t :: 0 <= t < |s.places| ==> !lock(s.places[t])
  }

  /** The lock the thread wants is held in a way that excludes it. */
  predicate Blocked(s: Threads, who: nat)
    requires who < |s.places|
  {
    match s.places[who]
    case WantMark => !Free(s, HoldsStart)
    case WantPush => !Free(s, HoldsPending)
    case WantCheck => !Free(s, WritesPending)
    case WantFlush => !Free(s, HoldsPending)
    case Emptying => !Free(s, HoldsStart)
    case WantNumber => !Free(s, (p: Place) => p.InNumber?)
    case WantAge => !Free(s, WritesStart)
    case Aged => !Free(s, WritesPending)
    case _ => false
  }

  /** The second place holds what the first wants. */
  predicate BlockedBy(a: Place, b: Place) {
    match a
    case WantMark => HoldsStart(b)
    case WantPush => HoldsPending(b)
    case WantCheck => WritesPending(b)
    case WantFlush => HoldsPending(b)
    case Emptying => HoldsStart(b)
    case WantNumber => b.InNumber?
    case WantAge => WritesStart(b)
    case Aged => WritesPending(b)
    case _ => false
  }

  /** `Add` with batching on, `Direct` with batching off, a forced `Flush`, a wake-up of the background task. */
  datatype Call = Add | Direct | Flush | Tick

  function Entry(call: Call): Place {
    match call
    case Add => WantMark
    case Direct => WantNumber
    case Flush => WantFlush
    case Tick => WantAge
  }

  datatype Event =
    | Begin(who: nat, call: Call)
    | Go(who: nat, aged: bool)     // `aged`: the timer, if set, has run for the maximum age

  function Advance(pending: nat, started: bool, max: nat, place: Place, aged: bool): Place {
    match place
    case Idle => Idle
    case WantMark => InMark
    case InMark => WantPush
    case WantPush => InPush
    case InPush => WantCheck
    case WantCheck => InCheck
    case InCheck => if pending >= max then WantFlush else Idle
    case WantFlush => if pending == 0 then Leaving else Emptying
    case Leaving => Idle
    case Emptying => Resetting
    case Resetting => Taking
    case Taking => WantNumber
    case WantNumber => InNumber
    case InNumber => Offering
    case Offering => Idle
    case WantAge => if started && aged then Aged else Young
    case Young => Idle
    case Aged => InCount
    case InCount => if pending > 0 then WantFlush else Idle
  }

  function PendingAfter(pending: nat, place: Place): nat {
    if place.InPush? then pending + 1 else if place.Taking? then 0 else pending
  }

  function StartedAfter(started: bool, place: Place): bool {
    if place.InMark? then true else if place.Resetting? then false else started
  }

  /** An event of a thread that is not there, not idle, or blocked changes nothing. */
  function Next(max: nat, s: Threads, e: Event): Threads {
    if e.who >= |s.places| then s
    else
      match e
      case Begin(who, call) =>
        if !s.places[who].Idle? then s
        else s.(places := s.places[who := Entry(call)])
      case Go(who, aged) =>
        if Blocked(s, who) then s
        else
          var place := s.places[who];
          Threads(s.places[who := Advance(s.pending, s.started, max, place, aged)],
                  PendingAfter(s.pending, place), StartedAfter(s.started, place))
  }

  function Run(max: nat, s: Threads, es: seq<Event>): Threads {
    if es == [] then s else Next(max, Run(max, s, es[..|es| - 1]), es[|es| - 1])
  }

  // ---------- the locks exclude ----------

  predicate Compatible(p: Place, q: Place) {
    && !(WritesPending(p) && HoldsPending(q)) && !(WritesPending(q) && HoldsPending(p))
    && !(WritesStart(p) && HoldsStart(q)) && !(WritesStart(q) && HoldsStart(p))
    && !(p.InNumber? && q.InNumber?)
  }

  predicate Exclusive(s: Threads) {
    forall t, u :: 0 <= t < |s.places| && 0 <= u < |s.places| && t != u ==> Compatible(s.places[t], s.places[u])
  }

  lemma AdvanceIsCompatible(pending: nat, started: bool, max: nat, p: Place, q: Place, aged: bool)
    requires Compatible(p, q) && !BlockedBy(p, q)
    ensures Compatible(Advance(pending, started, max, p, aged), q)
  {
  }

  lemma EntryIsCompatible(call: Call, q: Place)
    ensures Compatible(Entry(call), q)
  {
  }

  lemma CompatibleBothWays(p: Place, q: Place)
    ensures Compatible(p, q) <==> Compatible(q, p)
  {
  }

  lemma HeldBlocks(s: Threads, who: nat, u: nat)
    requires who < |s.places| && u < |s.places| && BlockedBy(s.places[who], s.places[u])
    ensures Blocked(s, who)
  {
  }

  lemma StepKeepsExclusive(max: nat, s: Threads, e: Event)
    requires Exclusive(s)
    ensures Exclusive(Next(max, s, e))
  {
    hide Compatible, Blocked, BlockedBy, Advance, Entry;
    var s' := Next(max, s, e);
    if s' != s {
      forall u: nat | u < |s.places| && u != e.who
        ensures Compatible(s'.places[e.who], s.places[u]) && Compatible(s.places[u], s'.places[e.who])
      {
        assert Compatible(s.places[e.who], s.places[u]);
        if e.Go? {
          if BlockedBy(s.places[e.who], s.places[u]) {
            HeldBlocks(s, e.who, u);
          }
          AdvanceIsCompatible(s.pending, s.started, max, s.places[e.who], s.places[u], e.aged);
        } else {
          EntryIsCompatible(e.call, s.places[u]);
        }
        CompatibleBothWays(s'.places[e.who], s.places[u]);
      }
    }
  }

  lemma {:induction false} RunIsExclusive(max: nat, threads: nat, es: seq<Event>)
    ensures Exclusive(Run(max, Start(threads), es))
    decreases |es|
  {
    if es != [] {
      RunIsExclusive(max, threads, es[..|es| - 1]);
      hide Exclusive, Next;
      StepKeepsExclusive(max, Run(max, Start(threads), es[..|es| - 1]), es[|es| - 1]);
    }
  }

  // ---------- deadlock ----------

  /** A flush waits for batch_start while the background task, holding it, waits for pending. */
  predicate Meet(s: Threads, flusher: nat, ticker: nat) {
    && flusher < |s.places| && ticker < |s.places|
    && s.places[flusher].Emptying? && s.places[ticker].Aged?
  }

  /** Somebody is inside a call, and nobody inside a call can move. */
  predicate Stuck(s: Threads) {
    && (exists t :: 0 <= t < |s.places| && !s.places[t].Idle?)
    && forall t: nat :: t < |s.places| && !s.places[t].Idle? ==> Blocked(s, t)
  }

  lemma NotFree(s: Threads, lock: Place -> bool, t: nat)
    requires t < |s.places| && lock(s.places[t])
    ensures !Free(s, lock)
  {
  }

  /** The two never move again, whatever the other threads do, and no change is added or taken any more. */
  lemma {:induction false} MeetingIsForever(max: nat, s: Threads, flusher: nat, ticker: nat, es: seq<Event>)
    requires Exclusive(s) && Meet(s, flusher, ticker)
    ensures var s' := Run(max, s, es);
            Exclusive(s') && Meet(s', flusher, ticker) && s'.pending == s.pending
    decreases |es|
  {
    if es != [] {
      MeetingIsForever(max, s, flusher, ticker, es[..|es| - 1]);
      hide Exclusive, Next, Meet;
      MeetingStays(max, Run(max, s, es[..|es| - 1]), flusher, ticker, es[|es| - 1]);
    }
  }

  lemma MeetingStays(max: nat, s: Threads, flusher: nat, ticker: nat, e: Event)
    requires Exclusive(s) && Meet(s, flusher, ticker)
    ensures var s' := Next(max, s, e);
            Exclusive(s') && Meet(s', flusher, ticker) && s'.pending == s.pending
  {
    StepKeepsExclusive(max, s, e);
    NotFree(s, HoldsStart, ticker);
    NotFree(s, WritesPending, flusher);
    if e.who < |s.places| && e.who != flusher {
      assert Compatible(s.places[flusher], s.places[e.who]);
    }
  }

  predicate Wants(p: Place) {
    || p.WantMark? || p.WantPush? || p.WantCheck? || p.WantFlush? || p.WantNumber? || p.WantAge?
    || p.Emptying? || p.Aged?
  }

  ghost predicate SomeMeeting(s: Threads) {
    exists flusher, ticker :: Meet(s, flusher, ticker)
  }

  /** Without such a meeting, some thread inside a call can move. */
  lemma SomebodyMoves(s: Threads, busy: nat) returns (t: nat)
    requires busy < |s.places| && !s.places[busy].Idle? && !SomeMeeting(s)
    ensures t < |s.places| && !s.places[t].Idle? && !Blocked(s, t)
  {
    t := busy;
    if u: nat :| u < |s.places| && !s.places[u].Idle? && !Wants(s.places[u]) {
      t := u;
    } else if u: nat :| u < |s.places| && s.places[u].Aged? {
      t := u;
      forall v: nat | v < |s.places|
        ensures !WritesPending(s.places[v])
      {
        assert !Meet(s, v, u);
      }
    } else if u: nat :| u < |s.places| && s.places[u].Emptying? {
      t := u;
    } else {
      assert Free(s, HoldsPending) && Free(s, HoldsStart);
      assert Free(s, WritesPending) && Free(s, WritesStart) && Free(s, (p: Place) => p.InNumber?);
    }
  }

  /** So nothing else can stop the batcher: a stuck state is such a meeting. */
  lemma StuckMeansMeeting(s: Threads)
    requires Stuck(s)
    ensures SomeMeeting(s)
  {
    if !SomeMeeting(s) {
      var busy: nat :| busy < |s.places| && !s.places[busy].Idle?;
      var t := SomebodyMoves(s, busy);
    }
  }

  // ---------- every call can finish, unless two meet ----------

  /** Steps until the locks held at a place are given back. */
  function Rank(p: Place): nat {
    match p
    case Emptying => 3
    case Resetting => 2
    case Aged => 2
    case InMark => 1
    case InPush => 1
    case InCheck => 1
    case Leaving => 1
    case Taking => 1
    case InNumber => 1
    case Young => 1
    case InCount => 1
    case _ => 0
  }

  /** Steps until the call at a place is over, at most. */
  function Distance(p: Place): nat {
    match p
    case Idle => 0
    case Offering => 1
    case Leaving => 1
    case Young => 1
    case InNumber => 2
    case WantNumber => 3
    case Taking => 4
    case Resetting => 5
    case Emptying => 6
    case WantFlush => 7
    case InCheck => 8
    case WantCheck => 9
    case InPush => 10
    case WantPush => 11
    case InMark => 12
    case WantMark => 13
    case InCount => 8
    case Aged => 9
    case WantAge => 10
  }

  lemma AdvanceComesNearer(pending: nat, started: bool, max: nat, p: Place, aged: bool)
    requires !p.Idle?
    ensures var q := Advance(pending, started, max, p, aged);
            && Distance(q) < Distance(p)
            && (Rank(p) > 0 ==> Rank(q) < Rank(p) && !q.Emptying? && !q.Aged?)
  {
  }

  function Load(places: seq<Place>): nat {
    if places == [] then 0 else Load(places[..|places| - 1]) + Rank(places[|places| - 1])
  }

  lemma {:induction false} LoadMove(places: seq<Place>, who: nat, p: Place)
    requires who < |places|
    ensures Load(places[who := p]) + Rank(places[who]) == Load(places) + Rank(p)
    decreases |places|
  {
    hide Rank;
    var n := |places| - 1;
    if who == n {
      assert places[who := p][..n] == places[..n];
    } else {
      LoadMove(places[..n], who, p);
      assert places[who := p][..n] == places[..n][who := p];
    }
  }

  /** If locks are held and nobody meets, one of the holders can move. */
  lemma HolderMoves(s: Threads, holder: nat) returns (u: nat)
    requires holder < |s.places| && Rank(s.places[holder]) > 0 && !SomeMeeting(s)
    ensures u < |s.places| && Rank(s.places[u]) > 0 && !Blocked(s, u)
  {
    if u': nat :| u' < |s.places| && Rank(s.places[u']) > 0 && !Wants(s.places[u']) {
      u := u';
    } else if u': nat :| u' < |s.places| && s.places[u'].Aged? {
      u := u';
      forall v: nat | v < |s.places|
        ensures !WritesPending(s.places[v])
      {
        assert !Meet(s, v, u);
      }
    } else {
      u := holder;
    }
  }

  /** With no locks held, whoever is inside a call can move. */
  lemma NobodyHolds(s: Threads, t: nat)
    requires t < |s.places| && forall u :: 0 <= u < |s.places| ==> Rank(s.places[u]) == 0
    ensures !Blocked(s, t) && !SomeMeeting(s)
  {
    assert Free(s, HoldsPending) && Free(s, HoldsStart);
    assert Free(s, WritesPending) && Free(s, WritesStart) && Free(s, (p: Place) => p.InNumber?);
  }

  lemma {:induction false} RunFirst(max: nat, s: Threads, e: Event, es: seq<Event>)
    ensures Run(max, s, [e] + es) == Run(max, Next(max, s, e), es)
    decreases |es|
  {
    hide Next;
    if es == [] {
      assert [e] + es == [e] && [e][..0] == [];
    } else {
      RunFirst(max, s, e, es[..|es| - 1]);
      assert ([e] + es)[..|[e] + es| - 1] == [e] + es[..|es| - 1];
    }
  }

  /** No new call begins. */
  predicate NothingBegins(es: seq<Event>) {
    forall i :: 0 <= i < |es| ==> es[i].Go?
  }

  ghost predicate CanFinish(max: nat, s: Threads, t: nat)
    requires t < |s.places|
  {
    exists es :: NothingBegins(es) && |Run(max, s, es).places| == |s.places| && Run(max, s, es).places[t].Idle?
  }

  /** Moving a thread that holds a lock, or the only one that could, lets no two meet. */
  lemma MoveMeetsNobody(max: nat, s: Threads, u: nat)
    requires u < |s.places| && !s.places[u].Idle? && !Blocked(s, u) && !SomeMeeting(s)
    requires Rank(s.places[u]) > 0 || forall v :: 0 <= v < |s.places| ==> Rank(s.places[v]) == 0
    ensures var s' := Next(max, s, Go(u, false));
            && !SomeMeeting(s') && |s'.places| == |s.places|
            && (forall v :: 0 <= v < |s.places| && v != u ==> s'.places[v] == s.places[v])
            && Distance(s'.places[u]) < Distance(s.places[u])
            && (Rank(s.places[u]) > 0 ==> Load(s'.places) < Load(s.places))
  {
    var s' := Next(max, s, Go(u, false));
    AdvanceComesNearer(s.pending, s.started, max, s.places[u], false);
    LoadMove(s.places, u, s'.places[u]);
    hide Load, Advance, Blocked;
    forall flusher, ticker
      ensures !Meet(s', flusher, ticker)
    {
      assert !Meet(s, flusher, ticker);
    }
  }

  /**
   The calls begun so far suffice to bring any of them to its end: first whoever holds a lock moves, then the
   call itself.
   */
  lemma {:induction false} FinishUnlessMeeting(max: nat, s: Threads, t: nat) returns (es: seq<Event>)
    requires t < |s.places| && !SomeMeeting(s)
    ensures NothingBegins(es) && |Run(max, s, es).places| == |s.places| && Run(max, s, es).places[t].Idle?
    decreases Distance(s.places[t]), Load(s.places)
  {
    if s.places[t].Idle? {
      es := [];
    } else {
      var u := t;
      if holder: nat :| holder < |s.places| && Rank(s.places[holder]) > 0 {
        u := HolderMoves(s, holder);
      } else {
        NobodyHolds(s, t);
      }
      assert !s.places[u].Idle?;
      hide Run, Blocked, SomeMeeting, Load, Distance;
      MoveMeetsNobody(max, s, u);
      var s' := Next(max, s, Go(u, false));
      hide Next;
      var rest := FinishUnlessMeeting(max, s', t);
      RunFirst(max, s, Go(u, false), rest);
      es := [Go(u, false)] + rest;
    }
  }

  /** So the calls under way can all finish exactly if no two have met. */
  lemma AllFinishUnlessMeeting(max: nat, s: Threads)
    requires Exclusive(s)
    ensures AllCanFinish(max, s) <==> !SomeMeeting(s)
  {
    if SomeMeeting(s) {
      var flusher, ticker :| Meet(s, flusher, ticker);
      MeetingBlocks(max, s, flusher, ticker);
    } else {
      forall t: nat | t < |s.places|
        ensures CanFinish(max, s, t)
      {
        var es := FinishUnlessMeeting(max, s, t);
      }
    }
  }

  lemma MeetingBlocks(max: nat, s: Threads, flusher: nat, ticker: nat)
    requires Exclusive(s) && Meet(s, flusher, ticker)
    ensures !CanFinish(max, s, flusher) && !CanFinish(max, s, ticker)
  {
    forall es: seq<Event>
      ensures |Run(max, s, es).places| == |s.places| ==>
                !Run(max, s, es).places[flusher].Idle? && !Run(max, s, es).places[ticker].Idle?
    {
      MeetingIsForever(max, s, flusher, ticker, es);
    }
  }

  // ---------- which callers can meet ----------

  /** Only these kinds of calls are begun. */
  predicate Begins(es: seq<Event>, calls: set<Call>) {
    forall i :: 0 <= i < |es| && es[i].Begin? ==> es[i].call in calls
  }

  predicate Ticks(p: Place) { p.WantAge? || p.Young? || p.Aged? || p.InCount? }

  predicate Adds(p: Place) {
    p.WantMark? || p.InMark? || p.WantPush? || p.InPush? || p.WantCheck? || p.InCheck? || p.Emptying?
  }

  predicate NobodyTicks(s: Threads) {
    forall t :: 0 <= t < |s.places| ==> !Ticks(s.places[t])
  }

  predicate NobodyAdds(s: Threads) {
    s.pending == 0 && forall t :: 0 <= t < |s.places| ==> !Adds(s.places[t])
  }

  lemma NobodyStartsToTick(max: nat, s: Threads, e: Event)
    requires NobodyTicks(s) && (e.Begin? ==> e.call != Tick)
    ensures NobodyTicks(Next(max, s, e))
  {
    hide Blocked;
  }

  lemma NobodyStartsToAdd(max: nat, s: Threads, e: Event)
    requires NobodyAdds(s) && (e.Begin? ==> e.call != Add)
    ensures NobodyAdds(Next(max, s, e))
  {
    hide Blocked;
  }

  lemma {:induction false} WithoutTicks(max: nat, threads: nat, es: seq<Event>, calls: set<Call>)
    requires Begins(es, calls) && Tick !in calls
    ensures NobodyTicks(Run(max, Start(threads), es))
    decreases |es|
  {
    if es != [] {
      WithoutTicks(max, threads, es[..|es| - 1], calls);
      hide Run;
      NobodyStartsToTick(max, Run(max, Start(threads), es[..|es| - 1]), es[|es| - 1]);
    }
  }

  lemma {:induction false} WithoutAdds(max: nat, threads: nat, es: seq<Event>, calls: set<Call>)
    requires Begins(es, calls) && Add !in calls
    ensures NobodyAdds(Run(max, Start(threads), es))
    decreases |es|
  {
    if es != [] {
      WithoutAdds(max, threads, es[..|es| - 1], calls);
      hide Run;
      NobodyStartsToAdd(max, Run(max, Start(threads), es[..|es| - 1]), es[|es| - 1]);
    }
  }

  lemma {:induction false} RunKeepsThreads(max: nat, s: Threads, es: seq<Event>)
    ensures |Run(max, s, es).places| == |s.places|
    decreases |es|
  {
    if es != [] {
      RunKeepsThreads(max, s, es[..|es| - 1]);
      hide Run, Blocked;
    }
  }

  // ---------- and they do ----------

  /** The first two of at least two threads at work, all others idle. */
  function Two(threads: nat, a: Place, b: Place, pending: nat, started: bool): Threads
    requires threads > 1
  {
    Threads(seq(threads, i => if i == 0 then a else if i == 1 then b else Idle), pending, started)
  }

  lemma FreeOfTwo(s: Threads, lock: Place -> bool)
    requires |s.places| > 1 && forall i :: 1 < i < |s.places| ==> s.places[i].Idle?
    requires !lock(Idle) && !lock(s.places[0]) && !lock(s.places[1])
    ensures Free(s, lock)
  {
  }

  lemma FirstGoes(max: nat, threads: nat, a: Place, b: Place, pending: nat, started: bool)
    requires threads > 1 && !BlockedBy(a, b)
    ensures Next(max, Two(threads, a, b, pending, started), Go(0, false))
            == Two(threads, Advance(pending, started, max, a, false), b, PendingAfter(pending, a),
              StartedAfter(started, a))
  {
    var s := Two(threads, a, b, pending, started);
    assert !Blocked(s, 0) by {
      OnlySecondBlocks(s, a, b);
    }
    hide Blocked, Advance;
    assert s.places[0 := Advance(pending, started, max, a, false)]
        == Two(threads, Advance(pending, started, max, a, false), b, 0, false).places;
  }

  lemma OnlySecondBlocks(s: Threads, a: Place, b: Place)
    requires |s.places| > 1 && s.places[0] == a && s.places[1] == b && !BlockedBy(a, b)
    requires forall i :: 1 < i < |s.places| ==> s.places[i].Idle?
    ensures !Blocked(s, 0)
  {
    match a {
      case WantMark => FreeOfTwo(s, HoldsStart);
      case WantPush => FreeOfTwo(s, HoldsPending);
      case WantCheck => FreeOfTwo(s, WritesPending);
      case WantFlush => FreeOfTwo(s, HoldsPending);
      case Emptying => FreeOfTwo(s, HoldsStart);
      case WantNumber => FreeOfTwo(s, (p: Place) => p.InNumber?);
      case WantAge => FreeOfTwo(s, WritesStart);
      case Aged => FreeOfTwo(s, WritesPending);
      case _ =>
    }
  }

  /** A run of adds and ticks alone that ends in a state. */
  predicate Reaches(max: nat, threads: nat, es: seq<Event>, s: Threads) {
    Run(max, Start(threads), es) == s && Begins(es, {Add, Tick})
  }

  lemma Extend(max: nat, threads: nat, es: seq<Event>, s: Threads, e: Event)
    requires Reaches(max, threads, es, s) && (e.Begin? ==> e.call == Add || e.call == Tick)
    ensures Reaches(max, threads, es + [e], Next(max, s, e))
  {
    hide Next;
    assert (es + [e])[..|es|] == es;
  }

  lemma FirstReaches(max: nat, threads: nat, es: seq<Event>, a: Place, b: Place, pending: nat, started: bool)
    requires threads > 1 && !BlockedBy(a, b) && Reaches(max, threads, es, Two(threads, a, b, pending, started))
    ensures Reaches(max, threads, es + [Go(0, false)],
                    Two(threads, Advance(pending, started, max, a, false), b, PendingAfter(pending, a),
                      StartedAfter(started, a)))
  {
    hide Two, Advance, Reaches;
    FirstGoes(max, threads, a, b, pending, started);
    Extend(max, threads, es, Two(threads, a, b, pending, started), Go(0, false));
  }

  /** The first thread's add, up to its size check. */
  lemma AddReaches(max: nat, threads: nat, es: seq<Event>, pending: nat, started: bool) returns (more: seq<Event>)
    requires threads > 1 && Reaches(max, threads, es, Two(threads, Idle, Idle, pending, started))
    ensures Reaches(max, threads, more, Two(threads, WantCheck, Idle, pending + 1, true))
  {
    hide Reaches, Two;
    more := es + [Begin(0, Add)];
    assert Next(max, Two(threads, Idle, Idle, pending, started), Begin(0, Add))
           == Two(threads, WantMark, Idle, pending, started) by {
      FirstBegins(max, threads, pending, started);
    }
    hide Next;
    Extend(max, threads, es, Two(threads, Idle, Idle, pending, started), Begin(0, Add));
    FirstReaches(max, threads, more, WantMark, Idle, pending, started);
    more := more + [Go(0, false)];
    FirstReaches(max, threads, more, InMark, Idle, pending, started);
    more := more + [Go(0, false)];
    FirstReaches(max, threads, more, WantPush, Idle, pending, true);
    more := more + [Go(0, false)];
    FirstReaches(max, threads, more, InPush, Idle, pending, true);
    more := more + [Go(0, false)];
  }

  lemma FirstBegins(max: nat, threads: nat, pending: nat, started: bool)
    requires threads > 1
    ensures Next(max, Two(threads, Idle, Idle, pending, started), Begin(0, Add))
            == Two(threads, WantMark, Idle, pending, started)
  {
    assert Two(threads, Idle, Idle, pending, started).places[0 := WantMark]
           == Two(threads, WantMark, Idle, pending, started).places;
  }

  /** The second thread finds the timer aged and waits to count. */
  lemma SecondAges(max: nat, threads: nat, pending: nat)
    requires threads > 1
    ensures var s := Two(threads, WantCheck, Idle, pending, true);
            Next(max, Next(max, s, Begin(1, Tick)), Go(1, true)) == Two(threads, WantCheck, Aged, pending, true)
  {
    var s := Two(threads, WantCheck, Idle, pending, true);
    var s1 := Next(max, s, Begin(1, Tick));
    assert s1 == Two(threads, WantCheck, WantAge, pending, true);
    assert Free(s1, WritesStart);
    assert s1.places[1 := Aged] == Two(threads, WantCheck, Aged, pending, true).places;
  }

  /** Adds that do not fill the batch, one after the other. */
  lemma FillReaches(max: nat, threads: nat, count: nat) returns (es: seq<Event>)
    requires threads > 1 && (count > 0 ==> count < max)
    ensures Reaches(max, threads, es, Two(threads, Idle, Idle, count, count > 0))
  {
    if count == 0 {
      es := [];
      assert Start(threads) == Two(threads, Idle, Idle, 0, false);
    } else {
      es := FillReaches(max, threads, count - 1);
      hide Reaches, Two;
      es := AddReaches(max, threads, es, count - 1, count - 1 > 0);
      FirstReaches(max, threads, es, WantCheck, Idle, count, true);
      es := es + [Go(0, false)];
      FirstReaches(max, threads, es, InCheck, Idle, count, true);
      es := es + [Go(0, false)];
    }
  }

  lemma AgeReaches(max: nat, threads: nat, es: seq<Event>, pending: nat) returns (more: seq<Event>)
    requires threads > 1 && Reaches(max, threads, es, Two(threads, WantCheck, Idle, pending, true))
    ensures Reaches(max, threads, more, Two(threads, WantCheck, Aged, pending, true))
  {
    hide Reaches, Next, Two;
    var s := Two(threads, WantCheck, Idle, pending, true);
    Extend(max, threads, es, s, Begin(1, Tick));
    Extend(max, threads, es + [Begin(1, Tick)], Next(max, s, Begin(1, Tick)), Go(1, true));
    SecondAges(max, threads, pending);
    more := es + [Begin(1, Tick)] + [Go(1, true)];
  }

  /** The add that fills the batch goes on to flush while the background task waits to count. */
  lemma Collide(max: nat, threads: nat) returns (es: seq<Event>)
    requires threads > 1
    ensures Begins(es, {Add, Tick}) && Meet(Run(max, Start(threads), es), 0, 1)
  {
    hide Reaches, Two;
    var count := if max == 0 then 0 else max - 1;
    es := FillReaches(max, threads, count);
    es := AddReaches(max, threads, es, count, count > 0);
    es := AgeReaches(max, threads, es, count + 1);
    FirstReaches(max, threads, es, WantCheck, Aged, count + 1, true);
    es := es + [Go(0, false)];
    FirstReaches(max, threads, es, InCheck, Aged, count + 1, true);
    es := es + [Go(0, false)];
    FirstReaches(max, threads, es, WantFlush, Aged, count + 1, true);
    es := es + [Go(0, false)];
    MeetingReached(max, threads, es, count + 1);
  }

  lemma MeetingReached(max: nat, threads: nat, es: seq<Event>, pending: nat)
    requires threads > 1 && Reaches(max, threads, es, Two(threads, Emptying, Aged, pending, true))
    ensures Begins(es, {Add, Tick}) && Meet(Run(max, Start(threads), es), 0, 1)
  {
    hide Run;
  }

  ghost predicate AllCanFinish(max: nat, s: Threads) {
    forall t: nat :: t < |s.places| ==> CanFinish(max, s, t)
  }

  /**
   When no call can ever be blocked for good, whatever the interleaving: exactly if there is one
   thread only, or no adds (batching is off, say), or no background task.
   */
  lemma CallsAlwaysFinish(max: nat, threads: nat, calls: set<Call>)
    ensures (forall es :: Begins(es, calls) ==> AllCanFinish(max, Run(max, Start(threads), es)))
            <==> threads <= 1 || Add !in calls || Tick !in calls
  {
    if threads <= 1 || Add !in calls || Tick !in calls {
      forall es | Begins(es, calls)
        ensures AllCanFinish(max, Run(max, Start(threads), es))
      {
        var s := Run(max, Start(threads), es);
        RunIsExclusive(max, threads, es);
        RunKeepsThreads(max, Start(threads), es);
        if Tick !in calls {
          WithoutTicks(max, threads, es, calls);
        } else if Add !in calls {
          WithoutAdds(max, threads, es, calls);
        }
        hide Run, Exclusive;
        assert !SomeMeeting(s);
        AllFinishUnlessMeeting(max, s);
      }
    } else {
      var es := Collide(max, threads);
      RunIsExclusive(max, threads, es);
      MeetingBlocks(max, Run(max, Start(threads), es), 0, 1);
      hide Run, CanFinish;
      assert Begins(es, calls);
      assert !AllCanFinish(max, Run(max, Start(threads), es));
    }
  }
}
