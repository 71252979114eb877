/**
 The file store under several threads (src/persist.rs). `append` counts the tail, pushes and
 flushes under separate locks, and `flush` empties the buffer before it asks for the file. A flush
 writes whole here; failing writes are the matter of Persist.
 */
module StoreThreads {
  import opened Changes

  /** A change with the offset that `append` returns for it. */
  datatype Entry = Entry(offset: nat, change: Change)

  /** Where a thread stands between two locks; `closing` if its flush is part of `close`. */
  datatype Place =
    | Idle
    | Counted(entry: Entry)
    | Flushing(closing: bool)
    | Holding(batch: seq<Entry>, closing: bool)
    | Releasing

  /**
   `counted` lists the changes by offset, so its length is the tail offset, and `pushed` lists them
   as they came into the buffer. `lost` was taken from the buffer and never written. `promised` is
   what had been pushed when `close` was last called on the open file.
   */
  datatype Store = Store(
    places: seq<Place>,
    counted: seq<Change>,
    pushed: seq<Entry>,
    buffer: seq<Entry>,
    disk: seq<Entry>,
    isOpen: bool,
    lost: seq<Entry>,
    promised: seq<Entry>)

  function Start(threads: nat): Store {
    Store(seq(threads, _ => Idle), [], [], [], [], true, [], [])
  }

  datatype Step = Count(change: Change) | Push | CallFlush | CallClose | Take | Write | Release

  datatype Event = Event(who: nat, step: Step)

  predicate Enabled(s: Store, e: Event) {
    && e.who < |s.places|
    && var place := s.places[e.who];
       match e.step
       case Count(_) => place.Idle?
       case Push => place.Counted?
       case CallFlush => place.Idle?
       case CallClose => place.Idle?
       case Take => place.Flushing?
       case Write => place.Holding?
       case Release => place.Releasing?
  }

  function Move(s: Store, who: nat, place: Place): Store
    requires who < |s.places|
  {
    s.(places := s.places[who := place])
  }

  function Flushed(closing: bool): Place {
    if closing then Releasing else Idle
  }

  /** One step of one thread; an event that is not enabled changes nothing. */
  function Next(threshold: nat, s: Store, e: Event): Store {
    if !Enabled(s, e) then s
    else
      match e.step
      case Count(c) =>
        Move(s, e.who, Counted(Entry(|s.counted|, c))).(counted := s.counted + [c])
      case Push =>
        var entry := s.places[e.who].entry;
        Move(s, e.who, if |s.buffer| + 1 >= threshold then Flushing(false) else Idle).(
          buffer := s.buffer + [entry], pushed := s.pushed + [entry])
      case CallFlush =>
        Move(s, e.who, Flushing(false))
      case CallClose =>
        Move(s, e.who, Flushing(true)).(promised := if s.isOpen then s.pushed else s.promised)
      case Take =>
        var closing := s.places[e.who].closing;
        if s.buffer == [] then Move(s, e.who, Flushed(closing))
        else Move(s, e.who, Holding(s.buffer, closing)).(buffer := [])
      case Write =>
        var batch, closing := s.places[e.who].batch, s.places[e.who].closing;
        if s.isOpen then Move(s, e.who, Flushed(closing)).(disk := s.disk + batch)
        else Move(s, e.who, Flushed(closing)).(lost := s.lost + batch)
      case Release =>
        Move(s, e.who, Idle).(isOpen := false)
  }

  function Run(threshold: nat, s: Store, es: seq<Event>): Store {
    if es == [] then s else Next(threshold, Run(threshold, s, es[..|es| - 1]), es[|es| - 1])
  }

  predicate Quiescent(s: Store) {
    forall t :: 0 <= t < |s.places| ==> s.places[t].Idle?
  }

  /** The log that `append` promised with the offsets it returned. */
  function Entries(counted: seq<Change>): seq<Entry> {
    seq(|counted|, i requires 0 <= i < |counted| => Entry(i, counted[i]))
  }

  // ---------- every change is at one place ----------

  function Part(place: Place): seq<Entry> {
    match place
    case Counted(entry) => [entry]
    case Holding(batch, _) => batch
    case _ => []
  }

  function InHand(places: seq<Place>): multiset<Entry> {
    if places == [] then multiset{}
    else InHand(places[..|places| - 1]) + multiset(Part(places[|places| - 1]))
  }

  lemma AddBoth<T>(a: multiset<T>, p: multiset<T>, b: multiset<T>, q: multiset<T>, r: multiset<T>)
    requires a + p == b + q
    ensures a + r + p == b + r + q
  {
    forall x
      ensures (a + r + p)[x] == (b + r + q)[x]
    {
      assert (a + p)[x] == (b + q)[x];
    }
  }

  lemma {:induction false} InHandMove(places: seq<Place>, who: nat, place: Place)
    requires who < |places|
    ensures InHand(places[who := place]) + multiset(Part(places[who])) == InHand(places) + multiset(Part(place))
    decreases |places|
  {
    hide Part;
    var n := |places| - 1;
    if who == n {
      assert places[who := place][..n] == places[..n];
    } else {
      InHandMove(places[..n], who, place);
      assert places[who := place][..n] == places[..n][who := place];
      assert places[who := place][n] == places[n];
      AddBoth(InHand(places[..n][who := place]), multiset(Part(places[who])), InHand(places[..n]),
              multiset(Part(place)), multiset(Part(places[n])));
    }
  }

  lemma {:induction false} InSomeHand(places: seq<Place>, entry: Entry) returns (t: nat)
    requires entry in InHand(places)
    ensures t < |places| && entry in Part(places[t])
    decreases |places|
  {
    hide Part;
    t := |places| - 1;
    if entry !in Part(places[t]) {
      t := InSomeHand(places[..t], entry);
    }
  }

  lemma {:induction false} IdleHands(places: seq<Place>)
    requires forall t :: 0 <= t < |places| ==> places[t].Idle?
    ensures InHand(places) == multiset{}
    decreases |places|
  {
    if places != [] {
      IdleHands(places[..|places| - 1]);
    }
  }

  function Everything(s: Store): multiset<Entry> {
    multiset(s.disk) + multiset(s.lost) + multiset(s.buffer) + InHand(s.places)
  }

  predicate Conserved(s: Store) {
    && Everything(s) == multiset(Entries(s.counted))
    && (s.isOpen ==> s.lost == [])
  }

  lemma EntriesGrow(counted: seq<Change>, c: Change)
    ensures Entries(counted + [c]) == Entries(counted) + [Entry(|counted|, c)]
  {
  }

  /** What the thread puts down is picked up elsewhere. */
  lemma HandOver(s: Store, t: Store, who: nat)
    requires Conserved(s) && t.counted == s.counted && (t.isOpen ==> t.lost == [])
    requires who < |s.places| == |t.places| && t.places == s.places[who := t.places[who]]
    requires multiset(t.disk) + multiset(t.lost) + multiset(t.buffer) + multiset(Part(t.places[who]))
          == multiset(s.disk) + multiset(s.lost) + multiset(s.buffer) + multiset(Part(s.places[who]))
    ensures Conserved(t)
  {
    hide InHand, Entries, Part;
    InHandMove(s.places, who, t.places[who]);
    Exchange(multiset(s.disk) + multiset(s.lost) + multiset(s.buffer), multiset(Part(s.places[who])), InHand(s.places),
             multiset(t.disk) + multiset(t.lost) + multiset(t.buffer), multiset(Part(t.places[who])), InHand(t.places));
  }

  lemma Exchange<T>(a: multiset<T>, p: multiset<T>, h: multiset<T>, b: multiset<T>, q: multiset<T>, i: multiset<T>)
    requires a + p == b + q && i + p == h + q
    ensures a + h == b + i
  {
    forall x
      ensures (a + h)[x] == (b + i)[x]
    {
      assert (a + p)[x] == (b + q)[x] && (i + p)[x] == (h + q)[x];
    }
  }

  lemma CountConserves(s: Store, who: nat, c: Change)
    requires Conserved(s) && who < |s.places| && s.places[who].Idle?
    ensures Conserved(Move(s, who, Counted(Entry(|s.counted|, c))).(counted := s.counted + [c]))
  {
    hide InHand, Entries;
    var entry := Entry(|s.counted|, c);
    InHandMove(s.places, who, Counted(entry));
    EntriesGrow(s.counted, c);
    var there, more := multiset(s.disk) + multiset(s.lost) + multiset(s.buffer), multiset{entry};
    assert InHand(s.places[who := Counted(entry)]) == InHand(s.places) + more;
    assert there + InHand(s.places) + more == there + (InHand(s.places) + more);
  }

  lemma StepConserves(threshold: nat, s: Store, e: Event)
    requires Conserved(s)
    ensures Conserved(Next(threshold, s, e))
  {
    hide Conserved, Everything, InHand, Entries;
    if Enabled(s, e) {
      var t := Next(threshold, s, e);
      StaysOpen(threshold, s, e);
      match e.step {
        case Count(c) => CountConserves(s, e.who, c);
        case Push => PushConserves(s, t, e.who);
        case Take =>
          if s.buffer == [] {
            NothingHandedOver(s, t, e.who);
          } else {
            TakeConserves(s, t, e.who);
          }
        case Write => WriteConserves(s, t, e.who);
        case _ => NothingHandedOver(s, t, e.who);
      }
    }
  }

  lemma NothingHandedOver(s: Store, t: Store, who: nat)
    requires Conserved(s) && t.counted == s.counted && (t.isOpen ==> t.lost == [])
    requires who < |s.places| == |t.places| && t.places == s.places[who := t.places[who]]
    requires Part(s.places[who]) == Part(t.places[who]) == []
    requires t.disk == s.disk && t.lost == s.lost && t.buffer == s.buffer
    ensures Conserved(t)
  {
    hide Conserved;
    HandOver(s, t, who);
  }

  lemma PushConserves(s: Store, t: Store, who: nat)
    requires Conserved(s) && t.counted == s.counted && (t.isOpen ==> t.lost == [])
    requires who < |s.places| == |t.places| && t.places == s.places[who := t.places[who]]
    requires s.places[who].Counted? && Part(t.places[who]) == []
    requires t.disk == s.disk && t.lost == s.lost && t.buffer == s.buffer + [s.places[who].entry]
    ensures Conserved(t)
  {
    hide Conserved;
    HandOver(s, t, who);
  }

  lemma TakeConserves(s: Store, t: Store, who: nat)
    requires Conserved(s) && t.counted == s.counted && (t.isOpen ==> t.lost == [])
    requires who < |s.places| == |t.places| && t.places == s.places[who := t.places[who]]
    requires Part(s.places[who]) == [] && Part(t.places[who]) == s.buffer
    requires t.disk == s.disk && t.lost == s.lost && t.buffer == []
    ensures Conserved(t)
  {
    hide Conserved;
    HandOver(s, t, who);
  }

  lemma WriteConserves(s: Store, t: Store, who: nat)
    requires Conserved(s) && t.counted == s.counted && (t.isOpen ==> t.lost == [])
    requires who < |s.places| == |t.places| && t.places == s.places[who := t.places[who]]
    requires Part(t.places[who]) == [] && t.buffer == s.buffer
    requires var batch := Part(s.places[who]);
             || (t.disk == s.disk + batch && t.lost == s.lost)
             || (t.disk == s.disk && t.lost == s.lost + batch)
    ensures Conserved(t)
  {
    hide Conserved;
    HandOver(s, t, who);
  }

  lemma StaysOpen(threshold: nat, s: Store, e: Event)
    requires Conserved(s)
    ensures var t := Next(threshold, s, e); t.isOpen ==> s.isOpen && t.lost == []
  {
    hide Everything, Entries;
  }

  lemma {:induction false} RunConserves(threshold: nat, threads: nat, es: seq<Event>)
    ensures Conserved(Run(threshold, Start(threads), es))
    decreases |es|
  {
    if es == [] {
      IdleHands(Start(threads).places);
    } else {
      RunConserves(threshold, threads, es[..|es| - 1]);
      hide Conserved, Next;
      StepConserves(threshold, Run(threshold, Start(threads), es[..|es| - 1]), es[|es| - 1]);
    }
  }

  /**
   In every reachable state each counted change is in the file, in the buffer, with one thread, or
   lost, and only once; nothing is lost while the file is open.
   */
  lemma EveryChangeOnce(threshold: nat, threads: nat, es: seq<Event>)
    ensures var s := Run(threshold, Start(threads), es);
            && Everything(s) == multiset(Entries(s.counted))
            && (s.isOpen ==> s.lost == [])
            && (Quiescent(s) ==>
                  multiset(s.disk) + multiset(s.lost) + multiset(s.buffer) == multiset(Entries(s.counted)))
  {
    RunConserves(threshold, threads, es);
    var s := Run(threshold, Start(threads), es);
    hide Run, Entries;
    if Quiescent(s) {
      IdleHands(s.places);
    }
  }

  // ---------- no more than the threshold waits ----------

  /** Someone is on the way to empty a buffer that has reached the threshold. */
  predicate FlushUnderWay(threshold: nat, s: Store) {
    s.buffer != [] && |s.buffer| >= threshold ==> exists t :: 0 <= t < |s.places| && s.places[t].Flushing?
  }

  lemma StepKeepsFlushUnderWay(threshold: nat, s: Store, e: Event)
    requires FlushUnderWay(threshold, s)
    ensures FlushUnderWay(threshold, Next(threshold, s, e))
  {
    if Enabled(s, e) {
      var s' := Next(threshold, s, e);
      if e.step.Push? && |s'.buffer| >= threshold {
        assert s'.places[e.who].Flushing?;
      } else if !e.step.Take? && s.buffer != [] && |s.buffer| >= threshold {
        var t :| 0 <= t < |s.places| && s.places[t].Flushing?;
        assert s'.places[t].Flushing?;
      }
    }
  }

  /** In every run of any number of threads, what the buffer holds at rest is nothing or below the threshold. */
  lemma {:induction false} BufferStaysSmall(threshold: nat, threads: nat, es: seq<Event>)
    ensures FlushUnderWay(threshold, Run(threshold, Start(threads), es))
    ensures var s := Run(threshold, Start(threads), es);
            Quiescent(s) ==> s.buffer == [] || |s.buffer| < threshold
    decreases |es|
  {
    if es != [] {
      BufferStaysSmall(threshold, threads, es[..|es| - 1]);
      hide Next;
      StepKeepsFlushUnderWay(threshold, Run(threshold, Start(threads), es[..|es| - 1]), es[|es| - 1]);
    }
  }

  // ---------- the file follows the offsets unless somebody overtakes ----------

  ghost predicate Sorted(a: seq<Entry>) {
    forall i, j :: 0 <= i < j < |a| ==> a[i].offset < a[j].offset
  }

  ghost predicate Before(a: seq<Entry>, b: seq<Entry>) {
    forall x, y :: x in a && y in b ==> x.offset < y.offset
  }

  ghost predicate Below(a: seq<Entry>, n: nat) {
    forall x :: x in a ==> x.offset < n
  }

  /** A thread pushes past a smaller offset, or writes past an earlier batch. */
  predicate Overtakes(s: Store, e: Event) {
    Enabled(s, e)
    && match e.step
       case Push =>
         exists t :: 0 <= t < |s.places| && s.places[t].Counted?
                     && s.places[t].entry.offset < s.places[e.who].entry.offset
       case Write =>
         exists t :: 0 <= t < |s.places| && Precedes(s.places[t], s.places[e.who])
       case _ => false
  }

  predicate Precedes(p: Place, q: Place) {
    && p.Holding? && q.Holding? && p.batch != [] && q.batch != []
    && p.batch[0].offset < q.batch[0].offset
  }

  predicate WithoutOvertaking(threshold: nat, s: Store, es: seq<Event>) {
    es == []
    || (var before := es[..|es| - 1];
        WithoutOvertaking(threshold, s, before) && !Overtakes(Run(threshold, s, before), es[|es| - 1]))
  }

  /** What is on its way lies between the file and the buffer, and what is only counted comes last. */
  ghost predicate OnItsWay(p: Place, disk: seq<Entry>, buffer: seq<Entry>, n: nat) {
    && Sorted(Part(p)) && Below(Part(p), n) && Before(disk, Part(p))
    && (p.Holding? ==> p.batch != [] && Before(p.batch, buffer))
    && (p.Counted? ==> Before(buffer, Part(p)))
  }

  ghost predicate Apart(p: Place, q: Place) {
    && (p.Holding? && q.Holding? ==> Before(p.batch, q.batch) || Before(q.batch, p.batch))
    && (p.Holding? && q.Counted? ==> Before(p.batch, Part(q)))
    && (p.Counted? && q.Holding? ==> Before(q.batch, Part(p)))
    && (p.Counted? && q.Counted? ==> p.entry.offset != q.entry.offset)
  }

  ghost predicate InOrder(s: Store) {
    && Sorted(s.disk) && Sorted(s.buffer) && Before(s.disk, s.buffer)
    && Below(s.disk, |s.counted|) && Below(s.buffer, |s.counted|)
    && (forall t :: 0 <= t < |s.places| ==> OnItsWay(s.places[t], s.disk, s.buffer, |s.counted|))
    && (forall t, u :: 0 <= t < |s.places| && 0 <= u < |s.places| && t != u ==> Apart(s.places[t], s.places[u]))
  }

  lemma CountPasses(q: Place, disk: seq<Entry>, buffer: seq<Entry>, n: nat, c: Change)
    requires OnItsWay(q, disk, buffer, n)
    ensures OnItsWay(q, disk, buffer, n + 1)
    ensures Apart(Counted(Entry(n, c)), q) && Apart(q, Counted(Entry(n, c)))
  {
    assert q.Counted? ==> q.entry in Part(q);
  }

  lemma PushPasses(p: Place, q: Place, disk: seq<Entry>, buffer: seq<Entry>, n: nat)
    requires p.Counted? && OnItsWay(q, disk, buffer, n) && Apart(p, q)
    requires q.Counted? ==> p.entry.offset <= q.entry.offset
    ensures OnItsWay(q, disk, buffer + [p.entry], n)
  {
    assert p.entry in Part(p);
  }

  lemma TakePasses(q: Place, disk: seq<Entry>, buffer: seq<Entry>, n: nat, closing: bool)
    requires OnItsWay(q, disk, buffer, n)
    ensures OnItsWay(q, disk, [], n)
    ensures Apart(Holding(buffer, closing), q) && Apart(q, Holding(buffer, closing))
  {
  }

  lemma WritePasses(p: Place, q: Place, disk: seq<Entry>, buffer: seq<Entry>, n: nat)
    requires p.Holding? && OnItsWay(p, disk, buffer, n) && OnItsWay(q, disk, buffer, n)
    requires Apart(p, q) && !Precedes(q, p)
    ensures OnItsWay(q, disk + p.batch, buffer, n)
  {
    if q.Holding? {
      assert p.batch[0] in p.batch && q.batch[0] in q.batch;
    }
  }

  lemma Joins(a: seq<Entry>, b: seq<Entry>, n: nat)
    requires Sorted(a) && Sorted(b) && Before(a, b) && Below(a, n) && Below(b, n)
    ensures Sorted(a + b) && Below(a + b, n)
  {
  }

  /** The step leaves every other thread in place, and keeps it where it may be. */
  lemma OthersStay(s: Store, t: Store, who: nat)
    requires InOrder(s) && who < |s.places| == |t.places| && t.places == s.places[who := t.places[who]]
    requires Sorted(t.disk) && Sorted(t.buffer) && Before(t.disk, t.buffer)
    requires Below(t.disk, |t.counted|) && Below(t.buffer, |t.counted|)
    requires OnItsWay(t.places[who], t.disk, t.buffer, |t.counted|)
    requires forall u :: 0 <= u < |s.places| && u != who ==> OnItsWay(s.places[u], t.disk, t.buffer, |t.counted|)
    requires forall u :: 0 <= u < |s.places| && u != who ==>
               Apart(t.places[who], s.places[u]) && Apart(s.places[u], t.places[who])
    ensures InOrder(t)
  {
    hide Sorted, Before, Below, OnItsWay, Apart;
  }

  lemma StepKeepsOrder(threshold: nat, s: Store, e: Event)
    requires InOrder(s) && !Overtakes(s, e)
    ensures InOrder(Next(threshold, s, e))
  {
    hide Sorted, Before, Below, OnItsWay, Apart;
    if Enabled(s, e) {
      var t := Next(threshold, s, e);
      match e.step {
        case Count(c) => CountKeepsOrder(s, e.who, c);
        case Push => PushKeepsOrder(s, t, e.who);
        case Take =>
          if s.buffer == [] {
            NothingMoves(s, t, e.who);
          } else {
            TakeKeepsOrder(s, t, e.who, s.places[e.who].closing);
          }
        case Write =>
          if s.isOpen {
            WriteKeepsOrder(s, t, e.who);
          } else {
            NothingMoves(s, t, e.who);
          }
        case _ => NothingMoves(s, t, e.who);
      }
    }
  }

  lemma NothingMoves(s: Store, t: Store, who: nat)
    requires InOrder(s) && who < |s.places| == |t.places| && t.places == s.places[who := t.places[who]]
    requires !t.places[who].Holding? && !t.places[who].Counted?
    requires t.disk == s.disk && t.buffer == s.buffer && t.counted == s.counted
    ensures InOrder(t)
  {
    hide InOrder, OnItsWay, Apart;
    InOrderAt(s);
    Nowhere(t.places[who], s.places, t.disk, t.buffer, |t.counted|);
    OthersStay(s, t, who);
  }

  lemma InOrderAt(s: Store)
    requires InOrder(s)
    ensures Sorted(s.disk) && Sorted(s.buffer) && Before(s.disk, s.buffer)
    ensures Below(s.disk, |s.counted|) && Below(s.buffer, |s.counted|)
    ensures forall t :: 0 <= t < |s.places| ==> OnItsWay(s.places[t], s.disk, s.buffer, |s.counted|)
    ensures forall t, u :: 0 <= t < |s.places| && 0 <= u < |s.places| && t != u ==> Apart(s.places[t], s.places[u])
  {
    hide Sorted, Before, Below, OnItsWay, Apart;
  }

  lemma CountKeepsOrder(s: Store, who: nat, c: Change)
    requires InOrder(s) && who < |s.places|
    ensures InOrder(Move(s, who, Counted(Entry(|s.counted|, c))).(counted := s.counted + [c]))
  {
    hide InOrder, OnItsWay, Apart;
    InOrderAt(s);
    var n := |s.counted|;
    forall u | 0 <= u < |s.places| && u != who
      ensures OnItsWay(s.places[u], s.disk, s.buffer, n + 1)
      ensures Apart(Counted(Entry(n, c)), s.places[u]) && Apart(s.places[u], Counted(Entry(n, c)))
    {
      CountPasses(s.places[u], s.disk, s.buffer, n, c);
    }
    LastOfAll(s.disk, s.buffer, n, c);
    OthersStay(s, Move(s, who, Counted(Entry(n, c))).(counted := s.counted + [c]), who);
  }

  lemma LastOfAll(disk: seq<Entry>, buffer: seq<Entry>, n: nat, c: Change)
    requires Below(disk, n) && Below(buffer, n)
    ensures OnItsWay(Counted(Entry(n, c)), disk, buffer, n + 1)
  {
  }

  lemma PushKeepsOrder(s: Store, t: Store, who: nat)
    requires InOrder(s) && who < |s.places| && s.places[who].Counted? && !Overtakes(s, Event(who, Push))
    requires |t.places| == |s.places| && t.places == s.places[who := t.places[who]]
    requires !t.places[who].Holding? && !t.places[who].Counted?
    requires t.disk == s.disk && t.buffer == s.buffer + [s.places[who].entry] && t.counted == s.counted
    ensures InOrder(t)
  {
    hide InOrder, OnItsWay, Apart, Sorted, Before, Below;
    InOrderAt(s);
    forall u | 0 <= u < |s.places| && u != who
      ensures OnItsWay(s.places[u], t.disk, t.buffer, |t.counted|)
    {
      PushPasses(s.places[who], s.places[u], s.disk, s.buffer, |s.counted|);
    }
    JoinsCounted(s.places[who], s.disk, s.buffer, |s.counted|);
    Nowhere(t.places[who], s.places, t.disk, t.buffer, |t.counted|);
    OthersStay(s, t, who);
  }

  lemma JoinsCounted(p: Place, disk: seq<Entry>, buffer: seq<Entry>, n: nat)
    requires p.Counted? && OnItsWay(p, disk, buffer, n)
    requires Sorted(buffer) && Before(disk, buffer) && Below(buffer, n)
    ensures Sorted(buffer + [p.entry]) && Before(disk, buffer + [p.entry]) && Below(buffer + [p.entry], n)
  {
    assert p.entry in Part(p);
  }

  lemma Nowhere(p: Place, places: seq<Place>, disk: seq<Entry>, buffer: seq<Entry>, n: nat)
    requires !p.Holding? && !p.Counted?
    ensures OnItsWay(p, disk, buffer, n)
    ensures forall u :: 0 <= u < |places| ==> Apart(p, places[u]) && Apart(places[u], p)
  {
  }

  lemma TakeKeepsOrder(s: Store, t: Store, who: nat, closing: bool)
    requires InOrder(s) && who < |s.places| && s.buffer != []
    requires t.places == s.places[who := Holding(s.buffer, closing)]
    requires t.disk == s.disk && t.buffer == [] && t.counted == s.counted
    ensures InOrder(t)
  {
    hide InOrder, OnItsWay, Apart;
    InOrderAt(s);
    forall u | 0 <= u < |s.places| && u != who
      ensures OnItsWay(s.places[u], t.disk, [], |t.counted|)
      ensures Apart(t.places[who], s.places[u]) && Apart(s.places[u], t.places[who])
    {
      TakePasses(s.places[u], s.disk, s.buffer, |s.counted|, closing);
    }
    TakenIsNext(s.disk, s.buffer, |s.counted|, closing);
    OthersStay(s, t, who);
  }

  lemma TakenIsNext(disk: seq<Entry>, buffer: seq<Entry>, n: nat, closing: bool)
    requires Sorted(buffer) && Below(buffer, n) && Before(disk, buffer) && buffer != []
    ensures OnItsWay(Holding(buffer, closing), disk, [], n)
  {
  }

  lemma WriteKeepsOrder(s: Store, t: Store, who: nat)
    requires InOrder(s) && who < |s.places| && s.places[who].Holding? && !Overtakes(s, Event(who, Write))
    requires |t.places| == |s.places| && t.places == s.places[who := t.places[who]]
    requires !t.places[who].Holding? && !t.places[who].Counted?
    requires t.disk == s.disk + s.places[who].batch && t.buffer == s.buffer && t.counted == s.counted
    ensures InOrder(t)
  {
    hide InOrder, OnItsWay, Apart, Sorted, Before, Below, Precedes;
    InOrderAt(s);
    forall u | 0 <= u < |s.places| && u != who
      ensures OnItsWay(s.places[u], t.disk, t.buffer, |t.counted|)
    {
      assert !Precedes(s.places[u], s.places[who]);
      WritePasses(s.places[who], s.places[u], s.disk, s.buffer, |s.counted|);
    }
    JoinsHeld(s.places[who], s.disk, s.buffer, |s.counted|);
    Nowhere(t.places[who], s.places, t.disk, t.buffer, |t.counted|);
    OthersStay(s, t, who);
  }

  lemma JoinsHeld(p: Place, disk: seq<Entry>, buffer: seq<Entry>, n: nat)
    requires p.Holding? && OnItsWay(p, disk, buffer, n)
    requires Sorted(disk) && Before(disk, buffer) && Below(disk, n)
    ensures Sorted(disk + p.batch) && Before(disk + p.batch, buffer) && Below(disk + p.batch, n)
  {
    Joins(disk, p.batch, n);
  }

  lemma {:induction false} RunKeepsOrder(threshold: nat, threads: nat, es: seq<Event>)
    requires WithoutOvertaking(threshold, Start(threads), es)
    ensures InOrder(Run(threshold, Start(threads), es))
    decreases |es|
  {
    if es != [] {
      RunKeepsOrder(threshold, threads, es[..|es| - 1]);
      hide InOrder, Next, Overtakes;
      StepKeepsOrder(threshold, Run(threshold, Start(threads), es[..|es| - 1]), es[|es| - 1]);
    }
  }

  /** Sorted entries that nothing else precedes are the first ones. */
  lemma {:induction false} FirstEntries(a: seq<Entry>, rest: multiset<Entry>, counted: seq<Change>, i: nat)
    requires Sorted(a) && multiset(a) + rest == multiset(Entries(counted))
    requires forall x, y :: x in a && y in rest ==> x.offset < y.offset
    requires i <= |a|
    ensures i <= |counted| && a[..i] == Entries(counted)[..i]
    decreases i
  {
    if i > 0 {
      FirstEntries(a, rest, counted, i - 1);
      SameOffsets(a, counted, i - 1);
      NextEntry(a, rest, counted, i - 1);
    }
  }

  lemma SameOffsets(a: seq<Entry>, counted: seq<Change>, i: nat)
    requires i <= |a| && i <= |counted| && a[..i] == Entries(counted)[..i]
    ensures forall k :: 0 <= k < i ==> a[k].offset == k
  {
    forall k | 0 <= k < i
      ensures a[k].offset == k
    {
      assert a[k] == a[..i][k];
    }
  }

  lemma NextEntry(a: seq<Entry>, rest: multiset<Entry>, counted: seq<Change>, i: nat)
    requires Sorted(a) && multiset(a) + rest == multiset(Entries(counted))
    requires forall x, y :: x in a && y in rest ==> x.offset < y.offset
    requires i < |a| && forall k :: 0 <= k < i ==> a[k].offset == k
    ensures i < |counted| && a[i] == Entries(counted)[i]
  {
    var entry := a[i];
    assert entry in multiset(Entries(counted));
    assert i > 0 ==> a[i - 1].offset == i - 1;
    assert entry.offset >= i;
    var first := Entries(counted)[i];
    assert first in multiset(Entries(counted));
  }

  lemma NothingPrecedes(s: Store)
    requires InOrder(s)
    ensures forall x, y :: x in s.disk && y in multiset(s.buffer) + InHand(s.places) ==> x.offset < y.offset
  {
    hide InOrder, OnItsWay, Sorted, Below, Apart, InHand, Part;
    InOrderAt(s);
    forall x, y | x in s.disk && y in multiset(s.buffer) + InHand(s.places)
      ensures x.offset < y.offset
    {
      if y !in s.buffer {
        var t := InSomeHand(s.places, y);
        OnItsWayAfter(s.places[t], s.disk, s.buffer, |s.counted|);
      }
    }
  }

  lemma OnItsWayAfter(p: Place, disk: seq<Entry>, buffer: seq<Entry>, n: nat)
    requires OnItsWay(p, disk, buffer, n)
    ensures Before(disk, Part(p))
  {
  }

  /**
   As long as nobody overtakes, record n of the open file is the change whose `append` returned n,
   at every moment, and when all threads are done the buffer continues the file.
   */
  lemma FileFollowsOffsets(threshold: nat, threads: nat, es: seq<Event>)
    requires WithoutOvertaking(threshold, Start(threads), es)
    ensures var s := Run(threshold, Start(threads), es);
            && (s.isOpen ==> s.disk <= Entries(s.counted))
            && (s.isOpen && Quiescent(s) ==> s.disk + s.buffer == Entries(s.counted))
  {
    var s := Run(threshold, Start(threads), es);
    RunKeepsOrder(threshold, threads, es);
    RunConserves(threshold, threads, es);
    hide Run, WithoutOvertaking;
    if s.isOpen {
      OpenFilePrefix(s);
      if Quiescent(s) {
        WholeAtRest(s);
      }
    }
  }

  lemma OpenFilePrefix(s: Store)
    requires InOrder(s) && Conserved(s) && s.isOpen
    ensures s.disk <= Entries(s.counted)
  {
    hide *;
    var n, rest := |s.disk|, multiset(s.buffer) + InHand(s.places);
    InOrderAt(s);
    NothingPrecedes(s);
    NotOnDisk(s);
    FirstEntries(s.disk, rest, s.counted, n);
    EntriesLength(s.counted);
    assert s.disk[..n] == s.disk;
    assert Entries(s.counted)[..n] <= Entries(s.counted);
  }

  lemma NotOnDisk(s: Store)
    requires Conserved(s) && s.isOpen
    ensures multiset(s.disk) + (multiset(s.buffer) + InHand(s.places)) == multiset(Entries(s.counted))
  {
    hide InHand, Entries;
    assert multiset(s.disk) + (multiset(s.buffer) + InHand(s.places)) == Everything(s);
  }

  lemma WholeAtRest(s: Store)
    requires InOrder(s) && Conserved(s) && s.isOpen && Quiescent(s)
    ensures s.disk + s.buffer == Entries(s.counted)
  {
    hide *;
    var all := s.disk + s.buffer;
    InOrderAt(s);
    AllAtRest(s);
    Joins(s.disk, s.buffer, |s.counted|);
    FirstEntries(all, multiset{}, s.counted, |all|);
    EntriesLength(s.counted);
    SameLength(s.counted, all);
    assert all[..|all|] == all && Entries(s.counted)[..|all|] == Entries(s.counted);
  }

  lemma AllAtRest(s: Store)
    requires Conserved(s) && s.isOpen && Quiescent(s)
    ensures multiset(s.disk + s.buffer) + multiset{} == multiset(Entries(s.counted))
  {
    hide InHand, Entries;
    IdleHands(s.places);
  }

  lemma EntriesLength(counted: seq<Change>)
    ensures |Entries(counted)| == |counted|
  {
  }

  lemma SameLength(counted: seq<Change>, all: seq<Entry>)
    requires multiset(all) + multiset{} == multiset(Entries(counted))
    ensures |all| == |Entries(counted)|
  {
    hide Entries;
    assert |multiset(all)| == |all| && |multiset(Entries(counted))| == |Entries(counted)|;
  }

  // ---------- one thread ----------

  /** The offsets that `append` returned number the records of the open file and the buffer behind it. */
  predicate OffsetsAtRest(s: Store) {
    s.isOpen && Quiescent(s) ==> s.disk + s.buffer == Entries(s.counted)
  }

  /** What was in the buffer or beyond it when `close` was called is in the file once that is closed. */
  predicate CloseKeeps(s: Store) {
    !s.isOpen ==> forall x :: x in s.promised ==> x in s.disk
  }

  function Place0(s: Store): Place {
    if s.places == [] then Idle else s.places[0]
  }

  function Held(place: Place): seq<Entry> {
    if place.Holding? then place.batch else []
  }

  function Unpushed(place: Place): seq<Entry> {
    if place.Counted? then [place.entry] else []
  }

  predicate InSequence(s: Store) {
    && |s.places| <= 1
    && Entries(s.counted) == s.pushed + Unpushed(Place0(s))
    && s.promised <= s.pushed
    && (s.isOpen ==> s.disk + Held(Place0(s)) + s.buffer == s.pushed)
    && (Place0(s).Holding? || Place0(s).Releasing? ==> s.buffer == [])
    && CloseKeeps(s)
  }

  lemma StepInSequence(threshold: nat, s: Store, e: Event)
    requires InSequence(s)
    ensures InSequence(Next(threshold, s, e))
  {
    hide InSequence;
    if Enabled(s, e) {
      SoloThread(s, e);
      match e.step {
        case Count(c) => CountInSequence(threshold, s, e, c);
        case Push => PushInSequence(threshold, s, e);
        case Take => TakeInSequence(threshold, s, e);
        case Write => WriteInSequence(threshold, s, e);
        case _ => CallInSequence(threshold, s, e);
      }
    }
  }

  lemma SoloThread(s: Store, e: Event)
    requires InSequence(s) && Enabled(s, e)
    ensures e.who == 0 && |s.places| == 1
  {
  }

  lemma CountInSequence(threshold: nat, s: Store, e: Event, c: Change)
    requires InSequence(s) && Enabled(s, e) && e.who == 0 && |s.places| == 1 && e.step == Count(c)
    ensures InSequence(Next(threshold, s, e))
  {
    hide Entries;
    EntriesGrow(s.counted, c);
  }

  lemma PushInSequence(threshold: nat, s: Store, e: Event)
    requires InSequence(s) && Enabled(s, e) && e.who == 0 && |s.places| == 1 && e.step.Push?
    ensures InSequence(Next(threshold, s, e))
  {
    hide Entries;
  }

  lemma TakeInSequence(threshold: nat, s: Store, e: Event)
    requires InSequence(s) && Enabled(s, e) && e.who == 0 && |s.places| == 1 && e.step.Take?
    ensures InSequence(Next(threshold, s, e))
  {
    hide Entries;
  }

  lemma WriteInSequence(threshold: nat, s: Store, e: Event)
    requires InSequence(s) && Enabled(s, e) && e.who == 0 && |s.places| == 1 && e.step.Write?
    ensures InSequence(Next(threshold, s, e))
  {
    hide Entries;
  }

  lemma CallInSequence(threshold: nat, s: Store, e: Event)
    requires InSequence(s) && Enabled(s, e) && e.who == 0 && |s.places| == 1
    requires e.step.CallFlush? || e.step.CallClose? || e.step.Release?
    ensures InSequence(Next(threshold, s, e))
  {
    hide Entries;
  }

  lemma {:induction false} SoloInSequence(threshold: nat, threads: nat, es: seq<Event>)
    requires threads <= 1
    ensures InSequence(Run(threshold, Start(threads), es))
    decreases |es|
  {
    if es != [] {
      SoloInSequence(threshold, threads, es[..|es| - 1]);
      hide InSequence, Next;
      StepInSequence(threshold, Run(threshold, Start(threads), es[..|es| - 1]), es[|es| - 1]);
    }
  }

  // ---------- two threads ----------

  /** Thread 0 counts first and pushes last. */
  function PushPast(c: Change, d: Change): seq<Event> {
    [Event(0, Count(c)), Event(1, Count(d)), Event(1, Push), Event(1, Take), Event(1, Write),
     Event(0, Push), Event(0, Take), Event(0, Write)]
  }

  /** Thread 1 holds what it took from the buffer while thread 0 closes. */
  function CloseAhead(c: Change): seq<Event> {
    [Event(1, Count(c)), Event(1, Push), Event(1, CallFlush), Event(1, Take),
     Event(0, CallClose), Event(0, Take), Event(0, Release), Event(1, Write)]
  }

  lemma RunStep(threshold: nat, s: Store, es: seq<Event>, k: nat)
    requires k < |es|
    ensures Run(threshold, s, es[..k + 1]) == Next(threshold, Run(threshold, s, es[..k]), es[k])
  {
    hide Next;
    assert es[..k + 1][..k] == es[..k];
  }

  /** The change ends up behind what is in the file and the buffer: all in the file if the threshold is reached. */
  lemma PushThrough(threshold: nat, s: Store, es: seq<Event>, k: nat, who: nat)
    requires k + 3 <= |es| && es[k..k + 3] == [Event(who, Push), Event(who, Take), Event(who, Write)]
    requires var t := Run(threshold, s, es[..k]); t.isOpen && who < |t.places| && t.places[who].Counted?
    ensures var t, u := Run(threshold, s, es[..k]), Run(threshold, s, es[..k + 3]);
            && u.places == t.places[who := Idle] && u.counted == t.counted && u.isOpen
            && u.disk + u.buffer == t.disk + t.buffer + [t.places[who].entry]
            && (if |t.buffer| + 1 < threshold then u.disk == t.disk else u.buffer == [])
  {
    hide Run;
    RunStep(threshold, s, es, k);
    RunStep(threshold, s, es, k + 1);
    RunStep(threshold, s, es, k + 2);
    assert es[k] == es[k..k + 3][0] && es[k + 1] == es[k..k + 3][1] && es[k + 2] == es[k..k + 3][2];
  }

  lemma BothCounted(threshold: nat, s: Store, es: seq<Event>, c: Change, d: Change)
    requires |s.places| > 1 && s.places[0].Idle? && s.places[1].Idle? && s.counted == []
    requires |es| > 1 && es[0] == Event(0, Count(c)) && es[1] == Event(1, Count(d))
    ensures Run(threshold, s, es[..2])
            == s.(places := s.places[0 := Counted(Entry(0, c))][1 := Counted(Entry(1, d))], counted := [c, d])
  {
    RunNothing(threshold, s, es);
    hide Run;
    RunStep(threshold, s, es, 0);
    RunStep(threshold, s, es, 1);
  }

  lemma RunNothing(threshold: nat, s: Store, es: seq<Event>)
    ensures Run(threshold, s, es[..0]) == s
  {
  }

  lemma Reordered(threshold: nat, s: Store, es: seq<Event>, c: Change, d: Change)
    requires |s.places| > 1 && Quiescent(s) && s.isOpen && s.disk == s.buffer == [] && |es| == 8
    requires es[2..5] == [Event(1, Push), Event(1, Take), Event(1, Write)]
    requires es[5..8] == [Event(0, Push), Event(0, Take), Event(0, Write)]
    requires Run(threshold, s, es[..2])
          == s.(places := s.places[0 := Counted(Entry(0, c))][1 := Counted(Entry(1, d))], counted := [c, d])
    ensures var t := Run(threshold, s, es[..8]);
            && t.isOpen && Quiescent(t) && t.counted == [c, d]
            && t.disk + t.buffer == [Entry(1, d), Entry(0, c)]
  {
    hide Run, Next;
    PushThrough(threshold, s, es, 2, 1);
    PushThrough(threshold, s, es, 5, 0);
  }

  /** Two changes at rest in the order opposite to the offsets their calls returned. */
  lemma TwoThreadsReorder(threshold: nat, threads: nat, c: Change, d: Change)
    requires threads > 1
    ensures var s := Run(threshold, Start(threads), PushPast(c, d));
            && s.isOpen && Quiescent(s) && s.counted == [c, d]
            && s.disk + s.buffer == [Entry(1, d), Entry(0, c)]
  {
    var s, es := Start(threads), PushPast(c, d);
    hide Run, Next;
    BothCounted(threshold, s, es, c, d);
    Reordered(threshold, s, es, c, d);
    assert es[..8] == es;
  }

  /** When the offsets number the records in every run: exactly with at most one thread. */
  lemma OffsetsHoldExactly(threshold: nat, threads: nat)
    ensures (forall es :: OffsetsAtRest(Run(threshold, Start(threads), es))) <==> threads <= 1
  {
    hide Run, Entries, PushPast;
    if threads <= 1 {
      forall es
        ensures OffsetsAtRest(Run(threshold, Start(threads), es))
      {
        SoloInSequence(threshold, threads, es);
        SequenceAtRest(Run(threshold, Start(threads), es));
      }
    } else {
      TwoThreadsReorder(threshold, threads, SOME_CHANGE, OTHER_CHANGE);
      var s := Run(threshold, Start(threads), PushPast(SOME_CHANGE, OTHER_CHANGE));
      OutOfOrder(s, SOME_CHANGE, OTHER_CHANGE);
      assert !OffsetsAtRest(s);
    }
  }

  lemma SequenceAtRest(s: Store)
    requires InSequence(s)
    ensures OffsetsAtRest(s)
  {
    hide Entries;
  }

  lemma OutOfOrder(s: Store, c: Change, d: Change)
    requires s.counted == [c, d] && s.disk + s.buffer == [Entry(1, d), Entry(0, c)]
    ensures s.disk + s.buffer != Entries(s.counted)
  {
    assert Entries(s.counted)[0] == Entry(0, c) != [Entry(1, d), Entry(0, c)][0];
  }

  /** The change was in the buffer before `close` was called, `close` reports no error, and the change is lost. */
  lemma CloseLosesHeld(threshold: nat, threads: nat, c: Change)
    requires threads > 1
    ensures var s := Run(threshold, Start(threads), CloseAhead(c));
            && !s.isOpen && Quiescent(s) && s.promised == s.lost == [Entry(0, c)] && s.disk == []
  {
    var s, es := Start(threads), CloseAhead(c);
    hide Run, Next;
    HeldByOne(threshold, s, es, c);
    ClosedMeanwhile(threshold, s, es, Run(threshold, s, es[..4]));
    WrittenTooLate(threshold, s, es, Run(threshold, s, es[..7]));
    assert es[..8] == es;
  }

  lemma HeldByOne(threshold: nat, s: Store, es: seq<Event>, c: Change)
    requires |s.places| > 1 && s.places[1].Idle? && s.counted == [] && s.buffer == [] && |es| >= 4
    requires es[0] == Event(1, Count(c)) && es[1] == Event(1, Push)
    requires es[2] == Event(1, CallFlush) && es[3] == Event(1, Take)
    ensures var t := Run(threshold, s, es[..4]);
            && t.places == s.places[1 := Holding([Entry(0, c)], false)] && t.buffer == []
            && t.pushed == s.pushed + [Entry(0, c)] && t.disk == s.disk && t.lost == s.lost && t.isOpen == s.isOpen
  {
    RunNothing(threshold, s, es);
    hide Run;
    RunStep(threshold, s, es, 0);
    RunStep(threshold, s, es, 1);
    RunStep(threshold, s, es, 2);
    RunStep(threshold, s, es, 3);
    assert s.buffer + [Entry(0, c)] == [Entry(0, c)];
    assert Run(threshold, s, es[..4]).places == s.places[1 := Holding([Entry(0, c)], false)];
  }

  /** A close that finds the buffer empty releases the file, whatever others hold. */
  lemma ClosedMeanwhile(threshold: nat, s: Store, es: seq<Event>, t: Store)
    requires |es| >= 7 && es[4] == Event(0, CallClose) && es[5] == Event(0, Take) && es[6] == Event(0, Release)
    requires Run(threshold, s, es[..4]) == t && |t.places| > 1 && t.places[0].Idle? && t.buffer == [] && t.isOpen
    ensures Run(threshold, s, es[..7]) == t.(promised := t.pushed, isOpen := false)
  {
    hide Run;
    RunStep(threshold, s, es, 4);
    RunStep(threshold, s, es, 5);
    RunStep(threshold, s, es, 6);
    assert t.places[0 := Flushing(true)][0 := Releasing][0 := Idle] == t.places;
  }

  lemma WrittenTooLate(threshold: nat, s: Store, es: seq<Event>, t: Store)
    requires |es| >= 8 && es[7] == Event(1, Write)
    requires Run(threshold, s, es[..7]) == t && |t.places| > 1 && t.places[1].Holding? && !t.isOpen
    ensures Run(threshold, s, es[..8])
            == t.(places := t.places[1 := Flushed(t.places[1].closing)], lost := t.lost + t.places[1].batch)
  {
    hide Run;
    RunStep(threshold, s, es, 7);
  }

  /** When closing keeps what was in the buffer in every run: exactly with at most one thread. */
  lemma CloseKeepsExactly(threshold: nat, threads: nat)
    ensures (forall es :: CloseKeeps(Run(threshold, Start(threads), es))) <==> threads <= 1
  {
    hide Run, Entries, CloseAhead;
    if threads <= 1 {
      forall es
        ensures CloseKeeps(Run(threshold, Start(threads), es))
      {
        SoloInSequence(threshold, threads, es);
      }
    } else {
      CloseLosesHeld(threshold, threads, SOME_CHANGE);
      var s := Run(threshold, Start(threads), CloseAhead(SOME_CHANGE));
      assert s.promised[0] in s.promised;
      assert !CloseKeeps(s);
    }
  }
}
