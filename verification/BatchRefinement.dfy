/**
 The batcher's locks and the batcher's steps (src/batch.rs): `Batch` takes what is done under one
 lock for one step, `BatchLocks` shows each lock being asked for, held and given back. Every run of
 the locks does what a run of the steps does.
 */
module BatchRefinement {
  import opened Changes
  import Steps = Batch
  import Locks = BatchLocks

  /** What the lock machine leaves open: the change added, the time of a mark, whether the channel accepts. */
  datatype Detail = Detail(change: Change, now: nat, accepted: bool)

  /** `add` marks and pushes with batching on, and numbers a batch of its own with batching off. */
  predicate Suits(config: Steps.BatchConfig, e: Locks.Event) {
    e.Begin? ==> (e.call.Add? ==> config.enabled) && (e.call.Direct? ==> !config.enabled)
  }

  /** The step that a thread takes by giving back the lock it holds, if it takes one. */
  function Done(config: Steps.BatchConfig, place: Locks.Place, pending: nat, d: Detail): Option<Steps.Step> {
    match place
    case InMark => Some(Steps.Mark(d.change, d.now))
    case InPush => Some(Steps.Push)
    case InCheck => Some(Steps.Check)
    case Leaving => Some(Steps.Take)
    case Resetting => Some(Steps.Take)
    case InNumber => Some(if config.enabled then Steps.Number else Steps.Bypass(d.change))
    case Offering => Some(Steps.Send(d.accepted))
    case InCount => if pending > 0 then Some(Steps.Trigger) else None
    case _ => None
  }

  /** The step that an event of the lock machine takes, if it takes one. */
  function StepOf(config: Steps.BatchConfig, s: Locks.Threads, e: Locks.Event, d: Detail): Option<Steps.Step> {
    if e.who >= |s.places| then None
    else
      match e
      case Begin(who, call) => if s.places[who].Idle? && call.Flush? then Some(Steps.Trigger) else None
      case Go(who, _) => if Locks.Blocked(s, who) then None else Done(config, s.places[who], s.pending, d)
  }

  function Follow(config: Steps.BatchConfig, t: Steps.System, who: nat, step: Option<Steps.Step>): Steps.System {
    if step.Some? then Steps.Next(config, t, Steps.Event(who, step.value)) else t
  }

  /** The steps of a whole run. */
  function StepsOf(config: Steps.BatchConfig, threads: nat, es: seq<Locks.Event>, ds: seq<Detail>): seq<Steps.Event>
    requires |ds| == |es|
  {
    if es == [] then []
    else
      var n := |es| - 1;
      var s := Locks.Run(config.maxBatchSize, Locks.Start(threads), es[..n]);
      var step := StepOf(config, s, es[n], ds[n]);
      StepsOf(config, threads, es[..n], ds[..n]) + if step.Some? then [Steps.Event(es[n].who, step.value)] else []
  }

  // ---------- what the two have in common ----------

  /** Where a caller of the step machine is while its thread stands at a place. */
  predicate Fits(config: Steps.BatchConfig, p: Locks.Place, c: Steps.Caller) {
    match p
    case Idle => c.Idle?
    case WantMark => c.Idle?
    case InMark => c.Idle?
    case WantPush => c.Marked?
    case InPush => c.Marked?
    case WantCheck => c.Pushed?
    case InCheck => c.Pushed?
    case WantFlush => c.Flushing?
    case Leaving => c.Flushing?
    case Emptying => c.Flushing?
    case Resetting => c.Flushing?
    case Taking => c.Holding?
    case WantNumber => if config.enabled then c.Holding? else c.Idle?
    case InNumber => if config.enabled then c.Holding? else c.Idle?
    case Offering => c.Sending?
    case WantAge => c.Idle?
    case Young => c.Idle?
    case Aged => c.Idle?
    case InCount => c.Idle?
  }

  /** What a thread that holds pending for writing knows of it, and where no thread is with batching off. */
  predicate Knows(config: Steps.BatchConfig, p: Locks.Place, pending: nat) {
    && (p.Leaving? ==> pending == 0)
    && (p.Emptying? || p.Resetting? || p.Taking? ==> pending > 0)
    && (!config.enabled ==> pending == 0 && !Locks.Adds(p))
  }

  /** The step machine takes the changes when batch_start is reset; the thread, right after. */
  predicate Removing(s: Locks.Threads) {
    exists t :: 0 <= t < |s.places| && s.places[t].Taking?
  }

  predicate Related(config: Steps.BatchConfig, s: Locks.Threads, t: Steps.System) {
    && Locks.Exclusive(s)
    && |s.places| == |t.callers|
    && (forall i :: 0 <= i < |s.places| ==>
          Fits(config, s.places[i], t.callers[i]) && Knows(config, s.places[i], s.pending))
    && (t.batchStart.Some? <==> s.started)
    && |t.pending| == if Removing(s) then 0 else s.pending
  }

  lemma Alone(s: Locks.Threads, who: nat, u: nat)
    requires Locks.Exclusive(s) && who < |s.places| && u < |s.places| && u != who
    requires Locks.HoldsPending(s.places[who])
    ensures !Locks.WritesPending(s.places[u])
  {
    assert Locks.Compatible(s.places[who], s.places[u]);
  }

  lemma NobodyRemoves(s: Locks.Threads, who: nat)
    requires Locks.Exclusive(s) && who < |s.places|
    requires Locks.HoldsPending(s.places[who]) && !s.places[who].Taking?
    ensures !Removing(s)
  {
    forall u: nat | u < |s.places| && u != who
      ensures !s.places[u].Taking?
    {
      Alone(s, who, u);
    }
  }

  // ---------- one event ----------

  /** What a place's step makes of the shared fields of the step machine. */
  ghost predicate Advances(config: Steps.BatchConfig, p: Locks.Place, pending: nat, started: bool, aged: bool,
                           d: Detail, t: Steps.System, who: nat)
    requires who < |t.callers|
  {
    var step := Done(config, p, pending, d);
    var t' := Follow(config, t, who, step);
    var q := Locks.Advance(pending, started, config.maxBatchSize, p, aged);
    && (step.Some? ==> Steps.Enabled(config, t, Steps.Event(who, step.value)))
    && |t'.callers| == |t.callers| && t'.callers == t.callers[who := t'.callers[who]]
    && Fits(config, q, t'.callers[who]) && Knows(config, q, Locks.PendingAfter(pending, p))
    && (t'.batchStart.Some? <==> Locks.StartedAfter(started, p))
    && |t'.pending| == (if p.InPush? then |t.pending| + 1 else if p.Resetting? then 0 else |t.pending|)
  }

  ghost predicate Meets(config: Steps.BatchConfig, p: Locks.Place, pending: nat, started: bool, t: Steps.System,
                        who: nat)
  {
    && who < |t.callers| && Fits(config, p, t.callers[who]) && Knows(config, p, pending)
    && (t.batchStart.Some? <==> started)
    && (Locks.HoldsPending(p) && !p.Taking? ==> |t.pending| == pending)
  }

  lemma MarkSteps(config: Steps.BatchConfig, p: Locks.Place, pending: nat, started: bool, aged: bool, d: Detail,
      t: Steps.System, who: nat)
    requires Meets(config, p, pending, started, t, who) && p.InMark?
    ensures Advances(config, p, pending, started, aged, d, t, who)
  {
  }

  lemma PushSteps(config: Steps.BatchConfig, p: Locks.Place, pending: nat, started: bool, aged: bool, d: Detail,
      t: Steps.System, who: nat)
    requires Meets(config, p, pending, started, t, who) && p.InPush?
    ensures Advances(config, p, pending, started, aged, d, t, who)
  {
  }

  lemma CheckSteps(config: Steps.BatchConfig, p: Locks.Place, pending: nat, started: bool, aged: bool, d: Detail,
      t: Steps.System, who: nat)
    requires Meets(config, p, pending, started, t, who) && p.InCheck?
    ensures Advances(config, p, pending, started, aged, d, t, who)
  {
  }

  lemma CountSteps(config: Steps.BatchConfig, p: Locks.Place, pending: nat, started: bool, aged: bool, d: Detail,
      t: Steps.System, who: nat)
    requires Meets(config, p, pending, started, t, who) && p.InCount?
    ensures Advances(config, p, pending, started, aged, d, t, who)
  {
  }

  lemma LeavingSteps(config: Steps.BatchConfig, p: Locks.Place, pending: nat, started: bool, aged: bool, d: Detail,
      t: Steps.System, who: nat)
    requires Meets(config, p, pending, started, t, who) && p.Leaving?
    ensures Advances(config, p, pending, started, aged, d, t, who)
  {
  }

  lemma ResettingSteps(config: Steps.BatchConfig, p: Locks.Place, pending: nat, started: bool, aged: bool, d: Detail,
      t: Steps.System, who: nat)
    requires Meets(config, p, pending, started, t, who) && p.Resetting?
    ensures Advances(config, p, pending, started, aged, d, t, who)
  {
  }

  lemma NumberingSteps(config: Steps.BatchConfig, p: Locks.Place, pending: nat, started: bool, aged: bool, d: Detail,
      t: Steps.System, who: nat)
    requires Meets(config, p, pending, started, t, who) && p.InNumber?
    ensures Advances(config, p, pending, started, aged, d, t, who)
  {
  }

  lemma OfferingSteps(config: Steps.BatchConfig, p: Locks.Place, pending: nat, started: bool, aged: bool, d: Detail,
      t: Steps.System, who: nat)
    requires Meets(config, p, pending, started, t, who) && p.Offering?
    ensures Advances(config, p, pending, started, aged, d, t, who)
  {
  }

  lemma WaitingSteps(config: Steps.BatchConfig, p: Locks.Place, pending: nat, started: bool, aged: bool, d: Detail,
                     t: Steps.System, who: nat)
    requires Meets(config, p, pending, started, t, who) && Done(config, p, pending, d) == None
    ensures Advances(config, p, pending, started, aged, d, t, who)
  {
    hide Steps.Next, Steps.Enabled;
  }

  lemma PlaceSteps(config: Steps.BatchConfig, p: Locks.Place, pending: nat, started: bool, aged: bool, d: Detail,
                   t: Steps.System, who: nat)
    requires Meets(config, p, pending, started, t, who)
    ensures Advances(config, p, pending, started, aged, d, t, who)
  {
    hide Meets, Advances;
    match p {
      case InMark => MarkSteps(config, p, pending, started, aged, d, t, who);
      case InPush => PushSteps(config, p, pending, started, aged, d, t, who);
      case InCheck => CheckSteps(config, p, pending, started, aged, d, t, who);
      case InCount => CountSteps(config, p, pending, started, aged, d, t, who);
      case Leaving => LeavingSteps(config, p, pending, started, aged, d, t, who);
      case Resetting => ResettingSteps(config, p, pending, started, aged, d, t, who);
      case InNumber => NumberingSteps(config, p, pending, started, aged, d, t, who);
      case Offering => OfferingSteps(config, p, pending, started, aged, d, t, who);
      case _ => WaitingSteps(config, p, pending, started, aged, d, t, who);
    }
  }

  lemma BlockedStays(config: Steps.BatchConfig, s: Locks.Threads, e: Locks.Event, d: Detail)
    requires e.Go? ==> e.who >= |s.places| || Locks.Blocked(s, e.who)
    requires e.Begin? ==> e.who >= |s.places| || !s.places[e.who].Idle?
    ensures StepOf(config, s, e, d) == None && Locks.Next(config.maxBatchSize, s, e) == s
  {
    hide Locks.Blocked;
  }

  /** One event of the locks is one step or none, and the step goes through. */
  lemma EventSteps(config: Steps.BatchConfig, s: Locks.Threads, t: Steps.System, e: Locks.Event, d: Detail)
    requires Related(config, s, t) && Suits(config, e)
    ensures var step := StepOf(config, s, e, d);
            && (step.Some? ==> Steps.Enabled(config, t, Steps.Event(e.who, step.value)))
            && Related(config, Locks.Next(config.maxBatchSize, s, e), Follow(config, t, e.who, step))
  {
    if e.who >= |s.places| || (e.Begin? && !s.places[e.who].Idle?) || (e.Go? && Locks.Blocked(s, e.who)) {
      BlockedStays(config, s, e, d);
    } else if e.Begin? {
      CallBegins(config, s, t, e, d);
    } else {
      ThreadGoes(config, s, t, e, d);
    }
  }

  lemma CallBegins(config: Steps.BatchConfig, s: Locks.Threads, t: Steps.System, e: Locks.Event, d: Detail)
    requires Related(config, s, t) && Suits(config, e) && e.Begin? && e.who < |s.places| && s.places[e.who].Idle?
    ensures var step := StepOf(config, s, e, d);
            && (step.Some? ==> Steps.Enabled(config, t, Steps.Event(e.who, step.value)))
            && Related(config, Locks.Next(config.maxBatchSize, s, e), Follow(config, t, e.who, step))
  {
    Locks.StepKeepsExclusive(config.maxBatchSize, s, e);
    hide Locks.Exclusive, Locks.Blocked;
    var s' := Locks.Next(config.maxBatchSize, s, e);
    SameRemoving(s, s', e.who);
  }

  lemma SameRemoving(s: Locks.Threads, s': Locks.Threads, who: nat)
    requires who < |s.places| == |s'.places| && s'.places == s.places[who := s'.places[who]]
    requires !s.places[who].Taking? && !s'.places[who].Taking?
    ensures Removing(s') <==> Removing(s)
  {
    if Removing(s) {
      var t :| 0 <= t < |s.places| && s.places[t].Taking?;
      assert s'.places[t].Taking?;
    }
  }

  lemma ThreadGoes(config: Steps.BatchConfig, s: Locks.Threads, t: Steps.System, e: Locks.Event, d: Detail)
    requires Related(config, s, t) && e.Go? && e.who < |s.places| && !Locks.Blocked(s, e.who)
    ensures var step := StepOf(config, s, e, d);
            && (step.Some? ==> Steps.Enabled(config, t, Steps.Event(e.who, step.value)))
            && Related(config, Locks.Next(config.maxBatchSize, s, e), Follow(config, t, e.who, step))
  {
    var who, p := e.who, s.places[e.who];
    var s' := Locks.Next(config.maxBatchSize, s, e);
    Locks.StepKeepsExclusive(config.maxBatchSize, s, e);
    if Locks.HoldsPending(p) && !p.Taking? {
      NobodyRemoves(s, who);
    }
    PlaceSteps(config, p, s.pending, s.started, e.aged, d, t, who);
    OthersKnow(config, s, who);
    RemovingMoves(config, s, who, e.aged);
    hide Steps.Next, Steps.Enabled, Locks.Exclusive, Locks.Blocked, Locks.Advance, Done, Fits, Knows, Removing;
    assert s'.places == s.places[who := Locks.Advance(s.pending, s.started, config.maxBatchSize, p, e.aged)];
  }

  /** No other thread's knowledge of pending is overturned. */
  lemma OthersKnow(config: Steps.BatchConfig, s: Locks.Threads, who: nat)
    requires Locks.Exclusive(s) && who < |s.places|
    requires forall i :: 0 <= i < |s.places| ==> Knows(config, s.places[i], s.pending)
    ensures forall u :: 0 <= u < |s.places| && u != who ==>
              Knows(config, s.places[u], Locks.PendingAfter(s.pending, s.places[who]))
  {
    hide Locks.Exclusive;
    forall u: nat | u < |s.places| && u != who
      ensures Knows(config, s.places[u], Locks.PendingAfter(s.pending, s.places[who]))
    {
      assert Knows(config, s.places[who], s.pending);
      if Locks.HoldsPending(s.places[who]) {
        Alone(s, who, u);
      }
    }
  }

  /** Who is removing changes after one thread has gone on. */
  lemma RemovingMoves(config: Steps.BatchConfig, s: Locks.Threads, who: nat, aged: bool)
    requires Locks.Exclusive(s) && who < |s.places|
    ensures var p := s.places[who];
            var q := Locks.Advance(s.pending, s.started, config.maxBatchSize, p, aged);
            var s' := s.(places := s.places[who := q]);
            && (p.Resetting? ==> Removing(s'))
            && (p.Taking? ==> !Removing(s') && Removing(s))
            && (p.InPush? ==> !Removing(s') && !Removing(s))
            && (!p.Resetting? && !p.Taking? ==> (Removing(s') <==> Removing(s)))
  {
    var p := s.places[who];
    var q := Locks.Advance(s.pending, s.started, config.maxBatchSize, p, aged);
    var s' := s.(places := s.places[who := q]);
    hide Locks.Exclusive;
    if Locks.WritesPending(p) {
      forall u: nat | u < |s.places| && u != who
        ensures !s.places[u].Taking?
      {
        Alone(s, who, u);
      }
    }
    if p.Resetting? {
      assert s'.places[who].Taking?;
    } else if !p.Taking? {
      SameRemoving(s, s', who);
    }
  }

  // ---------- whole runs ----------

  predicate AllSuit(config: Steps.BatchConfig, es: seq<Locks.Event>) {
    forall i :: 0 <= i < |es| ==> Suits(config, es[i])
  }

  /** No event of the run is without effect. */
  predicate AllGo(config: Steps.BatchConfig, t: Steps.System, steps: seq<Steps.Event>) {
    steps == []
    || (var before := steps[..|steps| - 1];
        AllGo(config, t, before) && Steps.Enabled(config, Steps.Run(config, t, before), steps[|steps| - 1]))
  }

  lemma OneMoreStep(config: Steps.BatchConfig, t: Steps.System, steps: seq<Steps.Event>, who: nat,
                    step: Option<Steps.Step>)
    requires AllGo(config, t, steps)
    requires step.Some? ==> Steps.Enabled(config, Steps.Run(config, t, steps), Steps.Event(who, step.value))
    ensures var more := steps + if step.Some? then [Steps.Event(who, step.value)] else [];
            && AllGo(config, t, more)
            && Steps.Run(config, t, more) == Follow(config, Steps.Run(config, t, steps), who, step)
  {
    hide Steps.Next, Steps.Enabled;
    if step.Some? {
      var more := steps + [Steps.Event(who, step.value)];
      assert more[..|more| - 1] == steps;
    } else {
      assert steps + [] == steps;
    }
  }

  lemma StartsRelated(config: Steps.BatchConfig, threads: nat)
    ensures Related(config, Locks.Start(threads), Steps.Start(threads))
  {
  }

  /**
   Every run of any number of threads does what a run of the steps does: one step or none for each
   event, every one of which goes through, with the same changes pending, the timer running at the
   same moments, and each caller where its thread is.
   */
  lemma {:induction false} LocksFollowSteps(config: Steps.BatchConfig, threads: nat, es: seq<Locks.Event>,
                                            ds: seq<Detail>)
    requires |ds| == |es| && AllSuit(config, es)
    ensures var steps := StepsOf(config, threads, es, ds);
            && |steps| <= |es| && AllGo(config, Steps.Start(threads), steps)
            && Related(config, Locks.Run(config.maxBatchSize, Locks.Start(threads), es),
                       Steps.Run(config, Steps.Start(threads), steps))
    decreases |es|
  {
    hide Related, Steps.Run, Steps.Next, Locks.Next, StepOf, Follow, Steps.Enabled, AllGo;
    if es == [] {
      StartsRelated(config, threads);
      NothingRun(config, threads);
    } else {
      var n := |es| - 1;
      LocksFollowSteps(config, threads, es[..n], ds[..n]);
      var s := Locks.Run(config.maxBatchSize, Locks.Start(threads), es[..n]);
      var steps := StepsOf(config, threads, es[..n], ds[..n]);
      var t := Steps.Run(config, Steps.Start(threads), steps);
      EventSteps(config, s, t, es[n], ds[n]);
      OneMoreStep(config, Steps.Start(threads), steps, es[n].who, StepOf(config, s, es[n], ds[n]));
    }
  }

  lemma NothingRun(config: Steps.BatchConfig, threads: nat)
    ensures Steps.Run(config, Steps.Start(threads), []) == Steps.Start(threads)
    ensures AllGo(config, Steps.Start(threads), [])
  {
  }

  /** So the locks inherit what is proved of the steps: at rest, fewer changes than the limit are pending. */
  lemma RestIsBelowLimit(config: Steps.BatchConfig, threads: nat, es: seq<Locks.Event>)
    requires AllSuit(config, es)
    ensures var s := Locks.Run(config.maxBatchSize, Locks.Start(threads), es);
            (forall i :: 0 <= i < |s.places| ==> s.places[i].Idle?) ==>
              s.pending < Max(config.maxBatchSize, 1)
  {
    var ds := seq(|es|, _ => Detail(SOME_CHANGE, 0, true));
    var s := Locks.Run(config.maxBatchSize, Locks.Start(threads), es);
    var steps := StepsOf(config, threads, es, ds);
    var t := Steps.Run(config, Steps.Start(threads), steps);
    LocksFollowSteps(config, threads, es, ds);
    Steps.NothingLostOrOversized(config, threads, steps);
    hide Steps.Run, Locks.Run, StepsOf, Steps.Concat, Steps.InFlight, Locks.Exclusive;
    if forall i :: 0 <= i < |s.places| ==> s.places[i].Idle? {
      assert !Removing(s);
      assert Steps.Quiescent(t);
    }
  }

  // ---------- the background task flushes aged changes only ----------

  /** The step machine's state after a run of the locks. */
  function Followed(config: Steps.BatchConfig, threads: nat, es: seq<Locks.Event>, ds: seq<Detail>): Steps.System
    requires |ds| == |es|
  {
    Steps.Run(config, Steps.Start(threads), StepsOf(config, threads, es, ds))
  }

  predicate HasAged(t: Steps.System, maxAge: nat, now: nat) {
    t.batchStart.Some? && t.batchStart.value + maxAge <= now
  }

  /** Each wake-up reads the timer as it stands: `aged` is whether it has run for the maximum age by then. */
  predicate ReadsTimer(config: Steps.BatchConfig, maxAge: nat, threads: nat, es: seq<Locks.Event>, ds: seq<Detail>)
    requires |ds| == |es|
  {
    es == []
    || (var n := |es| - 1;
        && ReadsTimer(config, maxAge, threads, es[..n], ds[..n])
        && (es[n].Go? ==> (es[n].aged <==> HasAged(Followed(config, threads, es[..n], ds[..n]), maxAge, ds[n].now))))
  }

  /** A thread that goes on to count holds the timer still, and the timer has aged. */
  predicate CountsAged(s: Locks.Threads, t: Steps.System, maxAge: nat, now: nat) {
    forall i :: 0 <= i < |s.places| && (s.places[i].Aged? || s.places[i].InCount?) ==> HasAged(t, maxAge, now)
  }

  /** Only giving back batch_start after writing it moves the timer. */
  lemma TimerStays(config: Steps.BatchConfig, s: Locks.Threads, t: Steps.System, e: Locks.Event, d: Detail)
    requires Related(config, s, t) && e.who < |s.places| && !Locks.WritesStart(s.places[e.who])
    ensures Follow(config, t, e.who, StepOf(config, s, e, d)).batchStart == t.batchStart
  {
    hide Locks.Blocked, Locks.Exclusive;
    if e.Go? && s.places[e.who].Leaving? {
      assert Knows(config, s.places[e.who], s.pending);
      assert t.pending == [];
    }
  }

  lemma HeldTimer(s: Locks.Threads, i: nat, u: nat)
    requires Locks.Exclusive(s) && i < |s.places| && u < |s.places| && i != u && Locks.HoldsStart(s.places[i])
    ensures !Locks.WritesStart(s.places[u])
  {
    assert Locks.Compatible(s.places[i], s.places[u]);
  }

  /** How a thread comes to hold the timer while it counts. */
  lemma ComesToCount(max: nat, s: Locks.Threads, e: Locks.Event)
    requires e.who < |s.places|
    ensures var p, s' := s.places[e.who], Locks.Next(max, s, e);
            && |s'.places| == |s.places| && s'.places == s.places[e.who := s'.places[e.who]]
            && (s'.places[e.who].Aged? || s'.places[e.who].InCount? ==>
                  || p.Aged? || p.InCount?
                  || (e.Go? && e.aged && !Locks.WritesStart(p)))
  {
    hide Locks.Blocked;
  }

  lemma EventCountsAged(config: Steps.BatchConfig, s: Locks.Threads, t: Steps.System, e: Locks.Event, d: Detail,
                        maxAge: nat, clock: nat)
    requires Related(config, s, t) && CountsAged(s, t, maxAge, clock)
    requires e.Go? ==> (e.aged <==> HasAged(t, maxAge, d.now)) && d.now <= clock
    ensures CountsAged(Locks.Next(config.maxBatchSize, s, e), Follow(config, t, e.who, StepOf(config, s, e, d)),
                       maxAge, clock)
  {
    if e.who < |s.places| {
      var s' := Locks.Next(config.maxBatchSize, s, e);
      ComesToCount(config.maxBatchSize, s, e);
      if !Locks.WritesStart(s.places[e.who]) {
        TimerStays(config, s, t, e, d);
      }
      hide Locks.Next, StepOf, Follow, Locks.Exclusive, Fits, Knows, Removing;
      forall i: nat | i < |s'.places| && (s'.places[i].Aged? || s'.places[i].InCount?)
        ensures HasAged(Follow(config, t, e.who, StepOf(config, s, e, d)), maxAge, clock)
      {
        if i != e.who {
          HeldTimer(s, i, e.who);
        }
      }
    }
  }

  /**
   If every wake-up reads the timer as it stands, no thread of any run counts pending changes, and
   so none flushes them for their age, before the timer has run for the maximum age.
   */
  lemma {:induction false} FlushesOnlyAged(config: Steps.BatchConfig, maxAge: nat, threads: nat, es: seq<Locks.Event>,
                                           ds: seq<Detail>, clock: nat)
    requires |ds| == |es| && AllSuit(config, es) && ReadsTimer(config, maxAge, threads, es, ds)
    requires forall i :: 0 <= i < |ds| ==> ds[i].now <= clock
    ensures CountsAged(Locks.Run(config.maxBatchSize, Locks.Start(threads), es), Followed(config, threads, es, ds),
                       maxAge, clock)
    decreases |es|
  {
    hide CountsAged, Related, Steps.Run, Locks.Next, StepOf, Follow, HasAged, Suits, AllGo;
    if es == [] {
      NobodyCounts(config, threads, maxAge, clock);
    } else {
      var n := |es| - 1;
      FlushesOnlyAged(config, maxAge, threads, es[..n], ds[..n], clock);
      LocksFollowSteps(config, threads, es[..n], ds[..n]);
      var s := Locks.Run(config.maxBatchSize, Locks.Start(threads), es[..n]);
      var t := Followed(config, threads, es[..n], ds[..n]);
      EventSteps(config, s, t, es[n], ds[n]);
      EventCountsAged(config, s, t, es[n], ds[n], maxAge, clock);
      OneMoreStep(config, Steps.Start(threads), StepsOf(config, threads, es[..n], ds[..n]), es[n].who,
                  StepOf(config, s, es[n], ds[n]));
    }
  }

  lemma NobodyCounts(config: Steps.BatchConfig, threads: nat, maxAge: nat, clock: nat)
    ensures CountsAged(Locks.Start(threads), Steps.Run(config, Steps.Start(threads), []), maxAge, clock)
  {
  }
}
