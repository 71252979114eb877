/**
 Batching of changes before transmission (src/batch.rs). Each lock in the source protects one
 field only, so `add` is a chain of separate steps and any number of callers may interleave.
 */
module Batch {
  import opened Changes
  import Arithmetic
  import Sequences

  datatype BatchConfig = BatchConfig(enabled: bool, maxBatchSize: nat)

  /** Where one caller stands between two lock acquisitions. */
  datatype Caller =
    | Idle
    | Marked(change: Change)      // batch_start is set, the change is not pushed yet
    | Pushed                      // the change is pending, its size check is still to come
    | Flushing(adder: bool)       // about to take the pending changes
    | Holding(batch: nat)         // has taken a batch that has no sequence number yet
    | Sending(number: nat)        // has numbered its batch and not yet offered it to the channel

  /**
   The four shared fields, the callers, and the history: changes in the order they were pushed,
   batches in the order they were taken, which batch got each number, and what became of it.
   */
  datatype System = System(
    callers: seq<Caller>,
    pending: seq<Change>,
    batchStart: Option<nat>,
    sequence: nat,
    added: seq<Change>,
    batches: seq<seq<Change>>,
    numbered: seq<nat>,
    outcome: map<nat, bool>)

  function Start(callers: nat): System {
    System(seq(callers, _ => Idle), [], None, 0, [], [], [], map[])
  }

  datatype Step =
    | Bypass(change: Change)
    | Mark(change: Change, now: nat)
    | Push
    | Check
    | Trigger                     // force_flush, or the background task found an aged batch
    | Take
    | Number
    | Send(accepted: bool)        // try_send fails on a full or closed channel

  datatype Event = Event(who: nat, step: Step)

  predicate Enabled(config: BatchConfig, s: System, e: Event) {
    && e.who < |s.callers|
    && var caller := s.callers[e.who];
    match e.step
    case Bypass(_) => !config.enabled && caller.Idle?
    case Mark(_, _) => config.enabled && caller.Idle?
    case Push => caller.Marked?
    case Check => caller.Pushed?
    case Trigger => caller.Idle?
    case Take => caller.Flushing?
    case Number => caller.Holding?
    case Send(_) => caller.Sending?
  }

  function Move(s: System, who: nat, caller: Caller): System
    requires who < |s.callers|
  {
    s.(callers := s.callers[who := caller])
  }

  /** One step of one caller; an event that is not enabled changes nothing. */
  function Next(config: BatchConfig, s: System, e: Event): System {
    if !Enabled(config, s, e) then s
    else
      match e.step
      case Bypass(c) =>
        Move(s, e.who, Sending(s.sequence + 1)).(
          sequence := s.sequence + 1, numbered := s.numbered + [|s.batches|],
          added := s.added + [c], batches := s.batches + [[c]])
      case Mark(c, now) =>
        Move(s, e.who, Marked(c)).(batchStart := if s.batchStart.None? then Some(now) else s.batchStart)
      case Push =>
        var c := s.callers[e.who].change;
        Move(s, e.who, Pushed).(pending := s.pending + [c], added := s.added + [c])
      case Check =>
        Move(s, e.who, if |s.pending| >= config.maxBatchSize then Flushing(true) else Idle)
      case Trigger =>
        Move(s, e.who, Flushing(false))
      case Take =>
        if s.pending == [] then Move(s, e.who, Idle)
        else
          Move(s, e.who, Holding(|s.batches|)).(
            batchStart := None, pending := [], batches := s.batches + [s.pending])
      case Number =>
        Move(s, e.who, Sending(s.sequence + 1)).(
          sequence := s.sequence + 1, numbered := s.numbered + [s.callers[e.who].batch])
      case Send(accepted) =>
        Move(s, e.who, Idle).(outcome := s.outcome[s.callers[e.who].number := accepted])
  }

  function Run(config: BatchConfig, s: System, es: seq<Event>): System {
    if es == [] then s else Next(config, Run(config, s, es[..|es| - 1]), es[|es| - 1])
  }

  predicate Quiescent(s: System) {
    forall t :: 0 <= t < |s.callers| ==> s.callers[t].Idle?
  }

  // ---------- how large pending and a batch can get ----------

  function Count(callers: seq<Caller>, p: Caller -> bool): (n: nat)
    ensures n <= |callers|
  {
    if callers == [] then 0
    else Count(callers[..|callers| - 1], p) + if p(callers[|callers| - 1]) then 1 else 0
  }

  lemma {:induction false} CountMove(callers: seq<Caller>, p: Caller -> bool, who: nat, caller: Caller)
    requires who < |callers|
    ensures Count(callers[who := caller], p)
            == Count(callers, p) + (if p(caller) then 1 else 0) - (if p(callers[who]) then 1 else 0)
    decreases |callers|
  {
    var n := |callers| - 1;
    if who == n {
      assert callers[who := caller][..n] == callers[..n];
    } else {
      CountMove(callers[..n], p, who, caller);
      assert callers[who := caller][..n] == callers[..n][who := caller];
    }
  }

  lemma {:induction false} CountIdle(callers: seq<Caller>, p: Caller -> bool)
    requires !p(Idle) && forall t :: 0 <= t < |callers| ==> callers[t].Idle?
    ensures Count(callers, p) == 0
    decreases |callers|
  {
    if callers != [] {
      CountIdle(callers[..|callers| - 1], p);
    }
  }

  const IN_FLIGHT: Caller -> bool := (c: Caller) => c.Pushed? || c == Flushing(true)

  const HOLDING: Caller -> bool := (c: Caller) => c.Holding?

  /** Adders past their push and not past their check or take. */
  function InFlight(s: System): nat {
    Count(s.callers, IN_FLIGHT)
  }

  /** The most that can wait while nobody is in flight; a limit of zero acts like one. */
  function Quota(config: BatchConfig): nat {
    Max(config.maxBatchSize, 1) - 1
  }

  predicate SizeBounded(config: BatchConfig, s: System) {
    && |s.pending| <= Quota(config) + InFlight(s)
    && (forall b :: 0 <= b < |s.batches| ==> 0 < |s.batches[b]| <= Quota(config) + Max(|s.callers|, 1))
  }

  lemma StepKeepsSize(config: BatchConfig, s: System, e: Event)
    requires SizeBounded(config, s)
    ensures SizeBounded(config, Next(config, s, e))
  {
    hide Count;
    if Enabled(config, s, e) {
      var t := Next(config, s, e);
      CountMove(s.callers, IN_FLIGHT, e.who, t.callers[e.who]);
    }
  }

  // ---------- nothing is lost, nothing is reordered ----------

  function Concat(bs: seq<seq<Change>>): seq<Change> {
    if bs == [] then [] else Concat(bs[..|bs| - 1]) + bs[|bs| - 1]
  }

  predicate Conserved(config: BatchConfig, s: System) {
    && s.added == Concat(s.batches) + s.pending
    && (!config.enabled ==>
          s.pending == [] && forall t :: 0 <= t < |s.callers| ==> !s.callers[t].Marked? && !s.callers[t].Holding?)
  }

  lemma ConcatLast(bs: seq<seq<Change>>, b: seq<Change>)
    ensures Concat(bs + [b]) == Concat(bs) + b
  {
    assert (bs + [b])[..|bs|] == bs;
  }

  lemma TakeConserves(bs: seq<seq<Change>>, pending: seq<Change>, added: seq<Change>)
    requires added == Concat(bs) + pending
    ensures added == Concat(bs + [pending]) + []
  {
    hide Concat;
    ConcatLast(bs, pending);
  }

  lemma AddConserves(bs: seq<seq<Change>>, pending: seq<Change>, added: seq<Change>, c: Change)
    requires added == Concat(bs) + pending
    ensures added + [c] == Concat(bs) + (pending + [c])
    ensures pending == [] ==> added + [c] == Concat(bs + [[c]]) + pending
  {
    hide Concat;
    Sequences.Associative(Concat(bs), pending, [c]);
    if pending == [] {
      ConcatLast(bs, [c]);
    }
  }

  lemma NobodyBatches(s: System, who: nat, caller: Caller)
    requires who < |s.callers| && !caller.Marked? && !caller.Holding?
    requires forall t :: 0 <= t < |s.callers| ==> !s.callers[t].Marked? && !s.callers[t].Holding?
    ensures var moved := s.callers[who := caller];
            forall t :: 0 <= t < |moved| ==> !moved[t].Marked? && !moved[t].Holding?
  {
  }

  lemma StepConserves(config: BatchConfig, s: System, e: Event)
    requires Conserved(config, s)
    ensures Conserved(config, Next(config, s, e))
  {
    hide Concat;
    if Enabled(config, s, e) {
      var t := Next(config, s, e);
      match e.step {
        case Bypass(c) => AddConserves(s.batches, s.pending, s.added, c);
        case Push => AddConserves(s.batches, s.pending, s.added, s.callers[e.who].change);
        case Take => TakeConserves(s.batches, s.pending, s.added);
        case _ =>
      }
      if !config.enabled {
        NobodyBatches(s, e.who, t.callers[e.who]);
      }
    }
  }

  // ---------- sequence numbers ----------

  /** Every batch taken is either numbered, once, or held by one caller. */
  predicate NumbersMatch(callers: seq<Caller>, batches: nat, numbered: seq<nat>) {
    && batches == |numbered| + Count(callers, HOLDING)
    && (forall i :: 0 <= i < |numbered| ==> numbered[i] < batches)
    && (forall i, j :: 0 <= i < j < |numbered| ==> numbered[i] != numbered[j])
    && (forall t :: 0 <= t < |callers| && callers[t].Holding? ==>
          callers[t].batch < batches && callers[t].batch !in numbered)
    && (forall t, u :: 0 <= t < u < |callers| && callers[t].Holding? && callers[u].Holding? ==>
          callers[t].batch != callers[u].batch)
    && (forall b :: 0 <= b < batches ==> b in numbered || Holding(b) in callers)
  }

  /** Every number issued has met one outcome, or is being offered by one caller. */
  predicate OutcomesMatch(callers: seq<Caller>, sequence: nat, outcome: map<nat, bool>) {
    && (forall n :: n in outcome ==> 1 <= n <= sequence)
    && (forall t :: 0 <= t < |callers| && callers[t].Sending? ==>
          1 <= callers[t].number <= sequence && callers[t].number !in outcome)
    && (forall t, u :: 0 <= t < u < |callers| && callers[t].Sending? && callers[u].Sending? ==>
          callers[t].number != callers[u].number)
    && (forall n :: 1 <= n <= sequence ==> n in outcome || Sending(n) in callers)
  }

  lemma NumbersMove(callers: seq<Caller>, batches: nat, numbered: seq<nat>, who: nat, caller: Caller)
    requires NumbersMatch(callers, batches, numbered)
    requires who < |callers| && !callers[who].Holding? && !caller.Holding?
    ensures NumbersMatch(callers[who := caller], batches, numbered)
  {
    CountMove(callers, HOLDING, who, caller);
    Sequences.UpdateKeepsOthers(callers, who, caller);
  }

  lemma NumbersTake(callers: seq<Caller>, batches: nat, numbered: seq<nat>, who: nat)
    requires NumbersMatch(callers, batches, numbered)
    requires who < |callers| && !callers[who].Holding?
    ensures NumbersMatch(callers[who := Holding(batches)], batches + 1, numbered)
  {
    CountMove(callers, HOLDING, who, Holding(batches));
    Sequences.UpdateKeepsOthers(callers, who, Holding(batches));
  }

  lemma NumbersIssue(callers: seq<Caller>, batches: nat, numbered: seq<nat>, who: nat, caller: Caller)
    requires NumbersMatch(callers, batches, numbered)
    requires who < |callers| && callers[who].Holding? && !caller.Holding?
    ensures NumbersMatch(callers[who := caller], batches, numbered + [callers[who].batch])
  {
    CountMove(callers, HOLDING, who, caller);
    Sequences.UpdateKeepsOthers(callers, who, caller);
  }

  lemma NumbersBypass(callers: seq<Caller>, batches: nat, numbered: seq<nat>, who: nat, caller: Caller)
    requires NumbersMatch(callers, batches, numbered)
    requires who < |callers| && !callers[who].Holding? && !caller.Holding?
    ensures NumbersMatch(callers[who := caller], batches + 1, numbered + [batches])
  {
    CountMove(callers, HOLDING, who, caller);
    Sequences.UpdateKeepsOthers(callers, who, caller);
  }

  lemma OutcomesMove(callers: seq<Caller>, sequence: nat, outcome: map<nat, bool>, who: nat, caller: Caller)
    requires OutcomesMatch(callers, sequence, outcome)
    requires who < |callers| && !callers[who].Sending? && !caller.Sending?
    ensures OutcomesMatch(callers[who := caller], sequence, outcome)
  {
    Sequences.UpdateKeepsOthers(callers, who, caller);
  }

  lemma OutcomesIssue(callers: seq<Caller>, sequence: nat, outcome: map<nat, bool>, who: nat)
    requires OutcomesMatch(callers, sequence, outcome)
    requires who < |callers| && !callers[who].Sending?
    ensures OutcomesMatch(callers[who := Sending(sequence + 1)], sequence + 1, outcome)
  {
    Sequences.UpdateKeepsOthers(callers, who, Sending(sequence + 1));
  }

  lemma OutcomesSend(callers: seq<Caller>, sequence: nat, outcome: map<nat, bool>, who: nat, accepted: bool)
    requires OutcomesMatch(callers, sequence, outcome)
    requires who < |callers| && callers[who].Sending?
    ensures OutcomesMatch(callers[who := Idle], sequence, outcome[callers[who].number := accepted])
  {
    Sequences.UpdateKeepsOthers(callers, who, Idle);
  }

  lemma StepKeepsNumbers(config: BatchConfig, s: System, e: Event)
    requires NumbersMatch(s.callers, |s.batches|, s.numbered)
    ensures var t := Next(config, s, e); NumbersMatch(t.callers, |t.batches|, t.numbered)
  {
    hide NumbersMatch;
    if Enabled(config, s, e) {
      var t := Next(config, s, e);
      if e.step.Bypass? {
        NumbersBypass(s.callers, |s.batches|, s.numbered, e.who, t.callers[e.who]);
      } else if e.step.Number? {
        NumbersIssue(s.callers, |s.batches|, s.numbered, e.who, t.callers[e.who]);
      } else if t.callers[e.who].Holding? {
        NumbersTake(s.callers, |s.batches|, s.numbered, e.who);
      } else {
        NumbersMove(s.callers, |s.batches|, s.numbered, e.who, t.callers[e.who]);
      }
    }
  }

  lemma StepKeepsOutcomes(config: BatchConfig, s: System, e: Event)
    requires OutcomesMatch(s.callers, s.sequence, s.outcome)
    ensures var t := Next(config, s, e); OutcomesMatch(t.callers, t.sequence, t.outcome)
  {
    hide OutcomesMatch;
    if Enabled(config, s, e) {
      var t := Next(config, s, e);
      match e.step {
        case Bypass(_) => OutcomesIssue(s.callers, s.sequence, s.outcome, e.who);
        case Number => OutcomesIssue(s.callers, s.sequence, s.outcome, e.who);
        case Send(accepted) => OutcomesSend(s.callers, s.sequence, s.outcome, e.who, accepted);
        case _ => OutcomesMove(s.callers, s.sequence, s.outcome, e.who, t.callers[e.who]);
      }
    }
  }

  predicate Sound(config: BatchConfig, s: System) {
    && SizeBounded(config, s)
    && Conserved(config, s)
    && |s.numbered| == s.sequence
    && NumbersMatch(s.callers, |s.batches|, s.numbered)
    && OutcomesMatch(s.callers, s.sequence, s.outcome)
  }

  lemma StepKeepsLengths(config: BatchConfig, s: System, e: Event)
    requires |s.numbered| == s.sequence
    ensures var t := Next(config, s, e); |t.numbered| == t.sequence && |t.callers| == |s.callers|
  {
  }

  lemma StepIsSound(config: BatchConfig, s: System, e: Event)
    requires Sound(config, s)
    ensures Sound(config, Next(config, s, e)) && |Next(config, s, e).callers| == |s.callers|
  {
    hide Next, SizeBounded, Conserved, NumbersMatch, OutcomesMatch;
    StepKeepsSize(config, s, e);
    StepConserves(config, s, e);
    StepKeepsNumbers(config, s, e);
    StepKeepsOutcomes(config, s, e);
    StepKeepsLengths(config, s, e);
  }

  /** Every interleaving of any number of callers keeps the invariant. */
  lemma {:induction false} RunIsSound(config: BatchConfig, callers: nat, es: seq<Event>)
    ensures Sound(config, Run(config, Start(callers), es))
    ensures |Run(config, Start(callers), es).callers| == callers
    decreases |es|
  {
    if es == [] {
      CountIdle(Start(callers).callers, IN_FLIGHT);
      CountIdle(Start(callers).callers, HOLDING);
    } else {
      RunIsSound(config, callers, es[..|es| - 1]);
      hide Sound, Next;
      StepIsSound(config, Run(config, Start(callers), es[..|es| - 1]), es[|es| - 1]);
    }
  }

  /** What holds in every reachable state, and what is left once every caller is done. */
  lemma NothingLostOrOversized(config: BatchConfig, callers: nat, es: seq<Event>)
    ensures var s := Run(config, Start(callers), es);
            && Concat(s.batches) + s.pending == s.added
            && |s.pending| <= Quota(config) + InFlight(s)
            && (forall b :: 0 <= b < |s.batches| ==> 0 < |s.batches[b]| <= Quota(config) + Max(callers, 1))
            && (Quiescent(s) ==>
                  && |s.pending| <= Quota(config)
                  && |s.batches| == s.sequence
                  && (forall b :: 0 <= b < |s.batches| ==> b in s.numbered)
                  && (forall n :: n in s.outcome <==> 1 <= n <= s.sequence))
  {
    RunIsSound(config, callers, es);
    var s := Run(config, Start(callers), es);
    hide Run;
    if Quiescent(s) {
      CountIdle(s.callers, IN_FLIGHT);
      CountIdle(s.callers, HOLDING);
    }
  }

  // ---------- the bound is reached ----------

  /** One caller adds a change that does not fill the batch. */
  function AddQuietly(who: nat, c: Change): seq<Event> {
    [Event(who, Mark(c, 0)), Event(who, Push), Event(who, Check)]
  }

  /** A caller adds `count` changes, one after the other. */
  function Fill(c: Change, count: nat): seq<Event> {
    if count == 0 then [] else Fill(c, count - 1) + AddQuietly(0, c)
  }

  /** Callers 0 to count - 1 each push a change and stop before their check. */
  function Crowd(c: Change, count: nat): seq<Event> {
    if count == 0 then [] else Crowd(c, count - 1) + [Event(count - 1, Mark(c, 0)), Event(count - 1, Push)]
  }

  lemma {:induction false} RunJoin(config: BatchConfig, s: System, a: seq<Event>, b: seq<Event>)
    ensures Run(config, s, a + b) == Run(config, Run(config, s, a), b)
    decreases |b|
  {
    if b == [] {
      assert a + b == a;
    } else {
      RunJoin(config, s, a, b[..|b| - 1]);
      assert (a + b)[..|a + b| - 1] == a + b[..|b| - 1];
    }
  }

  lemma RunOne(config: BatchConfig, s: System, es: seq<Event>, e: Event)
    ensures Run(config, s, es + [e]) == Next(config, Run(config, s, es), e)
  {
    assert (es + [e])[..|es|] == es;
  }

  lemma RunTwo(config: BatchConfig, s: System, e: Event, f: Event)
    ensures Run(config, s, [e, f]) == Next(config, Next(config, s, e), f)
  {
    RunOne(config, s, [], e);
    assert [] + [e] == [e];
    RunOne(config, s, [e], f);
    assert [e] + [f] == [e, f];
  }

  lemma RunThree(config: BatchConfig, s: System, e: Event, f: Event, g: Event)
    ensures Run(config, s, [e, f, g]) == Next(config, Next(config, Next(config, s, e), f), g)
  {
    RunTwo(config, s, e, f);
    RunOne(config, s, [e, f], g);
    assert [e, f] + [g] == [e, f, g];
  }

  lemma {:induction false} FillLeaves(config: BatchConfig, callers: nat, c: Change, count: nat)
    requires config.enabled && callers > 0 && count <= Quota(config)
    ensures var s := Run(config, Start(callers), Fill(c, count));
            s.callers == Start(callers).callers && |s.pending| == count && s.batches == []
  {
    if count > 0 {
      FillLeaves(config, callers, c, count - 1);
      RunJoin(config, Start(callers), Fill(c, count - 1), AddQuietly(0, c));
      var s := Run(config, Start(callers), Fill(c, count - 1));
      RunThree(config, s, Event(0, Mark(c, 0)), Event(0, Push), Event(0, Check));
      hide Run;
      AddQuietlyLeaves(config, s, c);
    }
  }

  lemma AddQuietlyLeaves(config: BatchConfig, s: System, c: Change)
    requires config.enabled && s.callers != [] && s.callers[0].Idle? && |s.pending| + 1 < config.maxBatchSize
    ensures var pushed := Next(config, Next(config, s, Event(0, Mark(c, 0))), Event(0, Push));
            var s' := Next(config, pushed, Event(0, Check));
            s'.callers == s.callers && |s'.pending| == |s.pending| + 1 && s'.batches == s.batches
  {
    var s1 := Next(config, s, Event(0, Mark(c, 0)));
    var s2 := Next(config, s1, Event(0, Push));
    assert s1.callers == s.callers[0 := Marked(c)];
    assert s2.callers == s.callers[0 := Pushed];
  }

  /** After the crowd, caller `t` has pushed if `t` is among them and is idle otherwise. */
  predicate Crowded(s: System, count: nat) {
    forall t :: 0 <= t < |s.callers| ==> s.callers[t] == if t < count then Pushed else Idle
  }

  lemma {:induction false} CrowdLeaves(config: BatchConfig, s: System, c: Change, count: nat)
    requires config.enabled && Quiescent(s) && count <= |s.callers|
    ensures var s' := Run(config, s, Crowd(c, count));
            && |s'.callers| == |s.callers| && Crowded(s', count)
            && |s'.pending| == |s.pending| + count && s'.batches == s.batches
    decreases count
  {
    if count > 0 {
      CrowdLeaves(config, s, c, count - 1);
      RunJoin(config, s, Crowd(c, count - 1), [Event(count - 1, Mark(c, 0)), Event(count - 1, Push)]);
      var s' := Run(config, s, Crowd(c, count - 1));
      RunTwo(config, s', Event(count - 1, Mark(c, 0)), Event(count - 1, Push));
      hide Run, Next, Crowded, Quiescent;
      JoinsCrowd(config, s', c, count - 1);
    }
  }

  lemma JoinsCrowd(config: BatchConfig, s: System, c: Change, who: nat)
    requires config.enabled && who < |s.callers| && Crowded(s, who)
    ensures var t := Next(config, Next(config, s, Event(who, Mark(c, 0))), Event(who, Push));
            && |t.callers| == |s.callers| && Crowded(t, who + 1)
            && |t.pending| == |s.pending| + 1 && t.batches == s.batches
  {
    assert Next(config, s, Event(who, Mark(c, 0))).callers == s.callers[who := Marked(c)];
  }

  /**
   The bound of `NothingLostOrOversized` is exact: for every limit and number of callers some run takes a batch
   that large.
   */
  lemma BoundIsReached(config: BatchConfig, callers: nat, c: Change)
    requires config.enabled && callers > 0
    ensures var s := Run(config, Start(callers),
                         Fill(c, Quota(config)) + Crowd(c, callers) + [Event(0, Check), Event(0, Take)]);
            |s.batches| == 1 && |s.batches[0]| == Quota(config) + callers
  {
    var fill, crowd, rest := Fill(c, Quota(config)), Crowd(c, callers), [Event(0, Check), Event(0, Take)];
    RunJoin(config, Start(callers), fill + crowd, rest);
    RunJoin(config, Start(callers), fill, crowd);
    FillLeaves(config, callers, c, Quota(config));
    CrowdLeaves(config, Run(config, Start(callers), fill), c, callers);
    var s := Run(config, Start(callers), fill + crowd);
    RunTwo(config, s, Event(0, Check), Event(0, Take));
    hide Run, Fill, Crowd, Next;
    CrowdIsTaken(config, s);
  }

  lemma CrowdIsTaken(config: BatchConfig, s: System)
    requires s.callers != [] && s.callers[0].Pushed? && |s.pending| >= Max(config.maxBatchSize, 1)
    ensures var s' := Next(config, Next(config, s, Event(0, Check)), Event(0, Take));
            s'.batches == s.batches + [s.pending]
  {
  }

  // ---------- numbers follow the order of changes only without overtaking ----------

  predicate InOrder(s: System) {
    forall n :: 0 <= n < |s.numbered| ==> s.numbered[n] == n
  }

  function Holders(s: System): nat {
    Count(s.callers, HOLDING)
  }

  /** No batch is taken while another has no number yet. */
  predicate WithoutOvertaking(config: BatchConfig, s: System, es: seq<Event>)
    decreases |es|
  {
    es == [] ||
    var before, e := es[..|es| - 1], es[|es| - 1];
    && WithoutOvertaking(config, s, before)
    && (e.step.Take? && Enabled(config, Run(config, s, before), e) && Run(config, s, before).pending != []
        ==> Holders(Run(config, s, before)) == 0)
  }

  lemma OrderCovers(numbered: seq<nat>, b: nat)
    requires forall n :: 0 <= n < |numbered| ==> numbered[n] == n
    ensures b < |numbered| ==> b in numbered
  {
    if b < |numbered| {
      assert numbered[b] == b;
    }
  }

  /** With batching off nobody ever holds a batch without a number. */
  lemma NobodyHolds(config: BatchConfig, s: System)
    requires Conserved(config, s) && !config.enabled
    ensures Holders(s) == 0
  {
    CountNone(s.callers, HOLDING);
  }

  lemma {:induction false} CountNone(callers: seq<Caller>, p: Caller -> bool)
    requires forall t :: 0 <= t < |callers| ==> !p(callers[t])
    ensures Count(callers, p) == 0
    decreases |callers|
  {
    if callers != [] {
      CountNone(callers[..|callers| - 1], p);
    }
  }

  /** The one batch held while the numbers are in order is the next to number. */
  lemma HeldIsNext(s: System, who: nat)
    requires NumbersMatch(s.callers, |s.batches|, s.numbered) && InOrder(s) && Holders(s) <= 1
    requires who < |s.callers| && s.callers[who].Holding?
    ensures s.callers[who].batch == |s.numbered|
  {
    hide Count;
    CountMove(s.callers, HOLDING, who, Idle);
    OrderCovers(s.numbered, s.callers[who].batch);
  }

  lemma AllNumbered(s: System)
    requires NumbersMatch(s.callers, |s.batches|, s.numbered) && Holders(s) == 0
    ensures |s.batches| == |s.numbered|
  {
    hide Count;
  }

  lemma StepKeepsHolders(config: BatchConfig, s: System, e: Event)
    requires Holders(s) <= 1
    requires e.step.Take? && Enabled(config, s, e) && s.pending != [] ==> Holders(s) == 0
    ensures Holders(Next(config, s, e)) <= 1
  {
    hide Count;
    if Enabled(config, s, e) {
      CountMove(s.callers, HOLDING, e.who, Next(config, s, e).callers[e.who]);
    }
  }

  lemma StepExtendsNumbers(config: BatchConfig, s: System, e: Event)
    requires InOrder(s)
    requires e.step.Number? && Enabled(config, s, e) ==> s.callers[e.who].batch == |s.numbered|
    requires !config.enabled ==> |s.batches| == |s.numbered|
    ensures InOrder(Next(config, s, e))
  {
  }

  lemma StepKeepsOrder(config: BatchConfig, s: System, e: Event)
    requires Sound(config, s) && InOrder(s) && Holders(s) <= 1
    requires e.step.Take? && Enabled(config, s, e) && s.pending != [] ==> Holders(s) == 0
    ensures InOrder(Next(config, s, e)) && Holders(Next(config, s, e)) <= 1
  {
    if !config.enabled {
      NobodyHolds(config, s);
      AllNumbered(s);
    }
    if e.step.Number? && Enabled(config, s, e) {
      HeldIsNext(s, e.who);
    }
    hide Sound, Next, Enabled, Holders, InOrder;
    StepKeepsHolders(config, s, e);
    StepExtendsNumbers(config, s, e);
  }

  lemma {:induction false} NoOvertakingKeepsOrder(config: BatchConfig, callers: nat, es: seq<Event>)
    requires WithoutOvertaking(config, Start(callers), es)
    ensures var s := Run(config, Start(callers), es); InOrder(s) && Holders(s) <= 1
    decreases |es|
  {
    if es == [] {
      CountIdle(Start(callers).callers, HOLDING);
    } else {
      NoOvertakingKeepsOrder(config, callers, es[..|es| - 1]);
      RunIsSound(config, callers, es[..|es| - 1]);
      hide Sound, Next, InOrder, Holders, Enabled;
      StepKeepsOrder(config, Run(config, Start(callers), es[..|es| - 1]), es[|es| - 1]);
    }
  }

  /** The changes as a receiver that sorts the batches by number sees them. */
  function ByNumber(s: System): seq<Change>
    requires forall n :: 0 <= n < |s.numbered| ==> s.numbered[n] < |s.batches|
  {
    Concat(seq(|s.numbered|, n requires 0 <= n < |s.numbered| => s.batches[s.numbered[n]]))
  }

  /** Sorting the batches by number gives the changes in the order they were added. */
  predicate OrderKept(s: System) {
    && (forall n :: 0 <= n < |s.numbered| ==> s.numbered[n] < |s.batches|)
    && ByNumber(s) + s.pending == s.added
  }

  predicate OrderAtRest(s: System) {
    Quiescent(s) ==> OrderKept(s)
  }

  /** Without overtaking, sorting by number restores the order in which changes were added. */
  lemma NumbersFollowChanges(config: BatchConfig, callers: nat, es: seq<Event>)
    requires WithoutOvertaking(config, Start(callers), es)
    ensures OrderAtRest(Run(config, Start(callers), es))
  {
    NoOvertakingKeepsOrder(config, callers, es);
    RunIsSound(config, callers, es);
    NothingLostOrOversized(config, callers, es);
    var s := Run(config, Start(callers), es);
    hide Run, WithoutOvertaking, SizeBounded, OutcomesMatch;
    InOrderIsKept(s);
  }

  lemma InOrderIsKept(s: System)
    requires InOrder(s) && |s.numbered| <= |s.batches| && Concat(s.batches) + s.pending == s.added
    ensures |s.numbered| == |s.batches| ==> OrderKept(s)
  {
    if |s.numbered| == |s.batches| {
      assert seq(|s.numbered|, n requires 0 <= n < |s.numbered| => s.batches[s.numbered[n]]) == s.batches;
    }
  }

  /** With overtaking it need not: whenever two callers hold batches, the later one can be numbered first. */
  lemma OvertakingReverses(config: BatchConfig, s: System, t: nat, u: nat)
    requires Sound(config, s) && t < |s.callers| && u < |s.callers|
    requires s.callers[t].Holding? && s.callers[u].Holding? && s.callers[t].batch < s.callers[u].batch
    ensures var s' := Run(config, s, [Event(u, Number), Event(t, Number)]);
            && s'.numbered == s.numbered + [s.callers[u].batch, s.callers[t].batch]
            && !InOrder(s')
  {
    hide SizeBounded, Conserved, NumbersMatch, OutcomesMatch;
    RunTwo(config, s, Event(u, Number), Event(t, Number));
    hide Run;
    var s1 := Next(config, s, Event(u, Number));
    assert s1.numbered == s.numbered + [s.callers[u].batch];
    var s' := Next(config, s1, Event(t, Number));
    var n := |s.numbered|;
    assert s'.numbered[n] == s.callers[u].batch && s'.numbered[n + 1] == s.callers[t].batch;
  }

  // ---------- the age timer ----------

  predicate SomeoneMarked(s: System) {
    exists t :: 0 <= t < |s.callers| && s.callers[t].Marked?
  }

  /** The timer runs exactly while a change is pending or about to be. */
  predicate TimerExact(s: System) {
    s.batchStart.Some? <==> s.pending != [] || SomeoneMarked(s)
  }

  /** When the background task asks for a flush. */
  predicate Aged(s: System, now: nat, maxAge: nat) {
    s.batchStart.Some? && s.batchStart.value + maxAge <= now && s.pending != []
  }

  /** The timer property as a caller sees it between calls. */
  predicate TimerAtRest(s: System) {
    Quiescent(s) ==> (s.batchStart.Some? <==> s.pending != [])
  }

  /** No batch is taken between another caller's mark and push. */
  predicate WithoutStaleMarks(config: BatchConfig, s: System, es: seq<Event>)
    decreases |es|
  {
    es == [] ||
    var before, e := es[..|es| - 1], es[|es| - 1];
    && WithoutStaleMarks(config, s, before)
    && (e.step.Take? && Enabled(config, Run(config, s, before), e) && Run(config, s, before).pending != []
        ==> !SomeoneMarked(Run(config, s, before)))
  }

  lemma StepKeepsTimer(config: BatchConfig, s: System, e: Event)
    requires TimerExact(s)
    requires e.step.Take? && Enabled(config, s, e) && s.pending != [] ==> !SomeoneMarked(s)
    ensures TimerExact(Next(config, s, e))
  {
    if Enabled(config, s, e) {
      var s' := Next(config, s, e);
      if SomeoneMarked(s) && !e.step.Push? {
        var t :| 0 <= t < |s.callers| && s.callers[t].Marked?;
        assert s'.callers[t].Marked?;
      } else if e.step.Mark? {
        assert s'.callers[e.who].Marked?;
      } else if !SomeoneMarked(s) {
        assert forall t :: 0 <= t < |s'.callers| && t != e.who ==> s'.callers[t] == s.callers[t];
        assert !SomeoneMarked(s');
      }
    }
  }

  lemma {:induction false} NoStaleMarkKeepsTimer(config: BatchConfig, callers: nat, es: seq<Event>)
    requires WithoutStaleMarks(config, Start(callers), es)
    ensures TimerExact(Run(config, Start(callers), es))
    decreases |es|
  {
    if es != [] {
      NoStaleMarkKeepsTimer(config, callers, es[..|es| - 1]);
      hide Next, TimerExact, Enabled, SomeoneMarked;
      StepKeepsTimer(config, Run(config, Start(callers), es[..|es| - 1]), es[|es| - 1]);
    }
  }

  /** Event i of a run is a mark that goes through. */
  predicate MarksAt(config: BatchConfig, s: System, es: seq<Event>, i: nat) {
    i < |es| && es[i].step.Mark? && Enabled(config, Run(config, s, es[..i]), es[i])
  }

  /** Event i of a run takes pending changes away. */
  predicate TakesAt(config: BatchConfig, s: System, es: seq<Event>, i: nat) {
    i < |es| && es[i].step.Take? && Enabled(config, Run(config, s, es[..i]), es[i])
    && Run(config, s, es[..i]).pending != []
  }

  ghost predicate MarkedSince(config: BatchConfig, s: System, es: seq<Event>, i: nat) {
    MarksAt(config, s, es, i) && forall k: nat :: i < k ==> !TakesAt(config, s, es, k)
  }

  /** The first mark since changes were last taken away. */
  ghost predicate FirstMark(config: BatchConfig, s: System, es: seq<Event>, i: nat) {
    MarkedSince(config, s, es, i) && forall j: nat :: j < i ==> !MarkedSince(config, s, es, j)
  }

  lemma EarlierEvents(config: BatchConfig, s: System, es: seq<Event>, i: nat)
    requires i < |es| - 1
    ensures MarksAt(config, s, es, i) <==> MarksAt(config, s, es[..|es| - 1], i)
    ensures TakesAt(config, s, es, i) <==> TakesAt(config, s, es[..|es| - 1], i)
  {
    hide Run, Enabled;
    assert es[..|es| - 1][..i] == es[..i];
  }

  lemma EarlierMark(config: BatchConfig, s: System, es: seq<Event>, i: nat)
    requires i < |es| - 1
    ensures MarkedSince(config, s, es, i)
            <==> MarkedSince(config, s, es[..|es| - 1], i) && !TakesAt(config, s, es, |es| - 1)
  {
    hide MarksAt, TakesAt;
    var before := es[..|es| - 1];
    EarlierEvents(config, s, es, i);
    NoLaterTake(config, s, es);
    NoLaterTake(config, s, before);
    if MarkedSince(config, s, es, i) {
      forall k: nat | i < k
        ensures !TakesAt(config, s, before, k)
      {
        if k < |before| {
          EarlierEvents(config, s, es, k);
        }
      }
    }
    if MarkedSince(config, s, before, i) && !TakesAt(config, s, es, |es| - 1) {
      forall k: nat | i < k
        ensures !TakesAt(config, s, es, k)
      {
        if k < |before| {
          EarlierEvents(config, s, es, k);
        }
      }
    }
  }

  lemma NoLaterTake(config: BatchConfig, s: System, es: seq<Event>)
    ensures forall k: nat :: k >= |es| ==> !TakesAt(config, s, es, k)
    ensures forall k: nat :: k >= |es| ==> !MarksAt(config, s, es, k)
  {
  }

  lemma StepMovesTimer(config: BatchConfig, s: System, e: Event)
    ensures Next(config, s, e).batchStart
         == if !Enabled(config, s, e) then s.batchStart
            else if e.step.Mark? && s.batchStart.None? then Some(e.step.now)
            else if e.step.Take? && s.pending != [] then None
            else s.batchStart
  {
  }

  lemma LastEventMarks(config: BatchConfig, s: System, es: seq<Event>)
    requires es != []
    ensures MarkedSince(config, s, es, |es| - 1)
            <==> es[|es| - 1].step.Mark? && Enabled(config, Run(config, s, es[..|es| - 1]), es[|es| - 1])
    ensures TakesAt(config, s, es, |es| - 1)
            <==> es[|es| - 1].step.Take? && Enabled(config, Run(config, s, es[..|es| - 1]), es[|es| - 1])
                 && Run(config, s, es[..|es| - 1]).pending != []
    ensures forall i: nat :: MarkedSince(config, s, es, i) ==> i < |es|
  {
    NoLaterTake(config, s, es);
    hide Run, Enabled;
  }

  ghost predicate SomeMark(config: BatchConfig, s: System, es: seq<Event>) {
    exists i: nat :: MarkedSince(config, s, es, i)
  }

  lemma MarksMove(config: BatchConfig, s: System, es: seq<Event>)
    requires es != []
    ensures var n := |es| - 1;
            SomeMark(config, s, es)
            <==> MarkedSince(config, s, es, n) || (!TakesAt(config, s, es, n) && SomeMark(config, s, es[..n]))
  {
    var n := |es| - 1;
    hide Run, Next, Enabled, MarkedSince, TakesAt, MarksAt;
    if i: nat :| MarkedSince(config, s, es, i) {
      MarksInRun(config, s, es, i);
      if i < n {
        EarlierMark(config, s, es, i);
      }
    }
    if i: nat :| MarkedSince(config, s, es[..n], i) {
      MarksInRun(config, s, es[..n], i);
      EarlierMark(config, s, es, i);
    }
  }

  lemma FirstMarkMoves(config: BatchConfig, s: System, es: seq<Event>, i: nat)
    requires es != [] && FirstMark(config, s, es, i)
    ensures var n := |es| - 1;
            i <= n && if i < n then FirstMark(config, s, es[..n], i) && !TakesAt(config, s, es, n)
                      else !SomeMark(config, s, es[..n])
  {
    var n := |es| - 1;
    LastEventMarks(config, s, es);
    hide Run, Next, Enabled, MarkedSince, TakesAt, MarksAt;
    MarksInRun(config, s, es, i);
    forall j: nat | j < i && MarkedSince(config, s, es[..n], j)
      ensures TakesAt(config, s, es, n)
    {
      EarlierMark(config, s, es, j);
    }
    if i < n {
      EarlierMark(config, s, es, i);
    } else if j: nat :| MarkedSince(config, s, es[..n], j) {
      MarksInRun(config, s, es[..n], j);
    }
  }

  lemma {:induction false} TimerStarted(config: BatchConfig, callers: nat, es: seq<Event>)
    ensures Run(config, Start(callers), es).batchStart.Some? <==> SomeMark(config, Start(callers), es)
    decreases |es|
  {
    var s := Start(callers);
    if es == [] {
      NoLaterTake(config, s, es);
    } else {
      TimerStarted(config, callers, es[..|es| - 1]);
      LastEventMarks(config, s, es);
      LastEventMoves(config, s, es);
      hide *;
      MarksMove(config, s, es);
    }
  }

  lemma {:induction false} TimerTells(config: BatchConfig, callers: nat, es: seq<Event>, i: nat)
    requires FirstMark(config, Start(callers), es, i)
    ensures i < |es| && es[i].step.Mark?
    ensures Run(config, Start(callers), es).batchStart == Some(es[i].step.now)
    decreases |es|
  {
    var s, n := Start(callers), |es| - 1;
    MarksInRun(config, s, es, i);
    FirstMarkMoves(config, s, es, i);
    LastEventMarks(config, s, es);
    LastEventMoves(config, s, es);
    TimerStarted(config, callers, es[..n]);
    hide Run, Next, Enabled, MarkedSince, TakesAt, MarksAt, SomeMark;
    if i < n {
      TimerTells(config, callers, es[..n], i);
    } else {
      assert MarkedSince(config, s, es, n);
    }
  }

  lemma MarksInRun(config: BatchConfig, s: System, es: seq<Event>, i: nat)
    ensures MarkedSince(config, s, es, i) ==> i < |es|
  {
    hide Run, Enabled;
  }

  lemma LastEventMoves(config: BatchConfig, s: System, es: seq<Event>)
    requires es != []
    ensures var before, e := Run(config, s, es[..|es| - 1]), es[|es| - 1];
            Run(config, s, es).batchStart
            == if !Enabled(config, before, e) then before.batchStart
               else if e.step.Mark? && before.batchStart.None? then Some(e.step.now)
               else if e.step.Take? && before.pending != [] then None
               else before.batchStart
  {
    StepMovesTimer(config, Run(config, s, es[..|es| - 1]), es[|es| - 1]);
    hide Next, Enabled;
  }

  lemma {:induction false} SomeFirstMark(config: BatchConfig, s: System, es: seq<Event>, i: nat) returns (j: nat)
    requires MarkedSince(config, s, es, i)
    ensures FirstMark(config, s, es, j)
    decreases i
  {
    hide MarkedSince;
    if k: nat :| k < i && MarkedSince(config, s, es, k) {
      j := SomeFirstMark(config, s, es, k);
    } else {
      j := i;
    }
  }

  /**
   The timer tells when the oldest change that may wait was marked: in every run it stands at the
   time of the first mark since pending changes were last taken, and at nothing if there is none.
   */
  lemma TimerIsFirstMark(config: BatchConfig, callers: nat, es: seq<Event>, now: nat)
    ensures var s := Start(callers);
            Run(config, s, es).batchStart == Some(now)
            <==> exists i: nat :: FirstMark(config, s, es, i) && i < |es| && es[i].step.Mark? && es[i].step.now == now
  {
    var s := Start(callers);
    TimerStarted(config, callers, es);
    hide Run, MarkedSince;
    if SomeMark(config, s, es) {
      var i: nat :| MarkedSince(config, s, es, i);
      var j := SomeFirstMark(config, s, es, i);
      TimerTells(config, callers, es, j);
    }
    forall i: nat | FirstMark(config, s, es, i)
      ensures i < |es| && es[i].step.Mark? && Run(config, s, es).batchStart == Some(es[i].step.now)
    {
      TimerTells(config, callers, es, i);
    }
  }

  /**
   A take between a mark and its push stops the timer of a change that then waits: no age
   makes the background task flush it until somebody adds again.
   */
  lemma StaleMarkStrandsChange(config: BatchConfig, s: System, t: nat, u: nat)
    requires config.maxBatchSize > 1 && t < |s.callers| && u < |s.callers|
    requires s.callers[t].Marked? && s.callers[u].Flushing? && s.pending != []
    requires forall v :: 0 <= v < |s.callers| && v != t && v != u ==> s.callers[v].Idle?
    ensures var es := [Event(u, Take), Event(u, Number), Event(u, Send(true)), Event(t, Push), Event(t, Check)];
            var s' := Run(config, s, es);
            && Quiescent(s') && s'.pending == [s.callers[t].change] && s'.batchStart == None
            && forall now, maxAge :: !Aged(s', now, maxAge)
  {
    var e1, e2, e3, e4, e5 := Event(u, Take), Event(u, Number), Event(u, Send(true)), Event(t, Push), Event(t, Check);
    RunThree(config, s, e1, e2, e3);
    RunOne(config, s, [e1, e2, e3], e4);
    RunOne(config, s, [e1, e2, e3, e4], e5);
    assert [e1, e2, e3] + [e4] == [e1, e2, e3, e4] && [e1, e2, e3, e4] + [e5] == [e1, e2, e3, e4, e5];
    hide Run, Next;
    TakeNumberSend(config, s, u);
    var s3 := Next(config, Next(config, Next(config, s, e1), e2), e3);
    PushUntimed(config, s3, t);
    assert s.callers[u := Idle][t] == s.callers[t];
    assert Quiescent(Run(config, s, [e1, e2, e3, e4, e5]));
  }

  lemma TakeNumberSend(config: BatchConfig, s: System, u: nat)
    requires u < |s.callers| && s.callers[u].Flushing? && s.pending != []
    ensures var numbered := Next(config, Next(config, s, Event(u, Take)), Event(u, Number));
            var s3 := Next(config, numbered, Event(u, Send(true)));
            s3.callers == s.callers[u := Idle] && s3.pending == [] && s3.batchStart == None
  {
    var s1 := Next(config, s, Event(u, Take));
    var s2 := Next(config, s1, Event(u, Number));
    assert s2.callers == s.callers[u := Sending(s.sequence + 1)];
  }

  lemma PushUntimed(config: BatchConfig, s: System, t: nat)
    requires config.maxBatchSize > 1 && t < |s.callers| && s.callers[t].Marked?
    requires s.pending == [] && s.batchStart == None
    ensures var s' := Next(config, Next(config, s, Event(t, Push)), Event(t, Check));
            s'.callers == s.callers[t := Idle] && s'.pending == [s.callers[t].change] && s'.batchStart == None
  {
    assert Next(config, s, Event(t, Push)).callers == s.callers[t := Pushed];
  }

  /** One caller adds a change and takes it at once, by size or by a forced flush after the add. */
  function AddAndTake(who: nat, c: Change): seq<Event> {
    [Event(who, Mark(c, 0)), Event(who, Push)] + [Event(who, Check), Event(who, Trigger), Event(who, Take)]
  }

  lemma AddAndTakeLeaves(config: BatchConfig, s: System, who: nat, c: Change)
    requires config.enabled && who < |s.callers| && s.callers[who].Idle? && s.pending == []
    ensures var s' := Run(config, s, AddAndTake(who, c));
            && s'.callers == s.callers[who := Holding(|s.batches|)]
            && s'.batches == s.batches + [[c]] && s'.pending == []
            && s'.added == s.added + [c] && s'.numbered == s.numbered && s'.sequence == s.sequence
  {
    var e1, e2 := Event(who, Mark(c, 0)), Event(who, Push);
    var e3, e4, e5 := Event(who, Check), Event(who, Trigger), Event(who, Take);
    RunTwo(config, s, e1, e2);
    RunJoin(config, s, [e1, e2], [e3, e4, e5]);
    var s2 := Next(config, Next(config, s, e1), e2);
    RunThree(config, s2, e3, e4, e5);
    hide Run;
    MarkAndPush(config, s, who, c);
    hide Next;
    CheckAndTake(config, s2, who);
    assert s2.callers[who := Holding(|s.batches|)] == s.callers[who := Holding(|s.batches|)];
  }

  lemma MarkAndPush(config: BatchConfig, s: System, who: nat, c: Change)
    requires config.enabled && who < |s.callers| && s.callers[who].Idle? && s.pending == []
    ensures var t := Next(config, Next(config, s, Event(who, Mark(c, 0))), Event(who, Push));
            t == s.(callers := s.callers[who := Pushed], pending := [c], added := s.added + [c],
                    batchStart := t.batchStart)
  {
    assert s.callers[who := Marked(c)][who := Pushed] == s.callers[who := Pushed];
  }

  lemma CheckAndTake(config: BatchConfig, s: System, who: nat)
    requires who < |s.callers| && s.callers[who].Pushed? && s.pending != []
    ensures var triggered := Next(config, Next(config, s, Event(who, Check)), Event(who, Trigger));
            var t := Next(config, triggered, Event(who, Take));
            t == s.(callers := s.callers[who := Holding(|s.batches|)], batchStart := None, pending := [],
                    batches := s.batches + [s.pending])
  {
    var s1 := Next(config, s, Event(who, Check));
    var s2 := Next(config, s1, Event(who, Trigger));
    assert s2.callers[who].Flushing? && s2 == s.(callers := s2.callers);
    assert s2.callers[who := Holding(|s.batches|)] == s.callers[who := Holding(|s.batches|)];
  }

  /** Two callers add a change each, take it, and number the second batch first. */
  function Overtake(c: Change, d: Change): seq<Event> {
    AddAndTake(0, c) + AddAndTake(1, d)
    + [Event(1, Number), Event(0, Number)] + [Event(1, Send(true)), Event(0, Send(true))]
  }

  /** With batching on, two callers suffice to send a later change under the smaller number. */
  lemma TwoCallersReorder(config: BatchConfig, callers: nat, c: Change, d: Change)
    requires config.enabled && callers > 1
    ensures var s := Run(config, Start(callers), Overtake(c, d));
            && Quiescent(s) && s.added == [c, d] && s.pending == []
            && s.numbered == [1, 0] && s.batches == [[c], [d]] && ByNumber(s) == [d, c]
  {
    var first, second := AddAndTake(0, c), AddAndTake(1, d);
    var number, send := [Event(1, Number), Event(0, Number)], [Event(1, Send(true)), Event(0, Send(true))];
    var s0 := Start(callers);
    RunJoin(config, s0, first + second + number, send);
    RunJoin(config, s0, first + second, number);
    RunJoin(config, s0, first, second);
    var s1 := Run(config, s0, first);
    AddAndTakeLeaves(config, s0, 0, c);
    AddAndTakeLeaves(config, s1, 1, d);
    var s2 := Run(config, s1, second);
    hide Run, AddAndTake, ByNumber;
    RunTwo(config, s2, number[0], number[1]);
    var s3 := Run(config, s2, number);
    RunTwo(config, s3, send[0], send[1]);
    assert s2.callers == s0.callers[0 := Holding(0)][1 := Holding(1)];
    hide Next;
    SendInReverse(config, callers, s2, c, d);
  }

  lemma SendInReverse(config: BatchConfig, callers: nat, s: System, c: Change, d: Change)
    requires callers > 1 && s.callers == Start(callers).callers[0 := Holding(0)][1 := Holding(1)]
    requires s.batches == [[c], [d]] && s.numbered == [] && s.sequence == 0
    ensures var s3 := Next(config, Next(config, s, Event(1, Number)), Event(0, Number));
            var s5 := Next(config, Next(config, s3, Event(1, Send(true))), Event(0, Send(true)));
            && Quiescent(s5) && s5.numbered == [1, 0] && s5.batches == s.batches
            && s5.pending == s.pending && s5.added == s.added && ByNumber(s5) == [d, c]
  {
    var s3 := Next(config, Next(config, s, Event(1, Number)), Event(0, Number));
    assert s3.callers == s.callers[1 := Sending(1)][0 := Sending(2)] && s3.numbered == [1, 0];
    var s5 := Next(config, Next(config, s3, Event(1, Send(true))), Event(0, Send(true)));
    assert s5.callers == s3.callers[1 := Idle][0 := Idle];
    ConcatTwo([d], [c]);
    hide Concat;
    assert seq(|s5.numbered|, n requires 0 <= n < |s5.numbered| => s5.batches[s5.numbered[n]]) == [[d], [c]];
  }

  /**
   When the numbers follow the changes in every run: exactly if batching is off, where a change is
   numbered as it is added, or there is at most one caller.
   */
  lemma OrderHoldsExactly(config: BatchConfig, callers: nat)
    ensures (forall es :: OrderAtRest(Run(config, Start(callers), es))) <==> !config.enabled || callers <= 1
  {
    if !config.enabled || callers <= 1 {
      forall es
        ensures OrderAtRest(Run(config, Start(callers), es))
      {
        SafeCallersOvertakeNot(config, callers, es);
        NumbersFollowChanges(config, callers, es);
      }
    } else {
      TwoCallersReorder(config, callers, SOME_CHANGE, OTHER_CHANGE);
      var s := Run(config, Start(callers), Overtake(SOME_CHANGE, OTHER_CHANGE));
      hide Run, ByNumber, Quiescent, Overtake;
      assert ByNumber(s) + s.pending == [OTHER_CHANGE, SOME_CHANGE];
      assert [OTHER_CHANGE, SOME_CHANGE][0] != [SOME_CHANGE, OTHER_CHANGE][0];
      assert !OrderAtRest(s);
    }
  }

  lemma AloneHoldsNothing(config: BatchConfig, s: System, e: Event)
    requires |s.callers| <= 1 && e.step.Take? && Enabled(config, s, e)
    ensures Holders(s) == 0
  {
    CountNone(s.callers, HOLDING);
  }

  lemma {:induction false} SafeCallersOvertakeNot(config: BatchConfig, callers: nat, es: seq<Event>)
    requires !config.enabled || callers <= 1
    ensures WithoutOvertaking(config, Start(callers), es)
    decreases |es|
  {
    if es != [] {
      var before, e := es[..|es| - 1], es[|es| - 1];
      SafeCallersOvertakeNot(config, callers, before);
      RunIsSound(config, callers, before);
      var s := Run(config, Start(callers), before);
      if !config.enabled {
        SoundDisabled(config, s);
      }
      hide Run, Sound, Enabled, Holders;
      if config.enabled && e.step.Take? && Enabled(config, s, e) {
        AloneHoldsNothing(config, s, e);
      }
    }
  }

  lemma ConcatTwo(a: seq<Change>, b: seq<Change>)
    ensures Concat([a, b]) == a + b
  {
    assert [a, b][..1] == [a] && [a][..0] == [];
    assert Concat([a]) == Concat([]) + a;
    assert [] + a == a;
  }

  /** One change waits to be flushed while a second caller has marked but not pushed. */
  function Interrupted(c: Change, d: Change): seq<Event> {
    AddQuietly(0, c) + [Event(0, Trigger), Event(1, Mark(d, 0))]
  }

  lemma InterruptedLeaves(config: BatchConfig, callers: nat, c: Change, d: Change)
    requires config.enabled && config.maxBatchSize > 1 && callers > 1
    ensures var s := Run(config, Start(callers), Interrupted(c, d));
            s.callers == Start(callers).callers[0 := Flushing(false)][1 := Marked(d)] && |s.pending| == 1
  {
    var s0 := Start(callers);
    RunJoin(config, s0, AddQuietly(0, c), [Event(0, Trigger), Event(1, Mark(d, 0))]);
    RunThree(config, s0, Event(0, Mark(c, 0)), Event(0, Push), Event(0, Check));
    var s := Run(config, s0, AddQuietly(0, c));
    RunTwo(config, s, Event(0, Trigger), Event(1, Mark(d, 0)));
    AddQuietlyLeaves(config, s0, c);
    hide Run, AddQuietly;
    assert s.callers == s0.callers;
    assert Next(config, s, Event(0, Trigger)).callers == s0.callers[0 := Flushing(false)];
  }

  /** And two callers suffice to strand a change: it stays pending and never ages. */
  lemma TwoCallersStrand(config: BatchConfig, callers: nat, c: Change, d: Change) returns (es: seq<Event>)
    requires config.enabled && config.maxBatchSize > 1 && callers > 1
    ensures var s := Run(config, Start(callers), es);
            && Quiescent(s) && s.pending == [d] && s.batchStart == None
            && forall now, maxAge :: !Aged(s, now, maxAge)
  {
    hide Run, Next, Quiescent, Aged, Interrupted;
    var rest := [Event(0, Take), Event(0, Number), Event(0, Send(true)), Event(1, Push), Event(1, Check)];
    InterruptedLeaves(config, callers, c, d);
    RunJoin(config, Start(callers), Interrupted(c, d), rest);
    StaleMarkStrandsChange(config, Run(config, Start(callers), Interrupted(c, d)), 1, 0);
    es := Interrupted(c, d) + rest;
  }

  /** The half of the timer's meaning that every interleaving keeps: a running timer has its reason. */
  predicate TimerJustified(config: BatchConfig, s: System) {
    s.batchStart.Some? ==> config.enabled && (s.pending != [] || SomeoneMarked(s))
  }

  lemma StepJustifiesTimer(config: BatchConfig, s: System, e: Event)
    requires TimerJustified(config, s)
    ensures TimerJustified(config, Next(config, s, e))
  {
    if Enabled(config, s, e) {
      var s' := Next(config, s, e);
      if SomeoneMarked(s) && !e.step.Push? {
        var t :| 0 <= t < |s.callers| && s.callers[t].Marked?;
        assert s'.callers[t].Marked?;
      } else if e.step.Mark? {
        assert s'.callers[e.who].Marked?;
      }
    }
  }

  lemma {:induction false} RunJustifiesTimer(config: BatchConfig, callers: nat, es: seq<Event>)
    ensures TimerJustified(config, Run(config, Start(callers), es))
    decreases |es|
  {
    if es != [] {
      RunJustifiesTimer(config, callers, es[..|es| - 1]);
      hide Next, TimerJustified;
      StepJustifiesTimer(config, Run(config, Start(callers), es[..|es| - 1]), es[|es| - 1]);
    }
  }

  lemma AloneUnmarked(config: BatchConfig, s: System, e: Event)
    requires |s.callers| <= 1 && e.step.Take? && Enabled(config, s, e)
    ensures !SomeoneMarked(s)
  {
  }

  lemma {:induction false} FewCallersMarkInTime(config: BatchConfig, callers: nat, es: seq<Event>)
    requires callers <= 1
    ensures WithoutStaleMarks(config, Start(callers), es)
    decreases |es|
  {
    if es != [] {
      var before, e := es[..|es| - 1], es[|es| - 1];
      FewCallersMarkInTime(config, callers, before);
      RunIsSound(config, callers, before);
      var s := Run(config, Start(callers), before);
      hide Run, Sound, Enabled, SomeoneMarked;
      if e.step.Take? && Enabled(config, s, e) {
        AloneUnmarked(config, s, e);
      }
    }
  }

  /**
   When every pending change is timed at rest, in every run: exactly if batching is off, there is
   at most one caller, or a batch is full with its first change.
   */
  lemma TimerHoldsExactly(config: BatchConfig, callers: nat)
    ensures (forall es :: TimerAtRest(Run(config, Start(callers), es)))
            <==> !config.enabled || callers <= 1 || config.maxBatchSize <= 1
  {
    if config.enabled && callers > 1 && config.maxBatchSize > 1 {
      var es := TwoCallersStrand(config, callers, SOME_CHANGE, OTHER_CHANGE);
      assert !TimerAtRest(Run(config, Start(callers), es));
    } else {
      forall es
        ensures TimerAtRest(Run(config, Start(callers), es))
      {
        var s := Run(config, Start(callers), es);
        RunJustifiesTimer(config, callers, es);
        NothingLostOrOversized(config, callers, es);
        RunIsSound(config, callers, es);
        if callers <= 1 {
          FewCallersMarkInTime(config, callers, es);
          NoStaleMarkKeepsTimer(config, callers, es);
        }
        hide Run, SizeBounded, NumbersMatch, OutcomesMatch, InFlight, Concat;
        assert Quiescent(s) ==> !SomeoneMarked(s);
      }
    }
  }

  // ---------- one caller at a time ----------

  /** What holds whenever there is a single caller, between any two of its steps. */
  predicate Solo(config: BatchConfig, s: System) {
    && |s.callers| == 1
    && Sound(config, s)
    && InOrder(s) && Holders(s) <= 1
    && TimerExact(s)
  }

  lemma SoloStep(config: BatchConfig, s: System, e: Event)
    requires Solo(config, s)
    ensures Solo(config, Next(config, s, e))
  {
    hide Sound, InOrder, TimerExact;
    if e.step.Take? && Enabled(config, s, e) {
      assert Count(s.callers, HOLDING) == 0;
      assert !SomeoneMarked(s);
    }
    StepIsSound(config, s, e);
    StepKeepsOrder(config, s, e);
    StepKeepsTimer(config, s, e);
  }

  lemma {:induction false} SoloRun(config: BatchConfig, es: seq<Event>)
    ensures Solo(config, Run(config, Start(1), es))
    decreases |es|
  {
    if es == [] {
      RunIsSound(config, 1, []);
      NoOvertakingKeepsOrder(config, 1, []);
    } else {
      SoloRun(config, es[..|es| - 1]);
      hide Solo, Next;
      SoloStep(config, Run(config, Start(1), es[..|es| - 1]), es[|es| - 1]);
    }
  }

  datatype ChangeBatch = ChangeBatch(changes: seq<Change>, sequence: nat)

  /** What the channel has accepted of the first `n` numbers. */
  function Delivered(batches: seq<seq<Change>>, numbered: seq<nat>, outcome: map<nat, bool>, n: nat): seq<ChangeBatch> {
    if n == 0 then []
    else
      Delivered(batches, numbered, outcome, n - 1)
      + (if n in outcome && outcome[n] && n <= |numbered| && numbered[n - 1] < |batches|
         then [ChangeBatch(batches[numbered[n - 1]], n)]
         else [])
  }

  lemma {:induction false} DeliveredStays(
    batches: seq<seq<Change>>, numbered: seq<nat>, outcome: map<nat, bool>,
    batches': seq<seq<Change>>, numbered': seq<nat>, outcome': map<nat, bool>, n: nat)
    requires batches <= batches' && numbered <= numbered'
    requires n <= |numbered| && forall i :: 0 <= i < |numbered| ==> numbered[i] < |batches|
    requires forall m :: 1 <= m <= n ==>
               (m in outcome <==> m in outcome') && (m in outcome ==> outcome[m] == outcome'[m])
    ensures Delivered(batches', numbered', outcome', n) == Delivered(batches, numbered, outcome, n)
    decreases n
  {
    if n > 0 {
      DeliveredStays(batches, numbered, outcome, batches', numbered', outcome', n - 1);
    }
  }

  /**
   One caller: batch k is number k + 1, sizes and timer are exact, and a gap in the received numbers is a
   dropped batch.
   */
  lemma GapMeansDrop(config: BatchConfig, es: seq<Event>)
    ensures var s := Run(config, Start(1), es);
            s.callers == [Idle] ==>
              && s.numbered == seq(s.sequence, k => k) && |s.batches| == s.sequence
              && Concat(s.batches) + s.pending == s.added
              && |s.pending| <= Quota(config)
              && (s.batchStart.Some? <==> s.pending != [])
              && forall n :: NumberArrives(s, n) <==> 1 <= n <= s.sequence && n in s.outcome && s.outcome[n]
  {
    var s := Run(config, Start(1), es);
    SoloRun(config, es);
    NothingLostOrOversized(config, 1, es);
    hide Run;
    if s.callers == [Idle] {
      CountIdle(s.callers, HOLDING);
      CountIdle(s.callers, IN_FLIGHT);
      forall n
        ensures NumberArrives(s, n) <==> 1 <= n <= s.sequence && n in s.outcome && s.outcome[n]
      {
        ArrivesUpTo(s, s.sequence, n);
      }
    }
  }

  /** Everything the channel has accepted. */
  function Received(s: System): seq<ChangeBatch> {
    Delivered(s.batches, s.numbered, s.outcome, s.sequence)
  }

  /** Only a send can change what the channel has accepted. */
  lemma ReceivedStays(config: BatchConfig, s: System, e: Event)
    requires Sound(config, s) && !e.step.Send?
    ensures Received(Next(config, s, e)) == Received(s)
  {
    hide SizeBounded, Conserved;
    var t := Next(config, s, e);
    DeliveredStays(s.batches, s.numbered, s.outcome, t.batches, t.numbered, t.outcome, s.sequence);
    if t.sequence > s.sequence {
      assert t.sequence !in t.outcome;
    }
  }

  lemma ReceivedSend(config: BatchConfig, s: System, t: nat, accepted: bool)
    requires Sound(config, s) && t < |s.callers| && s.callers[t] == Sending(s.sequence) && s.sequence > 0
    ensures |s.numbered| == s.sequence && s.numbered[s.sequence - 1] < |s.batches|
    ensures Received(Next(config, s, Event(t, Send(accepted))))
            == Received(s) + if accepted then [ChangeBatch(s.batches[s.numbered[s.sequence - 1]], s.sequence)] else []
  {
    hide SizeBounded, Conserved;
    var s' := Next(config, s, Event(t, Send(accepted)));
    DeliveredStays(s.batches, s.numbered, s.outcome, s'.batches, s'.numbered, s'.outcome, s.sequence - 1);
    assert s.sequence !in s.outcome;
  }

  ghost predicate NumberArrives(s: System, n: int) {
    Carries(Received(s), n)
  }

  ghost predicate Carries(received: seq<ChangeBatch>, n: int) {
    exists i :: 0 <= i < |received| && received[i].sequence == n
  }

  lemma CarriesJoin(a: seq<ChangeBatch>, b: seq<ChangeBatch>, n: int)
    ensures Carries(a + b, n) <==> Carries(a, n) || Carries(b, n)
  {
    if Carries(a, n) {
      var i :| 0 <= i < |a| && a[i].sequence == n;
      assert (a + b)[i].sequence == n;
    }
    if Carries(b, n) {
      var i :| 0 <= i < |b| && b[i].sequence == n;
      assert (a + b)[|a| + i].sequence == n;
    }
  }

  lemma {:induction false} ArrivesUpTo(s: System, m: nat, n: int)
    requires m <= |s.numbered| && forall i :: 0 <= i < |s.numbered| ==> s.numbered[i] < |s.batches|
    ensures Carries(Delivered(s.batches, s.numbered, s.outcome, m), n)
            <==> 1 <= n <= m && n in s.outcome && s.outcome[n]
    decreases m
  {
    if m > 0 {
      ArrivesUpTo(s, m - 1, n);
      var before := Delivered(s.batches, s.numbered, s.outcome, m - 1);
      if m in s.outcome && s.outcome[m] {
        var last := [ChangeBatch(s.batches[s.numbered[m - 1]], m)];
        CarriesJoin(before, last, n);
        assert last[0].sequence == m;
      } else {
        assert before + [] == before;
      }
    }
  }

  /** The batcher as one caller drives it; `system` records the steps of the shared machine it takes. */
  class ChangeBatcher {
    const config: BatchConfig
    const maxBatchAge: nat
    var pending: seq<Change>
    var batchStart: Option<nat>
    var sequence: nat
    var channel: seq<ChangeBatch>
    ghost var system: System

    ghost predicate Matches()
      reads this
    {
      && Solo(config, system)
      && pending == system.pending && batchStart == system.batchStart && sequence == system.sequence
      && channel == Received(system)
    }

    ghost predicate Valid()
      reads this
    {
      Matches() && system.callers == [Idle]
    }

    constructor (config: BatchConfig, maxBatchAge: nat)
      ensures Valid() && system == Start(1)
      ensures this.config == config && this.maxBatchAge == maxBatchAge
    {
      this.config := config;
      this.maxBatchAge := maxBatchAge;
      pending := [];
      batchStart := None;
      sequence := 0;
      channel := [];
      system := Start(1);
      new;
      SoloRun(config, []);
    }

    /** Offer a numbered batch to the channel; `accepted` is what `try_send` would answer. */
    method Offer(batch: ChangeBatch, accepted: bool)
      requires Matches() && system.callers == [Sending(system.sequence)] && system.sequence > 0
      requires batch.sequence == system.sequence == |system.numbered|
      requires system.batches != [] && system.numbered[system.sequence - 1] == |system.batches| - 1
      requires batch.changes == system.batches[|system.batches| - 1]
      modifies this
      ensures Valid()
      ensures pending == old(pending) && batchStart == old(batchStart) && sequence == old(sequence)
      ensures system.added == old(system.added) && system.batches == old(system.batches)
      ensures channel == old(channel) + if accepted then [batch] else []
    {
      hide Sound, Delivered;
      SoloStep(config, system, Event(0, Send(accepted)));
      ReceivedSend(config, system, 0, accepted);
      system := Next(config, system, Event(0, Send(accepted)));
      if accepted {
        channel := channel + [batch];
      }
    }

    /** `flush`, once a caller or the background task has decided on it. */
    method Flush(accepted: bool) returns (sent: bool)
      requires Matches() && exists adder :: system.callers == [Flushing(adder)]
      modifies this
      ensures Valid()
      ensures pending == [] && system.added == old(system.added)
      ensures batchStart == if old(pending) == [] then old(batchStart) else None
      ensures system.batches == old(system.batches) + if old(pending) == [] then [] else [old(pending)]
      ensures sequence == old(sequence) + if old(pending) == [] then 0 else 1
      ensures channel == old(channel)
                         + if old(pending) != [] && accepted then [ChangeBatch(old(pending), sequence)] else []
      ensures sent <==> old(pending) != [] && accepted
    {
      hide Sound, Delivered;
      SoloMoves(config, system, Event(0, Take));
      system := Next(config, system, Event(0, Take));
      if pending == [] {
        return false;
      }
      var changes := pending;
      batchStart := None;
      pending := [];
      SoloMoves(config, system, Event(0, Number));
      SoloNumbers(config, system);
      system := Next(config, system, Event(0, Number));
      sequence := sequence + 1;
      Offer(ChangeBatch(changes, sequence), accepted);
      sent := accepted;
    }

    method CheckFlush(accepted: bool) returns (sent: bool)
      requires Matches() && system.callers == [Pushed]
      modifies this
      ensures Valid() && system.added == old(system.added)
      ensures var full := |old(pending)| >= config.maxBatchSize && old(pending) != [];
              && system.batches == old(system.batches) + (if full then [old(pending)] else [])
              && pending == (if full then [] else old(pending))
              && batchStart == (if full then None else old(batchStart))
              && channel == old(channel) + (if full && accepted then [ChangeBatch(old(pending), sequence)] else [])
              && (sent <==> full && accepted)
    {
      hide Sound, Delivered;
      var pendingLen := |pending|;
      SoloMoves(config, system, Event(0, Check));
      system := Next(config, system, Event(0, Check));
      if pendingLen >= config.maxBatchSize {
        sent := Flush(accepted);
      } else {
        sent := false;
      }
    }

    /** `add` with batching off: the change is a batch of its own. */
    method SendSingle(change: Change, accepted: bool)
      requires Valid() && !config.enabled
      modifies this
      ensures Valid() && pending == old(pending) == [] && batchStart == old(batchStart)
      ensures system.added == old(system.added) + [change] && system.batches == old(system.batches) + [[change]]
      ensures channel == old(channel) + if accepted then [ChangeBatch([change], sequence)] else []
    {
      hide Solo, Delivered;
      SoloDisabled(config, system);
      SoloMoves(config, system, Event(0, Bypass(change)));
      SoloNumbers(config, system);
      system := Next(config, system, Event(0, Bypass(change)));
      sequence := sequence + 1;
      Offer(ChangeBatch([change], sequence), accepted);
    }

    /** `add` up to its size check: start the timer unless it runs, then push. */
    method MarkAndPush(change: Change, now: nat)
      requires Valid() && config.enabled
      modifies this
      ensures Matches() && system.callers == [Pushed]
      ensures pending == old(pending) + [change] && system.added == old(system.added) + [change]
      ensures system.batches == old(system.batches) && channel == old(channel)
      ensures batchStart == if old(pending) == [] then Some(now) else old(batchStart)
    {
      hide Solo, Delivered;
      IdleTimer(config, system);
      SoloMoves(config, system, Event(0, Mark(change, now)));
      system := Next(config, system, Event(0, Mark(change, now)));
      if batchStart.None? {
        batchStart := Some(now);
      }
      SoloMoves(config, system, Event(0, Push));
      system := Next(config, system, Event(0, Push));
      pending := pending + [change];
    }

    /** The answer is whether a batch went out, except that a disabled batcher always says so. */
    method Add(change: Change, now: nat, accepted: bool) returns (flushed: bool)
      requires Valid()
      modifies this
      ensures Valid() && system.added == old(system.added) + [change]
      ensures var grown := old(pending) + [change];
              var full := |grown| >= config.maxBatchSize || !config.enabled;
              && (config.enabled || grown == [change])
              && system.batches == old(system.batches) + (if full then [grown] else [])
              && pending == (if full then [] else grown)
              && channel == old(channel) + (if full && accepted then [ChangeBatch(grown, sequence)] else [])
              && (flushed <==> !config.enabled || (full && accepted))
      ensures pending != [] ==> batchStart == if old(pending) == [] then Some(now) else old(batchStart)
    {
      hide Matches;
      if !config.enabled {
        SendSingle(change, accepted);
        return true;
      }
      MarkAndPush(change, now);
      flushed := CheckFlush(accepted);
    }

    method ForceFlush(accepted: bool)
      requires Valid()
      modifies this
      ensures Valid() && pending == [] && system.added == old(system.added)
      ensures system.batches == old(system.batches) + if old(pending) == [] then [] else [old(pending)]
    {
      hide Sound, Delivered;
      SoloMoves(config, system, Event(0, Trigger));
      system := Next(config, system, Event(0, Trigger));
      var _ := Flush(accepted);
    }

    /** One wake-up of the background task: it flushes exactly when the oldest pending change is old enough. */
    method BackgroundTick(now: nat, accepted: bool)
      requires Valid()
      modifies this
      ensures Valid() && system.added == old(system.added)
      ensures old(pending) != [] && old(batchStart.Some? && batchStart.value + maxBatchAge <= now) ==>
                pending == [] && system.batches == old(system.batches) + [old(pending)]
      ensures !(old(pending) != [] && old(batchStart.Some? && batchStart.value + maxBatchAge <= now)) ==>
                system == old(system)
    {
      match batchStart {
        case Some(start) =>
          if now - start >= maxBatchAge && |pending| > 0 {
            ForceFlush(accepted);
          }
        case None =>
      }
    }
  }

  lemma IdleTimer(config: BatchConfig, s: System)
    requires Solo(config, s) && s.callers == [Idle]
    ensures s.batchStart.Some? <==> s.pending != []
  {
    hide Sound, InOrder;
  }

  /** How many of `count` changes, added one after the other, still wait: those since the last full batch. */
  function Waiting(config: BatchConfig, count: nat): nat {
    if config.enabled then count % Max(config.maxBatchSize, 1) else 0
  }

  lemma OneMoreWaits(config: BatchConfig, count: nat)
    ensures Waiting(config, count) <= count
    ensures Waiting(config, count + 1)
            == if !config.enabled || Waiting(config, count) + 1 >= config.maxBatchSize then 0
               else Waiting(config, count) + 1
  {
    CountOn(count, Max(config.maxBatchSize, 1));
  }

  lemma StillWaiting(changes: seq<Change>, i: nat, n: nat)
    requires n <= i < |changes|
    ensures changes[i - n..i] + [changes[i]] == changes[i - n..i + 1]
  {
  }

  /** What is pending are the last changes, and the timer stands at the first of them. */
  ghost predicate HasLast(batcher: ChangeBatcher, changes: seq<Change>, times: seq<nat>, i: nat, n: nat)
    reads batcher
    requires n <= i <= |changes| && |times| == |changes|
  {
    && batcher.pending == changes[i - n..i]
    && (n > 0 ==> batcher.batchStart == Some(times[i - n]))
  }

  method AddAll(batcher: ChangeBatcher, changes: seq<Change>, times: seq<nat>, accepted: bool)
    requires batcher.Valid() && batcher.pending == [] && |times| == |changes|
    modifies batcher
    ensures batcher.Valid() && Waiting(batcher.config, |changes|) <= |changes|
    ensures HasLast(batcher, changes, times, |changes|, Waiting(batcher.config, |changes|))
  {
    hide Waiting, ChangeBatcher.Valid, ChangeBatcher.Matches, Solo;
    var i := 0;
    OneMoreWaits(batcher.config, 0);
    while i < |changes|
      invariant 0 <= i <= |changes| && Waiting(batcher.config, i) <= i
      invariant batcher.Valid() && HasLast(batcher, changes, times, i, Waiting(batcher.config, i))
    {
      OneMoreWaits(batcher.config, i);
      StillWaiting(changes, i, Waiting(batcher.config, i));
      var _ := batcher.Add(changes[i], times[i], accepted);
      i := i + 1;
    }
  }

  /**
   Any changes added one after the other, and then a wake-up of the background task. What waits is
   the changes since the last full batch, and it leaves exactly if the first of them has waited for
   the maximum age, however late the others came.
   */
  method AddsThenTick(batcher: ChangeBatcher, changes: seq<Change>, times: seq<nat>, now: nat, accepted: bool)
    requires batcher.Valid() && batcher.pending == [] && |times| == |changes|
    modifies batcher
    ensures batcher.Valid()
    ensures var config := batcher.config;
            var n := if config.enabled then |changes| % Max(config.maxBatchSize, 1) else 0;
            && n <= |changes|
            && batcher.pending == if n > 0 && times[|changes| - n] + batcher.maxBatchAge <= now then []
                                  else changes[|changes| - n..]
  {
    AddAll(batcher, changes, times, accepted);
    batcher.BackgroundTick(now, accepted);
  }

  lemma CountOn(i: nat, size: nat)
    requires size > 0
    ensures (i + 1) % size == if i % size + 1 == size then 0 else i % size + 1
  {
    var q, r := i / size, i % size;
    assert i == size * q + r;
    if r + 1 == size {
      assert i + 1 == size * (q + 1) + 0;
      Arithmetic.QuotientUnique(i + 1, size, q + 1, 0);
    } else {
      Arithmetic.QuotientUnique(i + 1, size, q, r + 1);
    }
  }

  lemma SoloNumbers(config: BatchConfig, s: System)
    requires Solo(config, s)
    ensures |s.numbered| == s.sequence
  {
  }

  lemma SoloDisabled(config: BatchConfig, s: System)
    requires Solo(config, s) && !config.enabled
    ensures s.pending == []
  {
    SoundDisabled(config, s);
  }

  lemma SoloMoves(config: BatchConfig, s: System, e: Event)
    requires Solo(config, s) && !e.step.Send?
    ensures Solo(config, Next(config, s, e)) && Received(Next(config, s, e)) == Received(s)
  {
    SoloStep(config, s, e);
    ReceivedStays(config, s, e);
  }

  lemma SoundDisabled(config: BatchConfig, s: System)
    requires Sound(config, s) && !config.enabled
    ensures s.pending == []
  {
  }
}
