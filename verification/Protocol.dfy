/** Processing a message, paged pulls, and replication between two nodes (src/protocol.rs). */
module Protocol {
  import opened Changes
  import opened Sync
  import Sequences

  datatype ChangeBatch = ChangeBatch(offset: u64, changes: seq<Change>, isFinal: bool)

  datatype SyncMessage =
    | Request(offset: u64, limit: Option<nat>)
    | Response(batch: ChangeBatch)
    | Ack(ackOffset: u64)
    | Ping
    | Pong

  // ---------- processing one message ----------

  function Truncate(changes: seq<Change>, limit: Option<nat>): seq<Change> {
    if limit.Some? && limit.value < |changes| then changes[..limit.value] else changes
  }

  function Page(log: LogState, cursor: nat, limit: Option<nat>): seq<Change> {
    Truncate(ChangesSince(log, cursor), limit)
  }

  function Answer(log: LogState, cursor: u64, limit: Option<nat>): ChangeBatch {
    var page := Page(log, cursor, limit);
    var next := (cursor + |page|) % U64;
    ChangeBatch(next, page, page == [] || log.offset <= next)
  }

  /** `process_message`: the log after it, and the reply. */
  function Process(log: LogState, msg: SyncMessage, localOffset: u64): (LogState, SyncMessage) {
    match msg
    case Request(offset, limit) => (log, Response(Answer(log, offset, limit)))
    case Response(batch) => (RecordAll(log, batch.changes), Ack(batch.offset))
    case Ack(_) => (log, Ack(localOffset))
    case Ping => (log, Pong)
    case Pong => (log, Ping)
  }

  method ProcessMessage(manager: SyncManager, msg: SyncMessage, localOffset: u64) returns (reply: SyncMessage)
    modifies manager`offset, manager`changes
    ensures (manager.Log(), reply) == Process(old(manager.Log()), msg, localOffset)
  {
    match msg
    case Request(offset, limit) =>
      var changes := manager.GetChangesSince(offset);
      if limit.Some? && limit.value < |changes| {
        changes := changes[..limit.value];
      }
      var next := (offset + |changes|) % U64;
      var isFinal := changes == [] || manager.offset <= next;
      reply := Response(ChangeBatch(next, changes, isFinal));
    case Response(batch) =>
      var i := 0;
      assert batch.changes[i..] == batch.changes;
      while i < |batch.changes|
        invariant 0 <= i <= |batch.changes|
        invariant RecordAll(manager.Log(), batch.changes[i..]) == RecordAll(old(manager.Log()), batch.changes)
      {
        var _ := manager.RecordChange(batch.changes[i]);
        assert batch.changes[i..][1..] == batch.changes[i + 1..];
        i := i + 1;
      }
      reply := Ack(batch.offset);
    case Ack(_) =>
      reply := Ack(localOffset);
    case Ping =>
      reply := Pong;
    case Pong =>
      reply := Ping;
  }

  /** A page never runs past the counter, so the new cursor does not wrap. */
  lemma PageWithinLog(log: LogState, cursor: u64, limit: Option<nat>)
    ensures Page(log, cursor, limit) == [] || cursor + |Page(log, cursor, limit)| <= log.offset
    ensures Answer(log, cursor, limit).offset == cursor + |Page(log, cursor, limit)|
  {
  }

  /** Where a page starts in the history: at the cursor, or at the first retained change if that is later. */
  lemma PageOfHistory(log: LogState, history: seq<Change>, cursor: u64, limit: Option<nat>)
    requires Represents(log, history)
    ensures var first := Max(Base(log), cursor);
            var page := Page(log, cursor, limit);
            cursor < |history| ==> first + |page| <= |history| && page == history[first..first + |page|]
    ensures (limit.None? || limit.value > 0) && Page(log, cursor, limit) == [] ==>
              cursor >= |history| || Base(log) == |history|
  {
    if cursor < |history| {
      TailWindow(log, history, cursor);
      var first := Max(Base(log), cursor);
      var page := Page(log, cursor, limit);
      hide ChangesSince;
      assert ChangesSince(log, cursor) == history[first..];
      Sequences.TakeAfterDrop(history, first, |page|);
    }
  }

  /**
   What a request is answered with, by the history alone: from the cursor, or from the first
   retained change if that is later, to the end or as far as the limit goes. It is final exactly if
   that is nothing or moves the cursor to the end of the log.
   */
  lemma RequestAnswered(log: LogState, history: seq<Change>, cursor: u64, limit: Option<nat>, localOffset: u64)
    requires Represents(log, history)
    ensures var (after, reply) := Process(log, Request(cursor, limit), localOffset);
            && after == log && reply.Response?
            && var first := Max(|history| - |log.changes|, Min(cursor, |history|));
               var n := if limit.Some? then Min(limit.value, |history| - first) else |history| - first;
               && reply.batch.changes == (if cursor < |history| then history[first..first + n] else [])
               && reply.batch.offset == cursor + |reply.batch.changes|
               && (reply.batch.isFinal <==> reply.batch.changes == [] || |history| <= reply.batch.offset)
  {
    PageOfHistory(log, history, cursor, limit);
    PageWithinLog(log, cursor, limit);
    if cursor < |history| {
      TailWindow(log, history, cursor);
    }
  }

  /** What two nodes say to each other when each answers all it receives; `msg` is said first, by the second. */
  function Dialogue(one: LogState, other: LogState, msg: SyncMessage, oneOffset: u64, otherOffset: u64, n: nat)
    : (said: SyncMessage)
    decreases n
  {
    if n == 0 then msg
    else
      var (next, reply) := Process(one, msg, oneOffset);
      Dialogue(other, next, reply, otherOffset, oneOffset, n - 1)
  }

  /**
   An answer is answered again: a ping and an acknowledgement never come to rest between two nodes
   that answer everything.
   */
  lemma {:induction false} AnswersGoOn(one: LogState, other: LogState, oneOffset: u64, otherOffset: u64, a: u64, n: nat)
    ensures Dialogue(one, other, Ping, oneOffset, otherOffset, n) == if n % 2 == 0 then Ping else Pong
    ensures Dialogue(one, other, Ack(a), oneOffset, otherOffset, n)
         == if n == 0 then Ack(a) else if n % 2 == 1 then Ack(oneOffset) else Ack(otherOffset)
    decreases n
  {
    if n > 1 {
      AnswersGoOn(one, other, oneOffset, otherOffset, otherOffset, n - 2);
    }
  }

  // ---------- a pull session racing with local writes ----------

  /** A page read by `get_changes_since`, not answered yet. `first` and `seen` place it in the history. */
  datatype Fetched = Fetched(page: seq<Change>, first: nat, seen: nat)

  /**
   A server and one requester. `history` is everything the server recorded, `got` what the
   requester received and `at` the history index of each received change.
   */
  datatype Session = Session(
    log: LogState, history: seq<Change>,
    start: u64, cursor: u64, fetched: Option<Fetched>,
    got: seq<Change>, at: seq<nat>)

  datatype SessionStep =
    | Append(change: Change)
    | Fetch(limit: Option<nat>)
    | Deliver

  predicate CanStep(s: Session, step: SessionStep) {
    match step
    case Append(_) => |s.history| + 1 < U64
    case Fetch(limit) => s.fetched.None? && (limit.None? || limit.value > 0)
    case Deliver => s.fetched.Some?
  }

  function Run(from: nat, n: nat): (r: seq<nat>)
    ensures |r| == n && forall i :: 0 <= i < n ==> r[i] == from + i
  {
    seq(n, i requires 0 <= i => from + i)
  }

  /** The `is_final` of the answer: the counter is loaded again, after the page was read. */
  predicate IsFinal(s: Session)
    requires s.fetched.Some?
  {
    s.fetched.value.page == [] || s.log.offset <= (s.cursor + |s.fetched.value.page|) % U64
  }

  function SessionNext(s: Session, step: SessionStep): Session {
    match step
    case Append(c) =>
      s.(log := Record(s.log, c), history := s.history + [c])
    case Fetch(limit) =>
      s.(fetched := Some(Fetched(Page(s.log, s.cursor, limit), Max(Max(Base(s.log), s.cursor), 0), |s.history|)))
    case Deliver =>
      if s.fetched.None? then s else
      var f := s.fetched.value;
      s.(cursor := (s.cursor + |f.page|) % U64, fetched := None,
         got := s.got + f.page, at := s.at + Run(f.first, |f.page|))
  }

  /** `at` gives the history index of each received change. */
  ghost predicate Places(at: seq<nat>, got: seq<Change>, history: seq<Change>) {
    && |at| == |got|
    && forall k :: 0 <= k < |at| ==> at[k] < |history| && got[k] == history[at[k]]
  }

  ghost predicate Covers(at: seq<nat>, from: int, to: int) {
    forall i :: from <= i < to ==> i in at
  }

  lemma RunPlaces(first: nat, page: seq<Change>, history: seq<Change>)
    requires first + |page| <= |history| && page == history[first..first + |page|]
    ensures Places(Run(first, |page|), page, history)
  {
    assert forall k :: 0 <= k < |page| ==> page[k] == history[first + k];
  }

  lemma RunCovers(first: nat, n: nat)
    ensures Covers(Run(first, n), first, first + n)
  {
    forall i | first <= i < first + n
      ensures i in Run(first, n)
    {
      assert Run(first, n)[i - first] == i;
    }
  }

  lemma PlacesJoin(a: seq<nat>, got: seq<Change>, b: seq<nat>, more: seq<Change>, history: seq<Change>)
    requires Places(a, got, history) && Places(b, more, history)
    ensures Places(a + b, got + more, history)
  {
  }

  lemma CoversJoin(a: seq<nat>, b: seq<nat>, from: int, mid: int, mid': int, to: int)
    requires Covers(a, from, mid) && Covers(b, mid', to) && mid' <= Max(from, mid)
    ensures Covers(a + b, from, to)
  {
  }

  ghost predicate FetchedWell(s: Session, f: Fetched) {
    && f.seen <= |s.history|
    && f.first + |f.page| <= Max(f.first, f.seen)
    && (f.page != [] ==> s.cursor + |f.page| <= f.seen && f.page == s.history[f.first..f.first + |f.page|])
    && (f.page == [] ==> s.cursor >= f.seen || Base(s.log) >= f.seen)
    && (Max(Base(s.log), s.cursor) < s.cursor + |f.page| ==> s.cursor <= f.first <= Max(Base(s.log), s.cursor))
  }

  ghost predicate SessionInvariant(s: Session) {
    && Represents(s.log, s.history)
    && s.start <= s.cursor <= Max(s.start, |s.history|)
    && Places(s.at, s.got, s.history)
    && Covers(s.at, Max(Base(s.log), s.start), s.cursor)
    && (s.fetched.Some? ==> FetchedWell(s, s.fetched.value))
  }

  lemma AppendKeeps(s: Session, c: Change)
    requires SessionInvariant(s) && CanStep(s, Append(c))
    ensures SessionInvariant(SessionNext(s, Append(c)))
  {
    RecordExtends(s.log, s.history, c);
    hide Represents, Record;
    var t := SessionNext(s, Append(c));
    if s.fetched.Some? && s.fetched.value.page != [] {
      var f := s.fetched.value;
      assert t.history[f.first..f.first + |f.page|] == s.history[f.first..f.first + |f.page|];
    }
  }

  lemma FetchKeeps(s: Session, limit: Option<nat>)
    requires SessionInvariant(s) && CanStep(s, Fetch(limit))
    ensures SessionInvariant(SessionNext(s, Fetch(limit)))
  {
    hide Page, Places, Covers;
    FetchesWell(s, limit);
    hide FetchedWell, Represents;
  }

  lemma FetchesWell(s: Session, limit: Option<nat>)
    requires Represents(s.log, s.history) && CanStep(s, Fetch(limit))
    ensures var t := SessionNext(s, Fetch(limit));
            FetchedWell(t, t.fetched.value)
  {
    RepresentsBounds(s.log, s.history);
    hide Page, ChangesSince, Represents;
    PageOfHistory(s.log, s.history, s.cursor, limit);
    PageWithinLog(s.log, s.cursor, limit);
  }

  lemma RepresentsBounds(log: LogState, history: seq<Change>)
    requires Represents(log, history)
    ensures log.offset == |history| && 0 <= Base(log) <= |history|
  {
  }

  lemma DeliverKeeps(s: Session)
    requires SessionInvariant(s) && s.fetched.Some?
    ensures SessionInvariant(SessionNext(s, Deliver))
  {
    assert |s.history| < U64;
    hide Represents, Places, Covers;
    var f := s.fetched.value;
    var t := SessionNext(s, Deliver);
    if f.page == [] {
      assert t.at == s.at && t.got == s.got;
    } else {
      hide Run;
      assert t.cursor == s.cursor + |f.page|;
      RunPlaces(f.first, f.page, s.history);
      PlacesJoin(s.at, s.got, Run(f.first, |f.page|), f.page, s.history);
      DeliverCovers(s.at, Base(s.log), s.start, s.cursor, f.first, |f.page|);
    }
  }

  /** A page that starts at the cursor, or at the first retained change if later, leaves no hole. */
  lemma DeliverCovers(at: seq<nat>, base: int, start: nat, cursor: nat, first: nat, n: nat)
    requires Covers(at, Max(base, start), cursor) && start <= cursor
    requires Max(base, cursor) < cursor + n ==> cursor <= first <= Max(base, cursor)
    ensures Covers(at + Run(first, n), Max(base, start), cursor + n)
  {
    RunCovers(first, n);
    hide Covers;
    if Max(base, cursor) < cursor + n {
      NarrowCover(Run(first, n), first, first + n, first, cursor + n);
      CoversJoin(at, Run(first, n), Max(base, start), cursor, first, cursor + n);
    } else if n > 0 {
      EmptyCover(at + Run(first, n), Max(base, start), cursor + n);
    } else {
      assert at + Run(first, n) == at;
    }
  }

  lemma NarrowCover(at: seq<nat>, from: int, to: int, from': int, to': int)
    requires Covers(at, from, to) && from <= from' && to' <= to
    ensures Covers(at, from', to')
  {
  }

  lemma EmptyCover(at: seq<nat>, from: int, to: int)
    requires to <= from
    ensures Covers(at, from, to)
  {
  }

  predicate IsSession(s: Session, steps: seq<SessionStep>)
    decreases |steps|
  {
    steps == [] || (CanStep(s, steps[0]) && IsSession(SessionNext(s, steps[0]), steps[1..]))
  }

  function RunSession(s: Session, steps: seq<SessionStep>): Session
    decreases |steps|
  {
    if steps == [] then s else RunSession(SessionNext(s, steps[0]), steps[1..])
  }

  function Open(log: LogState, history: seq<Change>, start: u64): Session {
    Session(log, history, start, start, None, [], [])
  }

  /**
   In every interleaving of local writes with fetches and deliveries, every retained change
   between the start cursor and the cursor has been delivered, from the history and nowhere else.
   */
  lemma {:induction false} PullNeverSkips(s: Session, steps: seq<SessionStep>)
    requires SessionInvariant(s) && IsSession(s, steps)
    ensures SessionInvariant(RunSession(s, steps))
    decreases |steps|
  {
    hide SessionInvariant, SessionNext, CanStep;
    if steps != [] {
      StepKeepsSession(s, steps[0]);
      PullNeverSkips(SessionNext(s, steps[0]), steps[1..]);
    }
  }

  lemma StepKeepsSession(s: Session, step: SessionStep)
    requires SessionInvariant(s) && CanStep(s, step)
    ensures SessionInvariant(SessionNext(s, step))
  {
    match step {
      case Append(c) => AppendKeeps(s, c);
      case Fetch(limit) => FetchKeeps(s, limit);
      case Deliver => DeliverKeeps(s);
    }
  }

  lemma OpenSession(log: LogState, history: seq<Change>, start: u64)
    requires Represents(log, history)
    ensures SessionInvariant(Open(log, history, start))
  {
  }

  /**
   When the answer is final, every change that existed when its page was read, that is still
   retained and lies at or above the start cursor, has reached the requester.
   */
  lemma FinalMeansComplete(log: LogState, history: seq<Change>, start: u64, steps: seq<SessionStep>)
    requires Represents(log, history)
    requires IsSession(Open(log, history, start), steps)
    requires RunSession(Open(log, history, start), steps).fetched.Some?
    requires IsFinal(RunSession(Open(log, history, start), steps))
    ensures var s := RunSession(Open(log, history, start), steps);
            var t := SessionNext(s, Deliver);
            && Places(t.at, t.got, t.history)
            && Covers(t.at, Max(Base(t.log), start), s.fetched.value.seen)
  {
    OpenSession(log, history, start);
    PullNeverSkips(Open(log, history, start), steps);
    RunKeepsStart(Open(log, history, start), steps);
    var s := RunSession(Open(log, history, start), steps);
    FinalDelivers(s);
  }

  lemma FinalDelivers(s: Session)
    requires SessionInvariant(s) && s.fetched.Some? && IsFinal(s)
    ensures var t := SessionNext(s, Deliver);
            && SessionInvariant(t)
            && Covers(t.at, Max(Base(t.log), s.start), s.fetched.value.seen)
  {
    DeliverKeeps(s);
    var f := s.fetched.value;
    var t := SessionNext(s, Deliver);
    if f.page != [] {
      assert t.cursor >= f.seen;
    }
  }

  lemma {:induction false} RunKeepsStart(s: Session, steps: seq<SessionStep>)
    ensures RunSession(s, steps).start == s.start
    decreases |steps|
  {
    if steps != [] {
      RunKeepsStart(SessionNext(s, steps[0]), steps[1..]);
    }
  }

  /** With no write in between, the two steps are one `process_message`. */
  lemma FetchDeliverIsProcess(s: Session, limit: Option<nat>)
    requires CanStep(s, Fetch(limit))
    ensures var f := SessionNext(s, Fetch(limit));
            var batch := Process(s.log, Request(s.cursor, limit), 0).1.batch;
            && f.fetched.value.page == batch.changes
            && IsFinal(f) == batch.isFinal
            && SessionNext(f, Deliver).cursor == batch.offset
            && SessionNext(f, Deliver).got == s.got + batch.changes
  {
  }

  // ---------- pulls between a writer's two steps ----------

  /** A server whose writers reserve and push apart and whose counter remote changes may raise, and one requester. */
  datatype RacySession = RacySession(race: Racing, start: u64, cursor: u64, got: seq<Change>, at: seq<nat>)

  datatype RacyStep = Local(step: RaceStep) | PullPage(limit: Option<nat>)

  /** How far the counter leads the pushed changes, and the first change still retained. */
  function Lead(s: Racing): int {
    s.log.offset - |s.history|
  }

  function First(s: Racing): int {
    |s.history| - |s.log.changes|
  }

  predicate CanRace(s: RacySession, step: RacyStep) {
    match step
    case Local(step) => Sync.Enabled(s.race, step)
    case PullPage(limit) => limit.None? || limit.value > 0
  }

  function RacyNext(s: RacySession, step: RacyStep): RacySession {
    match step
    case Local(step) => s.(race := Sync.Step(s.race, step))
    case PullPage(limit) =>
      var page := Page(s.race.log, s.cursor, limit);
      var first := Max(Max(First(s.race), s.cursor - Lead(s.race)), 0);
      s.(cursor := (s.cursor + |page|) % U64, got := s.got + page, at := s.at + Run(first, |page|))
  }

  /**
   Every retained change between the start cursor and the cursor has been delivered, and the cursor has not run
   ahead.
   */
  ghost predicate NoHole(s: RacySession) {
    && RaceInvariant(s.race)
    && s.start <= s.cursor <= Max(s.start, |s.race.history|)
    && Places(s.at, s.got, s.race.history)
    && Covers(s.at, Max(First(s.race), s.start), s.cursor)
  }

  /**
   A pull does no harm if it finds nothing, if the counter leads by nothing, that is no writer is
   in between and no remote change has raised it, or if the cursor is not past the trimmed part.
   */
  predicate SafePull(s: RacySession, limit: Option<nat>) {
    Page(s.race.log, s.cursor, limit) == [] || Lead(s.race) == 0 || First(s.race) >= s.cursor
  }

  lemma LocalKeepsNoHole(s: RacySession, step: RaceStep)
    requires NoHole(s) && Sync.Enabled(s.race, step)
    ensures NoHole(RacyNext(s, Local(step)))
  {
    StepKeepsInvariant(s.race, step);
    HistoryGrows(s.race, step);
    hide RaceInvariant, Sync.Step;
  }

  lemma HistoryGrows(s: Racing, step: RaceStep)
    requires RaceInvariant(s) && Sync.Enabled(s, step)
    ensures var t := Sync.Step(s, step); s.history <= t.history && First(s) <= First(t)
  {
    if step.RaiseStep? {
      RaiseKeepsLog(s.log, step.remote);
    }
  }

  /** Where a page lies in the history, with the counter in the lead. */
  lemma RacyPage(s: Racing, cursor: u64, limit: Option<nat>)
    requires RaceInvariant(s)
    ensures var page := Page(s.log, cursor, limit);
            var first := Max(First(s), cursor - Lead(s));
            && First(s) >= 0 && Lead(s) >= 0
            && (page != [] ==>
                  && 0 <= first && first + |page| <= |s.history| && page == s.history[first..first + |page|]
                  && cursor + |page| <= s.log.offset)
  {
    InvariantKeepsTail(s);
    if cursor < s.log.offset {
      TailWindow(s.log, s.history, cursor);
      var first := Max(First(s), cursor - Lead(s));
      hide ChangesSince, RaceInvariant;
      assert ChangesSince(s.log, cursor) == s.history[first..];
      Sequences.TakeAfterDrop(s.history, first, |Page(s.log, cursor, limit)|);
    }
  }

  /** What a pull that finds something does. */
  lemma PullMoves(s: RacySession, limit: Option<nat>)
    requires RaceInvariant(s.race) && Page(s.race.log, s.cursor, limit) != []
    ensures var page := Page(s.race.log, s.cursor, limit);
            var first := Max(First(s.race), s.cursor - Lead(s.race));
            var t := RacyNext(s, PullPage(limit));
            && first >= 0 && t.race == s.race && t.start == s.start
            && t.cursor == s.cursor + |page|
            && t.got == s.got + page && t.at == s.at + Run(first, |page|)
  {
    hide Page, RaceInvariant, Run;
    RacyPage(s.race, s.cursor, limit);
    NoWrap(s.cursor + |Page(s.race.log, s.cursor, limit)|);
  }

  lemma NoWrap(n: nat)
    requires n < U64
    ensures n % U64 == n
  {
  }

  lemma EmptyPull(s: RacySession, limit: Option<nat>)
    requires Page(s.race.log, s.cursor, limit) == []
    ensures RacyNext(s, PullPage(limit)) == s
  {
    hide Page;
    assert s.got + [] == s.got;
    assert forall from: nat :: Run(from, 0) == [];
    assert s.at + [] == s.at;
  }

  lemma SafePullKeeps(s: RacySession, limit: Option<nat>)
    requires NoHole(s) && CanRace(s, PullPage(limit)) && SafePull(s, limit)
    ensures NoHole(RacyNext(s, PullPage(limit)))
  {
    hide Page, RaceInvariant, Places, Covers, Run, RacyNext;
    if Page(s.race.log, s.cursor, limit) == [] {
      EmptyPull(s, limit);
    } else {
      var page := Page(s.race.log, s.cursor, limit);
      var first := Max(First(s.race), s.cursor - Lead(s.race));
      RacyPage(s.race, s.cursor, limit);
      PullMoves(s, limit);
      RunPlaces(first, page, s.race.history);
      PlacesJoin(s.at, s.got, Run(first, |page|), page, s.race.history);
      DeliverCovers(s.at, First(s.race), s.start, s.cursor, first, |page|);
    }
  }

  /** An unsafe pull skips, unless earlier pages already reached past the cursor. */
  lemma UnsafePullSkips(s: RacySession, limit: Option<nat>)
    requires NoHole(s) && CanRace(s, PullPage(limit))
    requires forall k :: 0 <= k < |s.at| ==> s.at[k] < s.cursor
    ensures NoHole(RacyNext(s, PullPage(limit))) <==> SafePull(s, limit)
  {
    if SafePull(s, limit) {
      SafePullKeeps(s, limit);
    } else {
      hide Page, RaceInvariant, Places, RacyNext;
      RacyPage(s.race, s.cursor, limit);
      PullMoves(s, limit);
      var page := Page(s.race.log, s.cursor, limit);
      var first := Max(First(s.race), s.cursor - Lead(s.race));
      var last := s.cursor + |page| - 1;
      NotInEither(s.at, s.cursor, first, |page|, last);
      assert !Covers(s.at + Run(first, |page|), Max(First(s.race), s.start), s.cursor + |page|);
    }
  }

  lemma NotCovered(at: seq<nat>, from: int, to: int, i: nat)
    requires from <= i < to && i !in at
    ensures !Covers(at, from, to)
  {
  }

  lemma NotInEither(at: seq<nat>, cursor: nat, first: nat, n: nat, last: nat)
    requires forall k :: 0 <= k < |at| ==> at[k] < cursor
    requires last >= cursor && last >= first + n
    ensures last !in at + Run(first, n)
  {
  }

  predicate IsRace(s: RacySession, steps: seq<RacyStep>)
    decreases |steps|
  {
    steps == [] || (CanRace(s, steps[0]) && IsRace(RacyNext(s, steps[0]), steps[1..]))
  }

  predicate AllSafe(s: RacySession, steps: seq<RacyStep>)
    decreases |steps|
  {
    steps != [] ==>
      (steps[0].PullPage? ==> SafePull(s, steps[0].limit)) && AllSafe(RacyNext(s, steps[0]), steps[1..])
  }

  function RunRacy(s: RacySession, steps: seq<RacyStep>): RacySession
    decreases |steps|
  {
    if steps == [] then s else RunRacy(RacyNext(s, steps[0]), steps[1..])
  }

  /** With any number of writers in flight and any remote changes, safe pulls never skip. */
  lemma {:induction false} SafePullsNeverSkip(s: RacySession, steps: seq<RacyStep>)
    requires NoHole(s) && IsRace(s, steps) && AllSafe(s, steps)
    ensures NoHole(RunRacy(s, steps))
    decreases |steps|
  {
    hide NoHole, RacyNext, SafePull;
    if steps != [] {
      match steps[0] {
        case Local(step) => LocalKeepsNoHole(s, step);
        case PullPage(limit) => SafePullKeeps(s, limit);
      }
      SafePullsNeverSkip(RacyNext(s, steps[0]), steps[1..]);
    }
  }

  lemma ReserveOffersOne(s: Racing, w: nat, limit: Option<nat>)
    requires RaceInvariant(s) && Lead(s) == 0 && s.log.changes != [] && s.log.offset + 1 < U64 && w !in s.reserved
    requires limit.None? || limit.value > 0
    ensures var t := Sync.Step(s, ReserveStep(w));
            && RaceInvariant(t) && w in t.reserved && t.history == s.history && t.log.changes == s.log.changes
            && t.log.maxChanges == s.log.maxChanges && Lead(t) == 1
            && |Page(t.log, s.log.offset, limit)| == 1
  {
    StepKeepsInvariant(s, ReserveStep(w));
    hide RaceInvariant;
  }

  lemma PushLeavesOne(log: LogState, c: Change)
    requires log.maxChanges > 0
    ensures Push(log, c).offset == log.offset && Push(log, c).changes != []
  {
  }

  lemma PushArrivesLate(s: Racing, w: nat, c: Change)
    requires w in s.reserved && Lead(s) == 1 && s.log.maxChanges > 0
    ensures var t := Sync.Step(s, PushStep(w, c));
            t.history == s.history + [c] && First(t) <= |s.history| && t.log.offset == s.log.offset == |t.history|
  {
    PushLeavesOne(s.log, c);
    hide Push;
  }

  lemma AnswerAtEnd(log: LogState, limit: Option<nat>)
    ensures Process(log, Request(log.offset, limit), 0).1 == Response(ChangeBatch(log.offset, [], true))
  {
  }

  /** The cursor of a caught-up requester runs ahead when it pulls after a reserve. */
  lemma PullAfterReserve(s: RacySession, w: nat, limit: Option<nat>)
    requires RaceInvariant(s.race) && s.race.log.changes != [] && Lead(s.race) == 0
    requires s.cursor == |s.race.history| && w !in s.race.reserved && s.cursor + 1 < U64
    requires limit.None? || limit.value > 0
    requires forall k :: 0 <= k < |s.at| ==> s.at[k] < s.cursor
    ensures var t := RacyNext(RacyNext(s, Local(ReserveStep(w))), PullPage(limit));
            && w in t.race.reserved && t.race.history == s.race.history
              && t.race.log.maxChanges == s.race.log.maxChanges
            && Lead(t.race) == 1 && t.start == s.start && t.cursor == s.cursor + 1 && s.cursor !in t.at
  {
    var s1 := RacyNext(s, Local(ReserveStep(w)));
    ReserveOffersOne(s.race, w, limit);
    PullMoves(s1, limit);
    assert First(s1.race) < s.cursor;
    hide RaceInvariant, Page, Sync.Step, RacyNext, Run;
    NotInEither(s.at, s.cursor, Max(First(s1.race), s1.cursor - Lead(s1.race)), 1, s.cursor);
  }

  /** And then never gets that writer's change: the answers that follow are final and empty. */
  lemma PullBetweenStepsSkips(s: RacySession, w: nat, c: Change, limit: Option<nat>)
    requires NoHole(s) && s.race.log.maxChanges > 0 && s.race.log.changes != [] && Lead(s.race) == 0
    requires s.cursor == |s.race.history| && w !in s.race.reserved && s.cursor + 1 < U64
    requires limit.None? || limit.value > 0
    requires forall k :: 0 <= k < |s.at| ==> s.at[k] < s.cursor
    ensures var n := |s.race.history|;
            var t := RacyNext(RacyNext(RacyNext(s, Local(ReserveStep(w))), PullPage(limit)), Local(PushStep(w, c)));
            && t.race.history == s.race.history + [c] && First(t.race) <= n
            && n !in t.at && t.cursor == n + 1 && !NoHole(t)
            && Process(t.race.log, Request(t.cursor, limit), 0).1 == Response(ChangeBatch(n + 1, [], true))
  {
    hide Page, Run, Places, RaceInvariant, Process, Covers;
    PullAfterReserve(s, w, limit);
    var s2 := RacyNext(RacyNext(s, Local(ReserveStep(w))), PullPage(limit));
    PushArrivesLate(s2.race, w, c);
    AnswerAtEnd(Sync.Step(s2.race, PushStep(w, c)).log, limit);
    var t := RacyNext(s2, Local(PushStep(w, c)));
    assert t.race == Sync.Step(s2.race, PushStep(w, c)) && t.at == s2.at && t.cursor == s2.cursor
           && t.start == s2.start;
    hide Sync.Step, RacyNext;
    NotCovered(t.at, Max(First(t.race), t.start), t.cursor, s.cursor);
  }

  /** An idle server with a log of this size, and a requester that starts from the beginning. */
  function RacyStart(maxChanges: nat): RacySession {
    RacySession(Idle(maxChanges), 0, 0, [], [])
  }

  lemma StartHasNoHole(maxChanges: nat)
    ensures NoHole(RacyStart(maxChanges))
  {
    IdleHolds(maxChanges);
    hide RaceInvariant;
  }

  /** A log of size zero offers nothing, so no pull can go wrong. */
  lemma {:induction false} NothingRetainedIsSafe(s: RacySession, steps: seq<RacyStep>)
    requires NoHole(s) && s.race.log.maxChanges == 0 && IsRace(s, steps)
    ensures AllSafe(s, steps)
    decreases |steps|
  {
    if steps != [] {
      NothingToPull(s, steps[0]);
      hide NoHole, RacyNext, SafePull, CanRace;
      NothingRetainedIsSafe(RacyNext(s, steps[0]), steps[1..]);
    }
  }

  lemma NothingToPull(s: RacySession, step: RacyStep)
    requires NoHole(s) && s.race.log.maxChanges == 0 && CanRace(s, step)
    ensures step.PullPage? ==> SafePull(s, step.limit)
    ensures NoHole(RacyNext(s, step)) && RacyNext(s, step).race.log.maxChanges == 0
  {
    assert s.race.log.changes == [];
    match step {
      case Local(local) =>
        LocalKeepsNoHole(s, local);
        LimitStays(s.race, local);
      case PullPage(limit) =>
        SafePullKeeps(s, limit);
    }
    hide NoHole, Places, Covers, RaceInvariant, Sync.Step;
  }

  lemma LimitStays(s: Racing, step: RaceStep)
    ensures Sync.Step(s, step).log.maxChanges == s.log.maxChanges
  {
    if step.RaiseStep? {
      RaiseKeepsLog(s.log, step.remote);
    }
  }

  /** One change is recorded and pulled; of the next, only the offset is reserved when it is pulled. */
  function SkippingRun(c: Change, d: Change): seq<RacyStep> {
    [Local(ReserveStep(0)), Local(PushStep(0, c)), PullPage(None)]
    + [Local(ReserveStep(0)), PullPage(None), Local(PushStep(0, d))]
  }

  lemma SixSteps(s: RacySession, a: RacyStep, b: RacyStep, c: RacyStep, d: RacyStep, e: RacyStep, f: RacyStep)
    requires CanRace(s, a)
    requires var s1 := RacyNext(s, a); CanRace(s1, b)
    requires var s2 := RacyNext(RacyNext(s, a), b); CanRace(s2, c)
    requires var s3 := RacyNext(RacyNext(RacyNext(s, a), b), c);
             CanRace(s3, d) && CanRace(RacyNext(s3, d), e) && CanRace(RacyNext(RacyNext(s3, d), e), f)
    ensures var s3 := RacyNext(RacyNext(RacyNext(s, a), b), c);
            && IsRace(s, [a, b, c] + [d, e, f])
            && RunRacy(s, [a, b, c] + [d, e, f]) == RacyNext(RacyNext(RacyNext(s3, d), e), f)
  {
    hide RacyNext, CanRace;
    var s3 := RacyNext(RacyNext(RacyNext(s, a), b), c);
    ThreeSteps(s3, d, e, f, []);
    ThreeSteps(s, a, b, c, [d, e, f]);
    assert [d, e, f] + [] == [d, e, f];
  }

  lemma ThreeSteps(s: RacySession, a: RacyStep, b: RacyStep, c: RacyStep, rest: seq<RacyStep>)
    requires CanRace(s, a) && CanRace(RacyNext(s, a), b) && CanRace(RacyNext(RacyNext(s, a), b), c)
    ensures var s3 := RacyNext(RacyNext(RacyNext(s, a), b), c);
            && (IsRace(s, [a, b, c] + rest) <==> IsRace(s3, rest))
            && RunRacy(s, [a, b, c] + rest) == RunRacy(s3, rest)
  {
    hide RacyNext, CanRace, IsRace, RunRacy;
    assert [a, b, c] + rest == [a] + ([b] + ([c] + rest));
    OneStep(s, a, [b] + ([c] + rest));
    OneStep(RacyNext(s, a), b, [c] + rest);
    OneStep(RacyNext(RacyNext(s, a), b), c, rest);
  }

  lemma OneStep(s: RacySession, a: RacyStep, rest: seq<RacyStep>)
    requires CanRace(s, a)
    ensures IsRace(s, [a] + rest) <==> IsRace(RacyNext(s, a), rest)
    ensures RunRacy(s, [a] + rest) == RunRacy(RacyNext(s, a), rest)
  {
    hide RacyNext, CanRace;
    assert ([a] + rest)[1..] == rest;
  }

  /** The first record, in its two steps. */
  lemma FirstRecord(maxChanges: nat, c: Change)
    requires maxChanges > 0
    ensures var s1 := Sync.Step(Idle(maxChanges), ReserveStep(0));
            && s1 == Racing(LogState(1, [], maxChanges), map[0 := 0], [])
            && Sync.Step(s1, PushStep(0, c)) == Racing(LogState(1, [c], maxChanges), map[], [c])
  {
    var s1 := Sync.Step(Idle(maxChanges), ReserveStep(0));
    assert map[0 := 0] - {0} == map[];
    assert [] + [c] == [c];
  }

  lemma PageOfOne(maxChanges: nat, c: Change)
    ensures Page(LogState(1, [c], maxChanges), 0, None) == [c]
    ensures Run(0, 1) == [0]
  {
    assert [c][0..] == [c];
  }

  /** From the start: one change recorded whole, then pulled. */
  lemma FirstPull(maxChanges: nat, c: Change)
    requires maxChanges > 0
    ensures var s1 := RacyNext(RacyStart(maxChanges), Local(ReserveStep(0)));
            var s2 := RacyNext(s1, Local(PushStep(0, c)));
            var s3 := RacyNext(s2, PullPage(None));
            && CanRace(RacyStart(maxChanges), Local(ReserveStep(0))) && CanRace(s1, Local(PushStep(0, c)))
            && NoHole(s3) && s3.race == Racing(LogState(1, [c], maxChanges), map[], [c])
            && s3.cursor == 1 && s3.at == [0] && s3.start == 0
  {
    hide NoHole, Sync.Step, Page, Run;
    var s0 := RacyStart(maxChanges);
    StartHasNoHole(maxChanges);
    FirstRecord(maxChanges, c);
    PageOfOne(maxChanges, c);
    LocalKeepsNoHole(s0, ReserveStep(0));
    var s1 := RacyNext(s0, Local(ReserveStep(0)));
    LocalKeepsNoHole(s1, PushStep(0, c));
    var s2 := RacyNext(s1, Local(PushStep(0, c)));
    SafePullKeeps(s2, None);
    assert [] + [0] == [0];
  }

  /**
   Whether pulls from the beginning can skip at all: exactly if the server retains anything. They
   skip only by pulls at a moment when the counter leads, as `SafePullsNeverSkip` says.
   */
  lemma PullsSkipExactly(maxChanges: nat)
    ensures (forall steps :: IsRace(RacyStart(maxChanges), steps) ==> NoHole(RunRacy(RacyStart(maxChanges), steps)))
            <==> maxChanges == 0
  {
    StartHasNoHole(maxChanges);
    if maxChanges == 0 {
      forall steps | IsRace(RacyStart(maxChanges), steps)
        ensures NoHole(RunRacy(RacyStart(maxChanges), steps))
      {
        NothingRetainedIsSafe(RacyStart(maxChanges), steps);
        SafePullsNeverSkip(RacyStart(maxChanges), steps);
      }
    } else {
      SkippingRunSkips(maxChanges, SOME_CHANGE, SOME_CHANGE);
    }
  }

  lemma SkippingRunSkips(maxChanges: nat, c: Change, d: Change)
    requires maxChanges > 0
    ensures IsRace(RacyStart(maxChanges), SkippingRun(c, d))
    ensures var t := RunRacy(RacyStart(maxChanges), SkippingRun(c, d));
            && t.race.history == [c, d] && t.race.reserved == map[] && d in t.race.log.changes
            && 1 !in t.at && t.cursor == 2 && !NoHole(t)
            && Process(t.race.log, Request(t.cursor, None), 0).1 == Response(ChangeBatch(2, [], true))
  {
    FirstPull(maxChanges, c);
    var s0 := RacyStart(maxChanges);
    var s3 := RacyNext(RacyNext(RacyNext(s0, Local(ReserveStep(0))), Local(PushStep(0, c))), PullPage(None));
    PullBetweenStepsSkips(s3, 0, d, None);
    PullAfterReserve(s3, 0, None);
    SixSteps(s0, Local(ReserveStep(0)), Local(PushStep(0, c)), PullPage(None),
             Local(ReserveStep(0)), PullPage(None), Local(PushStep(0, d)));
  }

  // ---------- the pull loop ----------

  /** Everything a client pulls from a quiet server, with the cursor it ends at. */
  function Pull(log: LogState, cursor: u64, limit: Option<nat>): (seq<Change>, u64)
    decreases Max(0, log.offset - cursor)
  {
    var batch := Answer(log, cursor, limit);
    if batch.isFinal then (batch.changes, batch.offset)
    else
      PageWithinLog(log, cursor, limit);
      var (rest, end) := Pull(log, batch.offset, limit);
      (batch.changes + rest, end)
  }

  lemma PullUnfold(log: LogState, cursor: u64, limit: Option<nat>)
    ensures var batch := Answer(log, cursor, limit);
            && (batch.isFinal ==> Pull(log, cursor, limit) == (batch.changes, batch.offset))
            && (batch.isFinal ==> Cursors(log, cursor, limit) == [batch.offset])
            && (!batch.isFinal ==>
                  && cursor < batch.offset < log.offset
                  && Pull(log, cursor, limit)
                     == (batch.changes + Pull(log, batch.offset, limit).0, Pull(log, batch.offset, limit).1)
                  && Cursors(log, cursor, limit) == [batch.offset] + Cursors(log, batch.offset, limit))
  {
    PageWithinLog(log, cursor, limit);
  }

  /** `at` lists history indices: it witnesses `got` and covers exactly `from` to the end. */
  ghost predicate Witnesses(at: seq<nat>, got: seq<Change>, history: seq<Change>, from: int) {
    && Places(at, got, history)
    && Covers(at, from, |history|)
    && forall k :: 0 <= k < |at| ==> from <= at[k]
  }

  /**
   The loop stops at the end of the log after |H| - c0 deliveries. They cover exactly the
   retained changes from the start cursor on, so the repeats number max(0, base - c0).
   */
  lemma {:induction false} PullIsExact(log: LogState, history: seq<Change>, cursor: u64, limit: Option<nat>)
    returns (at: seq<nat>)
    requires Represents(log, history) && cursor <= |history|
    requires limit.None? || limit.value > 0
    requires log.changes != [] || cursor == |history|
    ensures var (got, end) := Pull(log, cursor, limit);
            && end == |history|
            && |got| == |history| - cursor
            && Witnesses(at, got, history, Max(Base(log), cursor))
            && |got| - (|history| - Max(Base(log), cursor)) == Max(0, Base(log) - cursor)
    ensures cursor >= Base(log) ==> Pull(log, cursor, limit).0 == history[cursor..]
    decreases |history| - cursor
  {
    hide *;
    var batch := Answer(log, cursor, limit);
    var first := Max(Base(log), cursor);
    PullUnfold(log, cursor, limit);
    if batch.isFinal {
      LastPage(log, history, cursor, limit);
      at := Run(first, |batch.changes|);
    } else {
      MiddlePage(log, history, cursor, limit);
      var rest := PullIsExact(log, history, batch.offset, limit);
      JoinPages(first, batch.changes, rest, Pull(log, batch.offset, limit).0, history, Max(Base(log), batch.offset));
      at := Run(first, |batch.changes|) + rest;
      if cursor >= Base(log) {
        JoinSlices(history, cursor, batch.offset);
      }
    }
    MaxIsMax(Base(log), cursor);
    MaxIsMax(Base(log), batch.offset);
    MaxIsMax(0, Base(log) - cursor);
  }

  lemma MaxIsMax(a: int, b: int)
    ensures Max(a, b) == if a < b then b else a
  {
  }

  /** A page that is not final moves the cursor forward by its length and lies in the history. */
  lemma MiddlePage(log: LogState, history: seq<Change>, cursor: u64, limit: Option<nat>)
    requires Represents(log, history) && !Answer(log, cursor, limit).isFinal
    ensures var batch := Answer(log, cursor, limit);
            var first := Max(Base(log), cursor);
            && cursor < batch.offset == cursor + |batch.changes| < |history|
            && 0 <= first <= Max(Base(log), batch.offset) <= first + |batch.changes| <= |history|
            && batch.changes == history[first..first + |batch.changes|]
            && log.changes != []
  {
    PageOfHistory(log, history, cursor, limit);
    PageWithinLog(log, cursor, limit);
  }

  /** A final page reaches the end of the log. */
  lemma LastPage(log: LogState, history: seq<Change>, cursor: u64, limit: Option<nat>)
    requires Represents(log, history) && cursor <= |history| && Answer(log, cursor, limit).isFinal
    requires limit.None? || limit.value > 0
    requires log.changes != [] || cursor == |history|
    ensures var batch := Answer(log, cursor, limit);
            var page, first := batch.changes, Max(Base(log), cursor);
            && first >= 0
            && cursor + |page| == |history| == batch.offset
            && Witnesses(Run(first, |page|), page, history, first)
            && (cursor >= Base(log) ==> page == history[cursor..])
  {
    RepresentsBounds(log, history);
    hide Page, ChangesSince, Represents, Run, Places, Covers;
    PageOfHistory(log, history, cursor, limit);
    PageWithinLog(log, cursor, limit);
    var page := Page(log, cursor, limit);
    var first := Max(Base(log), cursor);
    RunCovers(first, |page|);
    RunStarts(first, |page|);
    if cursor < |history| {
      RunPlaces(first, page, history);
    } else {
      NoPlaces(first, history);
    }
  }

  lemma RunStarts(first: nat, n: nat)
    ensures forall k :: 0 <= k < n ==> first <= Run(first, n)[k]
  {
  }

  lemma NoPlaces(first: nat, history: seq<Change>)
    ensures Places(Run(first, 0), [], history)
  {
  }

  /** One page in front of the pages after it. */
  lemma JoinPages(first: nat, page: seq<Change>, rest: seq<nat>, got: seq<Change>, history: seq<Change>, mid: int)
    requires first + |page| <= |history| && page == history[first..first + |page|]
    requires Witnesses(rest, got, history, mid) && first <= mid <= first + |page|
    ensures Witnesses(Run(first, |page|) + rest, page + got, history, first)
  {
    RunPlaces(first, page, history);
    RunCovers(first, |page|);
    PlacesJoin(Run(first, |page|), page, rest, got, history);
    CoversJoin(Run(first, |page|), rest, first, first + |page|, mid, |history|);
  }

  lemma JoinSlices(history: seq<Change>, from: nat, mid: nat)
    requires from <= mid <= |history|
    ensures history[from..mid] + history[mid..] == history[from..]
  {
  }

  method PullAll(server: SyncManager, start: u64, limit: Option<nat>) returns (got: seq<Change>, cursor: u64)
    modifies server`offset, server`changes
    ensures (got, cursor) == Pull(server.Log(), start, limit)
    ensures server.Log() == old(server.Log())
  {
    hide Pull, Cursors, Answer;
    got := [];
    cursor := start;
    assert [] + Pull(server.Log(), start, limit).0 == Pull(server.Log(), start, limit).0;
    while true
      invariant server.Log() == old(server.Log())
      invariant var (rest, end) := Pull(server.Log(), cursor, limit);
                (got + rest, end) == Pull(server.Log(), start, limit)
      decreases Max(0, server.offset - cursor)
    {
      ghost var batch := Answer(server.Log(), cursor, limit);
      ghost var rest := Pull(server.Log(), batch.offset, limit).0;
      PullUnfold(server.Log(), cursor, limit);
      Sequences.Associative(got, batch.changes, rest);
      var reply := ProcessMessage(server, Request(cursor, limit), 0);
      got := got + reply.batch.changes;
      cursor := reply.batch.offset;
      if reply.batch.isFinal {
        return;
      }
    }
  }

  // ---------- replication from one node to another ----------

  /** Node b pulls from node a: every response of a is fed to b's own `process_message`. */
  method Replicate(a: SyncManager, b: SyncManager, start: u64, limit: Option<nat>) returns (cursor: u64, acks: seq<u64>)
    requires a != b
    modifies a`offset, a`changes, b`offset, b`changes
    ensures a.Log() == old(a.Log())
    ensures b.Log() == RecordAll(old(b.Log()), Pull(a.Log(), start, limit).0)
    ensures cursor == Pull(a.Log(), start, limit).1
    ensures acks == Cursors(a.Log(), start, limit) && acks[|acks| - 1] == cursor
  {
    hide Pull, Cursors, Answer, RecordAll;
    cursor := start;
    acks := [];
    ghost var sent: seq<Change> := [];
    assert [] + Pull(a.Log(), start, limit).0 == Pull(a.Log(), start, limit).0;
    RecordNothing(b.Log());
    while true
      invariant a.Log() == old(a.Log())
      invariant b.Log() == RecordAll(old(b.Log()), sent)
      invariant var (rest, end) := Pull(a.Log(), cursor, limit);
                (sent + rest, end) == Pull(a.Log(), start, limit)
      invariant acks + Cursors(a.Log(), cursor, limit) == Cursors(a.Log(), start, limit)
      decreases Max(0, a.offset - cursor)
    {
      ghost var batch := Answer(a.Log(), cursor, limit);
      PullUnfold(a.Log(), cursor, limit);
      Sequences.Associative(sent, batch.changes, Pull(a.Log(), batch.offset, limit).0);
      Sequences.Associative(acks, [batch.offset], Cursors(a.Log(), batch.offset, limit));
      RecordAllAppend(old(b.Log()), sent, batch.changes);
      var reply := ProcessMessage(a, Request(cursor, limit), 0);
      var ack := ProcessMessage(b, reply, 0);
      sent := sent + batch.changes;
      acks := acks + [ack.ackOffset];
      cursor := reply.batch.offset;
      if reply.batch.isFinal {
        return;
      }
    }
  }

  lemma RecordNothing(log: LogState)
    ensures RecordAll(log, []) == log
  {
  }

  /** The cursor after each page of a pull. */
  function Cursors(log: LogState, cursor: u64, limit: Option<nat>): (r: seq<u64>)
    ensures r != [] && r[|r| - 1] == Pull(log, cursor, limit).1
    decreases Max(0, log.offset - cursor)
  {
    var batch := Answer(log, cursor, limit);
    PageWithinLog(log, cursor, limit);
    if batch.isFinal then [batch.offset] else [batch.offset] + Cursors(log, batch.offset, limit)
  }

  lemma {:induction false} RecordAllAppend(log: LogState, cs: seq<Change>, ds: seq<Change>)
    ensures RecordAll(log, cs + ds) == RecordAll(RecordAll(log, cs), ds)
    decreases |cs|
  {
    hide Record;
    if cs == [] {
      assert cs + ds == ds;
    } else {
      RecordAllAppend(Record(log, cs[0]), cs[1..], ds);
      assert (cs + ds)[1..] == cs[1..] + ds;
    }
  }

  /**
   After `Replicate` from a cursor a still retains, b's history is its old one followed by a's
   from the cursor; and b's retained log is exactly that if b had room for it.
   */
  lemma ReplicationConverges(a: LogState, ha: seq<Change>, b: LogState, hb: seq<Change>, start: u64, limit: Option<nat>)
    requires Represents(a, ha) && Represents(b, hb)
    requires Base(a) <= start <= |ha| && |hb| + |ha| - start < U64
    requires limit.None? || limit.value > 0
    ensures var t := RecordAll(b, Pull(a, start, limit).0);
            && Represents(t, hb + ha[start..])
            && (b.changes == hb && |hb| + |ha| - start <= b.maxChanges ==> t.changes == hb + ha[start..])
    ensures Pull(a, start, limit).1 == |ha|
  {
    if a.changes == [] {
      assert start == |ha|;
    }
    var at := PullIsExact(a, ha, start, limit);
    RecordAllExtends(b, hb, ha[start..]);
  }
}
