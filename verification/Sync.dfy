/** The bounded change log, its peers, and reads that race with writers (src/sync.rs). */
module Sync {
  import opened Changes
  import Base64

  // ---------- the change log ----------

  /** The offset counter, the retained tail of the log, and the retention limit. */
  datatype LogState = LogState(offset: u64, changes: seq<Change>, maxChanges: nat)

  /** `record_change`'s first step: fetch_add on the counter. */
  function Reserve(s: LogState): LogState {
    s.(offset := (s.offset + 1) % U64)
  }

  /** `record_change`'s second step, under the write lock: push, then drop one from the front if too long. */
  function Push(s: LogState, c: Change): LogState {
    var grown := s.changes + [c];
    s.(changes := if |grown| > s.maxChanges then grown[1..] else grown)
  }

  function Record(s: LogState, c: Change): LogState {
    Push(Reserve(s), c)
  }

  function RecordAll(s: LogState, cs: seq<Change>): LogState
    decreases |cs|
  {
    if cs == [] then s else RecordAll(Record(s, cs[0]), cs[1..])
  }

  /** `get_changes_since`: counts back from the end, as the front may have been dropped. */
  function ChangesSince(s: LogState, offset: nat): seq<Change> {
    if offset >= s.offset then []
    else
      var count := s.offset - offset;
      s.changes[if |s.changes| > count then |s.changes| - count else 0..]
  }

  /** `apply_changes` raises the counter to the low 64 bits of each identifier and records nothing. */
  function Raise(s: LogState, cs: seq<Change>): LogState
    decreases |cs|
  {
    if cs == [] then s else Raise(s.(offset := Max(s.offset, cs[0].id % U64)), cs[1..])
  }

  /** The log of an undisturbed manager: the counter counts the history, whose tail is retained. */
  ghost predicate Represents(s: LogState, history: seq<Change>) {
    s.offset == |history| && IsTail(s.changes, history)
  }

  ghost predicate IsTail(changes: seq<Change>, history: seq<Change>) {
    |changes| <= |history| && changes == history[|history| - |changes|..]
  }

  lemma PushKeepsTail(s: LogState, history: seq<Change>, c: Change)
    requires IsTail(s.changes, history)
    ensures IsTail(Push(s, c).changes, history + [c])
    ensures |Push(s, c).changes| == if |s.changes| + 1 > s.maxChanges then |s.changes| else |s.changes| + 1
  {
    var h := history + [c];
    assert s.changes + [c] == h[|history| - |s.changes|..];
  }

  /** First history index still retained. */
  function Base(s: LogState): int {
    s.offset - |s.changes|
  }

  lemma RecordExtends(s: LogState, history: seq<Change>, c: Change)
    requires Represents(s, history) && |history| + 1 < U64
    ensures Represents(Record(s, c), history + [c])
    ensures Base(s) <= Base(Record(s, c)) <= |history| + 1
  {
    PushKeepsTail(Reserve(s), history, c);
  }

  lemma {:induction false} RecordAllExtends(s: LogState, history: seq<Change>, cs: seq<Change>)
    requires Represents(s, history) && |history| + |cs| < U64
    ensures Represents(RecordAll(s, cs), history + cs)
    ensures |s.changes| + |cs| <= s.maxChanges ==> RecordAll(s, cs).changes == s.changes + cs
    decreases |cs|
  {
    hide Represents;
    if cs == [] {
      assert history + cs == history;
    } else {
      RecordExtends(s, history, cs[0]);
      RecordAllExtends(Record(s, cs[0]), history + [cs[0]], cs[1..]);
      assert history + [cs[0]] + cs[1..] == history + cs;
      assert s.changes + [cs[0]] + cs[1..] == s.changes + cs;
    }
  }

  // ---------- retention over whole runs ----------

  datatype LogOp = RecordOp(change: Change) | ApplyOp(changes: seq<Change>)

  function RunLog(s: LogState, ops: seq<LogOp>): LogState
    decreases |ops|
  {
    if ops == [] then s
    else
      var next := match ops[0]
        case RecordOp(c) => Record(s, c)
        case ApplyOp(cs) => Raise(s, cs);
      RunLog(next, ops[1..])
  }

  function Records(ops: seq<LogOp>): nat {
    if ops == [] then 0 else (if ops[0].RecordOp? then 1 else 0) + Records(ops[1..])
  }

  lemma {:induction false} RaiseKeepsLog(s: LogState, cs: seq<Change>)
    ensures Raise(s, cs).changes == s.changes && Raise(s, cs).maxChanges == s.maxChanges
    ensures Raise(s, cs).offset >= s.offset
    ensures forall c :: c in cs ==> c.id % U64 <= Raise(s, cs).offset
    ensures Raise(s, cs).offset == s.offset || exists c :: c in cs && c.id % U64 == Raise(s, cs).offset
    decreases |cs|
  {
    if cs != [] {
      RaiseKeepsLog(s.(offset := Max(s.offset, cs[0].id % U64)), cs[1..]);
      assert forall c :: c in cs ==> c == cs[0] || c in cs[1..];
      assert cs[0] in cs;
    }
  }

  /**
   How much is retained after any run. In particular a log restored longer than the limit
   keeps that length for ever: a push drops one entry, never the excess.
   */
  lemma {:induction false} RetainedLength(s: LogState, ops: seq<LogOp>)
    ensures RunLog(s, ops).maxChanges == s.maxChanges
    ensures |RunLog(s, ops).changes| == Max(|s.changes|, Min(s.maxChanges, |s.changes| + Records(ops)))
    decreases |ops|
  {
    if ops != [] {
      match ops[0] {
        case RecordOp(c) =>
          RetainedLength(Record(s, c), ops[1..]);
        case ApplyOp(cs) =>
          RaiseKeepsLog(s, cs);
          RetainedLength(Raise(s, cs), ops[1..]);
      }
    }
  }

  // ---------- reads racing with writers ----------

  /**
   Any number of writers inside `record_change`, each between reserving its offset and pushing
   its change, and `apply_changes` raising the counter. `history` is every change pushed so far.
   */
  datatype Racing = Racing(log: LogState, reserved: map<nat, nat>, history: seq<Change>)

  datatype RaceStep =
    | ReserveStep(writer: nat)
    | PushStep(writer: nat, change: Change)
    | RaiseStep(remote: seq<Change>)

  /** A writer reserves only when it is not inside already, and the counter does not wrap. */
  predicate Enabled(s: Racing, step: RaceStep) {
    match step
    case ReserveStep(w) => w !in s.reserved && s.log.offset + 1 < U64
    case PushStep(w, _) => w in s.reserved
    case RaiseStep(_) => true
  }

  function Step(s: Racing, step: RaceStep): Racing {
    match step
    case ReserveStep(w) => s.(log := Reserve(s.log), reserved := s.reserved[w := s.log.offset])
    case PushStep(w, c) => Racing(Push(s.log, c), s.reserved - {w}, s.history + [c])
    case RaiseStep(cs) => s.(log := Raise(s.log, cs))
  }

  ghost predicate IsRun(s: Racing, steps: seq<RaceStep>)
    decreases |steps|
  {
    steps == [] || (Enabled(s, steps[0]) && IsRun(Step(s, steps[0]), steps[1..]))
  }

  function RunRace(s: Racing, steps: seq<RaceStep>): Racing
    decreases |steps|
  {
    if steps == [] then s else RunRace(Step(s, steps[0]), steps[1..])
  }

  function Idle(maxChanges: nat): Racing {
    Racing(LogState(0, [], maxChanges), map[], [])
  }

  ghost predicate RaceInvariant(s: Racing) {
    && |s.log.changes| == Min(s.log.maxChanges, |s.history|)
    && IsTail(s.log.changes, s.history)
    && |s.history| + |s.reserved| <= s.log.offset
    && (forall w :: w in s.reserved ==> s.reserved[w] < s.log.offset)
    && (forall v, w :: v in s.reserved && w in s.reserved && v != w ==> s.reserved[v] != s.reserved[w])
  }

  lemma ReserveKeepsInvariant(s: Racing, w: nat)
    requires RaceInvariant(s) && Enabled(s, ReserveStep(w))
    ensures RaceInvariant(Step(s, ReserveStep(w)))
    ensures Surplus(Step(s, ReserveStep(w))) == Surplus(s)
  {
    hide IsTail;
  }

  lemma WithoutWriter(reserved: map<nat, nat>, w: nat)
    requires w in reserved
    ensures |reserved - {w}| == |reserved| - 1
    ensures forall v :: v in reserved - {w} ==> v in reserved && (reserved - {w})[v] == reserved[v]
  {
    assert (reserved - {w}).Keys == reserved.Keys - {w};
  }

  lemma PushKeepsInvariant(s: Racing, w: nat, c: Change)
    requires RaceInvariant(s) && Enabled(s, PushStep(w, c))
    ensures RaceInvariant(Step(s, PushStep(w, c)))
    ensures Surplus(Step(s, PushStep(w, c))) == Surplus(s)
  {
    hide *;
    PusherIsReserved(s, w, c);
    WithoutWriter(s.reserved, w);
    PushKeepsCounter(s.log, c);
    StepIsPush(s, w, c);
    InvariantKeepsTail(s);
    PushKeepsTail(s.log, s.history, c);
    PushedHolds(s, Push(s.log, c), s.reserved - {w}, s.history + [c]);
  }

  lemma PusherIsReserved(s: Racing, w: nat, c: Change)
    requires Enabled(s, PushStep(w, c))
    ensures w in s.reserved
  {
  }

  lemma PushedHolds(s: Racing, log: LogState, left: map<nat, nat>, history: seq<Change>)
    requires RaceInvariant(s) && |history| == |s.history| + 1 && IsTail(log.changes, history)
    requires log.offset == s.log.offset && log.maxChanges == s.log.maxChanges
    requires var n := |s.log.changes|; |log.changes| == if n + 1 > s.log.maxChanges then n else n + 1
    requires |left| == |s.reserved| - 1 && forall v :: v in left ==> v in s.reserved && left[v] == s.reserved[v]
    ensures RaceInvariant(Racing(log, left, history)) && Surplus(Racing(log, left, history)) == Surplus(s)
  {
    hide IsTail;
  }

  lemma PushKeepsCounter(log: LogState, c: Change)
    ensures Push(log, c).offset == log.offset && Push(log, c).maxChanges == log.maxChanges
  {
  }

  lemma StepIsPush(s: Racing, w: nat, c: Change)
    ensures Step(s, PushStep(w, c)) == Racing(Push(s.log, c), s.reserved - {w}, s.history + [c])
  {
    hide Push;
  }

  /** How far the counter is ahead of the pushed changes and the writers about to push. */
  function Surplus(s: Racing): int {
    s.log.offset - |s.history| - |s.reserved|
  }

  lemma StepKeepsInvariant(s: Racing, step: RaceStep)
    requires RaceInvariant(s) && Enabled(s, step)
    ensures RaceInvariant(Step(s, step))
    ensures !step.RaiseStep? ==> Surplus(Step(s, step)) == Surplus(s)
  {
    hide IsTail;
    match step {
      case ReserveStep(w) =>
        ReserveKeepsInvariant(s, w);
      case PushStep(w, c) =>
        PushKeepsInvariant(s, w, c);
      case RaiseStep(cs) =>
        RaiseKeepsLog(s.log, cs);
    }
  }

  lemma {:induction false} RunKeepsInvariant(s: Racing, steps: seq<RaceStep>)
    requires RaceInvariant(s) && IsRun(s, steps)
    ensures RaceInvariant(RunRace(s, steps))
    ensures (forall step :: step in steps ==> !step.RaiseStep?) ==> Surplus(RunRace(s, steps)) == Surplus(s)
    decreases |steps|
  {
    hide RaceInvariant, Step, Enabled;
    if steps != [] {
      StepKeepsInvariant(s, steps[0]);
      RunKeepsInvariant(Step(s, steps[0]), steps[1..]);
    }
  }

  lemma IdleHolds(maxChanges: nat)
    ensures RaceInvariant(Idle(maxChanges))
  {
  }

  /**
   What a read sees in every reachable state: with d the surplus of the counter over the pushed
   changes, exactly the history from index max(first retained, o - d). So no retained change at
   or after o is missed, and at most d earlier ones are repeated.
   */
  lemma ReadWindow(maxChanges: nat, steps: seq<RaceStep>, o: nat)
    requires IsRun(Idle(maxChanges), steps)
    ensures var s := RunRace(Idle(maxChanges), steps);
            && s.log.offset - |s.history| >= |s.reserved|
            && (o >= s.log.offset ==> ChangesSince(s.log, o) == [])
    ensures var s := RunRace(Idle(maxChanges), steps);
            var n, d := |s.history|, s.log.offset - |s.history|;
            o < s.log.offset ==>
              var from := Max(n - |s.log.changes|, o - d);
              && 0 <= from <= n
              && ChangesSince(s.log, o) == s.history[from..]
              && o - d <= from <= Max(n - |s.log.changes|, o)
  {
    hide *;
    IdleHolds(maxChanges);
    RunKeepsInvariant(Idle(maxChanges), steps);
    WindowInRace(RunRace(Idle(maxChanges), steps), o);
  }

  lemma WindowInRace(s: Racing, o: nat)
    requires RaceInvariant(s)
    ensures s.log.offset - |s.history| >= |s.reserved|
    ensures o >= s.log.offset ==> ChangesSince(s.log, o) == []
    ensures var n, d := |s.history|, s.log.offset - |s.history|;
            o < s.log.offset ==>
              var from := Max(n - |s.log.changes|, o - d);
              && 0 <= from <= n
              && ChangesSince(s.log, o) == s.history[from..]
              && o - d <= from <= Max(n - |s.log.changes|, o)
  {
    TailWindow(s.log, s.history, o);
    hide IsTail;
    if o < s.log.offset {
      hide ChangesSince;
    }
  }

  lemma TailWindow(s: LogState, history: seq<Change>, o: nat)
    requires IsTail(s.changes, history) && |history| <= s.offset
    ensures o < s.offset ==>
              var n, d := |history|, s.offset - |history|;
              var from := Max(n - |s.changes|, o - d);
              0 <= from <= n && ChangesSince(s, o) == history[from..]
  {
    if o < s.offset {
      var count := s.offset - o;
      var skip := if |s.changes| > count then |s.changes| - count else 0;
      assert s.changes[skip..] == history[|history| - |s.changes| + skip..];
    }
  }

  /** Without `apply_changes` the surplus is exactly the number of writers between their two steps. */
  lemma SurplusIsWritersInFlight(maxChanges: nat, steps: seq<RaceStep>)
    requires IsRun(Idle(maxChanges), steps) && forall step :: step in steps ==> !step.RaiseStep?
    ensures var s := RunRace(Idle(maxChanges), steps);
            && s.log.offset - |s.history| == |s.reserved|
            && (s.reserved == map[] ==> Represents(s.log, s.history))
  {
    RunKeepsInvariant(Idle(maxChanges), steps);
  }

  /** The wrap is the one thing a reserve must not meet: it keeps the invariant exactly short of it. */
  lemma ReserveKeepsExactly(s: Racing, w: nat)
    requires RaceInvariant(s) && w !in s.reserved
    ensures RaceInvariant(Step(s, ReserveStep(w))) <==> s.log.offset + 1 < U64
  {
    if s.log.offset + 1 < U64 {
      ReserveKeepsInvariant(s, w);
    } else {
      hide IsTail;
    }
  }

  /** After a record, reads of a non-empty log all come out empty exactly if that record wrapped the counter. */
  lemma WrappedCounterHidesLog(s: LogState, c: Change)
    requires Record(s, c).changes != []
    ensures (forall o: nat :: ChangesSince(Record(s, c), o) == []) <==> s.offset == U64 - 1
  {
    var t := Record(s, c);
    if s.offset != U64 - 1 {
      assert ChangesSince(t, s.offset) != [];
    }
  }

  /** One remote change whose identifier ends in all ones brings the counter there, from anywhere. */
  lemma RemoteChangeHidesLog(s: LogState, remote: Change, c: Change, o: nat)
    requires remote.id % U64 == U64 - 1
    ensures ChangesSince(Record(Raise(s, [remote]), c), o) == []
  {
    assert Raise(s, [remote]) == Raise(s.(offset := Max(s.offset, remote.id % U64)), [remote][1..]);
    assert [remote][1..] == [];
  }

  // ---------- a snapshot taken while others write ----------

  function Reserves(steps: seq<RaceStep>): nat {
    if steps == [] then 0 else (if steps[0].ReserveStep? then 1 else 0) + Reserves(steps[1..])
  }

  lemma {:induction false} CounterCountsReserves(s: Racing, steps: seq<RaceStep>)
    requires IsRun(s, steps) && forall step :: step in steps ==> !step.RaiseStep?
    ensures RunRace(s, steps).log.offset == s.log.offset + Reserves(steps)
    decreases |steps|
  {
    if steps != [] {
      assert steps[0] in steps && Enabled(s, steps[0]);
      assert Step(s, steps[0]).log.offset == s.log.offset + if steps[0].ReserveStep? then 1 else 0;
      hide Step, Enabled;
      CounterCountsReserves(Step(s, steps[0]), steps[1..]);
    }
  }

  lemma {:induction false} CounterNeverFalls(s: Racing, steps: seq<RaceStep>)
    requires IsRun(s, steps)
    ensures RunRace(s, steps).log.offset >= s.log.offset
    decreases |steps|
  {
    if steps != [] {
      StepRaises(s, steps[0]);
      hide Step, Enabled;
      CounterNeverFalls(Step(s, steps[0]), steps[1..]);
    }
  }

  lemma StepRaises(s: Racing, step: RaceStep)
    requires Enabled(s, step)
    ensures Step(s, step).log.offset >= s.log.offset
  {
    if step.RaiseStep? {
      RaiseKeepsLog(s.log, step.remote);
    }
  }

  /** The counter covers every remote change applied so far, whatever came in between and since. */
  lemma {:induction false} CounterCoversRemote(s: Racing, steps: seq<RaceStep>, i: nat, c: Change)
    requires IsRun(s, steps) && i < |steps| && steps[i].RaiseStep? && c in steps[i].remote
    ensures c.id % U64 <= RunRace(s, steps).log.offset
    decreases i
  {
    if i == 0 {
      RaiseKeepsLog(s.log, steps[0].remote);
      CounterNeverFalls(Step(s, steps[0]), steps[1..]);
    } else {
      hide Step, Enabled;
      CounterCoversRemote(Step(s, steps[0]), steps[1..], i - 1, c);
    }
  }

  /** So one remote change makes it lead with no writer about, by the low 64 bits of the identifier. */
  lemma RemoteChangeLeads(maxChanges: nat, c: Change)
    ensures IsRun(Idle(maxChanges), [RaiseStep([c])])
    ensures var s := RunRace(Idle(maxChanges), [RaiseStep([c])]);
            s.reserved == map[] && s.history == [] && Surplus(s) == c.id % U64
  {
    var s, steps := Idle(maxChanges), [RaiseStep([c])];
    assert steps[1..] == [];
    RaiseKeepsLog(s.log, [c]);
    CounterCoversRemote(s, steps, 0, c);
    assert forall x :: x in [c] ==> x == c;
  }

  /**
   `snapshot` copies the log first and loads the counter afterwards. With d the counter's lead over
   the copied history, what it restores is a true log exactly if d is zero, and a read from it
   starts d earlier and misses nothing. Without remote changes d counts the writers in flight at
   the first load and every reserve in between.
   */
  lemma TornSnapshot(maxChanges: nat, before: seq<RaceStep>, between: seq<RaceStep>, o: nat)
    requires IsRun(Idle(maxChanges), before) && IsRun(RunRace(Idle(maxChanges), before), between)
    ensures var s := RunRace(Idle(maxChanges), before);
            var restored := LogState(RunRace(s, between).log.offset, s.log.changes, maxChanges);
            var n, d := |s.history|, restored.offset - |s.history|;
            && d >= |s.reserved|
            && (Represents(restored, s.history) <==> d == 0)
            && (o < restored.offset ==>
                  var from := Max(n - |s.log.changes|, o - d);
                  0 <= from <= n && ChangesSince(restored, o) == s.history[from..])
            && ((forall step :: step in before || step in between ==> !step.RaiseStep?) ==>
                  d == |s.reserved| + Reserves(between))
  {
    hide IsRun, RunRace, RaceInvariant, IsTail;
    IdleHolds(maxChanges);
    RunKeepsInvariant(Idle(maxChanges), before);
    var s := RunRace(Idle(maxChanges), before);
    InvariantKeepsTail(s);
    CounterNeverFalls(s, between);
    var restored := LogState(RunRace(s, between).log.offset, s.log.changes, maxChanges);
    TailWindow(restored, s.history, o);
    if forall step :: step in before || step in between ==> !step.RaiseStep? {
      SurplusIsWritersInFlight(maxChanges, before);
      CounterCountsReserves(s, between);
    }
  }

  lemma InvariantKeepsTail(s: Racing)
    requires RaceInvariant(s)
    ensures IsTail(s.log.changes, s.history) && |s.history| + |s.reserved| <= s.log.offset
    ensures |s.log.changes| <= |s.history|
  {
  }

  // ---------- peers ----------

  type PeerId = b: seq<bv8> | |b| == 32 witness seq(32, _ => 0)

  datatype SyncState = Disconnected | Connecting | Syncing | Synchronized | Failed(message: string)

  datatype PeerSyncState = PeerSyncState(peerId: PeerId, state: SyncState, lastOffset: u64, lastSync: Option<nat>)

  datatype SyncSnapshot = SyncSnapshot(offset: u64, changes: seq<Change>, peers: seq<(string, u64)>)

  function PeerKey(peer: PeerId): string {
    Base64.Encode(peer)
  }

  datatype DecodedPeer = Peer(id: PeerId) | BadKey(message: string) | Panic

  /** `decode_peer_id`: slicing the first 32 bytes panics on a shorter text. `isKey` is the curve check. */
  function DecodePeerId(key: string, isKey: PeerId -> bool): DecodedPeer {
    match Base64.Decode(key)
    case Err(_) => BadKey("base64 decode failed")
    case Ok(bytes) =>
      if |bytes| < 32 then Panic
      else if isKey(bytes[..32]) then Peer(bytes[..32])
      else BadKey("failed to create endpoint ID")
  }

  /** The length error can never be reported: a short key panics instead, and a long one is cut. */
  lemma ShortKeyPanics(key: string, isKey: PeerId -> bool)
    ensures DecodePeerId(key, isKey).Panic? <==> |key| < 43 && forall c :: c in key ==> c in Base64.ALPHABET
  {
    hide Base64.Decode, Base64.ALPHABET;
    Base64.DecodeOutcome(key);
  }

  lemma PeerKeyRoundTrip(peer: PeerId, isKey: PeerId -> bool)
    requires isKey(peer)
    ensures |PeerKey(peer)| == 43 && DecodePeerId(PeerKey(peer), isKey) == Peer(peer)
  {
    hide Base64.Decode, Base64.Encode, Base64.ALPHABET;
    Base64.RoundTrip(peer);
    Base64.EncodedText(peer);
    assert peer[..32] == peer;
  }

  /** Which keys are the manager's own key of the peer they decode to. */
  lemma OwnKey(key: string, isKey: PeerId -> bool)
    requires DecodePeerId(key, isKey).Peer?
    ensures key == PeerKey(DecodePeerId(key, isKey).id) <==> |key| == 43 && Base64.Canonical(key)
  {
    hide Base64.Decode, Base64.Encode, Base64.ALPHABET, Base64.Canonical;
    var peer := DecodePeerId(key, isKey).id;
    Base64.DecodeOutcome(key);
    Base64.Canonicality(key);
    Base64.RoundTrip(peer);
    Base64.EncodedText(peer);
    var bytes := Base64.Decode(key).value;
    if |key| == 43 {
      assert bytes == peer;
    }
  }

  // ---------- snapshot and restore ----------

  function RestoredPeer(peer: PeerId, offset: u64): PeerSyncState {
    PeerSyncState(peer, Disconnected, offset, None)
  }

  /** The peers after `restore`, and whether it panicked on the way. */
  function RestorePeers(states: map<string, PeerSyncState>, peers: seq<(string, u64)>, isKey: PeerId -> bool)
    : (map<string, PeerSyncState>, bool)
    decreases |peers|
  {
    if peers == [] then (states, false)
    else
      match DecodePeerId(peers[0].0, isKey)
      case Panic => (states, true)
      case BadKey(_) => RestorePeers(states, peers[1..], isKey)
      case Peer(id) => RestorePeers(states[peers[0].0 := RestoredPeer(id, peers[0].1)], peers[1..], isKey)
  }

  /** The text names the peer: it decodes to the peer's 32 bytes, whatever follows them, and they are a curve point. */
  ghost predicate Names(key: string, peer: PeerId, isKey: PeerId -> bool) {
    isKey(peer) && exists more: seq<bv8> :: Base64.Decode(key) == Ok(peer + more)
  }

  ghost predicate NamesSomeone(key: string, isKey: PeerId -> bool) {
    exists peer: PeerId :: Names(key, peer, isKey)
  }

  /** A text that decodes, but to fewer than 32 bytes. */
  predicate TooShort(key: string) {
    |key| < 43 && forall c :: c in key ==> c in Base64.ALPHABET
  }

  lemma DecodesExactly(key: string, isKey: PeerId -> bool)
    ensures forall peer: PeerId :: DecodePeerId(key, isKey) == Peer(peer) <==> Names(key, peer, isKey)
    ensures DecodePeerId(key, isKey).Panic? <==> TooShort(key)
  {
    hide Base64.Decode, Base64.ALPHABET;
    ShortKeyPanics(key, isKey);
    forall peer: PeerId
      ensures DecodePeerId(key, isKey) == Peer(peer) <==> Names(key, peer, isKey)
    {
      if DecodePeerId(key, isKey) == Peer(peer) {
        var bytes := Base64.Decode(key).value;
        assert bytes == peer + bytes[32..];
      }
      if Names(key, peer, isKey) {
        var more: seq<bv8> :| Base64.Decode(key) == Ok(peer + more);
        assert (peer + more)[..32] == peer;
      }
    }
  }

  predicate Listed(peers: seq<(string, u64)>, key: string) {
    exists i :: 0 <= i < |peers| && peers[i].0 == key
  }

  /** Nothing further down the list has the same key. */
  predicate IsLast(peers: seq<(string, u64)>, i: nat) {
    i < |peers| && forall j :: i < j < |peers| ==> peers[j].0 != peers[i].0
  }

  /**
   Every listed key that names somebody is there with the offset of its last occurrence; a key that
   names nobody is skipped, and all else is as before.
   */
  ghost predicate RestoredTo(before: map<string, PeerSyncState>, after: map<string, PeerSyncState>,
                             peers: seq<(string, u64)>, isKey: PeerId -> bool) {
    && (forall k :: k in after <==> k in before || (Listed(peers, k) && NamesSomeone(k, isKey)))
    && (forall k :: k in before && !(Listed(peers, k) && NamesSomeone(k, isKey)) ==>
          k in after && after[k] == before[k])
    && (forall i: nat :: i < |peers| ==> RestoredAt(after, peers, i, isKey))
  }

  ghost predicate RestoredAt(after: map<string, PeerSyncState>, peers: seq<(string, u64)>, i: nat,
                             isKey: PeerId -> bool)
    requires i < |peers|
  {
    forall peer :: IsLast(peers, i) && Names(peers[i].0, peer, isKey) ==>
      && peers[i].0 in after
      && after[peers[i].0] == PeerSyncState(peer, Disconnected, peers[i].1, None)
  }

  /** How many keys come before the first that is too short. */
  function FirstShort(peers: seq<(string, u64)>): (n: nat)
    ensures n <= |peers| && forall i :: 0 <= i < n ==> !TooShort(peers[i].0)
    ensures n < |peers| ==> TooShort(peers[n].0)
  {
    if peers == [] || TooShort(peers[0].0) then 0 else 1 + FirstShort(peers[1..])
  }

  lemma ListedCons(head: (string, u64), rest: seq<(string, u64)>, key: string)
    ensures Listed([head] + rest, key) <==> key == head.0 || Listed(rest, key)
  {
    var peers := [head] + rest;
    if Listed(rest, key) {
      var i :| 0 <= i < |rest| && rest[i].0 == key;
      assert peers[i + 1].0 == key;
    }
    if Listed(peers, key) && key != head.0 {
      var i :| 0 <= i < |peers| && peers[i].0 == key;
      assert rest[i - 1].0 == key;
    }
    assert peers[0].0 == head.0;
  }

  lemma LastCons(head: (string, u64), rest: seq<(string, u64)>, i: nat)
    requires IsLast([head] + rest, i)
    ensures i == 0 ==> !Listed(rest, head.0)
    ensures i > 0 ==> IsLast(rest, i - 1)
  {
    var peers := [head] + rest;
    assert forall j :: 0 <= j < |rest| ==> peers[j + 1] == rest[j];
  }

  lemma NamesOne(key: string, peer: PeerId, other: PeerId, isKey: PeerId -> bool)
    requires Names(key, peer, isKey) && Names(key, other, isKey)
    ensures peer == other
  {
    hide Base64.Decode;
    var a, b :| Base64.Decode(key) == Ok(peer + a) == Ok(other + b);
    assert (peer + a)[..32] == peer && (other + b)[..32] == other;
  }

  lemma RestoredBehind(after: map<string, PeerSyncState>, head: (string, u64), rest: seq<(string, u64)>, i: nat,
                       isKey: PeerId -> bool)
    requires 0 < i < 1 + |rest| && RestoredAt(after, rest, i - 1, isKey)
    ensures RestoredAt(after, [head] + rest, i, isKey)
  {
    hide Names, IsLast;
    if IsLast([head] + rest, i) {
      LastCons(head, rest, i);
    }
  }

  lemma ListedInCons(head: (string, u64), rest: seq<(string, u64)>)
    ensures forall k :: Listed([head] + rest, k) <==> k == head.0 || Listed(rest, k)
  {
    hide Listed;
    forall k
      ensures Listed([head] + rest, k) <==> k == head.0 || Listed(rest, k)
    {
      ListedCons(head, rest, k);
    }
  }

  /** Skipping a key that names nobody. */
  lemma SkippedFirst(before: map<string, PeerSyncState>, after: map<string, PeerSyncState>, head: (string, u64),
                     rest: seq<(string, u64)>, isKey: PeerId -> bool)
    requires RestoredTo(before, after, rest, isKey) && !NamesSomeone(head.0, isKey)
    ensures RestoredTo(before, after, [head] + rest, isKey)
  {
    hide IsLast, Listed, Names;
    ListedInCons(head, rest);
    forall i: nat | i < 1 + |rest|
      ensures RestoredAt(after, [head] + rest, i, isKey)
    {
      if i > 0 {
        RestoredBehind(after, head, rest, i, isKey);
      }
    }
  }

  /** Restoring the peer that a key names. */
  lemma RestoredFirst(before: map<string, PeerSyncState>, after: map<string, PeerSyncState>, head: (string, u64),
                      peer: PeerId, rest: seq<(string, u64)>, isKey: PeerId -> bool)
    requires Names(head.0, peer, isKey)
    requires RestoredTo(before[head.0 := PeerSyncState(peer, Disconnected, head.1, None)], after, rest, isKey)
    ensures RestoredTo(before, after, [head] + rest, isKey)
  {
    hide IsLast, Listed, Names;
    ListedInCons(head, rest);
    forall i: nat | i < 1 + |rest|
      ensures RestoredAt(after, [head] + rest, i, isKey)
    {
      if i > 0 {
        RestoredBehind(after, head, rest, i, isKey);
      } else if IsLast([head] + rest, 0) {
        LastCons(head, rest, 0);
        forall other | Names(head.0, other, isKey)
          ensures after[head.0] == PeerSyncState(other, Disconnected, head.1, None)
        {
          NamesOne(head.0, peer, other, isKey);
        }
      }
    }
  }

  /** What `restore` makes of any list of peers: up to the first key that is too short. */
  lemma {:induction false} RestoreIsExact(states: map<string, PeerSyncState>, peers: seq<(string, u64)>,
                                          isKey: PeerId -> bool)
    ensures var (after, panicked) := RestorePeers(states, peers, isKey);
            && (panicked <==> FirstShort(peers) < |peers|)
            && RestoredTo(states, after, peers[..FirstShort(peers)], isKey)
    decreases |peers|
  {
    hide DecodePeerId, Names, TooShort, RestoredTo;
    if peers == [] {
      NothingRestored(states, peers[..0], isKey);
    } else {
      var (key, offset) := peers[0];
      DecodesExactly(key, isKey);
      if TooShort(key) {
        NothingRestored(states, peers[..0], isKey);
      } else {
        var n := FirstShort(peers[1..]);
        assert peers[..n + 1] == [peers[0]] + peers[1..][..n];
        match DecodePeerId(key, isKey) {
          case BadKey(_) =>
            RestoreIsExact(states, peers[1..], isKey);
            SkippedFirst(states, RestorePeers(states, peers, isKey).0, peers[0], peers[1..][..n], isKey);
          case Peer(id) =>
            RestoreIsExact(states[key := RestoredPeer(id, offset)], peers[1..], isKey);
            RestoredFirst(states, RestorePeers(states, peers, isKey).0, peers[0], id, peers[1..][..n], isKey);
        }
      }
    }
  }

  lemma NothingRestored(states: map<string, PeerSyncState>, none: seq<(string, u64)>, isKey: PeerId -> bool)
    requires none == []
    ensures RestoredTo(states, states, none, isKey)
  {
  }

  /** Every key is the base64 text of its peer's 32 bytes, and the peer is a curve point. */
  ghost predicate OwnKeys(states: map<string, PeerSyncState>, isKey: PeerId -> bool) {
    forall k :: k in states ==> k == PeerKey(states[k].peerId) && isKey(states[k].peerId)
  }

  /** The peers of a snapshot, in some order. */
  ghost predicate Lists(peers: seq<(string, u64)>, states: map<string, PeerSyncState>) {
    && (forall i :: 0 <= i < |peers| ==> peers[i].0 in states && peers[i].1 == states[peers[i].0].lastOffset)
    && (forall k :: k in states ==> exists i :: 0 <= i < |peers| && peers[i].0 == k)
  }

  function Forgotten(states: map<string, PeerSyncState>, keys: set<string>): map<string, PeerSyncState> {
    map k | k in states && k in keys :: RestoredPeer(states[k].peerId, states[k].lastOffset)
  }

  function Keys(peers: seq<(string, u64)>): set<string> {
    if peers == [] then {} else {peers[0].0} + Keys(peers[1..])
  }

  lemma {:induction false} KeysListed(peers: seq<(string, u64)>)
    ensures forall k :: k in Keys(peers) <==> exists i :: 0 <= i < |peers| && peers[i].0 == k
  {
    if peers != [] {
      KeysListed(peers[1..]);
      forall k
        ensures k in Keys(peers) <==> exists i :: 0 <= i < |peers| && peers[i].0 == k
      {
        if k in Keys(peers[1..]) {
          var i :| 0 <= i < |peers[1..]| && peers[1..][i].0 == k;
          assert peers[i + 1].0 == k;
        }
        if i :| 0 <= i < |peers| && peers[i].0 == k {
          assert i > 0 ==> peers[1..][i - 1].0 == k;
        }
      }
    }
  }

  lemma {:induction false} RestoreListed(states: map<string, PeerSyncState>, done: set<string>,
                                         peers: seq<(string, u64)>, isKey: PeerId -> bool)
    requires OwnKeys(states, isKey)
    requires forall i :: 0 <= i < |peers| ==> peers[i].0 in states && peers[i].1 == states[peers[i].0].lastOffset
    ensures RestorePeers(Forgotten(states, done), peers, isKey)
         == (Forgotten(states, done + Keys(peers)), false)
    decreases |peers|
  {
    hide PeerKey, DecodePeerId;
    if peers == [] {
      assert done + Keys(peers) == done;
    } else {
      var k := peers[0].0;
      PeerKeyRoundTrip(states[k].peerId, isKey);
      assert Forgotten(states, done)[k := RestoredPeer(states[k].peerId, peers[0].1)] == Forgotten(states, done + {k});
      RestoreListed(states, done + {k}, peers[1..], isKey);
      assert done + {k} + Keys(peers[1..]) == done + Keys(peers);
    }
  }

  /** Restoring a manager's own snapshot drops no peer and keeps every last offset. */
  lemma RestoreKeepsEveryPeer(states: map<string, PeerSyncState>, peers: seq<(string, u64)>, isKey: PeerId -> bool)
    requires OwnKeys(states, isKey) && Lists(peers, states)
    ensures RestorePeers(map[], peers, isKey)
         == (map k | k in states :: PeerSyncState(states[k].peerId, Disconnected, states[k].lastOffset, None), false)
  {
    hide PeerKey, DecodePeerId, RestorePeers;
    RestoreListed(states, {}, peers, isKey);
    assert Forgotten(states, {}) == map[];
    KeysListed(peers);
    assert {} + Keys(peers) == states.Keys;
    assert Forgotten(states, states.Keys)
        == map k | k in states :: PeerSyncState(states[k].peerId, Disconnected, states[k].lastOffset, None);
  }

  // ---------- the manager ----------

  lemma WrapStep(n: nat)
    ensures (n % U64 + 1) % U64 == (n + 1) % U64
  {
  }

  class SyncManager {
    var offset: u64
    var changes: seq<Change>
    const maxChanges: nat
    var peerStates: map<string, PeerSyncState>
    const isKey: PeerId -> bool

    ghost function Log(): LogState
      reads this
    {
      LogState(offset, changes, maxChanges)
    }

    ghost predicate Valid()
      reads this
    {
      OwnKeys(peerStates, isKey)
    }

    constructor (maxChanges: nat, isKey: PeerId -> bool)
      ensures Valid() && Log() == LogState(0, [], maxChanges)
      ensures peerStates == map[] && this.isKey == isKey
    {
      this.offset := 0;
      this.changes := [];
      this.maxChanges := maxChanges;
      this.peerStates := map[];
      this.isKey := isKey;
    }

    method RecordChange(change: Change) returns (at: u64)
      modifies this`offset, this`changes
      ensures at == old(offset)
      ensures Log() == Record(old(Log()), change)
    {
      at := offset;
      offset := (offset + 1) % U64;
      changes := changes + [change];
      if |changes| > maxChanges {
        changes := changes[1..];
      }
    }

    method GetChangesSince(from: nat) returns (r: seq<Change>)
      ensures r == ChangesSince(Log(), from)
    {
      var current := offset;
      if from >= current {
        return [];
      }
      var count := current - from;
      var skip := if |changes| > count then |changes| - count else 0;
      r := changes[skip..];
    }

    /** The returned count is one per change and is not the counter, which moves to the identifiers. */
    method ApplyChanges(remote: seq<Change>) returns (r: u64)
      modifies this`offset
      ensures Log() == Raise(old(Log()), remote)
      ensures r == (old(offset) + |remote|) % U64
    {
      r := offset;
      var i := 0;
      assert remote[i..] == remote;
      while i < |remote|
        invariant 0 <= i <= |remote| && r == (old(offset) + i) % U64
        invariant Raise(Log(), remote[i..]) == Raise(old(Log()), remote)
      {
        WrapStep(old(offset) + i);
        r := (r + 1) % U64;
        offset := Max(offset, remote[i].id % U64);
        assert remote[i..][1..] == remote[i + 1..];
        i := i + 1;
      }
    }

    method UpdatePeerState(peer: PeerId, state: SyncState)
      requires Valid() && isKey(peer)
      modifies this`peerStates
      ensures Valid()
      ensures peerStates.Keys == old(peerStates).Keys + {PeerKey(peer)}
      ensures var known := PeerKey(peer) in old(peerStates);
              peerStates[PeerKey(peer)] == if known then old(peerStates)[PeerKey(peer)].(state := state)
                                           else PeerSyncState(peer, state, 0, None)
      ensures forall k :: k in old(peerStates) && k != PeerKey(peer) ==> peerStates[k] == old(peerStates)[k]
    {
      hide PeerKey;
      var key := Base64.Base64UrlEncode(peer);
      assert key == PeerKey(peer) by { KeyDefinition(peer); }
      var entry := if key in peerStates then peerStates[key] else PeerSyncState(peer, Disconnected, 0, None);
      peerStates := peerStates[key := entry.(state := state)];
    }

    /** The order of the peers is the hash map's. */
    method Snapshot() returns (s: SyncSnapshot)
      ensures s.offset == offset && s.changes == changes && Lists(s.peers, peerStates)
    {
      var peers: seq<(string, u64)> := [];
      var keys := peerStates.Keys;
      while keys != {}
        invariant keys <= peerStates.Keys
        invariant forall i :: 0 <= i < |peers| ==>
                    peers[i].0 in peerStates && peers[i].1 == peerStates[peers[i].0].lastOffset
        invariant forall k :: k in peerStates && k !in keys ==> exists i :: 0 <= i < |peers| && peers[i].0 == k
        decreases keys
      {
        var k :| k in keys;
        ghost var was := peers;
        peers := peers + [(k, peerStates[k].lastOffset)];
        assert peers[|was|].0 == k;
        forall x | x in peerStates && x !in keys
          ensures exists i :: 0 <= i < |peers| && peers[i].0 == x
        {
          var i :| 0 <= i < |was| && was[i].0 == x;
          assert peers[i].0 == x;
        }
        keys := keys - {k};
      }
      s := SyncSnapshot(offset, changes, peers);
    }

    /** Replaces log and counter first, so a panic on a peer key leaves them replaced. */
    method Restore(snapshot: SyncSnapshot) returns (panicked: bool)
      modifies this
      ensures offset == snapshot.offset && changes == snapshot.changes
      ensures (peerStates, panicked) == RestorePeers(old(peerStates), snapshot.peers, isKey)
      ensures panicked <==> exists i :: 0 <= i < |snapshot.peers| && TooShort(snapshot.peers[i].0)
      ensures RestoredTo(old(peerStates), peerStates, snapshot.peers[..FirstShort(snapshot.peers)], isKey)
    {
      hide DecodePeerId, RestoredTo, TooShort;
      RestoreIsExact(peerStates, snapshot.peers, isKey);
      changes := [];
      var i := 0;
      while i < |snapshot.changes|
        invariant 0 <= i <= |snapshot.changes| && changes == snapshot.changes[..i]
        invariant peerStates == old(peerStates)
      {
        changes := changes + [snapshot.changes[i]];
        i := i + 1;
      }
      offset := snapshot.offset;
      i := 0;
      assert snapshot.peers[i..] == snapshot.peers;
      while i < |snapshot.peers|
        invariant 0 <= i <= |snapshot.peers|
        invariant offset == snapshot.offset && changes == snapshot.changes
        invariant RestorePeers(peerStates, snapshot.peers[i..], isKey)
                  == RestorePeers(old(peerStates), snapshot.peers, isKey)
      {
        var (key, lastOffset) := snapshot.peers[i];
        assert snapshot.peers[i..][1..] == snapshot.peers[i + 1..];
        match DecodePeerId(key, isKey) {
          case Panic => return true;
          case BadKey(_) =>
          case Peer(id) => peerStates := peerStates[key := RestoredPeer(id, lastOffset)];
        }
        i := i + 1;
      }
      panicked := false;
    }
  }

  lemma KeyDefinition(peer: PeerId)
    ensures PeerKey(peer) == Base64.Encode(peer)
  {
  }

  /** Snapshot, then restore into a fresh manager (test_snapshot_and_restore_preserves_peer_state). */
  method SnapshotRestore(m: SyncManager, other: SyncManager)
    requires m != other && m.Valid() && other.peerStates == map[]
    requires m.isKey == other.isKey && m.maxChanges == other.maxChanges
    modifies other
    ensures other.Valid() && other.Log() == m.Log()
    ensures other.peerStates.Keys == m.peerStates.Keys
    ensures forall k :: k in m.peerStates ==>
              other.peerStates[k].peerId == m.peerStates[k].peerId
                && other.peerStates[k].lastOffset == m.peerStates[k].lastOffset
  {
    var s := m.Snapshot();
    var panicked := other.Restore(s);
    RestoreKeepsEveryPeer(m.peerStates, s.peers, m.isKey);
    assert !panicked;
  }
}
