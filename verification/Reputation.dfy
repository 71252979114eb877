/** Choosing peers by reputation (src/reputation.rs), with scores as real numbers. */
module Reputation {
  import opened Changes
  import Sequences

  datatype PeerReputation = PeerReputation(peer: string, score: real)

  predicate IsReliable(rep: PeerReputation, threshold: real) {
    rep.score >= threshold
  }

  /** What `get_best_peers` asks of a peer. */
  const THRESHOLD: real := 30.0

  predicate Descending(reps: seq<PeerReputation>) {
    forall i, j :: 0 <= i < j < |reps| ==> reps[i].score >= reps[j].score
  }

  function Reliable(reps: seq<PeerReputation>): (r: seq<PeerReputation>)
    ensures |r| <= |reps|
  {
    if reps == [] then []
    else
      var last := reps[|reps| - 1];
      Reliable(reps[..|reps| - 1]) + if IsReliable(last, THRESHOLD) then [last] else []
  }

  function Take<T>(xs: seq<T>, n: nat): seq<T> {
    if n < |xs| then xs[..n] else xs
  }

  /** No peer below the threshold comes before one that meets it. */
  predicate ReliableFirst(reps: seq<PeerReputation>) {
    forall i, j :: 0 <= i < j < |reps| && IsReliable(reps[j], THRESHOLD) ==> IsReliable(reps[i], THRESHOLD)
  }

  lemma ReliableLast(before: seq<PeerReputation>, last: PeerReputation)
    ensures Reliable(before + [last]) == Reliable(before) + if IsReliable(last, THRESHOLD) then [last] else []
  {
    assert (before + [last])[..|before|] == before;
  }

  lemma ReliableNone()
    ensures Reliable([]) == []
  {
  }

  lemma {:induction false} ReliableJoin(a: seq<PeerReputation>, b: seq<PeerReputation>)
    ensures Reliable(a + b) == Reliable(a) + Reliable(b)
    decreases |b|
  {
    hide *;
    if b == [] {
      ReliableNone();
      assert a + b == a && Reliable(a) + [] == Reliable(a);
    } else {
      var before, last := b[..|b| - 1], b[|b| - 1];
      ReliableJoin(a, before);
      ReliableLast(a + before, last);
      ReliableLast(before, last);
      assert b == before + [last];
      Sequences.Associative(a, before, [last]);
      Sequences.Associative(Reliable(a), Reliable(before), if IsReliable(last, THRESHOLD) then [last] else []);
    }
  }

  lemma {:induction false} AllReliable(reps: seq<PeerReputation>)
    requires forall i :: 0 <= i < |reps| ==> IsReliable(reps[i], THRESHOLD)
    ensures Reliable(reps) == reps
    decreases |reps|
  {
    if reps != [] {
      AllReliable(reps[..|reps| - 1]);
    }
  }

  lemma {:induction false} NoneReliable(reps: seq<PeerReputation>)
    requires forall i :: 0 <= i < |reps| ==> !IsReliable(reps[i], THRESHOLD)
    ensures Reliable(reps) == []
    decreases |reps|
  {
    if reps != [] {
      NoneReliable(reps[..|reps| - 1]);
    }
  }

  lemma TakesBeforeFiltering(reps: seq<PeerReputation>, n: nat)
    requires ReliableFirst(reps)
    ensures Reliable(Take(reps, n)) == Take(Reliable(reps), n)
  {
    hide Reliable;
    if n < |reps| {
      var kept, cut := reps[..n], reps[n..];
      assert reps == kept + cut;
      ReliableJoin(kept, cut);
      if forall i :: 0 <= i < n ==> IsReliable(kept[i], THRESHOLD) {
        AllReliable(kept);
        assert (kept + Reliable(cut))[..n] == kept;
      } else {
        assert forall j :: 0 <= j < |cut| ==> cut[j] == reps[n + j];
        NoneReliable(cut);
        assert Reliable(kept) + [] == Reliable(kept);
      }
    }
  }

  /** Cutting behind an unreliable peer with a reliable one further on loses a place. */
  lemma CutTooEarly(reps: seq<PeerReputation>, i: nat, j: nat)
    requires i < j < |reps| && IsReliable(reps[j], THRESHOLD) && !IsReliable(reps[i], THRESHOLD)
    ensures |Reliable(Take(reps, i + 1))| < |Take(Reliable(reps), i + 1)|
  {
    var before, middle, after := reps[..i + 1], reps[i + 1..j], reps[j + 1..];
    assert |Reliable(before)| <= i by {
      assert before[..i] == reps[..i];
    }
    assert |Reliable([reps[j]])| == 1;
    hide Reliable;
    assert reps == before + middle + [reps[j]] + after;
    ReliableJoin(before + middle + [reps[j]], after);
    ReliableJoin(before + middle, [reps[j]]);
    ReliableJoin(before, middle);
  }

  /**
   Taking before filtering gives the best reliable peers for every count exactly when the
   reliable peers come first, which the descending order ensures.
   */
  lemma TakeFilterCommute(reps: seq<PeerReputation>)
    ensures ReliableFirst(reps) <==> forall n: nat :: Reliable(Take(reps, n)) == Take(Reliable(reps), n)
    ensures Descending(reps) ==> ReliableFirst(reps)
  {
    hide Reliable, Take;
    if ReliableFirst(reps) {
      forall n: nat
        ensures Reliable(Take(reps, n)) == Take(Reliable(reps), n)
      {
        TakesBeforeFiltering(reps, n);
      }
    } else {
      var i, j :| 0 <= i < j < |reps| && IsReliable(reps[j], THRESHOLD) && !IsReliable(reps[i], THRESHOLD);
      CutTooEarly(reps, i, j);
      var n: nat := i + 1;
      assert Reliable(Take(reps, n)) != Take(Reliable(reps), n);
    }
  }

  function SortedInsert(reps: seq<PeerReputation>, rep: PeerReputation): seq<PeerReputation> {
    if reps == [] then [rep]
    else if reps[0].score < rep.score then [rep] + reps
    else [reps[0]] + SortedInsert(reps[1..], rep)
  }

  lemma {:induction false} SortedInsertSorts(reps: seq<PeerReputation>, rep: PeerReputation)
    requires Descending(reps)
    ensures var r := SortedInsert(reps, rep);
            && Descending(r) && |r| == |reps| + 1
            && (r[0] == rep || (reps != [] && r[0] == reps[0]))
            && forall x :: x in r <==> x == rep || x in reps
    decreases |reps|
  {
    if reps != [] && reps[0].score >= rep.score {
      SortedInsertSorts(reps[1..], rep);
      assert reps == [reps[0]] + reps[1..];
      hide SortedInsert;
      var rest := SortedInsert(reps[1..], rep);
      assert SortedInsert(reps, rep) == [reps[0]] + rest by {
        InsertLater(reps, rep);
      }
    }
  }

  lemma InsertLater(reps: seq<PeerReputation>, rep: PeerReputation)
    requires reps != [] && reps[0].score >= rep.score
    ensures SortedInsert(reps, rep) == [reps[0]] + SortedInsert(reps[1..], rep)
  {
  }

  class ReputationManager {
    var reputations: map<string, PeerReputation>

    ghost predicate Valid()
      reads this
    {
      forall k :: k in reputations ==> reputations[k].peer == k
    }

    /** Every known peer once, best score first; equal scores as the hash map iterates. */
    ghost predicate Lists(reps: seq<PeerReputation>)
      reads this
    {
      && Descending(reps) && |reps| == |reputations|
      && forall rep :: rep in reps <==> rep.peer in reputations && reputations[rep.peer] == rep
    }

    method GetAllReputations() returns (reps: seq<PeerReputation>)
      requires Valid()
      ensures Lists(reps)
    {
      reps := [];
      var left := reputations.Keys;
      while left != {}
        invariant left <= reputations.Keys
        invariant Descending(reps) && |reps| + |left| == |reputations|
        invariant forall rep :: rep in reps <==>
                                rep.peer in reputations && rep.peer !in left && reputations[rep.peer] == rep
        decreases left
      {
        var key :| key in left;
        left := left - {key};
        SortedInsertSorts(reps, reputations[key]);
        reps := SortedInsert(reps, reputations[key]);
      }
    }

    /** The `count` best of the reliable peers, although the list is cut before it is filtered. */
    method GetBestPeers(count: nat) returns (best: seq<PeerReputation>, ghost all: seq<PeerReputation>)
      requires Valid()
      ensures Lists(all) && best == Take(Reliable(all), count)
      ensures |best| <= count && Descending(best)
      ensures forall rep :: rep in best ==>
                rep.peer in reputations && reputations[rep.peer] == rep && rep.score >= THRESHOLD
      ensures forall k :: k in reputations && reputations[k].score >= THRESHOLD && reputations[k] !in best ==>
                |best| == count && forall rep :: rep in best ==> rep.score >= reputations[k].score
    {
      var reps := GetAllReputations();
      all := reps;
      best := Reliable(Take(reps, count));
      TakeFilterCommute(reps);
      BestOfSorted(reps, count);
      assert best == Take(Reliable(reps), count);
    }
  }

  lemma DescendingBy(reps: seq<PeerReputation>, last: PeerReputation)
    requires Descending(reps) && forall rep :: rep in reps ==> rep.score >= last.score
    ensures Descending(reps + [last])
  {
  }

  lemma LastIsLeast(before: seq<PeerReputation>, last: PeerReputation)
    requires Descending(before + [last])
    ensures Descending(before) && forall rep :: rep in before ==> rep.score >= last.score
  {
    var reps := before + [last];
    assert forall i :: 0 <= i < |before| ==> reps[i] == before[i];
    assert reps[|before|] == last;
  }

  lemma {:induction false} ReliableKeeps(reps: seq<PeerReputation>)
    requires Descending(reps)
    ensures Descending(Reliable(reps))
    ensures forall rep :: rep in Reliable(reps) <==> rep in reps && IsReliable(rep, THRESHOLD)
    decreases |reps|
  {
    if reps != [] {
      var before, last := reps[..|reps| - 1], reps[|reps| - 1];
      assert reps == before + [last];
      hide Reliable, Descending;
      LastIsLeast(before, last);
      ReliableKeeps(before);
      ReliableLast(before, last);
      if IsReliable(last, THRESHOLD) {
        DescendingBy(Reliable(before), last);
      } else {
        assert Reliable(before) + [] == Reliable(before);
      }
    }
  }

  lemma NotCut(rs: seq<PeerReputation>, count: nat, j: nat)
    requires j < |rs|
    ensures j < count ==> rs[j] in Take(rs, count)
  {
    if j < count {
      assert Take(rs, count)[j] == rs[j];
    }
  }

  lemma BestOfSorted(all: seq<PeerReputation>, count: nat)
    requires Descending(all)
    ensures var best := Take(Reliable(all), count);
            && |best| <= count && Descending(best)
            && (forall rep :: rep in best ==> rep in all && IsReliable(rep, THRESHOLD))
            && forall rep :: rep in all && IsReliable(rep, THRESHOLD) && rep !in best ==>
                 |best| == count && forall b :: b in best ==> b.score >= rep.score
  {
    ReliableKeeps(all);
    var rs := Reliable(all);
    hide Reliable;
    var best := Take(rs, count);
    forall rep | rep in all && IsReliable(rep, THRESHOLD) && rep !in best
      ensures |best| == count && forall b :: b in best ==> b.score >= rep.score
    {
      assert rep in rs;
      var j :| 0 <= j < |rs| && rs[j] == rep;
      NotCut(rs, count, j);
    }
  }
}
