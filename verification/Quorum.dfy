/**
 What stands behind a transaction when it is queued: the results counted for it, how many of them report one and
 the same hash, and how many messages that makes.

 A notification replaces the hash that results are compared with but not the count, so results counted before it
 and after it may differ.  When they do, and what that means for the quorum, is described exactly.
 */
module Quorum {
  import opened Decimal
  import opened MasterLedger
  import opened Sorting

  // ----- Messages that report a hash -----

  /** A result for the transaction from another node. */
  predicate IsResult(env: Setting, e: Event, txId: TxId) {
    e.Delivered? && e.m.sender != env.self && e.m.content.Result? && e.m.content.txId == txId
  }

  predicate IsVote(env: Setting, e: Event, txId: TxId, hash: string) {
    IsResult(env, e, txId) && e.m.content.hash == hash
  }

  predicate IsNotice(env: Setting, e: Event, txId: TxId) {
    e.Delivered? && e.m.sender != env.self && e.m.content.Notification? && e.m.content.notice.txId == txId
  }

  /** The ids of the messages that report the hash for the transaction. */
  function VoteIds(env: Setting, events: seq<Event>, txId: TxId, hash: string): set<string> {
    if events == [] then {}
    else
      var last := events[|events| - 1];
      VoteIds(env, events[..|events| - 1], txId, hash) + if IsVote(env, last, txId, hash) then {last.m.id} else {}
  }

  /** Results carry a hash. */
  predicate Hashed(events: seq<Event>) {
    forall i ::
      0 <= i < |events| && events[i].Delivered? && events[i].m.content.Result? ==> events[i].m.content.hash != ""
  }

  /** Votes only grow, and a new message adds one. */
  lemma VotesGrow(env: Setting, events: seq<Event>, e: Event, txId: TxId, hash: string)
    ensures var before, after := VoteIds(env, events, txId, hash), VoteIds(env, events + [e], txId, hash);
      && |before| <= |after|
      && (IsVote(env, e, txId, hash) && e.m.id !in before ==> |after| == |before| + 1)
  {
    assert (events + [e])[..|events|] == events;
    var before, after := VoteIds(env, events, txId, hash), VoteIds(env, events + [e], txId, hash);
    assert before <= after;
    Larger(before, after);
  }

  lemma Larger<T>(a: set<T>, b: set<T>)
    requires a <= b
    ensures |a| <= |b|
  {
    assert b == a + (b - a);
  }

  lemma {:induction false} VotesStay(env: Setting, events: seq<Event>, k: nat, txId: TxId, hash: string)
    requires k <= |events|
    ensures |VoteIds(env, events[..k], txId, hash)| <= |VoteIds(env, events, txId, hash)|
  {
    if k == |events| {
      assert events[..k] == events;
    } else {
      var n := |events| - 1;
      assert events[..n][..k] == events[..k] && events[..n] + [events[n]] == events;
      VotesStay(env, events[..n], k, txId, hash);
      VotesGrow(env, events[..n], events[n], txId, hash);
    }
  }

  /** Every vote was a message delivered and not the node's own, and is remembered. */
  lemma {:induction false} VotesAreProcessed(env: Setting, events: seq<Event>, txId: TxId, hash: string)
    requires Timed(events)
    ensures VoteIds(env, events, txId, hash) <= Run(NEW_NODE, env, events).processed
  {
    if events != [] {
      var n := |events| - 1;
      VotesAreProcessed(env, events[..n], txId, hash);
      StepHears(Run(NEW_NODE, env, events[..n]), env, events[n]);
    }
  }

  // ----- Which results are counted -----

  /** The hashes counted for a stored transaction, before and after its notification. */
  datatype Tally = Tally(before: seq<string>, after: seq<string>)
  {
    function All(): seq<string> { before + after }
  }

  function CountOf(s: Node, txId: TxId): nat {
    if txId in s.transactions then s.transactions[txId].totalVerified else 0
  }

  function HashOf(e: Event): string { if e.Delivered? && e.m.content.Result? then e.m.content.hash else "" }

  /** A result is counted if it raises the count; forgetting the transaction forgets the tally. */
  ghost function TallyOf(env: Setting, events: seq<Event>, txId: TxId): Tally
    requires Timed(events)
  {
    if events == [] then Tally([], [])
    else
      var e := events[|events| - 1];
      var s, s' := Run(NEW_NODE, env, events[..|events| - 1]), Run(NEW_NODE, env, events);
      var t := TallyOf(env, events[..|events| - 1], txId);
      if txId !in s'.transactions then Tally([], [])
      else if IsNotice(env, e, txId) && e.m.id !in s.processed then Tally(t.All(), [])
      else if CountOf(s', txId) > CountOf(s, txId) then t.(after := t.after + [HashOf(e)])
      else t
  }

  /** A first delivery of a result verifies its hash, against that of the transaction or of a new one. */
  lemma ResultStep(s: Node, env: Setting, e: Event, txId: TxId)
    requires IsResult(env, e, txId) && e.m.id !in s.processed
    ensures var r := Step(s, env, e);
      && txId in r.transactions && s.heard <= r.heard
      && var tx := if txId in s.transactions then s.transactions[txId] else NewResult(txId, HashOf(e), e.now);
        && r.transactions[txId].totalVerified == tx.VerifyHash(HashOf(e)).totalVerified
        && r.transactions[txId].lastValidHash == tx.VerifyHash(HashOf(e)).lastValidHash
  {
    hide CloseBlock;
  }

  /** A first delivery of a notification replaces the hash and keeps the count. */
  lemma NoticeStep(s: Node, env: Setting, e: Event, txId: TxId)
    requires IsNotice(env, e, txId) && e.m.id !in s.processed
    ensures var r := Step(s, env, e);
      && txId in r.transactions && txId in r.heard && s.heard <= r.heard && CountOf(r, txId) == CountOf(s, txId)
      && r.transactions[txId].lastValidHash == e.m.content.notice.hash
  {
    hide CloseBlock;
  }

  /** Any other event keeps both, if it keeps the transaction. */
  lemma OtherStep(s: Node, env: Setting, e: Event, txId: TxId)
    requires e.Closed? && e.stamp.Some? ==> e.stamp.value <= e.now
    requires !IsResult(env, e, txId) && !IsNotice(env, e, txId)
    ensures var r := Step(s, env, e);
      && s.heard <= r.heard
      && (txId in r.transactions ==>
           && CountOf(r, txId) == CountOf(s, txId)
           && (txId in s.transactions ==> r.transactions[txId].lastValidHash == s.transactions[txId].lastValidHash))
  {
    match e
    case Delivered(_, _) => hide CloseBlock;
    case Closed(order, stamp, latest, now) => hide Arranged, DueCount, Stamped, NextBlockNumber;
    case CleanedUp(_) => hide CloseBlock;
    case Requested(_, _, _) => hide CloseBlock;
  }

  /** A repeated message changes nothing. */
  lemma RepeatedStep(s: Node, env: Setting, e: Event)
    requires e.Delivered? && e.m.id in s.processed
    ensures Step(s, env, e) == s
  {
    hide CloseBlock;
  }

  /** What one event does to the count and the hash of a transaction. */
  lemma StepOn(s: Node, env: Setting, e: Event, txId: TxId)
    requires e.Closed? && e.stamp.Some? ==> e.stamp.value <= e.now
    ensures var r := Step(s, env, e);
      && (e.Delivered? && e.m.id in s.processed ==> r == s)
      && (IsResult(env, e, txId) && e.m.id !in s.processed ==>
           && txId in r.transactions
           && var tx := if txId in s.transactions then s.transactions[txId] else NewResult(txId, HashOf(e), e.now);
             && r.transactions[txId].totalVerified == tx.VerifyHash(HashOf(e)).totalVerified
             && r.transactions[txId].lastValidHash == tx.VerifyHash(HashOf(e)).lastValidHash)
      && (IsNotice(env, e, txId) && e.m.id !in s.processed ==>
           && txId in r.transactions && txId in r.heard && CountOf(r, txId) == CountOf(s, txId)
           && r.transactions[txId].lastValidHash == e.m.content.notice.hash)
      && (!IsResult(env, e, txId) && !IsNotice(env, e, txId) && txId in r.transactions ==>
           && (CountOf(r, txId) == CountOf(s, txId))
           && (txId in s.transactions ==> r.transactions[txId].lastValidHash == s.transactions[txId].lastValidHash))
      && s.heard <= r.heard
  {
    hide Step, CountOf, HashOf;
    if e.Delivered? && e.m.id in s.processed {
      RepeatedStep(s, env, e);
    } else if IsResult(env, e, txId) {
      ResultStep(s, env, e, txId);
    } else if IsNotice(env, e, txId) {
      NoticeStep(s, env, e, txId);
    }
    if !IsResult(env, e, txId) && !IsNotice(env, e, txId) { OtherStep(s, env, e, txId); }
  }

  ghost predicate AllSame(hashes: seq<string>) {
    forall i, j :: 0 <= i < |hashes| && 0 <= j < |hashes| ==> hashes[i] == hashes[j]
  }

  /** Before the notification the results counted agree, and so they do after it; each is a message of its own. */
  ghost predicate Tallied(s: Node, t: Tally, txId: TxId) {
    && AllSame(t.before) && AllSame(t.after) && "" !in t.All()
    && |t.All()| == CountOf(s, txId)
    && (t.before != [] ==> txId in s.heard)
    && (t.after != [] ==> txId in s.transactions && s.transactions[txId].lastValidHash == t.after[0])
  }

  lemma {:induction false} RunTallies(env: Setting, events: seq<Event>, txId: TxId)
    requires Timed(events) && Honest(env, events) && Hashed(events)
    ensures Tallied(Run(NEW_NODE, env, events), TallyOf(env, events, txId), txId)
  {
    if events != [] {
      var n := |events| - 1;
      var before, e := events[..n], events[n];
      assert before + [e] == events;
      HonestBefore(env, events);
      RunTallies(env, before, txId);
      StepOn(Run(NEW_NODE, env, before), env, e, txId);
      if IsNotice(env, e, txId) && e.m.id !in Run(NEW_NODE, env, before).processed {
        assert Announces(env, e, txId);
        FreshWhenTaken(env, before, e, events, txId);
      }
      TallyNext(env, events, txId);
    }
  }

  lemma HonestBefore(env: Setting, events: seq<Event>)
    requires events != [] && Honest(env, events)
    ensures Honest(env, events[..|events| - 1])
  {
    var before := events[..|events| - 1];
    assert forall i, txId :: 0 <= i < |before| && Announces(env, before[i], txId) ==> Announces(env, events[i], txId);
  }

  lemma TallyNext(env: Setting, events: seq<Event>, txId: TxId)
    requires Timed(events) && Hashed(events) && events != []
    requires var before, e := events[..|events| - 1], events[|events| - 1];
      && Tallied(Run(NEW_NODE, env, before), TallyOf(env, before, txId), txId)
      && (IsNotice(env, e, txId) && e.m.id !in Run(NEW_NODE, env, before).processed ==>
           txId !in Run(NEW_NODE, env, before).heard)
    ensures Tallied(Run(NEW_NODE, env, events), TallyOf(env, events, txId), txId)
  {
    var before, e := events[..|events| - 1], events[|events| - 1];
    var s, t := Run(NEW_NODE, env, before), TallyOf(env, before, txId);
    assert Run(NEW_NODE, env, events) == Step(s, env, e);
    hide Step, Run, Honest, Timed, AllSame;
    StepOn(s, env, e, txId);
    TallyStep(t, HashOf(e));
  }

  /** The hashes counted agree as long as the next one counted is the one stored. */
  lemma TallyStep(t: Tally, hash: string)
    ensures t.before == [] ==> t.All() == t.after
    ensures t.(after := t.after + [hash]).All() == t.All() + [hash]
    ensures AllSame(t.after) && (t.after != [] ==> t.after[0] == hash) ==> AllSame(t.after + [hash])
    ensures AllSame([])
  {
  }

  lemma CountStep(t: Tally, last: string, hash: string)
    ensures multiset(Tally(t.All(), []).All())[hash] == multiset(t.All())[hash]
    ensures multiset(t.(after := t.after + [last]).All())[hash] ==
      multiset(t.All())[hash] + if last == hash then 1 else 0
    ensures multiset(Tally([], []).All())[hash] == 0
  {
    assert t.All() + [] == t.All();
    assert t.(after := t.after + [last]).All() == t.All() + [last];
  }

  /** A tally that one event extends is extended by a result that was not delivered before. */
  lemma TallyGrows(env: Setting, events: seq<Event>, e: Event, txId: TxId)
    requires Timed(events) && Timed(events + [e])
    ensures var t, t' := TallyOf(env, events, txId), TallyOf(env, events + [e], txId);
      || t' == Tally([], []) || t' == Tally(t.All(), []) || t' == t
      || (t' == t.(after := t.after + [HashOf(e)]) && IsResult(env, e, txId) &&
          e.m.id !in Run(NEW_NODE, env, events).processed)
  {
    var all := events + [e];
    assert all[..|events|] == events && all[|events|] == e;
    var s, s' := Run(NEW_NODE, env, events), Run(NEW_NODE, env, all);
    assert s' == Step(s, env, e);
    hide Step, Run, Timed;
    StepOn(s, env, e, txId);
  }

  lemma CountedNext(env: Setting, events: seq<Event>, e: Event, txId: TxId, hash: string)
    requires Timed(events) && Timed(events + [e])
    requires multiset(TallyOf(env, events, txId).All())[hash] <= |VoteIds(env, events, txId, hash)|
    ensures multiset(TallyOf(env, events + [e], txId).All())[hash] <= |VoteIds(env, events + [e], txId, hash)|
  {
    VotesGrow(env, events, e, txId, hash);
    VotesAreProcessed(env, events, txId, hash);
    TallyGrows(env, events, e, txId);
    hide TallyOf, Run, VoteIds, Timed;
    CountStep(TallyOf(env, events, txId), HashOf(e), hash);
  }

  /** Every counted result is a message of its own. */
  lemma {:induction false} CountedAreVotes(env: Setting, events: seq<Event>, txId: TxId, hash: string)
    requires Timed(events)
    ensures multiset(TallyOf(env, events, txId).All())[hash] <= |VoteIds(env, events, txId, hash)|
  {
    if events != [] {
      var n := |events| - 1;
      TimedUpTo(events, n);
      hide *;
      CountedAreVotes(env, events[..n], txId, hash);
      assert events[..n] + [events[n]] == events;
      CountedNext(env, events[..n], events[n], txId, hash);
    }
  }

  // ----- The quorum of a queued transaction -----

  /**
   The guard at the notification: nothing was counted before it, or nothing after it, or the first result counted
   after it reports the hash that it replaced.
   */
  predicate IsHarmless(t: Tally) { t.before == [] || t.after == [] || t.before[0] == t.after[0] }

  /** At a notification the results counted so far, if any, have reported the hash that it replaces. */
  lemma NoticeReplaces(env: Setting, events: seq<Event>, e: Event, txId: TxId)
    requires Timed(events) && Timed(events + [e]) && Honest(env, events) && Hashed(events)
    requires IsNotice(env, e, txId) && e.m.id !in Run(NEW_NODE, env, events).processed
    requires txId !in Run(NEW_NODE, env, events).heard
    ensures var s, t := Run(NEW_NODE, env, events), TallyOf(env, events + [e], txId);
      && t.after == [] && |t.before| == CountOf(s, txId)
      && (t.before != [] ==> txId in s.transactions && t.before[0] == s.transactions[txId].lastValidHash)
  {
    assert (events + [e])[..|events|] == events && (events + [e])[|events|] == e;
    RunTallies(env, events, txId);
    StepOn(Run(NEW_NODE, env, events), env, e, txId);
    var t := TallyOf(env, events, txId);
    assert t.before == [] ==> t.All() == t.after;
  }

  /** A stored hash is the only one that the next counted result can report. */
  lemma NextCountedMatches(env: Setting, events: seq<Event>, e: Event, txId: TxId)
    requires Timed(events) && Timed(events + [e])
    requires var s := Run(NEW_NODE, env, events); txId in s.transactions && s.transactions[txId].lastValidHash != ""
    requires IsResult(env, e, txId) && TallyOf(env, events + [e], txId) != TallyOf(env, events, txId)
    ensures HashOf(e) == Run(NEW_NODE, env, events).transactions[txId].lastValidHash
  {
    assert (events + [e])[..|events|] == events && (events + [e])[|events|] == e;
    StepOn(Run(NEW_NODE, env, events), env, e, txId);
  }

  /** Some hash was reported by 14 of the results counted. */
  ghost predicate HasQuorum(t: Tally) { exists hash :: multiset(t.All())[hash] >= MAJORITY }

  lemma {:induction false} SameCount(hashes: seq<string>, hash: string)
    requires AllSame(hashes)
    ensures multiset(hashes)[hash] == if hashes != [] && hashes[0] == hash then |hashes| else 0
  {
    if hashes != [] {
      SameCount(hashes[1..], hash);
      assert hashes == [hashes[0]] + hashes[1..];
    }
  }

  /** Of 14 and more counted results 14 agree exactly if the notification was harmless or one side has 14 by itself. */
  lemma QuorumByGuard(t: Tally)
    requires AllSame(t.before) && AllSame(t.after) && |t.All()| >= MAJORITY
    ensures HasQuorum(t) <==> IsHarmless(t) || |t.before| >= MAJORITY || |t.after| >= MAJORITY
    ensures |t.All()| == MAJORITY ==> (HasQuorum(t) <==> IsHarmless(t))
  {
    assert forall hash :: multiset(t.All())[hash] == multiset(t.before)[hash] + multiset(t.after)[hash];
    forall hash ensures multiset(t.All())[hash] ==
      (if t.before != [] && t.before[0] == hash then |t.before| else 0) +
      (if t.after != [] && t.after[0] == hash then |t.after| else 0)
    {
      SameCount(t.before, hash);
      SameCount(t.after, hash);
    }
    if t.before != [] { assert multiset(t.All())[t.before[0]] >= |t.before|; }
    if t.after != [] { assert multiset(t.All())[t.after[0]] >= |t.after|; }
  }

  /** Event k has the transaction queued. */
  ghost predicate QueuedAt(env: Setting, events: seq<Event>, k: nat, txId: TxId)
    requires Timed(events)
  {
    && k < |events|
    && txId !in Run(NEW_NODE, env, events[..k]).queued && txId in Run(NEW_NODE, env, events[..k + 1]).queued
  }

  lemma QueuedBefore(env: Setting, events: seq<Event>, n: nat, k: nat, txId: TxId)
    requires Timed(events) && k < n <= |events| && QueuedAt(env, events[..n], k, txId)
    ensures QueuedAt(env, events, k, txId)
  {
    hide Run, Timed;
    assert events[..n][..k] == events[..k] && events[..n][..k + 1] == events[..k + 1];
  }

  lemma NothingQueued(env: Setting)
    ensures Run(NEW_NODE, env, []).queued == []
  {
  }

  lemma {:induction false} HasMoment(env: Setting, events: seq<Event>, txId: TxId)
    requires Timed(events) && txId in Run(NEW_NODE, env, events).queued
    ensures exists k :: 0 <= k < |events| && QueuedAt(env, events, k, txId)
  {
    hide Run;
    NothingQueued(env);
    if events != [] {
      var n := |events| - 1;
      if txId in Run(NEW_NODE, env, events[..n]).queued {
        HasMoment(env, events[..n], txId);
        var k :| 0 <= k < n && QueuedAt(env, events[..n], k, txId);
        QueuedBefore(env, events, n, k, txId);
      } else {
        assert events[..n + 1] == events;
        assert QueuedAt(env, events, n, txId);
      }
    }
  }

  lemma QueuedWhenVerified(s: Node, env: Setting, e: Event, txId: TxId)
    requires e.Closed? && e.stamp.Some? ==> e.stamp.value <= e.now
    requires txId !in s.queued && txId in Step(s, env, e).queued
    ensures CountOf(Step(s, env, e), txId) >= MAJORITY
  {
  }

  /**
   When a transaction is queued, at least 14 results have been counted for it; 14 of them report one hash exactly if
   the notification was harmless or 14 were counted on one side of it.
   */
  lemma QuorumIff(env: Setting, events: seq<Event>, k: nat, txId: TxId)
    requires Timed(events) && Honest(env, events) && Hashed(events) && QueuedAt(env, events, k, txId)
    ensures var t := TallyOf(env, events[..k + 1], txId);
      && |t.All()| >= MAJORITY
      && (HasQuorum(t) <==> IsHarmless(t) || |t.before| >= MAJORITY || |t.after| >= MAJORITY)
      && (|t.All()| == MAJORITY ==> (HasQuorum(t) <==> IsHarmless(t)))
  {
    var now := events[..k + 1];
    assert now[..k] == events[..k] && now[k] == events[k];
    HonestUpTo(env, events, k + 1);
    RunTallies(env, now, txId);
    QueuedWhenVerified(Run(NEW_NODE, env, events[..k]), env, events[k], txId);
    QuorumByGuard(TallyOf(env, now, txId));
  }

  lemma HonestUpTo(env: Setting, events: seq<Event>, k: nat)
    requires k <= |events| && Honest(env, events)
    ensures Honest(env, events[..k])
  {
    assert forall i, txId :: 0 <= i < k && Announces(env, events[..k][i], txId) ==> Announces(env, events[i], txId);
  }

  /**
   If the notification of a queued transaction was harmless, at least 14 messages with different ids report one
   hash for it.
   */
  lemma QuorumOfMessages(env: Setting, events: seq<Event>, txId: TxId)
    requires Timed(events) && Honest(env, events) && Hashed(events) && txId in Run(NEW_NODE, env, events).queued
    requires forall k :: 0 <= k < |events| && QueuedAt(env, events, k, txId) ==>
      IsHarmless(TallyOf(env, events[..k + 1], txId))
    ensures exists hash :: |VoteIds(env, events, txId, hash)| >= MAJORITY
  {
    hide *;
    HasMoment(env, events, txId);
    var k :| 0 <= k < |events| && QueuedAt(env, events, k, txId);
    TimedUpTo(events, k + 1);
    QuorumIff(env, events, k, txId);
    var hash := QuorumHash(TallyOf(env, events[..k + 1], txId));
    CountedAreVotes(env, events[..k + 1], txId, hash);
    VotesStay(env, events, k + 1, txId, hash);
  }

  lemma TimedUpTo(events: seq<Event>, k: nat)
    requires Timed(events) && k <= |events|
    ensures Timed(events[..k])
  {
  }

  lemma QuorumHash(t: Tally) returns (hash: string)
    requires HasQuorum(t)
    ensures multiset(t.All())[hash] >= MAJORITY
  {
    hash :| multiset(t.All())[hash] >= MAJORITY;
  }

  // ----- A notification between the results -----

  function Report(id: string, hash: string): Event {
    Delivered(Message(id, "v", Result("t", hash, "out")), 0)
  }

  function Reports(k: nat): (r: seq<Event>)
    ensures |r| == k && forall i :: 0 <= i < k ==> r[i] == Report(ToString(i), "a")
  {
    seq(k, i requires 0 <= i < k => Report(ToString(i), "a"))
  }

  function Reported(k: nat): Transaction {
    NewResult("t", "a", 0).(totalVerified := k, output := "out", receivedOutput := true)
  }

  /** The node after k reports of one hash. */
  ghost predicate HasReports(s: Node, k: nat) {
    && s.queued == [] && (forall x :: x in s.processed ==> x != "" && IsDigit(x[0]))
    && (forall i: nat :: i >= k ==> ToString(i) !in s.processed)
    && (k == 0 ==> s == NEW_NODE)
    && (k > 0 ==> "t" in s.transactions && s.transactions["t"] == Reported(k))
  }

  lemma OneMoreReport(s: Node, env: Setting, k: nat)
    requires env.self != "v" && k + 1 < MAJORITY && HasReports(s, k)
    ensures HasReports(Receive(s, env.self, Report(ToString(k), "a").m, 0), k + 1)
  {
    ValueOfString(k);
    forall i: nat | i > k ensures ToString(i) != ToString(k) { ValueOfString(i); }
    hide ToString, DigitsValue;
  }

  lemma {:induction false} AfterReports(env: Setting, k: nat)
    requires env.self != "v" && k < MAJORITY
    ensures HasReports(Run(NEW_NODE, env, Reports(k)), k)
  {
    if k > 0 {
      AfterReports(env, k - 1);
      assert Reports(k)[..k - 1] == Reports(k - 1);
      hide HasReports, Receive;
      var s := Run(NEW_NODE, env, Reports(k - 1));
      assert Run(NEW_NODE, env, Reports(k)) == Receive(s, env.self, Report(ToString(k - 1), "a").m, 0);
      OneMoreReport(s, env, k - 1);
    }
  }

  lemma {:induction false} FewReports(env: Setting, k: nat, hash: string)
    ensures |VoteIds(env, Reports(k), "t", hash)| <= k
    ensures hash != "a" ==> VoteIds(env, Reports(k), "t", hash) == {}
  {
    if k > 0 {
      FewReports(env, k - 1, hash);
      assert Reports(k)[..k - 1] == Reports(k - 1);
    }
  }

  const NOTICE := Delivered(Message("n", "v", Notification(Notice("t", 0, "", "", ""))), 0)

  lemma AfterNotice(env: Setting)
    requires env.self != "v"
    ensures var s := Run(NEW_NODE, env, Reports(13) + [NOTICE]);
      && s.queued == [] && "r" !in s.processed && "t" in s.transactions
      && s.transactions["t"] == Reported(13).(output := "", lastValidHash := "", receivedFull := true)
  {
    var before := Reports(13) + [NOTICE];
    assert before[..13] == Reports(13);
    AfterReports(env, 13);
    assert !IsDigit("n"[0]) && !IsDigit("r"[0]) && "n"[0] != "r"[0];
    var s := Run(NEW_NODE, env, Reports(13));
    assert Run(NEW_NODE, env, before) == Receive(s, env.self, NOTICE.m, 0);
  }

  lemma FewVotes(env: Setting, hash: string)
    ensures |VoteIds(env, Reports(13) + [NOTICE] + [Report("r", "b")], "t", hash)| < MAJORITY
  {
    FewReports(env, 13, hash);
    NoVote(env, hash);
    hide IsVote, Reports, VoteIds;
    var before := Reports(13) + [NOTICE];
    VotesNext(env, Reports(13), NOTICE, "t", hash);
    VotesNext(env, before, Report("r", "b"), "t", hash);
    Larger(VoteIds(env, before + [Report("r", "b")], "t", hash), VoteIds(env, before, "t", hash) + {"r"});
  }

  lemma VotesNext(env: Setting, events: seq<Event>, e: Event, txId: TxId, hash: string)
    ensures VoteIds(env, events + [e], txId, hash) ==
      VoteIds(env, events, txId, hash) + if IsVote(env, e, txId, hash) then {e.m.id} else {}
  {
    assert (events + [e])[..|events|] == events;
  }

  lemma NoVote(env: Setting, hash: string)
    ensures !IsVote(env, NOTICE, "t", hash) && (hash == "a" ==> !IsVote(env, Report("r", "b"), "t", hash))
  {
    assert "a"[0] != "b"[0];
  }

  /**
   A notification can do harm: after 13 results with one hash the notification resets the
   hash, and a single result with another one has the transaction queued.
   */
  lemma NoticeBetweenResults(env: Setting)
    requires env.self != "v"
    ensures var events := Reports(13) + [NOTICE] + [Report("r", "b")];
      && Timed(events) && Run(NEW_NODE, env, events).queued == ["t"]
      && forall hash :: |VoteIds(env, events, "t", hash)| < MAJORITY
  {
    var before := Reports(13) + [NOTICE];
    var events := before + [Report("r", "b")];
    assert events[..14] == before;
    AfterNotice(env);
    forall hash ensures |VoteIds(env, events, "t", hash)| < MAJORITY { FewVotes(env, hash); }
    var s := Run(NEW_NODE, env, before);
    assert Run(NEW_NODE, env, events) == Receive(s, env.self, events[14].m, 0);
    hide Run, Reports, VoteIds;
    LastReport(s, env);
  }

  lemma LastReport(s: Node, env: Setting)
    requires env.self != "v" && s.queued == [] && "r" !in s.processed && "t" in s.transactions
    requires s.transactions["t"] == Reported(13).(output := "", lastValidHash := "", receivedFull := true)
    ensures Receive(s, env.self, Report("r", "b").m, 0).queued == ["t"]
  {
  }
}
