/**
 What the hash of a block fixes: two nodes that have a block of one number and one hash have the same block, and the
 same blocks before it.
 */
module BlockHashes {
  import opened Decimal
  import opened MasterLedger

  // ----- The text that is hashed -----

  /** Without transactions it is number, previous hash and time; every transaction appends its id. */
  lemma HashCoversEach(number: nat, previous: string, txs: seq<Transaction>, tx: Transaction, time: int)
    ensures HashInput(number, previous, [], time) == ToString(number) + previous + SignedDecimal(time)
    ensures HashInput(number, previous, txs + [tx], time) == HashInput(number, previous, txs, time) + tx.txId
  {
    assert (txs + [tx])[..|txs|] == txs;
  }

  function Pow10(k: nat): nat { if k == 0 then 1 else 10 * Pow10(k - 1) }

  lemma {:induction false} DigitsOf(n: nat, k: nat)
    requires k > 0 && n < Pow10(k) && (k == 1 || Pow10(k - 1) <= n)
    ensures |ToString(n)| == k
  {
    if k > 1 { DigitsOf(n / 10, k - 1); }
  }

  /** A time of the years 2001 to 2286. */
  predicate IsPresent(time: int) { 1_000_000_000 <= time < 10_000_000_000 }

  lemma PresentDigits(time: int)
    requires IsPresent(time)
    ensures |SignedDecimal(time)| == 10
  {
    assert Pow10(9) == 1_000_000_000 && Pow10(10) == 10_000_000_000;
    DigitsOf(time, 10);
  }

  /** Different times are written differently. */
  lemma TimesDiffer(time: int, other: int)
    requires SignedDecimal(time) == SignedDecimal(other)
    ensures time == other
  {
    var digits, others := ToString(if time < 0 then -time else time), ToString(if other < 0 then -other else other);
    assert digits[0] != '-' && others[0] != '-';
    assert digits == others by {
      if time < 0 && other < 0 { assert ("-" + digits)[1..] == ("-" + others)[1..]; }
    }
    ValueOfString(if time < 0 then -time else time);
    ValueOfString(if other < 0 then -other else other);
  }

  predicate LongIds(txs: seq<Transaction>) { forall tx :: tx in txs ==> |tx.txId| == 32 }

  lemma {:induction false} IdsAreLong(txs: seq<Transaction>)
    requires LongIds(txs)
    ensures |ConcatIds(txs)| == 32 * |txs|
  {
    if txs != [] { IdsAreLong(txs[..|txs| - 1]); }
  }

  /** Ids of one length can be told apart when they are written one after the other. */
  lemma {:induction false} SameIds(txs: seq<Transaction>, others: seq<Transaction>)
    requires LongIds(txs) && LongIds(others) && ConcatIds(txs) == ConcatIds(others)
    ensures Ids(txs) == Ids(others)
  {
    IdsAreLong(txs);
    IdsAreLong(others);
    if txs != [] {
      var n := |txs| - 1;
      IdsAreLong(txs[..n]);
      IdsAreLong(others[..n]);
      assert ConcatIds(txs)[..32 * n] == ConcatIds(others)[..32 * n];
      assert ConcatIds(txs)[32 * n..] == ConcatIds(others)[32 * n..];
      SameIds(txs[..n], others[..n]);
      assert Ids(txs) == Ids(txs[..n]) + [txs[n].txId] && Ids(others) == Ids(others[..n]) + [others[n].txId];
    }
  }

  // ----- Blocks -----

  /** The text whose hash a block carries. */
  function Text(b: Block): string { HashInput(b.number, b.previousHash, b.txs, b.time) }

  predicate Collide(b: Block, other: Block, hashOf: string -> string) {
    hashOf(Text(b)) == hashOf(Text(other)) && Text(b) != Text(other)
  }

  /** A hash of 40 digits or, before the first block of all, 32 zeros; a present time; ids of 32 letters. */
  predicate IsWellSized(b: Block) {
    (|b.previousHash| == 40 || b.previousHash == NO_HASH) && IsPresent(b.time) && LongIds(b.txs)
  }

  predicate IsHashed(b: Block, hashOf: string -> string) {
    b.hash == hashOf(Text(b))
  }

  /** The blocks have everything in common that the hash covers. */
  predicate SameBlock(b: Block, other: Block) {
    && b.number == other.number && b.hash == other.hash && b.previousHash == other.previousHash
    && b.time == other.time && Ids(b.txs) == Ids(other.txs)
  }

  lemma SameParts(p: string, t: string, ids: string, p': string, t': string, ids': string)
    requires p + t + ids == p' + t' + ids' && |t| == |t'| == 10
    requires |p| in {32, 40} && |p'| in {32, 40} && |ids| % 32 == 0 && |ids'| % 32 == 0
    ensures p == p' && t == t' && ids == ids'
  {
    var all := p + t + ids;
    assert |p| == |p'|;
    assert p == all[..|p|] && p' == all[..|p'|];
    assert t == all[|p|..|p| + 10] && t' == all[|p'|..|p'| + 10];
    assert ids == all[|p| + 10..] && ids' == all[|p'| + 10..];
  }

  /** Two blocks of one number and one hash are the same, unless the hash function collides on them. */
  lemma SameHashSameBlock(b: Block, other: Block, hashOf: string -> string)
    requires !Collide(b, other, hashOf) && IsHashed(b, hashOf) && IsHashed(other, hashOf)
    requires IsWellSized(b) && IsWellSized(other) && b.number == other.number && b.hash == other.hash
    ensures SameBlock(b, other)
  {
    var n := ToString(b.number);
    var p, t, ids := b.previousHash, SignedDecimal(b.time), ConcatIds(b.txs);
    var p', t', ids' := other.previousHash, SignedDecimal(other.time), ConcatIds(other.txs);
    assert n + p + t + ids == n + p' + t' + ids';
    PresentDigits(b.time);
    PresentDigits(other.time);
    IdsAreLong(b.txs);
    IdsAreLong(other.txs);
    hide ToString, SignedDecimal, ConcatIds;
    Behind(n, p, t, ids);
    Behind(n, p', t', ids');
    assert |NO_HASH| == 32;
    SameParts(p, t, ids, p', t', ids');
    TimesDiffer(b.time, other.time);
    SameIds(b.txs, other.txs);
  }

  lemma Behind(n: string, p: string, t: string, ids: string)
    ensures (n + p + t + ids)[|n|..] == p + t + ids
  {
  }

  // ----- Chains -----

  predicate IsRealisticEvent(e: Event) {
    match e
    case Requested(txId, _, _) => |txId| == 32
    case Delivered(m, _) => |m.content.Id()| == 32
    case CleanedUp(_) => true
    case Closed(_, _, latest, now) => |latest| in {0, 40} && IsPresent(now)
  }

  /** Ids have 32 letters, hashes 40 digits, also the one found in the DHT, and blocks are closed in present times. */
  ghost predicate IsRealistic(env: Setting, events: seq<Event>) {
    (forall x :: |env.hashOf(x)| == 40) && forall i :: 0 <= i < |events| ==> IsRealisticEvent(events[i])
  }

  ghost predicate OnlyLongIds(s: Node) {
    && (forall id :: id in s.transactions ==> |id| == 32 && s.transactions[id].txId == id)
    && LongIds(s.queueOut) && forall k :: 0 <= k < |s.blocks| ==> LongIds(s.blocks[k].txs)
  }

  lemma SplitLong(txs: seq<Transaction>, sorted: seq<Transaction>, due: nat, number: nat)
    requires multiset(sorted) == multiset(txs) && due <= |sorted| && LongIds(txs)
    ensures LongIds(Stamped(sorted[..due], number)) && LongIds(sorted[due..])
  {
    forall tx | tx in sorted ensures |tx.txId| == 32 {
      assert tx in multiset(sorted);
      assert tx in multiset(txs);
    }
    var stamped := Stamped(sorted[..due], number);
    forall tx | tx in stamped ensures |tx.txId| == 32 {
      var i :| 0 <= i < |stamped| && stamped[i] == tx;
      assert sorted[..due][i] in sorted;
    }
  }

  lemma CloseKeepsLong(s: Node, env: Setting, e: Event)
    requires e.Closed? && (e.stamp.Some? ==> e.stamp.value <= e.now) && OnlyLongIds(s)
    ensures OnlyLongIds(Step(s, env, e))
  {
    hide Arranged, DueCount, HashInput, NextBlockNumber, LongIds;
    var r := Step(s, env, e);
    var sorted := Arranged(s.queueOut, e.order);
    SplitLong(s.queueOut, sorted, DueCount(sorted, e.now), r.blocks[|s.blocks|].number);
  }

  lemma OneMoreLong(txs: seq<Transaction>, tx: Transaction)
    requires LongIds(txs) && |tx.txId| == 32
    ensures LongIds(txs + [tx])
  {
  }

  lemma CheckKeepsLong(s: Node, txId: TxId)
    requires OnlyLongIds(s) && txId in s.transactions
    ensures OnlyLongIds(CheckVerification(s, txId))
  {
    var r := CheckVerification(s, txId);
    hide LongIds;
    if r.queueOut != s.queueOut { OneMoreLong(s.queueOut, r.queueOut[|s.queueOut|]); }
  }

  lemma DeliveryKeepsLong(s: Node, env: Setting, e: Event)
    requires e.Delivered? && OnlyLongIds(s) && IsRealisticEvent(e)
    ensures OnlyLongIds(Receive(s, env.self, e.m, e.now))
  {
    hide LongIds;
    var s1 := s.(processed := s.processed + {e.m.id});
    match e.m.content
    case Result(txId, hash, output) => CheckKeepsLong(WithResult(s1, txId, hash, output, e.now), txId);
    case Notification(n) => CheckKeepsLong(WithNotice(s1, n), n.txId);
  }

  lemma StepKeepsLong(s: Node, env: Setting, e: Event)
    requires (e.Closed? && e.stamp.Some? ==> e.stamp.value <= e.now) && OnlyLongIds(s) && IsRealisticEvent(e)
    ensures OnlyLongIds(Step(s, env, e))
  {
    hide CloseBlock, Receive, LongIds;
    match e
    case Closed(_, _, _, _) => CloseKeepsLong(s, env, e);
    case Delivered(_, _) => DeliveryKeepsLong(s, env, e);
    case _ =>
  }

  lemma {:induction false} RunKeepsLong(env: Setting, events: seq<Event>)
    requires Timed(events) && IsRealistic(env, events)
    ensures OnlyLongIds(Run(NEW_NODE, env, events))
  {
    if events != [] {
      var n := |events| - 1;
      RunKeepsLong(env, events[..n]);
      hide Step, OnlyLongIds;
      StepKeepsLong(Run(NEW_NODE, env, events[..n]), env, events[n]);
    } else {
      assert OnlyLongIds(NEW_NODE);
    }
  }

  lemma {:induction false} ClosesAreEvents(events: seq<Event>, k: nat)
    requires k < |Closes(events)|
    ensures Closes(events)[k] in events
  {
    var n := |events| - 1;
    if k < |Closes(events[..n])| { ClosesAreEvents(events[..n], k); }
  }

  lemma BlockOfRun(env: Setting, events: seq<Event>, k: nat)
    requires Timed(events) && IsRealistic(env, events) && k < |Run(NEW_NODE, env, events).blocks|
    ensures var b := Run(NEW_NODE, env, events).blocks;
      && IsHashed(b[k], env.hashOf) && IsWellSized(b[k])
      && (k > 0 ==> b[k].previousHash == b[k - 1].hash && b[k].number == b[k - 1].number + 1)
  {
    RunChains(env, events);
    RunKeepsLong(env, events);
    var b, closes := Run(NEW_NODE, env, events).blocks, Closes(events);
    ClosesAreEvents(events, k);
    ClosesAreEvents(events, 0);
    assert Linked(b, closes, env, k);
    if k > 0 { assert Linked(b, closes, env, k - 1); }
    assert IsRealisticEvent(closes[k]) && IsRealisticEvent(closes[0]);
  }

  /** Block k of the one and block k' of the other have one number and one hash. */
  ghost predicate Meet(env: Setting, events: seq<Event>, k: nat, env': Setting, events': seq<Event>, k': nat)
    requires Timed(events) && Timed(events')
  {
    var b, b' := Run(NEW_NODE, env, events).blocks, Run(NEW_NODE, env', events').blocks;
    k < |b| && k' < |b'| && b[k].number == b'[k'].number && b[k].hash == b'[k'].hash
  }

  /** No text hashed for a block of the one has the hash of another text hashed for a block of the other. */
  predicate NoCollision(blocks: seq<Block>, others: seq<Block>, hashOf: string -> string) {
    forall b, other :: b in blocks && other in others ==> !Collide(b, other, hashOf)
  }

  lemma MeetBefore(env: Setting, events: seq<Event>, k: nat, env': Setting, events': seq<Event>, k': nat)
    requires env.hashOf == env'.hashOf
    requires Timed(events) && IsRealistic(env, events) && Timed(events') && IsRealistic(env', events')
    requires NoCollision(Run(NEW_NODE, env, events).blocks, Run(NEW_NODE, env', events').blocks, env.hashOf)
    requires Meet(env, events, k, env', events', k')
    ensures SameBlock(Run(NEW_NODE, env, events).blocks[k], Run(NEW_NODE, env', events').blocks[k'])
    ensures k > 0 && k' > 0 ==> Meet(env, events, k - 1, env', events', k' - 1)
  {
    BlockOfRun(env, events, k);
    BlockOfRun(env', events', k');
    hide Run, IsRealistic, Collide, IsHashed, IsWellSized, Timed;
    SameHashSameBlock(Run(NEW_NODE, env, events).blocks[k], Run(NEW_NODE, env', events').blocks[k'], env.hashOf);
  }

  /** If two nodes have a block of one number and one hash, they have the same block, and the same ones before it. */
  lemma {:induction false} SameChain(env: Setting, events: seq<Event>, k: nat,
                                     env': Setting, events': seq<Event>, k': nat, back: nat)
    requires env.hashOf == env'.hashOf
    requires Timed(events) && IsRealistic(env, events) && Timed(events') && IsRealistic(env', events')
    requires NoCollision(Run(NEW_NODE, env, events).blocks, Run(NEW_NODE, env', events').blocks, env.hashOf)
    requires Meet(env, events, k, env', events', k') && back <= k && back <= k'
    ensures SameBlock(Run(NEW_NODE, env, events).blocks[k - back], Run(NEW_NODE, env', events').blocks[k' - back])
    decreases back
  {
    MeetBefore(env, events, k, env', events', k');
    if back > 0 {
      hide *;
      SameChain(env, events, k - 1, env', events', k' - 1, back - 1);
    }
  }
}
