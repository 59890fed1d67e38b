/**
 The transactions of a master node: from the client's request or another node's notification,
 over the verification results, into the queue of verified transactions and on into blocks.

 Messages arrive in any order and any number of times; a cleanup forgets old transactions, and a
 late result makes a forgotten one known again.
 */
module MasterLedger {
  import opened Decimal
  import opened Sorting

  type TxId = string

  // ----- One transaction -----

  /** MAJORITY_THRESHOLD, 21 * (2.0 / 3.0). */
  const MAJORITY := 14

  /** body stands for the fields that only travel with the transaction. */
  datatype Transaction = Transaction(
    txId: TxId,
    timestamp: int,
    lastValidHash: string,
    output: string,
    body: string,
    totalVerified: nat,
    blockId: nat,
    receivedOutput: bool,
    receivedFull: bool,
    computeNode: bool,
    sentToClient: bool,
    inBlock: bool)
  {
    function VerifyHash(hash: string): Transaction {
      if lastValidHash == "" then this.(lastValidHash := hash, totalVerified := totalVerified + 1)
      else if hash == lastValidHash then this.(totalVerified := totalVerified + 1)
      else this
    }

    function SetOutput(out: string): Transaction {
      this.(output := out, receivedOutput := true)
    }

    function FromJson(n: Notice): Transaction {
      this.(txId := n.txId, timestamp := n.timestamp, lastValidHash := n.hash, output := n.output, body := n.body,
            receivedFull := true)
    }

    predicate IsVerified() {
      totalVerified >= MAJORITY && receivedFull && receivedOutput
    }

    predicate CanSend() {
      !sentToClient && computeNode
    }
  }

  /** The JSON form of a transaction, as a notification carries it. */
  datatype Notice = Notice(txId: TxId, timestamp: int, hash: string, output: string, body: string)

  const BLANK := Transaction("", 0, "", "", "", 0, 0, false, false, false, false, false)

  function NewRequest(txId: TxId, now: int, body: string): Transaction {
    BLANK.(txId := txId, timestamp := now, body := body, receivedFull := true, computeNode := true)
  }

  function NewResult(txId: TxId, hash: string, now: int): Transaction {
    BLANK.(txId := txId, lastValidHash := hash, timestamp := now)
  }

  // ----- Messages and the node -----

  datatype Content = Result(txId: TxId, hash: string, output: string) | Notification(notice: Notice)
  {
    function Id(): TxId { if Result? then txId else notice.txId }
  }

  datatype Message = Message(id: string, sender: string, content: Content)

  datatype Block = Block(number: nat, hash: string, previousHash: string, txs: seq<Transaction>, time: int)

  /** What was sent to the client as the output of a transaction. */
  datatype Answer = Answer(txId: TxId, output: string)

  /** queued, answers and heard record the past: what was put in queueOut, answered to clients, and received in full. */
  datatype Node = Node(
    transactions: map<TxId, Transaction>,
    queueOut: seq<Transaction>,
    processed: set<string>,
    blocks: seq<Block>,
    nextBlockNumber: nat,
    previousHash: string,
    queued: seq<TxId>,
    answers: seq<Answer>,
    heard: set<TxId>)

  const NEW_NODE := Node(map[], [], {}, [], 0, "", [], [], {})

  function AnsweredIds(answers: seq<Answer>): (r: seq<TxId>)
    ensures |r| == |answers| && forall i :: 0 <= i < |answers| ==> r[i] == answers[i].txId
  {
    seq(|answers|, i requires 0 <= i < |answers| => answers[i].txId)
  }

  predicate HasAnswered(s: Node, txId: TxId) { exists a :: a in s.answers && a.txId == txId }

  /** checkVerification on the stored transaction: answer the client once, queue once. */
  function CheckVerification(s: Node, txId: TxId): (r: Node)
    requires txId in s.transactions
  {
    var tx := s.transactions[txId];
    if !tx.IsVerified() then s
    else
      var tx1 := if tx.CanSend() then tx.(sentToClient := true) else tx;
      s.(answers := if tx.CanSend() then s.answers + [Answer(txId, tx.output)] else s.answers,
         queueOut := if tx.inBlock then s.queueOut else s.queueOut + [tx1],
         queued := if tx.inBlock then s.queued else s.queued + [txId],
         transactions := s.transactions[txId := tx1.(inBlock := true)])
  }

  function WithResult(s: Node, txId: TxId, hash: string, output: string, now: int): (r: Node) {
    var tx := if txId in s.transactions then s.transactions[txId] else NewResult(txId, hash, now);
    var tx1 := if output != "" then tx.SetOutput(output) else tx;
    s.(transactions := s.transactions[txId := tx1.VerifyHash(hash)])
  }

  function VerifyTransaction(s: Node, txId: TxId, hash: string, output: string, now: int): (r: Node) {
    CheckVerification(WithResult(s, txId, hash, output, now), txId)
  }

  function WithNotice(s: Node, n: Notice): (r: Node) {
    var tx := if n.txId in s.transactions then s.transactions[n.txId] else BLANK;
    s.(transactions := s.transactions[n.txId := tx.FromJson(n)], heard := s.heard + {n.txId})
  }

  function ProcessNotification(s: Node, n: Notice): (r: Node) {
    CheckVerification(WithNotice(s, n), n.txId)
  }

  /** processIncomingData: the node's own messages and repeated ones are dropped. */
  function Receive(s: Node, self: string, m: Message, now: int): (r: Node) {
    if m.sender == self || m.id in s.processed then s
    else
      var s1 := s.(processed := s.processed + {m.id});
      match m.content
      case Result(txId, hash, output) => VerifyTransaction(s1, txId, hash, output, now)
      case Notification(n) => ProcessNotification(s1, n)
  }

  function Submit(s: Node, txId: TxId, body: string, now: int): (r: Node) {
    if txId in s.transactions then s // insert() leaves an existing entry alone
    else s.(transactions := s.transactions[txId := NewRequest(txId, now, body)], heard := s.heard + {txId})
  }

  function Cleanup(s: Node, now: int): (r: Node) {
    s.(transactions := map id | id in s.transactions && now - 60 <= s.transactions[id].timestamp :: s.transactions[id])
  }

  // ----- Closing a block -----

  /** compareTransactions. */
  function Time(tx: Transaction): int { tx.timestamp }

  /** Length of the longest prefix that is due. */
  function DueCount(txs: seq<Transaction>, now: int): (n: nat)
    ensures n <= |txs| && (forall i :: 0 <= i < n ==> txs[i].timestamp <= now) && (n < |txs| ==> txs[n].timestamp > now)
  {
    if txs == [] || txs[0].timestamp > now then 0 else 1 + DueCount(txs[1..], now)
  }

  function Stamped(txs: seq<Transaction>, number: nat): (r: seq<Transaction>)
    ensures |r| == |txs| && forall i :: 0 <= i < |txs| ==> r[i] == txs[i].(blockId := number)
  {
    seq(|txs|, i requires 0 <= i < |txs| => txs[i].(blockId := number))
  }

  function Ids(txs: seq<Transaction>): (r: seq<TxId>)
    ensures |r| == |txs| && forall i :: 0 <= i < |txs| ==> r[i] == txs[i].txId
  {
    seq(|txs|, i requires 0 <= i < |txs| => txs[i].txId)
  }

  datatype Option<T> = None | Some(value: T)

  /** The number getNextBlockNumber hands out; the counter is one more afterwards. stamp is the DHT's "genesisStamp". */
  function NextBlockNumber(next: nat, stamp: Option<int>, now: int): (number: nat)
    requires stamp.Some? ==> stamp.value <= now
  {
    if next != 0 then next
    else match stamp
      case None => 0
      case Some(genesis) => now - genesis
  }

  const NO_HASH := "00000000000000000000000000000000"

  function ConcatIds(txs: seq<Transaction>): string {
    if txs == [] then "" else ConcatIds(txs[..|txs| - 1]) + txs[|txs| - 1].txId
  }

  function SignedDecimal(t: int): string { if t < 0 then "-" + ToString(-t) else ToString(t) }

  /** What calculateBlockHash hashes. */
  function HashInput(number: nat, previous: string, txs: seq<Transaction>, time: int): string {
    ToString(number) + previous + SignedDecimal(time) + ConcatIds(txs)
  }

  /** getBlock; latest is the DHT's "hash". */
  function NextBlock(next: nat, previousHash: string, hashOf: string -> string, due: seq<Transaction>,
      stamp: Option<int>, latest: string, now: int): (block: Block)
    requires stamp.Some? ==> stamp.value <= now
    ensures block.time == now && forall i :: 0 <= i < |block.txs| ==> block.txs[i].blockId == block.number
    ensures block.hash == hashOf(HashInput(block.number, block.previousHash, block.txs, block.time))
  {
    var number := NextBlockNumber(next, stamp, now);
    var txs := Stamped(due, number);
    var previous := if previousHash != "" then previousHash else if latest == "" then NO_HASH else latest;
    Block(number, hashOf(HashInput(number, previous, txs, now)), previous, txs, now)
  }

  /** The queue as std::sort leaves it: in the given order, if that is an arrangement of it by time. */
  ghost function Arranged(queue: seq<Transaction>, order: seq<Transaction>): (r: seq<Transaction>)
    ensures IsArrangement(r, queue, Time) && (IsArrangement(order, queue, Time) ==> r == order)
  {
    if IsArrangement(order, queue, Time) then order else SortBy(queue, Time)
  }

  /** timeToCloseBlock up to the built block. */
  ghost function CloseBlock(s: Node, hashOf: string -> string, order: seq<Transaction>, stamp: Option<int>,
      latest: string, now: int): (r: Node)
    requires stamp.Some? ==> stamp.value <= now
  {
    var sorted := Arranged(s.queueOut, order);
    var due := DueCount(sorted, now);
    var block := NextBlock(s.nextBlockNumber, s.previousHash, hashOf, sorted[..due], stamp, latest, now);
    s.(queueOut := sorted[due..], nextBlockNumber := block.number + 1, previousHash := block.hash,
       blocks := s.blocks + [block])
  }

  // ----- Runs -----

  datatype Event =
    | Requested(txId: TxId, body: string, now: int)
    | Delivered(m: Message, now: int)
    | CleanedUp(now: int)
    | Closed(order: seq<Transaction>, stamp: Option<int>, latest: string, now: int)

  /** The identity of this node, and the hash function. */
  datatype Setting = Setting(self: string, hashOf: string -> string)

  ghost function Step(s: Node, env: Setting, e: Event): (r: Node)
    requires e.Closed? && e.stamp.Some? ==> e.stamp.value <= e.now
  {
    match e
    case Requested(txId, body, now) => Submit(s, txId, body, now)
    case Delivered(m, now) => Receive(s, env.self, m, now)
    case CleanedUp(now) => Cleanup(s, now)
    case Closed(order, stamp, latest, now) => CloseBlock(s, env.hashOf, order, stamp, latest, now)
  }

  /** The genesis timestamp is never in the future. */
  predicate Timed(events: seq<Event>) {
    forall i :: 0 <= i < |events| && events[i].Closed? && events[i].stamp.Some? ==>
      events[i].stamp.value <= events[i].now
  }

  ghost function Run(s: Node, env: Setting, events: seq<Event>): (r: Node)
    requires Timed(events)
  {
    if events == [] then s
    else Step(Run(s, env, events[..|events| - 1]), env, events[|events| - 1])
  }

  /** The transaction whose full content the event brings, unless the event is dropped for its sender. */
  predicate Announces(env: Setting, e: Event, txId: TxId) {
    (e.Requested? && e.txId == txId) ||
    (e.Delivered? && e.m.sender != env.self && e.m.content.Notification? && e.m.content.notice.txId == txId)
  }

  /**
   Each transaction is requested at one node once and announced by that node in one message; the
   network may repeat, delay and reorder messages.
   */
  ghost predicate Honest(env: Setting, events: seq<Event>) {
    forall i, j, txId :: 0 <= i < j < |events| && Announces(env, events[i], txId) && Announces(env, events[j], txId) ==>
      events[i].Delivered? && events[j].Delivered? && events[i].m.id == events[j].m.id
  }

  // ----- Queued at most once, answered at most once -----

  predicate NoRepeats(ids: seq<TxId>) {
    forall i, j :: 0 <= i < j < |ids| ==> ids[i] != ids[j]
  }

  /** What a stored transaction says about the past. */
  ghost predicate Remembers(s: Node, txId: TxId)
    requires txId in s.transactions
  {
    var tx := s.transactions[txId];
    && tx.txId == txId
    && (tx.receivedFull ==> txId in s.heard)
    && (txId in s.queued ==> tx.inBlock || !tx.receivedFull)
    && (HasAnswered(s, txId) ==> tx.sentToClient || !tx.computeNode)
  }

  ghost predicate Once(s: Node) {
    && NoRepeats(s.queued) && NoRepeats(AnsweredIds(s.answers))
    && (forall id :: id in s.queued || HasAnswered(s, id) ==> id in s.heard)
    && (forall id :: id in s.transactions ==> Remembers(s, id))
  }

  lemma ResultKeepsOnce(s: Node, txId: TxId, hash: string, output: string, now: int)
    requires Once(s)
    ensures Once(VerifyTransaction(s, txId, hash, output, now))
    ensures VerifyTransaction(s, txId, hash, output, now).heard == s.heard
  {
  }

  lemma NoticeKeepsOnce(s: Node, n: Notice)
    requires Once(s) && n.txId !in s.heard
    ensures Once(ProcessNotification(s, n)) && ProcessNotification(s, n).heard == s.heard + {n.txId}
  {
  }

  lemma SubmitKeepsOnce(s: Node, txId: TxId, body: string, now: int)
    requires Once(s) && txId !in s.heard
    ensures Once(Submit(s, txId, body, now)) && Submit(s, txId, body, now).heard <= s.heard + {txId}
  {
  }

  lemma CleanupKeepsOnce(s: Node, now: int)
    requires Once(s)
    ensures Once(Cleanup(s, now)) && Cleanup(s, now).heard == s.heard
  {
  }

  /** One step: what becomes heard was announced, and a message not dropped for its sender is remembered. */
  lemma StepHears(s: Node, env: Setting, e: Event)
    requires e.Closed? && e.stamp.Some? ==> e.stamp.value <= e.now
    ensures var r := Step(s, env, e);
      && s.processed <= r.processed
      && (e.Delivered? && e.m.sender != env.self ==> e.m.id in r.processed)
      && (forall txId :: txId in r.heard ==> txId in s.heard || Announces(env, e, txId))
  {
  }

  /** An event that announces a transaction comes when the node has not heard of it, or is dropped as a repetition. */
  lemma {:induction false} HeardOrProcessed(env: Setting, events: seq<Event>, txId: TxId)
    requires Timed(events)
    ensures var s := Run(NEW_NODE, env, events);
      && (txId in s.heard ==> exists i :: 0 <= i < |events| && Announces(env, events[i], txId))
      && (forall i :: 0 <= i < |events| && events[i].Delivered? && events[i].m.sender != env.self ==>
           events[i].m.id in s.processed)
  {
    hide Step, Announces;
    if events != [] {
      var n := |events| - 1;
      var before, e := events[..n], events[n];
      HeardOrProcessed(env, before, txId);
      var s, s' := Run(NEW_NODE, env, before), Run(NEW_NODE, env, events);
      StepHears(s, env, e);
      assert forall i :: 0 <= i < n ==> events[i] == before[i];
      if txId in s'.heard && !Announces(env, e, txId) {
        var i :| 0 <= i < |before| && Announces(env, before[i], txId);
        assert Announces(env, events[i], txId);
      }
    }
  }

  /** Whatever the order of messages and whatever cleanup forgets, a transaction is queued and answered once at most. */
  lemma {:induction false} RunKeepsOnce(env: Setting, events: seq<Event>)
    requires Timed(events) && Honest(env, events)
    ensures Once(Run(NEW_NODE, env, events))
  {
    if events != [] {
      var n := |events| - 1;
      var before, e := events[..n], events[n];
      assert Honest(env, before) by {
        assert forall i, txId :: 0 <= i < n && Announces(env, before[i], txId) ==> Announces(env, events[i], txId);
      }
      RunKeepsOnce(env, before);
      StepKeepsOnce(env, before, e, events);
    }
  }

  lemma StepKeepsOnce(env: Setting, before: seq<Event>, e: Event, events: seq<Event>)
    requires events == before + [e] && Timed(events) && Honest(env, events)
    requires e == events[|before|] && Timed(before) && Once(Run(NEW_NODE, env, before))
    ensures Once(Step(Run(NEW_NODE, env, before), env, e))
  {
    var s := Run(NEW_NODE, env, before);
    match e {
      case Requested(txId, body, now) =>
        FreshWhenTaken(env, before, e, events, txId);
        SubmitKeepsOnce(s, txId, body, now);
      case Delivered(m, now) =>
        if m.sender != env.self && m.id !in s.processed {
          var s1 := s.(processed := s.processed + {m.id});
          assert forall id :: id in s.transactions && Remembers(s, id) ==> Remembers(s1, id);
          match m.content {
            case Result(txId, hash, output) => ResultKeepsOnce(s1, txId, hash, output, now);
            case Notification(n) =>
              FreshWhenTaken(env, before, e, events, n.txId);
              NoticeKeepsOnce(s1, n);
          }
        }
      case CleanedUp(now) => CleanupKeepsOnce(s, now);
      case Closed(order, stamp, latest, now) =>
        var r := CloseBlock(s, env.hashOf, order, stamp, latest, now);
        assert forall id :: id in s.transactions && Remembers(s, id) ==> Remembers(r, id);
    }
  }

  /** A request or a notification that is not dropped is the first to bring its transaction. */
  lemma FreshWhenTaken(env: Setting, before: seq<Event>, e: Event, events: seq<Event>, txId: TxId)
    requires events == before + [e] && Timed(before) && Honest(env, events) && Announces(env, e, txId)
    requires e.Delivered? ==> e.m.id !in Run(NEW_NODE, env, before).processed
    ensures txId !in Run(NEW_NODE, env, before).heard
  {
    HeardOrProcessed(env, before, txId);
    assert events[|before|] == e;
    assert forall i :: 0 <= i < |before| ==> events[i] == before[i];
  }

  // ----- What is verified is queued and answered, and nothing else is -----

  ghost predicate AllVerified(txs: seq<Transaction>) { forall tx :: tx in txs ==> tx.IsVerified() }

  predicate Marked(s: Node, txId: TxId)
    requires txId in s.transactions
  {
    var tx := s.transactions[txId];
    (tx.inBlock ==> txId in s.queued) && (tx.sentToClient ==> HasAnswered(s, txId))
  }

  predicate Settled(s: Node, txId: TxId)
    requires txId in s.transactions
  {
    var tx := s.transactions[txId];
    tx.IsVerified() ==> tx.inBlock && (tx.computeNode ==> tx.sentToClient)
  }

  ghost predicate ServedBut(s: Node, other: set<TxId>) {
    && (forall id :: id in s.transactions ==> Marked(s, id) && (id in other || Settled(s, id)))
    && AllVerified(s.queueOut) && (forall k :: 0 <= k < |s.blocks| ==> AllVerified(s.blocks[k].txs))
  }

  lemma CheckServes(s: Node, txId: TxId)
    requires txId in s.transactions && ServedBut(s, {txId})
    ensures ServedBut(CheckVerification(s, txId), {})
  {
  }

  lemma ReceiveServes(s: Node, self: string, m: Message, now: int)
    requires ServedBut(s, {})
    ensures ServedBut(Receive(s, self, m, now), {})
  {
    if m.sender != self && m.id !in s.processed {
      var s1 := s.(processed := s.processed + {m.id});
      var s2, txId := match m.content
        case Result(txId, hash, output) => WithResult(s1, txId, hash, output, now)
        case Notification(n) => WithNotice(s1, n), m.content.Id();
      forall id | id in s2.transactions ensures Marked(s2, id) && (id == txId || Settled(s2, id)) {
        if id in s.transactions { assert Marked(s, id) && Settled(s, id); }
      }
      CheckServes(s2, txId);
    }
  }

  lemma CloseServes(s: Node, hashOf: string -> string, order: seq<Transaction>, stamp: Option<int>, latest: string,
      now: int)
    requires (stamp.Some? ==> stamp.value <= now) && ServedBut(s, {})
    ensures ServedBut(CloseBlock(s, hashOf, order, stamp, latest, now), {})
  {
    hide Arranged, DueCount, HashInput, NextBlockNumber, Settled, Marked, AllVerified;
    var r := CloseBlock(s, hashOf, order, stamp, latest, now);
    var sorted := Arranged(s.queueOut, order);
    var due := DueCount(sorted, now);
    SplitVerified(s.queueOut, sorted, due, r.blocks[|s.blocks|].number);
    forall id | id in r.transactions ensures Marked(r, id) && Settled(r, id) {
      assert Marked(s, id) && Settled(s, id);
      SameMarks(s, r, id);
    }
  }

  lemma SameMarks(s: Node, r: Node, id: TxId)
    requires id in s.transactions && r.transactions == s.transactions && r.queued == s.queued && r.answers == s.answers
    ensures Marked(r, id) == Marked(s, id) && Settled(r, id) == Settled(s, id)
  {
  }

  lemma SplitVerified(txs: seq<Transaction>, sorted: seq<Transaction>, due: nat, number: nat)
    requires multiset(sorted) == multiset(txs) && due <= |sorted| && AllVerified(txs)
    ensures AllVerified(Stamped(sorted[..due], number)) && AllVerified(sorted[due..])
  {
    forall tx | tx in sorted ensures tx.IsVerified() {
      assert tx in multiset(sorted);
      assert tx in multiset(txs);
    }
    var stamped := Stamped(sorted[..due], number);
    forall tx | tx in stamped ensures tx.IsVerified() {
      var i :| 0 <= i < |stamped| && stamped[i] == tx;
      assert sorted[..due][i] in sorted;
    }
  }

  /**
   In every run a stored transaction that is verified has been queued, and answered if this node asked for it to be
   computed; whatever is queued or in a block is verified.
   */
  lemma {:induction false} RunServes(env: Setting, events: seq<Event>)
    requires Timed(events)
    ensures var s := Run(NEW_NODE, env, events);
      && ServedBut(s, {})
      && forall id :: id in s.transactions && s.transactions[id].IsVerified() ==>
           id in s.queued && (s.transactions[id].computeNode ==> HasAnswered(s, id))
  {
    if events != [] {
      var n := |events| - 1;
      RunServes(env, events[..n]);
      StepServes(Run(NEW_NODE, env, events[..n]), env, events[n]);
    }
    var s := Run(NEW_NODE, env, events);
    assert forall id :: id in s.transactions && Settled(s, id) && Marked(s, id) && s.transactions[id].IsVerified() ==>
      id in s.queued && (s.transactions[id].computeNode ==> HasAnswered(s, id));
  }

  lemma StepServes(s: Node, env: Setting, e: Event)
    requires e.Closed? && e.stamp.Some? ==> e.stamp.value <= e.now
    requires ServedBut(s, {})
    ensures ServedBut(Step(s, env, e), {})
  {
    match e
    case Delivered(m, now) => ReceiveServes(s, env.self, m, now);
    case Closed(order, stamp, latest, now) => CloseServes(s, env.hashOf, order, stamp, latest, now);
    case _ =>
      var r := Step(s, env, e);
      forall id | id in r.transactions ensures Marked(r, id) && Settled(r, id) {
        if id in s.transactions { assert Marked(s, id) && Settled(s, id); }
      }
  }

  // ----- Nothing queued is lost or copied -----

  function BlockedIds(blocks: seq<Block>): seq<TxId> {
    if blocks == [] then [] else BlockedIds(blocks[..|blocks| - 1]) + Ids(blocks[|blocks| - 1].txs)
  }

  /** Where the queued transactions are. */
  function Places(s: Node): seq<TxId> { Ids(s.queueOut) + BlockedIds(s.blocks) }

  lemma {:induction false} IdsOfMultiset(a: seq<Transaction>, b: seq<Transaction>)
    requires multiset(a) == multiset(b)
    ensures multiset(Ids(a)) == multiset(Ids(b))
  {
    if a == [] {
      assert |multiset(b)| == 0;
    } else {
      var k := FindFirst(a, b);
      var rest := b[..k] + b[k + 1..];
      IdsOfMultiset(a[1..], rest);
      IdsWithout(b, k);
      assert Ids(a) == [a[0].txId] + Ids(a[1..]);
    }
  }

  lemma IdsWithout(b: seq<Transaction>, k: nat)
    requires k < |b|
    ensures multiset(Ids(b)) == multiset{b[k].txId} + multiset(Ids(b[..k] + b[k + 1..]))
  {
    TakeOut(Ids(b), k);
    assert Ids(b[..k] + b[k + 1..]) == Ids(b)[..k] + Ids(b)[k + 1..];
  }

  lemma CloseMovesIds(s: Node, hashOf: string -> string, order: seq<Transaction>, stamp: Option<int>, latest: string,
      now: int)
    requires stamp.Some? ==> stamp.value <= now
    ensures multiset(Places(CloseBlock(s, hashOf, order, stamp, latest, now))) == multiset(Places(s))
  {
    hide Arranged, DueCount, Stamped, HashInput, NextBlockNumber;
    var r := CloseBlock(s, hashOf, order, stamp, latest, now);
    var sorted := Arranged(s.queueOut, order);
    var txs := r.blocks[|s.blocks|].txs;
    IdsOfMultiset(s.queueOut, sorted);
    assert Ids(sorted) == Ids(txs) + Ids(r.queueOut);
    assert r.blocks == s.blocks + [r.blocks[|s.blocks|]];
    hide CloseBlock, Ids, BlockedIds;
    OneMoreBlock(s.blocks, r.blocks[|s.blocks|]);
  }

  lemma OneMoreBlock(blocks: seq<Block>, block: Block)
    ensures BlockedIds(blocks + [block]) == BlockedIds(blocks) + Ids(block.txs)
  {
    assert (blocks + [block])[..|blocks|] == blocks;
  }

  lemma CheckQueues(s: Node, txId: TxId)
    requires txId in s.transactions && s.transactions[txId].txId == txId
    requires multiset(Places(s)) == multiset(s.queued)
    ensures multiset(Places(CheckVerification(s, txId))) == multiset(CheckVerification(s, txId).queued)
  {
    var r := CheckVerification(s, txId);
    if r.queueOut != s.queueOut {
      assert Ids(r.queueOut) == Ids(s.queueOut) + [txId];
    }
  }

  lemma {:induction false} RunConserves(env: Setting, events: seq<Event>)
    requires Timed(events) && Honest(env, events)
    ensures var s := Run(NEW_NODE, env, events); multiset(Places(s)) == multiset(s.queued)
  {
    if events != [] {
      var n := |events| - 1;
      var before, e := events[..n], events[n];
      assert Honest(env, before) by {
        assert forall i, txId :: 0 <= i < n && Announces(env, before[i], txId) ==> Announces(env, events[i], txId);
      }
      RunConserves(env, before);
      RunKeepsOnce(env, before);
      StepConserves(Run(NEW_NODE, env, before), env, e);
    }
  }

  lemma ReceiveConserves(s: Node, content: Content, now: int)
    requires forall id :: id in s.transactions ==> s.transactions[id].txId == id
    requires multiset(Places(s)) == multiset(s.queued)
    ensures var r := match content
        case Result(txId, hash, output) => VerifyTransaction(s, txId, hash, output, now)
        case Notification(n) => ProcessNotification(s, n);
      multiset(Places(r)) == multiset(r.queued)
  {
    match content
    case Result(txId, hash, output) => CheckQueues(WithResult(s, txId, hash, output, now), txId);
    case Notification(n) => CheckQueues(WithNotice(s, n), n.txId);
  }

  lemma StepConserves(s: Node, env: Setting, e: Event)
    requires e.Closed? && e.stamp.Some? ==> e.stamp.value <= e.now
    requires Once(s) && multiset(Places(s)) == multiset(s.queued)
    ensures multiset(Places(Step(s, env, e))) == multiset(Step(s, env, e).queued)
  {
    assert forall id :: id in s.transactions && Remembers(s, id) ==> s.transactions[id].txId == id;
    match e {
      case Requested(_, _, _) =>
      case Delivered(m, now) =>
        if m.sender != env.self && m.id !in s.processed {
          ReceiveConserves(s.(processed := s.processed + {m.id}), m.content, now);
        }
      case CleanedUp(_) =>
      case Closed(order, stamp, latest, now) => CloseMovesIds(s, env.hashOf, order, stamp, latest, now);
    }
  }

  lemma {:induction false} CountIfNoRepeats(ids: seq<TxId>, x: TxId)
    requires NoRepeats(ids)
    ensures multiset(ids)[x] <= 1
  {
    if ids != [] {
      var n := |ids| - 1;
      CountIfNoRepeats(ids[..n], x);
      assert ids == ids[..n] + [ids[n]];
      if ids[n] == x {
        assert forall i :: 0 <= i < n ==> ids[..n][i] == ids[i] != x;
        assert x !in multiset(ids[..n]);
      }
    }
  }

  lemma {:induction false} NoRepeatsIfCount(ids: seq<TxId>)
    requires forall x :: multiset(ids)[x] <= 1
    ensures NoRepeats(ids)
  {
    if ids != [] {
      var n := |ids| - 1;
      assert ids == ids[..n] + [ids[n]];
      assert multiset(ids) == multiset(ids[..n]) + multiset{ids[n]};
      assert multiset(ids)[ids[n]] <= 1;
      assert forall x :: multiset(ids[..n])[x] <= multiset(ids)[x];
      NoRepeatsIfCount(ids[..n]);
      forall i, j | 0 <= i < j < |ids| ensures ids[i] != ids[j] {
        assert ids[..n][i] in multiset(ids[..n]);
      }
    }
  }

  lemma SameMultisetNoRepeats(a: seq<TxId>, b: seq<TxId>)
    requires multiset(a) == multiset(b) && NoRepeats(a)
    ensures NoRepeats(b) && forall x :: x in a <==> x in b
  {
    forall x ensures multiset(b)[x] <= 1 { CountIfNoRepeats(a, x); }
    NoRepeatsIfCount(b);
    assert forall x :: x in a <==> x in multiset(a);
    assert forall x :: x in b <==> x in multiset(b);
  }

  /** Every queued transaction is either waiting in queueOut or in one block, once. */
  lemma EachInOnePlace(env: Setting, events: seq<Event>)
    requires Timed(events) && Honest(env, events)
    ensures var s := Run(NEW_NODE, env, events);
      NoRepeats(Places(s)) && forall id :: id in Places(s) <==> id in s.queued
  {
    var s := Run(NEW_NODE, env, events);
    RunKeepsOnce(env, events);
    RunConserves(env, events);
    SameMultisetNoRepeats(s.queued, Places(s));
  }

  // ----- The chain of blocks -----

  predicate TimeSorted(txs: seq<Transaction>) {
    forall i, j :: 0 <= i < j < |txs| ==> txs[i].timestamp <= txs[j].timestamp
  }

  lemma ArrangedIsSorted(txs: seq<Transaction>)
    requires InOrder(txs, Time)
    ensures TimeSorted(txs)
  {
    forall i, j | 0 <= i < j < |txs| ensures txs[i].timestamp <= txs[j].timestamp {
      InOrderIsPairwise(txs, Time, i, j);
    }
  }

  predicate AllDue(txs: seq<Transaction>, now: int) {
    forall i :: 0 <= i < |txs| ==> txs[i].timestamp <= now
  }

  /** A block takes exactly the transactions that are due, oldest first, and what stays queued is not due yet. */
  lemma CloseTakesTheDue(s: Node, hashOf: string -> string, order: seq<Transaction>, stamp: Option<int>, latest: string,
      now: int)
    requires stamp.Some? ==> stamp.value <= now
    ensures var r := CloseBlock(s, hashOf, order, stamp, latest, now);
      var txs := r.blocks[|s.blocks|].txs;
      && TimeSorted(txs) && AllDue(txs, now)
      && (forall i :: 0 <= i < |r.queueOut| ==> r.queueOut[i].timestamp > now)
  {
    hide HashInput, NextBlockNumber;
    ArrangedIsSorted(Arranged(s.queueOut, order));
  }

  function Closes(events: seq<Event>): (r: seq<Event>)
    ensures forall i :: 0 <= i < |r| ==> r[i].Closed?
  {
    if events == [] then []
    else
      var last := events[|events| - 1];
      Closes(events[..|events| - 1]) + if last.Closed? then [last] else []
  }

  /** The second from which the node counts blocks: the network's genesis stamp, or its own first close. */
  function Genesis(first: Event): int
    requires first.Closed?
  {
    match first.stamp case None => first.now case Some(genesis) => genesis
  }

  /** Block k is the one closed by the k-th close, and follows the one before it. */
  predicate Linked(b: seq<Block>, closes: seq<Event>, env: Setting, k: nat)
    requires |b| == |closes| && k < |b| && forall i :: 0 <= i < |closes| ==> closes[i].Closed?
  {
    && b[k].time == closes[k].now
    && b[k].number == closes[0].now - Genesis(closes[0]) + k
    && b[k].hash == env.hashOf(HashInput(b[k].number, b[k].previousHash, b[k].txs, b[k].time))
    && b[k].previousHash ==
         (if k > 0 then b[k - 1].hash else if closes[0].latest == "" then NO_HASH else closes[0].latest)
    && TimeSorted(b[k].txs) && AllDue(b[k].txs, b[k].time)
    && (forall i :: 0 <= i < |b[k].txs| ==> b[k].txs[i].blockId == b[k].number)
  }

  /** One block per close; numbers are consecutive and every block names the hash of the one before. */
  ghost predicate Chain(s: Node, env: Setting, closes: seq<Event>)
    requires forall i :: 0 <= i < |closes| ==> closes[i].Closed?
  {
    var b := s.blocks;
    && |b| == |closes|
    && (forall k :: 0 <= k < |b| ==> Linked(b, closes, env, k))
    && s.previousHash == (if b == [] then "" else b[|b| - 1].hash)
    && s.nextBlockNumber == (if b == [] then 0 else b[|b| - 1].number + 1)
  }

  /** The hash of anything is a string of hexadecimal digits, never the empty string. */
  ghost predicate Hashes(env: Setting) { forall x :: env.hashOf(x) != "" }

  lemma {:induction false} RunChains(env: Setting, events: seq<Event>)
    requires Timed(events) && Hashes(env)
    ensures Chain(Run(NEW_NODE, env, events), env, Closes(events))
  {
    if events != [] {
      hide Step, Chain;
      var n := |events| - 1;
      RunChains(env, events[..n]);
      StepChains(Run(NEW_NODE, env, events[..n]), env, Closes(events[..n]), events[n]);
    } else {
      assert Chain(NEW_NODE, env, []);
    }
  }

  lemma StepChains(s: Node, env: Setting, closes: seq<Event>, e: Event)
    requires forall i :: 0 <= i < |closes| ==> closes[i].Closed?
    requires e.Closed? && e.stamp.Some? ==> e.stamp.value <= e.now
    requires Hashes(env) && Chain(s, env, closes)
    ensures Chain(Step(s, env, e), env, closes + if e.Closed? then [e] else [])
  {
    if e.Closed? {
      CloseChains(s, env, closes, e);
    } else {
      hide Linked, TimeSorted, HashInput;
      assert closes + [] == closes;
    }
  }

  lemma CloseChains(s: Node, env: Setting, closes: seq<Event>, e: Event)
    requires forall i :: 0 <= i < |closes| ==> closes[i].Closed?
    requires e.Closed? && (e.stamp.Some? ==> e.stamp.value <= e.now)
    requires Hashes(env) && Chain(s, env, closes)
    ensures Chain(CloseBlock(s, env.hashOf, e.order, e.stamp, e.latest, e.now), env, closes + [e])
  {
    hide Arranged, DueCount, HashInput, TimeSorted, Linked, NextBlock;
    var r := CloseBlock(s, env.hashOf, e.order, e.stamp, e.latest, e.now);
    NewBlockLinked(s, env, closes, e);
    forall k | 0 <= k < |closes| ensures Linked(r.blocks, closes + [e], env, k) {
      StillLinked(s.blocks, r.blocks[|closes|], closes, e, env, k);
    }
  }

  lemma StillLinked(b: seq<Block>, block: Block, closes: seq<Event>, e: Event, env: Setting, k: nat)
    requires |b| == |closes| && k < |b| && e.Closed? && forall i :: 0 <= i < |closes| ==> closes[i].Closed?
    requires Linked(b, closes, env, k)
    ensures Linked(b + [block], closes + [e], env, k)
  {
  }

  lemma Follows(s: Node, env: Setting, closes: seq<Event>, e: Event, due: seq<Transaction>)
    requires forall i :: 0 <= i < |closes| ==> closes[i].Closed?
    requires e.Closed? && (e.stamp.Some? ==> e.stamp.value <= e.now)
    requires Hashes(env) && Chain(s, env, closes)
    ensures var block := NextBlock(s.nextBlockNumber, s.previousHash, env.hashOf, due, e.stamp, e.latest, e.now);
      var first := (closes + [e])[0];
      && block.number == first.now - Genesis(first) + |closes|
      && block.previousHash ==
           (if closes != [] then s.blocks[|closes| - 1].hash else if e.latest == "" then NO_HASH else e.latest)
  {
    hide HashInput, TimeSorted, AllDue;
    if closes != [] {
      assert Linked(s.blocks, closes, env, |closes| - 1);
      assert (closes + [e])[0] == closes[0];
    }
  }

  lemma NewBlockLinked(s: Node, env: Setting, closes: seq<Event>, e: Event)
    requires forall i :: 0 <= i < |closes| ==> closes[i].Closed?
    requires e.Closed? && (e.stamp.Some? ==> e.stamp.value <= e.now)
    requires Hashes(env) && Chain(s, env, closes)
    ensures Linked(CloseBlock(s, env.hashOf, e.order, e.stamp, e.latest, e.now).blocks, closes + [e], env, |closes|)
  {
    var sorted := Arranged(s.queueOut, e.order);
    var due := sorted[..DueCount(sorted, e.now)];
    CloseTakesTheDue(s, env.hashOf, e.order, e.stamp, e.latest, e.now);
    Follows(s, env, closes, e, due);
    assert |s.blocks| == |closes|;
    hide NextBlock, Chain, Linked, Arranged, DueCount;
    LinkedAtEnd(s.blocks, NextBlock(s.nextBlockNumber, s.previousHash, env.hashOf, due, e.stamp, e.latest, e.now),
                closes, e, env);
  }

  lemma LinkedAtEnd(b: seq<Block>, block: Block, closes: seq<Event>, e: Event, env: Setting)
    requires |b| == |closes| && e.Closed? && forall i :: 0 <= i < |closes| ==> closes[i].Closed?
    requires block.time == e.now && TimeSorted(block.txs) && AllDue(block.txs, block.time)
    requires forall i :: 0 <= i < |block.txs| ==> block.txs[i].blockId == block.number
    requires block.hash == env.hashOf(HashInput(block.number, block.previousHash, block.txs, block.time))
    requires var first := (closes + [e])[0]; block.number == first.now - Genesis(first) + |closes|
    requires block.previousHash ==
      (if closes != [] then b[|closes| - 1].hash else if e.latest == "" then NO_HASH else e.latest)
    ensures Linked(b + [block], closes + [e], env, |closes|)
  {
  }

  /** Closes come at least a second apart. */
  predicate Ticking(closes: seq<Event>)
    requires forall i :: 0 <= i < |closes| ==> closes[i].Closed?
  {
    forall i :: 0 <= i < |closes| - 1 ==> closes[i].now < closes[i + 1].now
  }

  lemma {:induction false} TicksAdd(closes: seq<Event>, k: nat)
    requires forall i :: 0 <= i < |closes| ==> closes[i].Closed?
    requires Ticking(closes) && k < |closes|
    ensures closes[k].now >= closes[0].now + k
    ensures closes[k].now == closes[0].now + k <==> forall i :: 0 <= i < k ==> closes[i + 1].now == closes[i].now + 1
  {
    if k > 0 {
      TicksAdd(closes, k - 1);
    }
  }

  /** A block's number counts the seconds since genesis as long as no second was skipped, and never runs ahead. */
  lemma NumberCountsSeconds(env: Setting, events: seq<Event>, k: nat)
    requires Timed(events) && Hashes(env) && Ticking(Closes(events)) && k < |Closes(events)|
    ensures var blocks := Run(NEW_NODE, env, events).blocks;
      var genesis := Genesis(Closes(events)[0]);
      && |blocks| == |Closes(events)|
      && blocks[k].number <= blocks[k].time - genesis
      && (blocks[k].number == blocks[k].time - genesis <==>
          forall i :: 0 <= i < k ==> blocks[i + 1].time == blocks[i].time + 1)
  {
    RunChains(env, events);
    hide HashInput, TimeSorted, Run, Closes, Timed;
    var blocks := Run(NEW_NODE, env, events).blocks;
    forall i | 0 <= i < |blocks|
      ensures blocks[i].time == Closes(events)[i].now
      ensures blocks[i].number == Closes(events)[0].now - Genesis(Closes(events)[0]) + i
    {
      assert Linked(blocks, Closes(events), env, i);
    }
    TicksAdd(Closes(events), k);
  }

  // ----- The node in memory -----

  function Sent(txId: TxId, answer: Option<string>): seq<Answer> {
    match answer case None => [] case Some(output) => [Answer(txId, output)]
  }

  class MasterNode {
    const self: string
    const hashOf: string -> string
    var transactions: map<TxId, Transaction>
    var queueOut: seq<Transaction>
    var processedMessages: set<string>
    var nextBlockNumber: nat
    var previousHash: string
    ghost var built: seq<Block>
    ghost var queued: seq<TxId>
    ghost var answers: seq<Answer>
    ghost var heard: set<TxId>

    ghost function Abs(): Node
      reads this
    {
      Node(transactions, queueOut, processedMessages, built, nextBlockNumber, previousHash, queued, answers, heard)
    }

    ghost function Env(): Setting { Setting(self, hashOf) }

    constructor (self: string, hashOf: string -> string)
      ensures Abs() == NEW_NODE && Env() == Setting(self, hashOf)
    {
      this.self, this.hashOf := self, hashOf;
      transactions, queueOut, processedMessages := map[], [], {};
      nextBlockNumber, previousHash := 0, "";
      built, queued, answers, heard := [], [], [], {};
    }

    /** processCodePacket from the point where the transaction is made. */
    method ProcessCodePacket(txId: TxId, body: string, now: int)
      modifies this
      ensures Abs() == Step(old(Abs()), Env(), Requested(txId, body, now))
    {
      if txId !in transactions {
        transactions := transactions[txId := NewRequest(txId, now, body)];
        heard := heard + {txId};
      }
    }

    method CheckTransaction(txId: TxId) returns (answer: Option<string>)
      requires txId in transactions
      modifies this
      ensures Abs() == CheckVerification(old(Abs()), txId)
      ensures answers == old(answers) + Sent(txId, answer)
    {
      answer := None;
      var tx := transactions[txId];
      if tx.IsVerified() {
        if tx.CanSend() {
          answer := Some(tx.output);
          answers := answers + [Answer(txId, tx.output)];
          tx := tx.(sentToClient := true);
          transactions := transactions[txId := tx];
        }
        if !tx.inBlock {
          queueOut := queueOut + [tx];
          queued := queued + [txId];
          tx := tx.(inBlock := true);
          transactions := transactions[txId := tx];
        }
      }
    }

    method RecordResult(txId: TxId, hash: string, output: string, now: int) returns (answer: Option<string>)
      modifies this
      ensures Abs() == VerifyTransaction(old(Abs()), txId, hash, output, now)
      ensures answers == old(answers) + Sent(txId, answer)
    {
      if txId !in transactions {
        transactions := transactions[txId := NewResult(txId, hash, now)];
      }
      if output != "" {
        transactions := transactions[txId := transactions[txId].SetOutput(output)];
      }
      transactions := transactions[txId := transactions[txId].VerifyHash(hash)];
      assert Abs() == WithResult(old(Abs()), txId, hash, output, now);
      answer := CheckTransaction(txId);
    }

    method ProcessIncomingTransaction(n: Notice) returns (answer: Option<string>)
      modifies this
      ensures Abs() == ProcessNotification(old(Abs()), n)
      ensures answers == old(answers) + Sent(n.txId, answer)
    {
      if n.txId in transactions {
        transactions := transactions[n.txId := transactions[n.txId].FromJson(n)];
      } else {
        transactions := transactions[n.txId := BLANK.FromJson(n)];
      }
      heard := heard + {n.txId};
      assert Abs() == WithNotice(old(Abs()), n);
      answer := CheckTransaction(n.txId);
    }

    method ProcessIncomingData(m: Message, now: int) returns (answer: Option<string>)
      modifies this
      ensures Abs() == Step(old(Abs()), Env(), Delivered(m, now))
      ensures answers == old(answers) + Sent(m.content.Id(), answer)
    {
      answer := None;
      if m.sender == self || m.id in processedMessages {
        return;
      }
      processedMessages := processedMessages + {m.id};
      match m.content {
        case Result(txId, hash, output) => answer := RecordResult(txId, hash, output, now);
        case Notification(n) => answer := ProcessIncomingTransaction(n);
      }
    }

    method CleanupTransactionsMap(now: int)
      modifies this
      ensures Abs() == Step(old(Abs()), Env(), CleanedUp(now))
    {
      var rest := transactions.Keys;
      while rest != {}
        invariant rest <= transactions.Keys <= old(transactions).Keys
        invariant forall id :: id in transactions ==> transactions[id] == old(transactions)[id]
        invariant forall id :: id in old(transactions) && id !in rest ==>
          (id in transactions <==> now - 60 <= old(transactions)[id].timestamp)
        invariant Abs() == old(Abs()).(transactions := transactions)
        decreases |rest|
      {
        var id :| id in rest;
        rest := rest - {id};
        if now - 60 > transactions[id].timestamp {
          transactions := transactions - {id};
        }
      }
    }

    method GetNextBlockNumber(stamp: Option<int>, now: int) returns (number: nat)
      requires stamp.Some? ==> stamp.value <= now
      modifies this`nextBlockNumber
      ensures number == NextBlockNumber(old(nextBlockNumber), stamp, now) && nextBlockNumber == number + 1
    {
      if nextBlockNumber == 0 {
        match stamp {
          case None =>
            nextBlockNumber := 1;
            return 0;
          case Some(genesis) =>
            nextBlockNumber := now - genesis;
        }
      }
      number := nextBlockNumber;
      nextBlockNumber := nextBlockNumber + 1;
    }

    method CalculateBlockHash(number: nat, previous: string, txs: seq<Transaction>, time: int) returns (hash: string)
      ensures hash == hashOf(HashInput(number, previous, txs, time))
    {
      var data := "";
      for i := 0 to |txs|
        invariant data == ConcatIds(txs[..i])
      {
        assert txs[..i + 1][..i] == txs[..i];
        data := data + txs[i].txId;
      }
      assert txs[..|txs|] == txs;
      hash := hashOf(ToString(number) + previous + SignedDecimal(time) + data);
    }

    method GetBlock(due: seq<Transaction>, stamp: Option<int>, latest: string, now: int) returns (block: Block)
      requires stamp.Some? ==> stamp.value <= now
      modifies this`nextBlockNumber, this`previousHash
      ensures block == NextBlock(old(nextBlockNumber), old(previousHash), hashOf, due, stamp, latest, now)
      ensures nextBlockNumber == block.number + 1 && previousHash == block.hash
    {
      var number := GetNextBlockNumber(stamp, now);
      var txs := due;
      for i := 0 to |txs|
        invariant |txs| == |due|
        invariant forall k :: 0 <= k < |due| ==> txs[k] == if k < i then due[k].(blockId := number) else due[k]
      {
        txs := txs[i := txs[i].(blockId := number)];
      }
      assert txs == Stamped(due, number);
      if previousHash == "" {
        previousHash := if latest == "" then NO_HASH else latest;
      }
      var hash := CalculateBlockHash(number, previousHash, txs, now);
      block := Block(number, hash, previousHash, txs, now);
      previousHash := hash;
    }

    method TimeToCloseBlock(stamp: Option<int>, latest: string, now: int)
        returns (block: Block, ghost order: seq<Transaction>)
      requires stamp.Some? ==> stamp.value <= now
      modifies this
      ensures IsArrangement(order, old(queueOut), Time)
      ensures Abs() == Step(old(Abs()), Env(), Closed(order, stamp, latest, now))
      ensures block == built[|built| - 1]
    {
      hide NextBlock, SortBy, DueCount, IsArrangement;
      order := SortQueue();
      var due := DrainQueue(now);
      block := GetBlock(due, stamp, latest, now);
      built := built + [block];
    }

    /** std::sort: some arrangement of the queue by time. */
    method SortQueue() returns (ghost order: seq<Transaction>)
      modifies this`queueOut
      ensures IsArrangement(order, old(queueOut), Time) && queueOut == order
    {
      queueOut := SortBy(queueOut, Time);
      order := queueOut;
    }

    /** The loop that takes off what is due. */
    method DrainQueue(now: int) returns (due: seq<Transaction>)
      modifies this`queueOut
      ensures var sorted := old(queueOut);
        due == sorted[..DueCount(sorted, now)] && queueOut == sorted[DueCount(sorted, now)..]
    {
      ghost var sorted := queueOut;
      hide *;
      due := [];
      ghost var n := 0;
      while queueOut != [] && queueOut[0].timestamp <= now
        invariant n <= |sorted| && due == sorted[..n] && queueOut == sorted[n..]
        invariant forall i :: 0 <= i < n ==> sorted[i].timestamp <= now
        decreases |sorted| - n
      {
        due := due + [queueOut[0]];
        queueOut := queueOut[1..];
        n := n + 1;
      }
      DueCountIs(sorted, n, now);
    }
  }

  lemma DueCountIs(sorted: seq<Transaction>, n: nat, now: int)
    requires n <= |sorted| && (forall i :: 0 <= i < n ==> sorted[i].timestamp <= now)
    requires n < |sorted| ==> sorted[n].timestamp > now
    ensures DueCount(sorted, now) == n
  {
  }
}
