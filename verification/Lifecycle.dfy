/**
 A transaction at a master node, told from the messages alone: what the node stores for it, and when it queues the
 transaction and answers the client.

 The story of a transaction is the list of events that brought something about it, each message once, since the node
 last came to know it.  Nothing here looks at the state of the node, and its state is shown to follow from it.
 */
module Lifecycle {
  import opened MasterLedger

  // ----- The story of a transaction -----

  predicate IsReport(e: Event) { e.Delivered? && e.m.content.Result? }

  predicate IsAnnouncement(e: Event) { e.Delivered? && e.m.content.Notification? }

  predicate Concerns(env: Setting, e: Event, txId: TxId) {
    match e
    case Requested(id, _, _) => id == txId
    case Delivered(m, _) => m.sender != env.self && m.content.Id() == txId
    case _ => false
  }

  /** The message was not delivered before. */
  predicate IsNew(env: Setting, before: seq<Event>, e: Event) {
    e.Delivered? ==> forall i ::
      0 <= i < |before| && before[i].Delivered? && before[i].m.sender != env.self ==> before[i].m.id != e.m.id
  }

  /** The time in the last notification, or that of the event the transaction became known by. */
  function TimestampOf(story: seq<Event>): int
    requires story != []
  {
    var n := |story| - 1;
    if IsAnnouncement(story[n]) then story[n].m.content.notice.timestamp
    else if n > 0 then TimestampOf(story[..n])
    else match story[0]
      case Requested(_, _, now) => now
      case Delivered(_, now) => now
      case _ => 0
  }

  /** Events add to the story; a cleanup ends it when the transaction is older than a minute. */
  function Story(env: Setting, events: seq<Event>, txId: TxId): seq<Event> {
    if events == [] then []
    else
      var before, e := events[..|events| - 1], events[|events| - 1];
      var story := Story(env, before, txId);
      if e.CleanedUp? && story != [] && e.now - TimestampOf(story) > 60 then []
      else if !Concerns(env, e, txId) || !IsNew(env, before, e) || (e.Requested? && story != []) then story
      else story + [e]
  }

  /** The body in the last notification, or in the request. */
  function BodyOf(story: seq<Event>): string {
    if story == [] then ""
    else
      var n := |story| - 1;
      if IsAnnouncement(story[n]) then story[n].m.content.notice.body
      else if n == 0 && story[0].Requested? then story[0].body
      else BodyOf(story[..n])
  }

  /** The output that came last, in a notification or as that of a result. */
  function OutputOf(story: seq<Event>): string {
    if story == [] then ""
    else
      var n := |story| - 1;
      if IsAnnouncement(story[n]) then story[n].m.content.notice.output
      else if IsReport(story[n]) && story[n].m.content.output != "" then story[n].m.content.output
      else OutputOf(story[..n])
  }

  /** The hash in the last notification, or if it has none, in the first result after it. */
  function HashInForce(story: seq<Event>): string {
    if story == [] then ""
    else
      var n := |story| - 1;
      if IsAnnouncement(story[n]) then story[n].m.content.notice.hash
      else if IsReport(story[n]) && HashInForce(story[..n]) == "" then story[n].m.content.hash
      else HashInForce(story[..n])
  }

  /** The results that reported the hash then in force, or came when there was none. */
  function Counted(story: seq<Event>): nat {
    if story == [] then 0
    else
      var n := |story| - 1;
      var hash := HashInForce(story[..n]);
      Counted(story[..n]) + if IsReport(story[n]) && (hash == "" || hash == story[n].m.content.hash) then 1 else 0
  }

  predicate HasContent(story: seq<Event>) { exists e :: e in story && !IsReport(e) }

  predicate HasOutput(story: seq<Event>) { exists e :: e in story && IsReport(e) && e.m.content.output != "" }

  /** The full content is known, some result brought an output, and 14 results were counted. */
  predicate IsServed(story: seq<Event>) { HasContent(story) && HasOutput(story) && Counted(story) >= 14 }

  /** The story began with a client's request to this node. */
  predicate IsAsked(story: seq<Event>) { story != [] && story[0].Requested? }

  /** What the node has stored after the story. */
  function Entry(story: seq<Event>, txId: TxId): Transaction
    requires story != []
  {
    Transaction(txId, TimestampOf(story), HashInForce(story), OutputOf(story), BodyOf(story), Counted(story), 0,
                HasOutput(story), HasContent(story), IsAsked(story), IsServed(story) && IsAsked(story), IsServed(story))
  }

  predicate Tells(s: Node, story: seq<Event>, txId: TxId) {
    if story == [] then txId !in s.transactions
    else txId in s.transactions && s.transactions[txId] == Entry(story, txId)
  }

  // ----- One event -----

  /** What is served stays so. */
  lemma OneMore(story: seq<Event>, e: Event)
    ensures (story + [e])[..|story|] == story
    ensures HasContent(story + [e]) <==> HasContent(story) || !IsReport(e)
    ensures HasOutput(story + [e]) <==> HasOutput(story) || (IsReport(e) && e.m.content.output != "")
    ensures Counted(story + [e]) >= Counted(story)
    ensures IsAsked(story + [e]) <==> IsAsked(story) || (story == [] && e.Requested?)
    ensures !IsServed([]) && !HasContent([]) && !HasOutput([])
  {
    assert (story + [e])[..|story|] == story;
    assert forall x :: x in story + [e] <==> x in story || x == e;
  }

  /** The node with the entry that the event leaves before the check. */
  function Before(s: Node, e: Event): Node {
    if e.Delivered? then
      match e.m.content
      case Result(txId, hash, output) => WithResult(s, txId, hash, output, e.now)
      case Notification(n) => WithNotice(s, n)
    else s
  }

  /** The entry that the check finds. */
  ghost predicate ReadyToCheck(s: Node, story: seq<Event>, all: seq<Event>, txId: TxId) {
    && txId in s.transactions && all != []
    && s.transactions[txId] ==
         Entry(all, txId).(inBlock := IsServed(story), sentToClient := IsServed(story) && IsAsked(story))
    && (IsServed(story) ==> IsServed(all)) && (IsServed(story) ==> IsAsked(story) == IsAsked(all))
  }

  lemma CheckTells(s: Node, story: seq<Event>, all: seq<Event>, txId: TxId)
    requires ReadyToCheck(s, story, all, txId)
    ensures var r := CheckVerification(s, txId);
      && Tells(r, all, txId)
      && r.queued == s.queued + (if IsServed(all) && !IsServed(story) then [txId] else [])
      && r.queueOut == s.queueOut +
           (if IsServed(all) && !IsServed(story) then [Entry(all, txId).(inBlock := false)] else [])
      && r.answers == s.answers + (if IsServed(all) && !IsServed(story) && IsAsked(all)
           then [Answer(txId, OutputOf(all))] else [])
  {
    hide TimestampOf, BodyOf, OutputOf, HashInForce, Counted, HasContent, HasOutput, IsAsked;
  }

  lemma ResultReady(s: Node, story: seq<Event>, e: Event, txId: TxId)
    requires Tells(s, story, txId) && IsReport(e) && e.m.content.txId == txId
    ensures ReadyToCheck(Before(s, e), story, story + [e], txId)
  {
    OneMore(story, e);
    assert story == [] ==> BodyOf(story) == "" && OutputOf(story) == "";
    hide HasContent, HasOutput;
  }

  lemma AnnouncementReady(s: Node, story: seq<Event>, e: Event, txId: TxId)
    requires Tells(s, story, txId) && IsAnnouncement(e) && e.m.content.notice.txId == txId
    ensures ReadyToCheck(Before(s, e), story, story + [e], txId)
  {
    OneMore(story, e);
    hide HasContent, HasOutput;
  }

  /** The story after one more event. */
  lemma StoryNext(env: Setting, events: seq<Event>, e: Event, txId: TxId)
    ensures var story := Story(env, events, txId);
      Story(env, events + [e], txId) ==
        if e.CleanedUp? && story != [] && e.now - TimestampOf(story) > 60 then []
        else if !Concerns(env, e, txId) || !IsNew(env, events, e) || (e.Requested? && story != []) then story
        else story + [e]
  {
    assert (events + [e])[..|events|] == events;
  }

  /** A message is remembered exactly if it was delivered and is not the node's own. */
  lemma {:induction false} ProcessedIff(env: Setting, events: seq<Event>, id: string)
    requires Timed(events)
    ensures id in Run(NEW_NODE, env, events).processed <==>
      exists i :: 0 <= i < |events| && events[i].Delivered? && events[i].m.sender != env.self && events[i].m.id == id
  {
    if events != [] {
      var n := |events| - 1;
      ProcessedIff(env, events[..n], id);
      StepProcesses(Run(NEW_NODE, env, events[..n]), env, events[n]);
      hide Step;
      assert forall i :: 0 <= i < n ==> events[i] == events[..n][i];
      var before := events[..n];
      if i :| 0 <= i < n && before[i].Delivered? && before[i].m.sender != env.self && before[i].m.id == id {
        assert events[i].m.id == id;
      }
    }
  }

  lemma StepProcesses(s: Node, env: Setting, e: Event)
    requires e.Closed? && e.stamp.Some? ==> e.stamp.value <= e.now
    ensures Step(s, env, e).processed ==
      s.processed + if e.Delivered? && e.m.sender != env.self then {e.m.id} else {}
  {
    hide CloseBlock;
    if e.Closed? { CloseKeeps(s, env, e); }
  }

  lemma CloseKeeps(s: Node, env: Setting, e: Event)
    requires e.Closed? && (e.stamp.Some? ==> e.stamp.value <= e.now)
    ensures var r := Step(s, env, e);
      && r.transactions == s.transactions && r.processed == s.processed && r.queued == s.queued
      && r.answers == s.answers
  {
    hide Arranged, DueCount, Stamped, NextBlockNumber, HashInput;
  }

  /** The event makes the story one of a transaction to be served. */
  predicate Serves(env: Setting, events: seq<Event>, e: Event, txId: TxId) {
    IsServed(Story(env, events + [e], txId)) && !IsServed(Story(env, events, txId))
  }

  lemma DeliveredTells(s: Node, env: Setting, e: Event, story: seq<Event>, txId: TxId)
    requires e.Delivered? && e.m.sender != env.self && e.m.id !in s.processed && e.m.content.Id() == txId
    requires Tells(s, story, txId)
    ensures var r, all := Step(s, env, e), story + [e];
      && Tells(r, all, txId)
      && r.queued == s.queued + (if IsServed(all) && !IsServed(story) then [txId] else [])
      && r.queueOut == s.queueOut +
           (if IsServed(all) && !IsServed(story) then [Entry(all, txId).(inBlock := false)] else [])
      && r.answers == s.answers + (if IsServed(all) && !IsServed(story) && IsAsked(all)
           then [Answer(txId, OutputOf(all))] else [])
  {
    var s1 := s.(processed := s.processed + {e.m.id});
    hide Entry, IsServed, CloseBlock, ReadyToCheck;
    assert Tells(s1, story, txId);
    match e.m.content
    case Result(_, _, _) =>
      ResultReady(s1, story, e, txId);
      CheckTells(Before(s1, e), story, story + [e], txId);
    case Notification(_) =>
      AnnouncementReady(s1, story, e, txId);
      CheckTells(Before(s1, e), story, story + [e], txId);
  }

  /** A delivery leaves the other transactions alone. */
  lemma OthersUntouched(s: Node, env: Setting, e: Event, txId: TxId)
    requires e.Delivered? || e.Requested?
    requires !Concerns(env, e, txId) || (e.Delivered? && e.m.id in s.processed)
    ensures var r := Step(s, env, e);
      && (txId in r.transactions <==> txId in s.transactions)
      && (txId in s.transactions ==> r.transactions[txId] == s.transactions[txId])
      && (e.Delivered? && e.m.id in s.processed ==> r == s)
  {
    hide CloseBlock;
  }

  lemma RequestTells(s: Node, env: Setting, e: Event, story: seq<Event>, txId: TxId)
    requires e.Requested? && e.txId == txId && Tells(s, story, txId)
    ensures Tells(Step(s, env, e), if story == [] then [e] else story, txId) && !IsServed([e])
  {
    hide CloseBlock;
    assert [e][..0] == [] && e in [e] && HasContent([e]) && !HasOutput([e]);
    assert BodyOf([e]) == e.body && OutputOf([e]) == "" && HashInForce([e]) == "" && Counted([e]) == 0;
  }

  lemma CleanupTells(s: Node, env: Setting, e: Event, story: seq<Event>, txId: TxId)
    requires e.CleanedUp? && Tells(s, story, txId)
    ensures Tells(Step(s, env, e), if story != [] && e.now - TimestampOf(story) > 60 then [] else story, txId)
  {
    hide CloseBlock;
  }

  lemma StepTells(s: Node, env: Setting, events: seq<Event>, e: Event, txId: TxId)
    requires e.Closed? && e.stamp.Some? ==> e.stamp.value <= e.now
    requires Tells(s, Story(env, events, txId), txId)
    requires e.Delivered? ==> (IsNew(env, events, e) <==> e.m.id !in s.processed)
    ensures Tells(Step(s, env, e), Story(env, events + [e], txId), txId)
  {
    var story := Story(env, events, txId);
    StoryNext(env, events, e, txId);
    assert !e.Delivered? ==> IsNew(env, events, e);
    hide Story, Step, Tells, IsNew;
    match e
    case Closed(_, _, _, _) =>
      CloseKeeps(s, env, e);
      SameEntry(s, Step(s, env, e), story, txId);
    case CleanedUp(_) => CleanupTells(s, env, e, story, txId);
    case Requested(id, _, _) =>
      if id == txId {
        RequestTells(s, env, e, story, txId);
        assert [] + [e] == [e];
      } else {
        OthersUntouched(s, env, e, txId);
        SameEntry(s, Step(s, env, e), story, txId);
      }
    case Delivered(m, _) =>
      if Concerns(env, e, txId) && m.id !in s.processed {
        DeliveredTells(s, env, e, story, txId);
      } else {
        OthersUntouched(s, env, e, txId);
        SameEntry(s, Step(s, env, e), story, txId);
      }
  }

  lemma SameEntry(s: Node, r: Node, story: seq<Event>, txId: TxId)
    requires Tells(s, story, txId) && (txId in r.transactions <==> txId in s.transactions)
    requires txId in s.transactions ==> r.transactions[txId] == s.transactions[txId]
    ensures Tells(r, story, txId)
  {
  }

  lemma NewIsUnprocessed(env: Setting, events: seq<Event>, e: Event)
    requires Timed(events) && e.Delivered?
    ensures IsNew(env, events, e) <==> e.m.id !in Run(NEW_NODE, env, events).processed
  {
    ProcessedIff(env, events, e.m.id);
  }

  /** In every run, what a node stores for a transaction is what the messages tell, and it stores nothing else. */
  lemma {:induction false} RunTells(env: Setting, events: seq<Event>, txId: TxId)
    requires Timed(events)
    ensures Tells(Run(NEW_NODE, env, events), Story(env, events, txId), txId)
  {
    if events != [] {
      var n := |events| - 1;
      var before, e := events[..n], events[n];
      RunTells(env, before, txId);
      if e.Delivered? { NewIsUnprocessed(env, before, e); }
      assert before + [e] == events;
      hide Step, Story, Tells, IsNew;
      StepTells(Run(NEW_NODE, env, before), env, before, e, txId);
    }
  }

  /** Queue and answers stay as they are. */
  predicate SameServices(s: Node, r: Node) { r.queued == s.queued && r.answers == s.answers }

  /** Once queued; and answered, with the output that came last, exactly if the story began with a request here. */
  predicate Served(s: Node, r: Node, story: seq<Event>, txId: TxId)
    requires story != []
  {
    && r.queued == s.queued + [txId]
    && r.queueOut == s.queueOut + [Entry(story, txId).(inBlock := false)]
    && r.answers == s.answers + if IsAsked(story) then [Answer(txId, OutputOf(story))] else []
  }

  lemma OnlyDeliveriesServe(env: Setting, events: seq<Event>, e: Event, txId: TxId)
    requires Serves(env, events, e, txId)
    ensures e.Delivered? && Concerns(env, e, txId) && IsNew(env, events, e)
    ensures Story(env, events + [e], txId) == Story(env, events, txId) + [e]
  {
    StoryNext(env, events, e, txId);
    if e.Requested? && Concerns(env, e, txId) { RequestNotServed(e); }
    hide Story, IsNew, Concerns, HasContent, HasOutput;
    OneMore([], e);
  }

  lemma RequestNotServed(e: Event)
    requires e.Requested?
    ensures !IsServed([] + [e])
  {
    assert !HasOutput([] + [e]);
  }

  lemma AfterEvent(env: Setting, events: seq<Event>, e: Event)
    requires Timed(events + [e])
    ensures Timed(events) && (e.Closed? && e.stamp.Some? ==> e.stamp.value <= e.now)
    ensures Run(NEW_NODE, env, events + [e]) == Step(Run(NEW_NODE, env, events), env, e)
  {
    assert (events + [e])[..|events|] == events && (events + [e])[|events|] == e;
    assert forall i :: 0 <= i < |events| ==> (events + [e])[i] == events[i];
  }

  /**
   A transaction is queued, and answered if it is this node's, by the very event that makes its story complete: the
   full content announced, an output reported and 14 results counted since it last became known.
   */
  lemma ServedOnCompletion(env: Setting, events: seq<Event>, e: Event, txId: TxId)
    requires Timed(events) && Timed(events + [e]) && Serves(env, events, e, txId)
    ensures Story(env, events + [e], txId) != []
    ensures Served(Run(NEW_NODE, env, events), Run(NEW_NODE, env, events + [e]), Story(env, events + [e], txId), txId)
  {
    AfterEvent(env, events, e);
    OnlyDeliveriesServe(env, events, e, txId);
    RunTells(env, events, txId);
    NewIsUnprocessed(env, events, e);
    DeliveredTells(Run(NEW_NODE, env, events), env, e, Story(env, events, txId), txId);
  }

  /** An event that completes no story has nothing queued and nobody answered; only a close takes from the queue. */
  lemma NothingElseServed(env: Setting, events: seq<Event>, e: Event)
    requires Timed(events) && Timed(events + [e]) && forall txId :: !Serves(env, events, e, txId)
    ensures SameServices(Run(NEW_NODE, env, events), Run(NEW_NODE, env, events + [e]))
    ensures !e.Closed? ==>
      Run(NEW_NODE, env, events + [e]).queueOut == Run(NEW_NODE, env, events).queueOut
  {
    AfterEvent(env, events, e);
    var s := Run(NEW_NODE, env, events);
    match e
    case Closed(_, _, _, _) => CloseKeeps(s, env, e);
    case Delivered(m, _) =>
      var txId := m.content.Id();
      NewIsUnprocessed(env, events, e);
      if m.sender == env.self || !IsNew(env, events, e) {
      } else {
        RunTells(env, events, txId);
        StoryNext(env, events, e, txId);
        DeliveredTells(s, env, e, Story(env, events, txId), txId);
        assert !Serves(env, events, e, txId);
      }
    case _ => hide CloseBlock;
  }

  /** As long as a complete story goes on, its transaction stays queued, and answered if it is this node's. */
  lemma CompleteIsServed(env: Setting, events: seq<Event>, txId: TxId)
    requires Timed(events) && IsServed(Story(env, events, txId))
    ensures txId in Run(NEW_NODE, env, events).queued
    ensures IsAsked(Story(env, events, txId)) ==> HasAnswered(Run(NEW_NODE, env, events), txId)
  {
    OneMore([], Requested("", "", 0));
    RunTells(env, events, txId);
    RunServes(env, events);
  }

  // ----- Where the queued transactions are, as they were -----

  /** The transaction that the event is about, if it can complete a story. */
  function Subject(e: Event): TxId { if e.Delivered? then e.m.content.Id() else "" }

  /** What was queued in a run, as it stood when its story was complete. */
  function Entries(env: Setting, events: seq<Event>): seq<Transaction> {
    if events == [] then []
    else
      var before, e := events[..|events| - 1], events[|events| - 1];
      var txId := Subject(e);
      var story := Story(env, events, txId);
      Entries(env, before) +
      if story != [] && IsServed(story) && !IsServed(Story(env, before, txId))
      then [Entry(story, txId).(inBlock := false)] else []
  }

  /** The transactions of a block as they were before it was built. */
  function Unstamped(txs: seq<Transaction>): (r: seq<Transaction>)
    ensures |r| == |txs| && forall i :: 0 <= i < |txs| ==> r[i] == txs[i].(blockId := 0)
  {
    seq(|txs|, i requires 0 <= i < |txs| => txs[i].(blockId := 0))
  }

  function InBlocks(blocks: seq<Block>): seq<Transaction> {
    if blocks == [] then [] else InBlocks(blocks[..|blocks| - 1]) + Unstamped(blocks[|blocks| - 1].txs)
  }

  predicate NoNumbers(txs: seq<Transaction>) { forall i :: 0 <= i < |txs| ==> txs[i].blockId == 0 }

  lemma EntriesNext(env: Setting, events: seq<Event>, e: Event)
    ensures var txId := Subject(e);
      Entries(env, events + [e]) == Entries(env, events) +
        if Serves(env, events, e, txId) && Story(env, events + [e], txId) != []
        then [Entry(Story(env, events + [e], txId), txId).(inBlock := false)] else []
  {
    assert (events + [e])[..|events|] == events;
  }

  lemma SplitUnnumbered(txs: seq<Transaction>, sorted: seq<Transaction>, due: nat, number: nat)
    requires multiset(sorted) == multiset(txs) && due <= |sorted| && NoNumbers(txs)
    ensures NoNumbers(sorted[due..])
    ensures multiset(txs) == multiset(Unstamped(Stamped(sorted[..due], number))) + multiset(sorted[due..])
  {
    forall i | 0 <= i < |sorted| ensures sorted[i].blockId == 0 {
      assert sorted[i] in multiset(sorted);
      assert sorted[i] in multiset(txs);
    }
    assert Unstamped(Stamped(sorted[..due], number)) == sorted[..due];
    assert sorted == sorted[..due] + sorted[due..];
  }

  lemma CloseConserves(s: Node, env: Setting, e: Event)
    requires e.Closed? && (e.stamp.Some? ==> e.stamp.value <= e.now) && NoNumbers(s.queueOut)
    ensures var r := Step(s, env, e);
      && NoNumbers(r.queueOut)
      && multiset(InBlocks(r.blocks)) + multiset(r.queueOut) == multiset(InBlocks(s.blocks)) + multiset(s.queueOut)
  {
    hide Arranged, DueCount, HashInput, NextBlockNumber, NoNumbers, Unstamped, Stamped;
    var r := Step(s, env, e);
    var sorted := Arranged(s.queueOut, e.order);
    var block := r.blocks[|s.blocks|];
    SplitUnnumbered(s.queueOut, sorted, DueCount(sorted, e.now), block.number);
    assert r.blocks[..|s.blocks|] == s.blocks;
  }

  /** Whatever was queued is in the queue or in a block, with everything it was queued with, and nothing else is. */
  ghost predicate KeepsEntries(s: Node, entries: seq<Transaction>) {
    NoNumbers(s.queueOut) && multiset(entries) == multiset(InBlocks(s.blocks)) + multiset(s.queueOut)
  }

  lemma BlocksStay(s: Node, env: Setting, e: Event)
    requires !e.Closed?
    ensures Step(s, env, e).blocks == s.blocks
  {
    hide CloseBlock;
  }

  lemma OneEntryMore(s: Node, r: Node, entries: seq<Transaction>, more: seq<Transaction>)
    requires KeepsEntries(s, entries)
    ensures r.blocks == s.blocks && r.queueOut == s.queueOut && more == entries ==> KeepsEntries(r, more)
    ensures forall tx ::
      (r.blocks == s.blocks && r.queueOut == s.queueOut + [tx] && more == entries + [tx] && tx.blockId == 0) ==>
      KeepsEntries(r, more)
  {
  }

  lemma EventKeepsEntries(env: Setting, events: seq<Event>, e: Event)
    requires Timed(events) && Timed(events + [e])
    requires KeepsEntries(Run(NEW_NODE, env, events), Entries(env, events))
    ensures KeepsEntries(Run(NEW_NODE, env, events + [e]), Entries(env, events + [e]))
  {
    var s, r, txId := Run(NEW_NODE, env, events), Run(NEW_NODE, env, events + [e]), Subject(e);
    AfterEvent(env, events, e);
    EntriesNext(env, events, e);
    hide Run, Step, Timed, Story, InBlocks, Entries, IsServed, NoNumbers;
    OneEntryMore(s, r, Entries(env, events), Entries(env, events + [e]));
    if Serves(env, events, e, txId) {
      ServedOnCompletion(env, events, e, txId);
      OnlyDeliveriesServe(env, events, e, txId);
      BlocksStay(s, env, e);
    } else {
      forall id ensures !Serves(env, events, e, id) {
        if Serves(env, events, e, id) { OnlyDeliveriesServe(env, events, e, id); }
      }
      NothingElseServed(env, events, e);
      if e.Closed? { CloseConserves(s, env, e); } else { BlocksStay(s, env, e); }
    }
  }

  lemma NothingKept(env: Setting)
    ensures KeepsEntries(Run(NEW_NODE, env, []), Entries(env, []))
  {
    assert NEW_NODE.queueOut == [] && NEW_NODE.blocks == [];
  }

  lemma {:induction false} RunKeepsEntries(env: Setting, events: seq<Event>)
    requires Timed(events)
    ensures KeepsEntries(Run(NEW_NODE, env, events), Entries(env, events))
  {
    NothingKept(env);
    hide Run, Entries, KeepsEntries;
    if events != [] {
      var n := |events| - 1;
      var before, e := events[..n], events[n];
      RunKeepsEntries(env, before);
      assert before + [e] == events;
      EventKeepsEntries(env, before, e);
    }
  }

  // ----- Results that agree -----

  predicate Agrees(e: Event, hash: string) {
    && (IsReport(e) ==> e.m.content.hash == hash)
    && (IsAnnouncement(e) ==> e.m.content.notice.hash == hash || e.m.content.notice.hash == "")
  }

  function Reports(story: seq<Event>): nat {
    if story == [] then 0 else Reports(story[..|story| - 1]) + if IsReport(story[|story| - 1]) then 1 else 0
  }

  /** Where all report one hash, every result is counted. */
  lemma {:induction false} AgreeingAreCounted(story: seq<Event>, hash: string)
    requires forall e :: e in story ==> Agrees(e, hash)
    ensures Counted(story) == Reports(story) && (HashInForce(story) == hash || HashInForce(story) == "")
  {
    if story != [] {
      var n := |story| - 1;
      AgreeingAreCounted(story[..n], hash);
      assert Agrees(story[n], hash);
    }
  }
}
