/** IncomingMessage: fragments arriving in any order are put together, and missing ones asked for again. */
module Reassembly {
  import opened Decimal
  import opened NumeralLists
  import opened Strings

  const DEFAULT_WAIT_TIME := 1000

  /** messages holds one slot for each fragment, empty until it arrives. */
  datatype State = State(
    messages: seq<string>,
    lastPacketIndex: nat,
    howManyReceived: nat,
    numberOfMaydays: nat,
    timeToWait: nat)

  function New(lastPacketIndex: nat): State {
    State(seq(lastPacketIndex + 1, _ => ""), lastPacketIndex, 0, 0, DEFAULT_WAIT_TIME)
  }

  // ----- Adding fragments -----

  /** The first position of a character, -1 (npos, which one step leads to 0) if there is none. */
  function Find(s: string, c: char): (k: int)
    ensures -1 <= k < |s| && (k == -1 <==> c !in s)
    ensures k >= 0 ==> s[k] == c && forall i :: 0 <= i < k ==> s[i] != c
  {
    if s == "" then -1
    else if s[0] == c then 0
    else
      var k := Find(s[1..], c);
      if k == -1 then -1 else k + 1
  }

  /** Everything behind the first colon, all of it if there is none. */
  function Payload(fragment: string): string { fragment[Find(fragment, ':') + 1..] }

  function Assembled(messages: seq<string>): string {
    if messages == [] then "" else Assembled(messages[..|messages| - 1]) + Payload(messages[|messages| - 1])
  }

  predicate Accepts(s: State, index: nat) { index < |s.messages| && s.messages[index] == "" }

  predicate Completes(s: State, index: nat) { Accepts(s, index) && s.howManyReceived + 1 > s.lastPacketIndex }

  function WithFragment(s: State, index: nat, fragment: string): (r: (State, string)) {
    if !Accepts(s, index) then (s, "")
    else
      var s1 := s.(messages := s.messages[index := fragment], howManyReceived := s.howManyReceived + 1,
                   numberOfMaydays := 0, timeToWait := DEFAULT_WAIT_TIME);
      (s1, if Completes(s, index) then Assembled(s1.messages) else "")
  }

  predicate IsMissing(s: State) { s.howManyReceived <= s.lastPacketIndex }

  /** canSendMayday; elapsed is the time in milliseconds since the last packet. */
  function AskMayday(s: State, elapsed: int): (r: (State, bool)) {
    if elapsed < s.timeToWait then (s, false)
    else
      var maydays := s.numberOfMaydays + 1;
      (s.(numberOfMaydays := maydays, timeToWait := s.timeToWait + DEFAULT_WAIT_TIME * maydays), true)
  }

  // ----- Runs -----

  datatype Event = Arrived(index: nat, fragment: string) | Asked(elapsed: int)

  function Step(s: State, e: Event): State {
    match e
    case Arrived(index, fragment) => WithFragment(s, index, fragment).0
    case Asked(elapsed) => AskMayday(s, elapsed).0
  }

  function Run(lastPacketIndex: nat, events: seq<Event>): State {
    if events == [] then New(lastPacketIndex)
    else Step(Run(lastPacketIndex, events[..|events| - 1]), events[|events| - 1])
  }

  /** How many empty fragments were accepted: each is counted as received without filling its slot. */
  function Wasted(lastPacketIndex: nat, events: seq<Event>): nat {
    if events == [] then 0
    else
      var before, e := events[..|events| - 1], events[|events| - 1];
      Wasted(lastPacketIndex, before) +
      if e.Arrived? && e.fragment == "" && Accepts(Run(lastPacketIndex, before), e.index) then 1 else 0
  }

  lemma {:induction false} WastedGrows(lastPacketIndex: nat, events: seq<Event>, k: nat)
    requires k <= |events|
    ensures Wasted(lastPacketIndex, events[..k]) <= Wasted(lastPacketIndex, events)
  {
    if k < |events| {
      assert events[..|events| - 1][..k] == events[..k];
      WastedGrows(lastPacketIndex, events[..|events| - 1], k);
    } else {
      assert events[..k] == events;
    }
  }

  /** The first fragment that arrived for a slot, "" if there is none. */
  function FirstArrival(events: seq<Event>, index: nat): string {
    if events == [] then ""
    else
      var before, e := FirstArrival(events[..|events| - 1], index), events[|events| - 1];
      if before == "" && e.Arrived? && e.index == index then e.fragment else before
  }

  function Filled(messages: seq<string>): nat {
    if messages == [] then 0 else Filled(messages[..|messages| - 1]) + if messages[|messages| - 1] == "" then 0 else 1
  }

  lemma {:induction false} FilledAll(messages: seq<string>)
    ensures Filled(messages) <= |messages|
    ensures Filled(messages) == |messages| <==> forall i :: 0 <= i < |messages| ==> messages[i] != ""
  {
    if messages != [] {
      var n := |messages| - 1;
      FilledAll(messages[..n]);
      assert forall i :: 0 <= i < n ==> messages[..n][i] == messages[i];
    }
  }

  lemma {:induction false} FilledNext(messages: seq<string>, index: nat, fragment: string)
    requires index < |messages| && messages[index] == ""
    ensures Filled(messages[index := fragment]) == Filled(messages) + if fragment == "" then 0 else 1
  {
    var n := |messages| - 1;
    var after := messages[index := fragment];
    if index == n {
      assert after[..n] == messages[..n];
    } else {
      FilledNext(messages[..n], index, fragment);
      assert after[..n] == messages[..n][index := fragment];
    }
  }

  /** The slots hold what arrived first for them, and the count is off by the empty fragments accepted. */
  ghost predicate Faithful(s: State, lastPacketIndex: nat, events: seq<Event>) {
    && s.lastPacketIndex == lastPacketIndex && |s.messages| == lastPacketIndex + 1
    && (forall i :: 0 <= i <= lastPacketIndex ==> s.messages[i] == FirstArrival(events, i))
    && s.howManyReceived == Filled(s.messages) + Wasted(lastPacketIndex, events)
  }

  lemma {:induction false} NothingFilled(messages: seq<string>)
    requires forall i :: 0 <= i < |messages| ==> messages[i] == ""
    ensures Filled(messages) == 0
  {
    if messages != [] { NothingFilled(messages[..|messages| - 1]); }
  }

  lemma {:induction false} RunIsFaithful(lastPacketIndex: nat, events: seq<Event>)
    ensures Faithful(Run(lastPacketIndex, events), lastPacketIndex, events)
  {
    if events == [] {
      NothingFilled(New(lastPacketIndex).messages);
    } else {
      var n := |events| - 1;
      RunIsFaithful(lastPacketIndex, events[..n]);
      var s := Run(lastPacketIndex, events[..n]);
      match events[n]
      case Arrived(index, fragment) =>
        if Accepts(s, index) { FilledNext(s.messages, index, fragment); }
      case Asked(elapsed) =>
    }
  }

  /** Every fragment has arrived. */
  predicate Complete(lastPacketIndex: nat, events: seq<Event>) {
    forall i :: 0 <= i <= lastPacketIndex ==> FirstArrival(events, i) != ""
  }

  /** The concatenation, in the order of the slots, of what arrived first for each. */
  function Original(lastPacketIndex: nat, events: seq<Event>): string {
    Assembled(seq(lastPacketIndex + 1, i requires 0 <= i <= lastPacketIndex => FirstArrival(events, i)))
  }

  /** Every slot is filled exactly if every fragment has arrived. */
  lemma CompleteIsFilled(lastPacketIndex: nat, events: seq<Event>)
    ensures Complete(lastPacketIndex, events) <==>
      Filled(Run(lastPacketIndex, events).messages) == lastPacketIndex + 1
  {
    RunIsFaithful(lastPacketIndex, events);
    FilledAll(Run(lastPacketIndex, events).messages);
  }

  /**
   Whatever the order, repetitions and stray indices, if no empty fragment was accepted: an arrival yields the message
   exactly if it brings the last missing fragment, and the message is made of the payloads in the order of their
   indices.
   */
  lemma CompletesWithTheLast(lastPacketIndex: nat, events: seq<Event>, index: nat, fragment: string)
    requires Wasted(lastPacketIndex, events + [Arrived(index, fragment)]) == 0
    ensures var s, after := Run(lastPacketIndex, events), events + [Arrived(index, fragment)];
      && (Completes(s, index) <==> !Complete(lastPacketIndex, events) && Complete(lastPacketIndex, after))
      && WithFragment(s, index, fragment).1 == if Completes(s, index) then Original(lastPacketIndex, after) else ""
  {
    var s, after := Run(lastPacketIndex, events), events + [Arrived(index, fragment)];
    var s' := WithFragment(s, index, fragment).0;
    assert after[..|events|] == events;
    RunIsFaithful(lastPacketIndex, events);
    RunIsFaithful(lastPacketIndex, after);
    assert s' == Run(lastPacketIndex, after);
    CompleteIsFilled(lastPacketIndex, events);
    CompleteIsFilled(lastPacketIndex, after);
    FilledAll(s.messages);
    if Accepts(s, index) { FilledNext(s.messages, index, fragment); }
    hide Complete, Filled, FirstArrival;
    assert s'.messages == seq(lastPacketIndex + 1, i requires 0 <= i <= lastPacketIndex => FirstArrival(after, i));
  }

  lemma {:induction false} StaysComplete(lastPacketIndex: nat, events: seq<Event>, k: nat)
    requires k <= |events| && Complete(lastPacketIndex, events[..k])
    ensures Complete(lastPacketIndex, events)
  {
    if k < |events| {
      var n := |events| - 1;
      assert events[..n][..k] == events[..k];
      StaysComplete(lastPacketIndex, events[..n], k);
    } else {
      assert events[..k] == events;
    }
  }

  /** No two arrivals of a run yield the message. */
  lemma CompletesOnce(lastPacketIndex: nat, events: seq<Event>, i: nat, j: nat)
    requires Wasted(lastPacketIndex, events) == 0 && i < j < |events| && events[i].Arrived? && events[j].Arrived?
    ensures !(Completes(Run(lastPacketIndex, events[..i]), events[i].index) &&
              Completes(Run(lastPacketIndex, events[..j]), events[j].index))
  {
    hide Completes, Complete, WithFragment, Run, Wasted;
    assert events[..i] + [Arrived(events[i].index, events[i].fragment)] == events[..i + 1] == events[..j][..i + 1];
    assert events[..j] + [Arrived(events[j].index, events[j].fragment)] == events[..j + 1];
    WastedGrows(lastPacketIndex, events, i + 1);
    WastedGrows(lastPacketIndex, events, j + 1);
    CompletesWithTheLast(lastPacketIndex, events[..i], events[i].index, events[i].fragment);
    CompletesWithTheLast(lastPacketIndex, events[..j], events[j].index, events[j].fragment);
    if Completes(Run(lastPacketIndex, events[..i]), events[i].index) {
      StaysComplete(lastPacketIndex, events[..j], i + 1);
    }
  }

  /** Whatever comes, no further arrival yields a message. */
  ghost predicate YieldsNoMore(lastPacketIndex: nat, events: seq<Event>) {
    forall more: seq<Event>, index: nat :: !Completes(Run(lastPacketIndex, events + more), index)
  }

  lemma CompleteYieldsNoMore(lastPacketIndex: nat, events: seq<Event>, more: seq<Event>, index: nat)
    requires Complete(lastPacketIndex, events)
    ensures !Completes(Run(lastPacketIndex, events + more), index)
  {
    assert (events + more)[..|events|] == events;
    StaysComplete(lastPacketIndex, events + more, |events|);
    RunIsFaithful(lastPacketIndex, events + more);
  }

  /**
   In every run, the first arrival that yields a message yields a whole one, and no message is yielded after it,
   exactly if no empty fragment has been accepted.
   */
  lemma FirstMessageIsWholeIff(lastPacketIndex: nat, events: seq<Event>, index: nat, fragment: string)
    requires var s := Run(lastPacketIndex, events); Completes(s, index) && s.howManyReceived == lastPacketIndex
    ensures var after := events + [Arrived(index, fragment)];
      && (Complete(lastPacketIndex, after) <==> Wasted(lastPacketIndex, after) == 0)
      && (YieldsNoMore(lastPacketIndex, after) <==> Wasted(lastPacketIndex, after) == 0)
  {
    var after := events + [Arrived(index, fragment)];
    assert after[..|events|] == events && after + [] == after;
    var s' := Run(lastPacketIndex, after);
    RunIsFaithful(lastPacketIndex, events);
    RunIsFaithful(lastPacketIndex, after);
    CompleteIsFilled(lastPacketIndex, after);
    FilledAll(s'.messages);
    hide Complete, Filled, FirstArrival;
    if Wasted(lastPacketIndex, after) == 0 {
      forall more: seq<Event>, i: nat ensures !Completes(Run(lastPacketIndex, after + more), i) {
        CompleteYieldsNoMore(lastPacketIndex, after, more, i);
      }
    } else {
      var i :| 0 <= i < |s'.messages| && s'.messages[i] == "";
      assert Completes(Run(lastPacketIndex, after + []), i);
    }
  }

  /** An empty fragment is counted without filling its slot: one that comes often enough yields a message of nothing. */
  lemma EmptyFragmentCompletes()
    ensures var s := Run(1, [Arrived(0, ""), Arrived(0, "")]);
      !IsMissing(s) && s.messages == ["", ""]
  {
    hide Assembled;
    assert [Arrived(0, ""), Arrived(0, "")][..1] == [Arrived(0, "")] && [Arrived(0, "")][..0] == [];
  }

  // ----- The text comes back -----

  /** The pieces one after the other. */
  function Concatenated(pieces: seq<string>): string {
    if pieces == [] then "" else pieces[0] + Concatenated(pieces[1..])
  }

  /** The fragment is the piece behind a header, or a piece without colon by itself. */
  ghost predicate Carries(fragment: string, piece: string) {
    || (exists header: string :: ':' !in header && fragment == header + ":" + piece)
    || (fragment == piece != "" && ':' !in piece)
  }

  /** What arrives for the slots of the pieces carries them; anything may arrive for other indices. */
  ghost predicate Sends(events: seq<Event>, pieces: seq<string>) {
    forall k :: 0 <= k < |events| && events[k].Arrived? && events[k].index < |pieces| ==>
      Carries(events[k].fragment, pieces[events[k].index])
  }

  predicate HasArrived(events: seq<Event>, index: nat) {
    exists k :: 0 <= k < |events| && events[k].Arrived? && events[k].index == index
  }

  predicate AllArrived(events: seq<Event>, n: nat) { forall i :: 0 <= i < n ==> HasArrived(events, i) }

  lemma CarriedPayload(fragment: string, piece: string)
    requires Carries(fragment, piece)
    ensures fragment != "" && Payload(fragment) == piece
  {
    if header: string :| ':' !in header && fragment == header + ":" + piece {
      assert fragment[|header|] == ':' && forall i :: 0 <= i < |header| ==> fragment[i] == header[i];
      assert Find(fragment, ':') == |header|;
    }
  }

  lemma {:induction false} ConcatenatedNext(pieces: seq<string>, piece: string)
    ensures Concatenated(pieces + [piece]) == Concatenated(pieces) + piece
  {
    if pieces == [] {
      assert [piece][1..] == [];
    } else {
      ConcatenatedNext(pieces[1..], piece);
      assert (pieces + [piece])[1..] == pieces[1..] + [piece];
    }
  }

  lemma {:induction false} AssembledCarried(messages: seq<string>, pieces: seq<string>)
    requires |messages| == |pieces| && forall i :: 0 <= i < |pieces| ==> Carries(messages[i], pieces[i])
    ensures Assembled(messages) == Concatenated(pieces)
  {
    if pieces != [] {
      var n := |pieces| - 1;
      AssembledCarried(messages[..n], pieces[..n]);
      CarriedPayload(messages[n], pieces[n]);
      ConcatenatedNext(pieces[..n], pieces[n]);
      assert pieces == pieces[..n] + [pieces[n]];
    }
  }

  lemma {:induction false} FirstCarries(events: seq<Event>, pieces: seq<string>, index: nat)
    requires Sends(events, pieces) && index < |pieces|
    ensures if HasArrived(events, index) then Carries(FirstArrival(events, index), pieces[index])
            else FirstArrival(events, index) == ""
  {
    if events != [] {
      var n := |events| - 1;
      FirstCarries(events[..n], pieces, index);
      assert HasArrived(events, index) <==>
        HasArrived(events[..n], index) || (events[n].Arrived? && events[n].index == index);
      hide Carries;
      if HasArrived(events[..n], index) { CarriedPayload(FirstArrival(events[..n], index), pieces[index]); }
    }
  }

  lemma {:induction false} NoneWasted(events: seq<Event>, pieces: seq<string>)
    requires pieces != [] && Sends(events, pieces)
    ensures Wasted(|pieces| - 1, events) == 0
  {
    if events != [] {
      var n := |events| - 1;
      NoneWasted(events[..n], pieces);
      RunIsFaithful(|pieces| - 1, events[..n]);
      if events[n].Arrived? && events[n].index < |pieces| {
        CarriedPayload(events[n].fragment, pieces[events[n].index]);
      }
    }
  }

  lemma CompleteIsAllArrived(events: seq<Event>, pieces: seq<string>)
    requires pieces != [] && Sends(events, pieces)
    ensures Complete(|pieces| - 1, events) <==> AllArrived(events, |pieces|)
  {
    hide HasArrived, FirstArrival, Carries, Sends;
    forall i | 0 <= i < |pieces| ensures HasArrived(events, i) <==> FirstArrival(events, i) != "" {
      FirstCarries(events, pieces, i);
      if HasArrived(events, i) { CarriedPayload(FirstArrival(events, i), pieces[i]); }
    }
  }

  /**
   Whatever the order and the repetitions, whatever arrives for other indices, and whatever the pieces hold: the
   arrival after which every piece is there yields the text they were cut from, and every other arrival yields nothing.
   */
  lemma TextComesBack(pieces: seq<string>, events: seq<Event>, k: nat)
    requires pieces != [] && Sends(events, pieces) && k < |events| && events[k].Arrived?
    ensures WithFragment(Run(|pieces| - 1, events[..k]), events[k].index, events[k].fragment).1 ==
      if AllArrived(events[..k + 1], |pieces|) && !AllArrived(events[..k], |pieces|) then Concatenated(pieces) else ""
  {
    hide *;
    var e := events[k];
    SendsBefore(events, pieces, k);
    SendsBefore(events, pieces, k + 1);
    assert events[..k + 1] == events[..k] + [Arrived(e.index, e.fragment)];
    LastYields(events[..k], e.index, e.fragment, pieces);
  }

  lemma LastYields(events: seq<Event>, index: nat, fragment: string, pieces: seq<string>)
    requires pieces != [] && Sends(events, pieces) && Sends(events + [Arrived(index, fragment)], pieces)
    ensures var after := events + [Arrived(index, fragment)];
      WithFragment(Run(|pieces| - 1, events), index, fragment).1 ==
        if AllArrived(after, |pieces|) && !AllArrived(events, |pieces|) then Concatenated(pieces) else ""
  {
    hide *;
    var after := events + [Arrived(index, fragment)];
    NoneWasted(after, pieces);
    CompletesWithTheLast(|pieces| - 1, events, index, fragment);
    CompleteIsAllArrived(events, pieces);
    CompleteIsAllArrived(after, pieces);
    if AllArrived(after, |pieces|) { OriginalIsText(after, pieces); }
  }

  lemma SendsBefore(events: seq<Event>, pieces: seq<string>, k: nat)
    requires Sends(events, pieces) && k <= |events|
    ensures Sends(events[..k], pieces)
  {
  }

  lemma OriginalIsText(events: seq<Event>, pieces: seq<string>)
    requires pieces != [] && Sends(events, pieces) && AllArrived(events, |pieces|)
    ensures Original(|pieces| - 1, events) == Concatenated(pieces)
  {
    var last := |pieces| - 1;
    var messages := seq(last + 1, i requires 0 <= i <= last => FirstArrival(events, i));
    hide Carries, Sends, HasArrived, FirstArrival, Assembled, Concatenated;
    forall i | 0 <= i < |pieces| ensures Carries(messages[i], pieces[i]) {
      FirstCarries(events, pieces, i);
    }
    AssembledCarried(messages, pieces);
  }

  // ----- Maydays -----

  /** The indices of the empty slots. */
  function Missing(messages: seq<string>): (r: seq<nat>)
  {
    if messages == [] then []
    else
      var n := |messages| - 1;
      if messages[n] == "" then Missing(messages[..n]) + [n] else Missing(messages[..n])
  }

  lemma {:induction false} MissingAreEmpty(messages: seq<string>)
    ensures forall i: nat :: i in Missing(messages) <==> i < |messages| && messages[i] == ""
    ensures |Missing(messages)| + Filled(messages) == |messages|
  {
    if messages != [] { MissingAreEmpty(messages[..|messages| - 1]); }
  }

  function MaydayPacket(messages: seq<string>): string { NumeralList(Missing(messages)) }

  lemma PacketNext(messages: seq<string>, message: string)
    ensures var packet := MaydayPacket(messages);
      MaydayPacket(messages + [message]) == if message != "" then packet else AppendNumeral(packet, |messages|)
  {
    assert (messages + [message])[..|messages|] == messages;
    NumeralListNext(Missing(messages), |messages|);
  }

  /**
   In every run, the mayday packet names the empty slots, and a message that counts as missing fragments has some to
   name; one that has some counts as missing them exactly if fewer empty fragments were accepted than are to be named.
   */
  lemma MaydayNamesMissing(lastPacketIndex: nat, events: seq<Event>)
    ensures var s := Run(lastPacketIndex, events);
      var packet, missing := MaydayPacket(s.messages), Missing(s.messages);
      && (forall i: nat :: i in missing <==> i <= lastPacketIndex && FirstArrival(events, i) == "")
      && (packet != "" ==> Split(packet, ',') == Numerals(missing)) && (packet == "" <==> missing == [])
      && (IsMissing(s) ==> packet != "")
      && (packet != "" ==> (IsMissing(s) <==> Wasted(lastPacketIndex, events) < |missing|))
  {
    var s := Run(lastPacketIndex, events);
    RunIsFaithful(lastPacketIndex, events);
    MissingAreEmpty(s.messages);
    var missing := Missing(s.messages);
    hide Missing, Filled, Wasted, Run, FirstArrival;
    NotEmpty(missing);
    SplitNumeralList(missing);
  }

  lemma Triangle(k: nat)
    ensures k * (k + 1) / 2 + (k + 1) == (k + 1) * (k + 2) / 2
  {
  }

  /** The wait in milliseconds after k maydays. */
  function Wait(k: nat): nat { 1000 * (1 + k * (k + 1) / 2) }

  /** How many of the requests since the last fragment taken came no sooner than the wait then allowed. */
  function GrantsSince(lastPacketIndex: nat, events: seq<Event>): nat {
    if events == [] then 0
    else
      var before, e := events[..|events| - 1], events[|events| - 1];
      var k := GrantsSince(lastPacketIndex, before);
      match e
      case Arrived(index, _) => if index <= lastPacketIndex && FirstArrival(before, index) == "" then 0 else k
      case Asked(elapsed) => if elapsed >= Wait(k) then k + 1 else k
  }

  /**
   In every run the maydays counted are the requests granted since the last fragment taken, and the next request is
   granted exactly if it comes no sooner than the wait that they make.
   */
  lemma {:induction false} MaydaysCount(lastPacketIndex: nat, events: seq<Event>, elapsed: int)
    ensures var s, k := Run(lastPacketIndex, events), GrantsSince(lastPacketIndex, events);
      && s.numberOfMaydays == k && s.timeToWait == Wait(k)
      && (AskMayday(s, elapsed).1 <==> elapsed >= Wait(k))
  {
    if events != [] {
      var n := |events| - 1;
      MaydaysCount(lastPacketIndex, events[..n], if events[n].Asked? then events[n].elapsed else 0);
      RunIsFaithful(lastPacketIndex, events[..n]);
      Triangle(Run(lastPacketIndex, events[..n]).numberOfMaydays);
    }
  }

  // ----- The message in memory -----

  class IncomingMessage {
    const messages: array<string>
    const lastPacketIndex: nat
    var howManyReceived: nat
    var numberOfMaydays: nat
    var timeToWait: nat
    var lastPacketTime: int

    ghost function Abs(): State
      reads this, messages
    {
      State(messages[..], lastPacketIndex, howManyReceived, numberOfMaydays, timeToWait)
    }

    constructor (lastPacketIndex: nat)
      ensures Abs() == New(lastPacketIndex) && fresh(messages)
    {
      this.lastPacketIndex := lastPacketIndex;
      messages := new string[lastPacketIndex + 1](_ => "");
      howManyReceived, numberOfMaydays, timeToWait, lastPacketTime := 0, 0, DEFAULT_WAIT_TIME, 0;
    }

    method Add(index: nat, fragment: string, now: int) returns (assembled: string)
      modifies this, messages
      ensures (Abs(), assembled) == WithFragment(old(Abs()), index, fragment)
      ensures lastPacketTime == if Accepts(old(Abs()), index) then now else old(lastPacketTime)
    {
      if index >= messages.Length {
        return "";
      }
      if messages[index] != "" {
        return "";
      }
      messages[index] := fragment;
      assert messages[..] == old(messages[..])[index := fragment];
      lastPacketTime := now;
      timeToWait := DEFAULT_WAIT_TIME;
      numberOfMaydays := 0;
      howManyReceived := howManyReceived + 1;
      assembled := "";
      if howManyReceived > lastPacketIndex {
        assembled := Assemble();
      }
    }

    /** The loop over the fragments. */
    method Assemble() returns (assembledMessage: string)
      ensures assembledMessage == Assembled(messages[..])
    {
      assembledMessage := "";
      for i := 0 to messages.Length
        invariant assembledMessage == Assembled(messages[..i])
      {
        assert messages[..i + 1][..i] == messages[..i];
        var startOfPayload := Find(messages[i], ':') + 1;
        assembledMessage := assembledMessage + messages[i][startOfPayload..];
      }
      assert messages[..messages.Length] == messages[..];
    }

    method CanSendMayday(now: int) returns (granted: bool)
      modifies this
      ensures (Abs(), granted) == AskMayday(old(Abs()), now - lastPacketTime) && lastPacketTime == old(lastPacketTime)
    {
      granted := false;
      if now - lastPacketTime >= timeToWait {
        numberOfMaydays := numberOfMaydays + 1;
        timeToWait := timeToWait + DEFAULT_WAIT_TIME * numberOfMaydays;
        granted := true;
      }
    }

    method GetMaydayPacket() returns (packet: string)
      ensures packet == MaydayPacket(messages[..])
    {
      packet := "";
      for i := 0 to messages.Length
        invariant packet == MaydayPacket(messages[..i])
      {
        PacketNext(messages[..i], messages[i]);
        assert messages[..i + 1] == messages[..i] + [messages[i]];
        hide MaydayPacket;
        if messages[i] == "" {
          packet := AppendNumeral(packet, i);
        }
      }
      assert messages[..messages.Length] == messages[..];
    }
  }
}
