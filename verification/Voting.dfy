/**
 Voting among master nodes: when a node opens and closes its voting phase, which timestamp it signs,
 who is elected from the votes, and who produces the block of a given second.
 */
module Voting {
  import opened Arithmetic
  import opened Decimal
  import opened Sorting

  // ----- The hour -----

  const HOUR := 3600
  const OPEN_VOTING_START_MINUTE := 55
  const TOTAL_MASTER_NODES := 21

  function SecondsPastHour(t: nat): nat { t % HOUR }

  predicate InVotingTime(t: nat) { SecondsPastHour(t) / 60 >= OPEN_VOTING_START_MINUTE }

  /** The second in t's hour at which voting opens. */
  function Mark(t: nat): nat { t / HOUR * HOUR + OPEN_VOTING_START_MINUTE * 60 }

  /** Closed and open intervals, numbered in turn. */
  function Interval(t: nat): nat { 2 * (t / HOUR) + if InVotingTime(t) then 1 else 0 }

  lemma HourParts(t: nat)
    ensures t == t / HOUR * HOUR + t % HOUR && InVotingTime(t) == (t % HOUR >= 3300)
    ensures InVotingTime(t) <==> t >= Mark(t)
  {
  }

  // ----- Votes and the election -----

  datatype Voter = Voter(signature: string, publicKey: string, number: nat, valid: bool)

  /** Votes compare by their numbers. */
  function Number(v: Voter): int { v.number }

  function ValidOnes(votes: seq<Voter>): (r: seq<Voter>)
    ensures forall v :: v in r <==> v in votes && v.valid
  {
    if votes == [] then []
    else
      assert votes == [votes[0]] + votes[1..];
      (if votes[0].valid then [votes[0]] else []) + ValidOnes(votes[1..])
  }

  /** The first 21 valid voters. */
  function Elected(sorted: seq<Voter>): (r: seq<Voter>) {
    var valid := ValidOnes(sorted);
    if |valid| <= TOTAL_MASTER_NODES then valid else valid[..TOTAL_MASTER_NODES]
  }

  lemma {:induction false} ValidOnesInOrder(votes: seq<Voter>)
    requires InOrder(votes, Number)
    ensures InOrder(ValidOnes(votes), Number)
  {
    if votes != [] {
      ValidOnesInOrder(votes[1..]);
      var rest := ValidOnes(votes[1..]);
      assert ([votes[0]] + rest)[1..] == rest && [] + rest == rest;
    }
  }

  lemma {:induction false} ValidOnesCount(votes: seq<Voter>, v: Voter)
    requires v.valid
    ensures multiset(ValidOnes(votes))[v] == multiset(votes)[v]
  {
    if votes != [] {
      ValidOnesCount(votes[1..], v);
      assert votes == [votes[0]] + votes[1..];
    }
  }

  predicate Ascending(voters: seq<Voter>) {
    forall i, j :: 0 <= i < j < |voters| ==> voters[i].number <= voters[j].number
  }

  /** What an election must give: valid voters among the votes, in order, 21 at most, and no better one left over. */
  ghost predicate IsElection(producers: seq<Voter>, votes: seq<Voter>) {
    && Ascending(producers) && |producers| <= TOTAL_MASTER_NODES
    && multiset(producers) <= multiset(votes) && (forall v :: v in producers ==> v.valid)
    && forall v: Voter :: v.valid && v in multiset(votes) - multiset(producers) ==>
         |producers| == TOTAL_MASTER_NODES && forall w :: w in producers ==> w.number <= v.number
  }

  /**
   However equal numbers are arranged: the elected are in order, valid voters only, 21 at most, and a valid voter is
   left over only if 21 voters with numbers no larger were elected.
   */
  lemma ElectsTheLowest(votes: seq<Voter>, sorted: seq<Voter>)
    requires IsArrangement(sorted, votes, Number)
    ensures IsElection(Elected(sorted), votes)
  {
    hide *;
    ValidCounts(votes, sorted);
    ElectedFirst(sorted);
    NoneBetter(votes, Elected(sorted), ValidOnes(sorted)[|Elected(sorted)|..]);
  }

  lemma ValidCounts(votes: seq<Voter>, sorted: seq<Voter>)
    requires IsArrangement(sorted, votes, Number)
    ensures InOrder(sorted, Number)
    ensures forall v: Voter :: v.valid ==> multiset(ValidOnes(sorted))[v] == multiset(votes)[v]
  {
    hide ValidOnes, InOrder;
    forall v: Voter | v.valid ensures multiset(ValidOnes(sorted))[v] == multiset(votes)[v] {
      ValidOnesCount(sorted, v);
    }
  }

  lemma NoneBetter(votes: seq<Voter>, e: seq<Voter>, rest: seq<Voter>)
    requires forall v: Voter :: v.valid ==> multiset(e + rest)[v] == multiset(votes)[v]
    requires InOrder(e + rest, Number) && Ascending(e) && (forall v :: v in e ==> v.valid)
    requires |e| <= TOTAL_MASTER_NODES && (rest != [] ==> |e| == TOTAL_MASTER_NODES)
    ensures IsElection(e, votes)
  {
    hide InOrder, Ascending;
    SomeOf(votes, e, rest);
    forall v: Voter | v.valid && v in multiset(votes) - multiset(e)
      ensures |e| == TOTAL_MASTER_NODES && forall w :: w in e ==> w.number <= v.number
    {
      LeftOver(e, rest, v);
    }
  }

  lemma ElectedFirst(sorted: seq<Voter>)
    requires InOrder(sorted, Number)
    ensures var valid, e := ValidOnes(sorted), Elected(sorted);
      && |e| <= |valid| && valid == e + valid[|e|..] && InOrder(valid, Number) && Ascending(e)
      && (forall v :: v in e ==> v.valid)
      && |e| <= TOTAL_MASTER_NODES && (valid[|e|..] != [] ==> |e| == TOTAL_MASTER_NODES)
  {
    ValidOnesInOrder(sorted);
    var valid, e := ValidOnes(sorted), Elected(sorted);
    assert |e| <= |valid| && e == valid[..|e|];
    hide InOrder, AtLeast, Ascending, ValidOnes;
    AscendingPrefix(valid, |e|);
    assert forall v :: v in e ==> v in valid;
  }

  lemma AscendingPrefix(voters: seq<Voter>, n: nat)
    requires InOrder(voters, Number) && n <= |voters|
    ensures Ascending(voters[..n])
  {
    hide InOrder, AtLeast;
    forall i, j | 0 <= i < j < n ensures voters[i].number <= voters[j].number {
      InOrderIsPairwise(voters, Number, i, j);
    }
  }

  lemma SomeOf(votes: seq<Voter>, e: seq<Voter>, rest: seq<Voter>)
    requires forall v: Voter :: v.valid ==> multiset(e + rest)[v] == multiset(votes)[v]
    requires forall v :: v in e ==> v.valid
    ensures multiset(e) <= multiset(votes)
    ensures forall v: Voter :: v.valid && v in multiset(votes) - multiset(e) ==> v in rest
  {
    assert multiset(e + rest) == multiset(e) + multiset(rest);
    forall v ensures multiset(e)[v] <= multiset(votes)[v] {
      if v in e { assert multiset(e + rest)[v] == multiset(votes)[v]; }
    }
    assert forall v :: v in multiset(rest) ==> v in rest;
  }

  lemma LeftOver(e: seq<Voter>, rest: seq<Voter>, v: Voter)
    requires InOrder(e + rest, Number) && v in rest
    ensures forall w :: w in e ==> w.number <= v.number
  {
    var j :| 0 <= j < |rest| && rest[j] == v;
    forall w | w in e ensures w.number <= v.number {
      var i :| 0 <= i < |e| && e[i] == w;
      InOrderIsPairwise(e + rest, Number, i, |e| + j);
    }
  }

  /** Nodes that hold the same votes, in whatever order they arrived, elect the same producers. */
  lemma SameElection(votes: seq<Voter>, others: seq<Voter>, sorted: seq<Voter>, otherSorted: seq<Voter>)
    requires multiset(votes) == multiset(others) && DistinctKeys(multiset(votes), Number)
    requires IsArrangement(sorted, votes, Number) && IsArrangement(otherSorted, others, Number)
    ensures Elected(sorted) == Elected(otherSorted)
  {
    OneArrangement(sorted, otherSorted, Number);
  }

  // ----- Who produces the block -----

  /** getBlockProducerFor: the position in the list, -1 if there is none. */
  function BlockProducerFor(t: nat, producers: nat): int {
    if producers < 1 then -1 else SecondsPastHour(t) % producers
  }

  /** t is the one second in n from start at which producer p is due. */
  ghost predicate OnlyTurn(start: nat, n: nat, p: nat, t: nat) {
    forall u :: start <= u < start + n ==> (BlockProducerFor(u, n) == p <==> u == t)
  }

  /** The hour begins with the first producer, and every second brings the next one, after the last the first. */
  lemma TurnsInOrder(t: nat, producers: nat)
    ensures producers == 0 ==> BlockProducerFor(t, producers) == -1
    ensures producers > 0 && SecondsPastHour(t) == 0 ==> BlockProducerFor(t, producers) == 0
    ensures producers > 0 && SecondsPastHour(t) + 1 < HOUR ==>
      BlockProducerFor(t + 1, producers) ==
        if BlockProducerFor(t, producers) == producers - 1 then 0 else BlockProducerFor(t, producers) + 1
  {
    if producers > 0 && SecondsPastHour(t) + 1 < HOUR {
      SameHour(t, 1);
      NextResidue(SecondsPastHour(t), producers);
    }
  }

  lemma NextResidue(a: nat, n: nat)
    requires n > 0
    ensures (a + 1) % n == if a % n == n - 1 then 0 else a % n + 1
  {
    var q, r := a / n, a % n;
    if r == n - 1 {
      Residue(n, 0, q + 1, a + 1);
    } else {
      Residue(n, r + 1, q, a + 1);
    }
  }

  /** Any n consecutive seconds of an hour give each of n producers exactly one. */
  lemma EachProducerOnce(start: nat, n: nat, p: nat)
    requires p < n && SecondsPastHour(start) + n <= HOUR
    ensures exists t :: start <= t < start + n && OnlyTurn(start, n, p, t)
  {
    var s := SecondsPastHour(start);
    var d := (p - s) % n;
    assert (s + d) % n == p by { ModShift(s, p, n); }
    var t := start + d;
    forall u | start <= u < start + n
      ensures BlockProducerFor(u, n) == (s + (u - start)) % n
    {
      SameHour(start, u - start);
    }
    forall u | start <= u < start + n && BlockProducerFor(u, n) == p ensures u == t {
      OneResidue(s + (u - start), s + d, n);
    }
    assert OnlyTurn(start, n, p, t);
  }

  lemma SameHour(start: nat, d: nat)
    requires SecondsPastHour(start) + d < HOUR
    ensures SecondsPastHour(start + d) == SecondsPastHour(start) + d
  {
  }

  lemma ModShift(s: int, p: int, n: int)
    requires 0 <= p < n
    ensures (s + (p - s) % n) % n == p
  {
    Residue(n, p, -((p - s) / n), s + (p - s) % n);
  }

  lemma OneResidue(a: int, b: int, n: int)
    requires n > 0 && a % n == b % n && -n < a - b < n
    ensures a == b
  {
    var k := a / n - b / n;
    assert a - b == n * k;
    if a > b { NoMultipleBelow(n, a - b, k); }
    if a < b { NoMultipleBelow(n, b - a, -k); }
  }

  // ----- The phases of a node -----

  /** A signed vote: when it was cast and the text signed. */
  datatype Ballot = Ballot(time: nat, text: string)

  /** ballots and closed record the past: the votes cast and the number of phases closed. */
  datatype State = State(
    next: nat,
    inPhase: bool,
    ignore: bool,
    votes: seq<Voter>,
    producers: seq<Voter>,
    ballots: seq<Ballot>,
    closed: nat)

  datatype Identity = Identity(publicKey: string, sign: string -> string)

  /** Start-up: the next timestamp and the check of the voting time go by one and the same reading of the clock. */
  function Boot(boot: nat): (s: State) {
    State(boot + (HOUR - SecondsPastHour(boot)) - (60 - OPEN_VOTING_START_MINUTE) * 60,
          false, InVotingTime(boot), [], [], [], 0)
  }

  const NUMBER_LIMIT := 0x1_0000_0000

  function CharSum(text: string): nat {
    if text == "" then 0 else CharSum(text[..|text| - 1]) + text[|text| - 1] as int
  }

  /** Each character adds its code, wherever it stands. */
  lemma {:induction false} CharSumAddsUp(left: string, right: string)
    ensures CharSum(left + right) == CharSum(left) + CharSum(right)
    ensures forall c: char :: CharSum([c]) == c as int
  {
    if right == "" {
      assert left + right == left;
    } else {
      var n := |right| - 1;
      CharSumAddsUp(left, right[..n]);
      assert (left + right)[..|left| + n] == left + right[..n];
    }
  }

  /** A vote's number is the sum of the characters of its signature, in 32 bits. */
  function VoteOf(signature: string, publicKey: string): Voter {
    Voter(signature, publicKey, CharSum(signature) % NUMBER_LIMIT, true)
  }

  /** The node's own vote, a signature of the text. */
  function OwnVote(id: Identity, text: string): Voter { VoteOf(id.sign(text), id.publicKey) }

  function Poll(s: State, id: Identity, now: nat): (r: State) {
    if InVotingTime(now) then
      if s.inPhase then s
      else if s.ignore then s.(inPhase := true)
      else s.(inPhase := true, votes := s.votes + [OwnVote(id, ToString(s.next))],
              ballots := s.ballots + [Ballot(now, ToString(s.next))])
    else if s.inPhase then
      s.(inPhase := false, next := s.next + HOUR, ignore := false, closed := s.closed + 1,
         producers := if |s.votes| > 1 then Elected(SortBy(s.votes, Number)) else [],
         votes := if |s.votes| > 1 then [] else s.votes)
    else s
  }

  /** registerVote, one message at a time; verified tells whether the signature is one of the node's next timestamp. */
  function Register(s: State, signature: string, publicKey: string, verified: bool): (r: State) {
    if s.ignore || !verified || exists v :: v in s.votes && v.publicKey == publicKey then s
    else s.(votes := s.votes + [VoteOf(signature, publicKey)])
  }

  datatype Event = Polled(now: nat) | Voted(signature: string, publicKey: string, verified: bool)

  function Step(s: State, id: Identity, e: Event): (r: State) {
    match e
    case Polled(now) => Poll(s, id, now)
    case Voted(signature, publicKey, verified) => Register(s, signature, publicKey, verified)
  }

  function Run(boot: nat, id: Identity, events: seq<Event>): (r: State) {
    if events == [] then Boot(boot)
    else Step(Run(boot, id, events[..|events| - 1]), id, events[|events| - 1])
  }

  function Polls(events: seq<Event>): seq<nat> {
    if events == [] then []
    else
      var last := events[|events| - 1];
      Polls(events[..|events| - 1]) + if last.Polled? then [last.now] else []
  }

  /** From the first poll on, no open or closed interval goes by unpolled. */
  predicate Watchful(polls: seq<nat>) {
    forall i :: 0 < i < |polls| ==> Interval(polls[i - 1]) <= Interval(polls[i]) <= Interval(polls[i - 1]) + 1
  }

  // ----- What is signed -----

  /** The number of hours, since the epoch, in which voting has opened by time t. */
  function Rounds(t: nat): nat { t / HOUR + if InVotingTime(t) then 1 else 0 }

  /** How many hours passed from the boot to the first poll. */
  function Behind(boot: nat, polls: seq<nat>): int
    requires polls != []
  {
    polls[0] / HOUR - boot / HOUR
  }

  /** The mark of the hour that lies some hours before t. */
  predicate IsMark(next: int, t: nat, behind: int) { next == Mark(t) - HOUR * behind }

  /** The hour of the first vote: a node booted in voting time sits out the first voting that it polls. */
  function FirstRound(boot: nat, polls: seq<nat>): nat
    requires polls != []
  {
    polls[0] / HOUR + if InVotingTime(boot) then 1 else 0
  }

  /** The number of votes due by the last poll: one in every hour from the first round on. */
  function VotesDue(boot: nat, polls: seq<nat>): nat {
    if polls == [] || Rounds(polls[|polls| - 1]) < FirstRound(boot, polls) then 0
    else Rounds(polls[|polls| - 1]) - FirstRound(boot, polls)
  }

  /** After its last poll the node has voted in every hour it was to vote in, and signed the mark it was to sign. */
  ghost predicate OnTime(s: State, boot: nat, polls: seq<nat>) {
    && |s.ballots| == VotesDue(boot, polls)
    && if polls == [] then s.next == Mark(boot) && !s.inPhase && s.ignore == InVotingTime(boot)
       else
         var last := polls[|polls| - 1];
         && IsMark(s.next, last, Behind(boot, polls))
         && s.inPhase == InVotingTime(last)
         && polls[0] / HOUR <= last / HOUR
         && s.ignore == (InVotingTime(boot) && polls[0] / HOUR == last / HOUR)
         && forall k :: 0 <= k < |s.ballots| ==>
              CastInHour(s.ballots[k], FirstRound(boot, polls) + k, Behind(boot, polls))
  }

  ghost predicate CastInHour(b: Ballot, hour: nat, behind: int) {
    && b.time / HOUR == hour && InVotingTime(b.time)
    && exists next: nat :: IsMark(next, b.time, behind) && b.text == ToString(next)
  }

  lemma FirstPollOnTime(s: State, id: Identity, boot: nat, now: nat)
    requires OnTime(s, boot, [])
    ensures OnTime(Poll(s, id, now), boot, [now])
  {
    hide CastInHour, CharSum, Elected, SortBy;
    if InVotingTime(now) && !s.ignore {
      NewBallot(now, s.next, Behind(boot, [now]));
    }
  }

  lemma PollOnTime(s: State, id: Identity, boot: nat, polls: seq<nat>, now: nat)
    requires polls != [] && Watchful(polls + [now]) && OnTime(s, boot, polls)
    ensures OnTime(Poll(s, id, now), boot, polls + [now])
  {
    var last, all := polls[|polls| - 1], polls + [now];
    assert all[|polls| - 1] == last && all[|polls|] == now && all[0] == polls[0];
    assert Interval(last) <= Interval(now) <= Interval(last) + 1;
    hide CastInHour, CharSum, Elected, SortBy;
    if InVotingTime(now) && !s.inPhase && !s.ignore {
      NewBallot(now, s.next, Behind(boot, polls));
    }
  }

  lemma NewBallot(now: nat, next: nat, behind: int)
    requires InVotingTime(now) && IsMark(next, now, behind)
    ensures CastInHour(Ballot(now, ToString(next)), now / HOUR, behind)
  {
  }

  lemma WatchfulBefore(polls: seq<nat>, all: seq<nat>)
    requires Watchful(all) && polls <= all
    ensures Watchful(polls)
  {
  }

  /**
   A node whose loop is watchful votes in every hour from that of its first poll on, but for the first voting if it
   was booted in voting time; it signs in each the mark of that hour, less the hours from the boot to the first poll.
   */
  lemma {:induction false} SignsEveryMark(boot: nat, id: Identity, events: seq<Event>)
    requires Watchful(Polls(events))
    ensures OnTime(Run(boot, id, events), boot, Polls(events))
  {
    if events == [] {
      HourParts(boot);
    } else {
      var n := |events| - 1;
      var polls, s := Polls(events[..n]), Run(boot, id, events[..n]);
      WatchfulBefore(polls, Polls(events));
      SignsEveryMark(boot, id, events[..n]);
      match events[n] {
        case Polled(now) =>
          assert Run(boot, id, events) == Poll(s, id, now) && Polls(events) == polls + [now];
          hide *;
          if polls == [] {
            assert polls + [now] == [now];
            FirstPollOnTime(s, id, boot, now);
          } else {
            PollOnTime(s, id, boot, polls, now);
          }
        case Voted(_, _, _) =>
          assert Polls(events) == polls;
      }
    }
  }

  /** What the ballot says, in numbers. */
  lemma TextOfBallot(b: Ballot, hour: nat, behind: int, t: nat)
    requires CastInHour(b, hour, behind)
    ensures b.text == ToString(t) <==> IsMark(t, b.time, behind)
  {
    hide ToString, DigitsValue, Mark;
    var next: nat :| IsMark(next, b.time, behind) && b.text == ToString(next);
    ValueOfString(next);
    ValueOfString(t);
  }

  lemma CastOnTime(s: State, boot: nat, polls: seq<nat>, k: nat)
    requires OnTime(s, boot, polls) && k < |s.ballots|
    ensures polls != [] && CastInHour(s.ballots[k], FirstRound(boot, polls) + k, Behind(boot, polls))
  {
    hide CastInHour;
  }

  /** Every vote is on the mark of its hour exactly if the first poll came in the hour in which the node was booted. */
  lemma OnTheMarkIff(boot: nat, id: Identity, events: seq<Event>, k: nat)
    requires Watchful(Polls(events)) && k < |Run(boot, id, events).ballots|
    ensures Polls(events) != []
    ensures var b := Run(boot, id, events).ballots[k];
      b.text == ToString(Mark(b.time)) <==> Polls(events)[0] / HOUR == boot / HOUR
  {
    hide Run, Polls, Watchful, OnTime, CastInHour, FirstRound, Mark, ToString;
    SignsEveryMark(boot, id, events);
    CastOnTime(Run(boot, id, events), boot, Polls(events), k);
    var b := Run(boot, id, events).ballots[k];
    TextOfBallot(b, FirstRound(boot, Polls(events)) + k, Behind(boot, Polls(events)), Mark(b.time));
  }

  lemma OneMorePoll(boot: nat, id: Identity, events: seq<Event>, now: nat, more: seq<Event>)
    requires more == events + [Polled(now)]
    ensures Run(boot, id, more) == Poll(Run(boot, id, events), id, now) && Polls(more) == Polls(events) + [now]
  {
    assert more[..|events|] == events;
  }

  lemma LatePolls(id: Identity)
    ensures Poll(Poll(Poll(Poll(Boot(3300), id, 3600), id, 6900), id, 7200), id, 10500).ballots ==
      [Ballot(10500, ToString(6900))]
  {
    hide CharSum, Elected, SortBy, ToString, OwnVote;
  }

  lemma FourPolls(boot: nat, id: Identity, a: nat, b: nat, c: nat, d: nat)
    ensures var events := [Polled(a), Polled(b), Polled(c), Polled(d)];
      && Polls(events) == [a, b, c, d]
      && Run(boot, id, events) == Poll(Poll(Poll(Poll(Boot(boot), id, a), id, b), id, c), id, d)
  {
    assert Run(boot, id, []) == Boot(boot) && Polls([]) == [];
    hide *;
    OneMorePoll(boot, id, [], a, [Polled(a)]);
    OneMorePoll(boot, id, [Polled(a)], b, [Polled(a), Polled(b)]);
    OneMorePoll(boot, id, [Polled(a), Polled(b)], c, [Polled(a), Polled(b), Polled(c)]);
    OneMorePoll(boot, id, [Polled(a), Polled(b), Polled(c)], d, [Polled(a), Polled(b), Polled(c), Polled(d)]);
  }

  /** Booted in one hour and polling from the next on, a node sits a round out and then signs the hour before. */
  lemma LateFirstPoll(id: Identity)
    ensures var events := [Polled(3600), Polled(6900), Polled(7200), Polled(10500)];
      && Watchful(Polls(events))
      && Run(3300, id, events).ballots == [Ballot(10500, ToString(6900))]
      && ToString(6900) != ToString(Mark(10500))
  {
    ValueOfString(6900);
    ValueOfString(Mark(10500));
    hide Run, Poll, Polls, ToString;
    FourPolls(3300, id, 3600, 6900, 7200, 10500);
    LatePolls(id);
  }

  /**
   Two nodes sign the same text exactly in the same hour, if each began to poll in the hour in which it was booted, or
   both alike late.
   */
  lemma NodesAgree(boot: nat, id: Identity, events: seq<Event>, k: nat,
                   boot': nat, id': Identity, events': seq<Event>, k': nat)
    requires Watchful(Polls(events)) && Watchful(Polls(events'))
    requires k < |Run(boot, id, events).ballots| && k' < |Run(boot', id', events').ballots|
    ensures Polls(events) != [] && Polls(events') != []
    ensures var b, b' := Run(boot, id, events).ballots[k], Run(boot', id', events').ballots[k'];
      b.text == b'.text <==>
      b.time / HOUR - Behind(boot, Polls(events)) == b'.time / HOUR - Behind(boot', Polls(events'))
  {
    hide Run, Polls, Watchful, OnTime, CastInHour, FirstRound, ToString;
    SignsEveryMark(boot, id, events);
    SignsEveryMark(boot', id', events');
    CastOnTime(Run(boot, id, events), boot, Polls(events), k);
    CastOnTime(Run(boot', id', events'), boot', Polls(events'), k');
    var b, b' := Run(boot, id, events).ballots[k], Run(boot', id', events').ballots[k'];
    var next := MarkOfBallot(b, FirstRound(boot, Polls(events)) + k, Behind(boot, Polls(events)));
    TextOfBallot(b', FirstRound(boot', Polls(events')) + k', Behind(boot', Polls(events')), next);
  }

  lemma MarkOfBallot(b: Ballot, hour: nat, behind: int) returns (next: nat)
    requires CastInHour(b, hour, behind)
    ensures IsMark(next, b.time, behind) && b.text == ToString(next)
  {
    hide ToString;
    next :| IsMark(next, b.time, behind) && b.text == ToString(next);
  }

  /** Whether or not the loop is watchful, the next timestamp is one hour further for every phase closed. */
  lemma {:induction false} NextCountsPhases(boot: nat, id: Identity, events: seq<Event>)
    ensures var s := Run(boot, id, events);
      s.next == Mark(boot) + HOUR * s.closed && s.next % HOUR == 3300
  {
    if events == [] {
      HourParts(boot);
    } else {
      var n := |events| - 1;
      NextCountsPhases(boot, id, events[..n]);
      StepCounts(Run(boot, id, events[..n]), id, events[n]);
    }
    var s := Run(boot, id, events);
    Residue(HOUR, 3300, boot / HOUR + s.closed, s.next);
  }

  lemma StepCounts(s: State, id: Identity, e: Event)
    ensures var r := Step(s, id, e); r.next - HOUR * r.closed == s.next - HOUR * s.closed
  {
  }

  /** A vote cast at any time is right exactly if the node has closed one phase for every hour since booting. */
  lemma SignsTheMarkIff(boot: nat, id: Identity, events: seq<Event>, now: nat)
    requires var s := Run(boot, id, events); InVotingTime(now) && !s.inPhase && !s.ignore
    ensures var s := Run(boot, id, events);
      && Poll(s, id, now).ballots == s.ballots + [Ballot(now, ToString(s.next))]
      && (ToString(s.next) == ToString(Mark(now)) <==> boot / HOUR + s.closed == now / HOUR)
  {
    var s := Run(boot, id, events);
    NextCountsPhases(boot, id, events);
    ValueOfString(s.next);
    ValueOfString(Mark(now));
  }

  // ----- The votes held, and what a close makes of them -----

  /** Event i closes a phase with at least two votes held. */
  predicate Elects(boot: nat, id: Identity, events: seq<Event>, i: nat)
    requires i < |events|
  {
    var s := Run(boot, id, events[..i]);
    events[i].Polled? && !InVotingTime(events[i].now) && s.inPhase && |s.votes| >= 2
  }

  predicate NoneElectedSince(boot: nat, id: Identity, events: seq<Event>, i: nat) {
    forall j :: i < j < |events| ==> !Elects(boot, id, events, j)
  }

  /** Booted in voting time, a node sits out until it has closed that phase. */
  predicate SitsOut(boot: nat, id: Identity, events: seq<Event>) {
    InVotingTime(boot) && Run(boot, id, events).closed == 0
  }

  /** Event i is a rightly signed vote that comes when the node takes part; none was elected since. */
  predicate Counts(boot: nat, id: Identity, events: seq<Event>, i: nat) {
    && i < |events| && events[i].Voted? && events[i].verified && !SitsOut(boot, id, events[..i])
    && NoneElectedSince(boot, id, events, i)
  }

  /** The vote is the node's own, or came in a message that counts. */
  ghost predicate HasSource(boot: nat, id: Identity, events: seq<Event>, v: Voter) {
    || (exists b :: b in Run(boot, id, events).ballots && v == OwnVote(id, b.text))
    || (exists i: nat :: Counts(boot, id, events, i) && v == VoteOf(events[i].signature, events[i].publicKey))
  }

  predicate HasVoteOf(s: State, publicKey: string) { exists v :: v in s.votes && v.publicKey == publicKey }

  /** Only the node's own key can be there twice. */
  predicate OneVoteEach(s: State, id: Identity) {
    forall j, k :: 0 <= j < k < |s.votes| && s.votes[j].publicKey == s.votes[k].publicKey ==>
      s.votes[j].publicKey == id.publicKey
  }

  predicate HoldsLastCast(s: State, id: Identity) {
    s.inPhase && !s.ignore ==> s.ballots != [] && OwnVote(id, s.ballots[|s.ballots| - 1].text) in s.votes
  }

  predicate IsRight(v: Voter) { v.valid && v.number == CharSum(v.signature) % 0x1_0000_0000 }

  /** Every vote held has a source, every message that counts has its sender's vote held, and no key votes twice. */
  ghost predicate HoldsVotes(boot: nat, id: Identity, events: seq<Event>) {
    var s := Run(boot, id, events);
    && (s.ignore <==> SitsOut(boot, id, events)) && (s.ignore ==> s.votes == [])
    && (forall v :: v in s.votes ==> HasSource(boot, id, events, v) && IsRight(v))
    && (forall i: nat :: Counts(boot, id, events, i) ==> HasVoteOf(s, events[i].publicKey))
    && OneVoteEach(s, id)
    && HoldsLastCast(s, id)
  }

  lemma CountsBefore(boot: nat, id: Identity, events: seq<Event>, e: Event, i: nat)
    requires i < |events| && !Elects(boot, id, events + [e], |events|)
    ensures Counts(boot, id, events, i) <==> Counts(boot, id, events + [e], i)
  {
    var all := events + [e];
    assert all[..i] == events[..i] && all[i] == events[i];
    assert forall j :: i < j < |events| ==> all[..j] == events[..j] && all[j] == events[j];
    assert all[..|events|] == events;
    hide Run;
    assert forall j :: i < j < |events| ==> (Elects(boot, id, all, j) <==> Elects(boot, id, events, j));
  }

  lemma KeepsSource(boot: nat, id: Identity, events: seq<Event>, e: Event, v: Voter)
    requires HasSource(boot, id, events, v) && !Elects(boot, id, events + [e], |events|)
    requires Run(boot, id, events).ballots <= Run(boot, id, events + [e]).ballots
    ensures HasSource(boot, id, events + [e], v)
  {
    hide Run, Elects, OwnVote, VoteOf;
    if i: nat :| Counts(boot, id, events, i) && v == VoteOf(events[i].signature, events[i].publicKey) {
      CountsBefore(boot, id, events, e, i);
      assert (events + [e])[i] == events[i];
    } else {
      assert forall b :: b in Run(boot, id, events).ballots ==> b in Run(boot, id, events + [e]).ballots;
    }
  }

  lemma EventAfter(boot: nat, id: Identity, events: seq<Event>, e: Event)
    ensures Run(boot, id, events + [e]) == Step(Run(boot, id, events), id, e)
    ensures (events + [e])[..|events|] == events
  {
    assert (events + [e])[..|events|] == events;
  }

  lemma SourcesStay(boot: nat, id: Identity, events: seq<Event>, e: Event)
    requires HoldsVotes(boot, id, events) && !Elects(boot, id, events + [e], |events|)
    ensures forall v :: v in Run(boot, id, events + [e]).votes ==> HasSource(boot, id, events + [e], v) && IsRight(v)
  {
    EventAfter(boot, id, events, e);
    var s, s' := Run(boot, id, events), Run(boot, id, events + [e]);
    StepVotes(s, id, e);
    hide Run, Step, Elects, SitsOut, HasSource;
    forall v | v in s'.votes ensures HasSource(boot, id, events + [e], v) && IsRight(v) {
      if v in s.votes { KeepsSource(boot, id, events, e, v); } else { NewSource(boot, id, events, e, v); }
    }
  }

  lemma SendersStay(boot: nat, id: Identity, events: seq<Event>, e: Event)
    requires HoldsVotes(boot, id, events) && !Elects(boot, id, events + [e], |events|)
    ensures forall i: nat ::
      Counts(boot, id, events + [e], i) ==> HasVoteOf(Run(boot, id, events + [e]), (events + [e])[i].publicKey)
  {
    EventAfter(boot, id, events, e);
    StepVotes(Run(boot, id, events), id, e);
    hide Run, Step, Elects, SitsOut, HasVoteOf, HasSource, Counts;
    forall i: nat | Counts(boot, id, events + [e], i)
      ensures HasVoteOf(Run(boot, id, events + [e]), (events + [e])[i].publicKey)
    {
      CountsAfter(boot, id, events, e, i);
    }
  }

  /** No election, so votes are kept; at most one is added, the node's own at its cast or the one in the message. */
  lemma StepHolds(boot: nat, id: Identity, events: seq<Event>, e: Event)
    requires HoldsVotes(boot, id, events) && !Elects(boot, id, events + [e], |events|)
    ensures HoldsVotes(boot, id, events + [e])
  {
    SourcesStay(boot, id, events, e);
    SendersStay(boot, id, events, e);
    EventAfter(boot, id, events, e);
    StepVotes(Run(boot, id, events), id, e);
    hide Run, Step, OwnVote, VoteOf, HasVoteOf, OneVoteEach, HasSource, Counts;
  }

  lemma CountsAfter(boot: nat, id: Identity, events: seq<Event>, e: Event, i: nat)
    requires !Elects(boot, id, events + [e], |events|) && Counts(boot, id, events + [e], i)
    ensures i < |events| ==> Counts(boot, id, events, i) && (events + [e])[i] == events[i]
    ensures i >= |events| ==>
      e.Voted? && e.verified && !SitsOut(boot, id, events) && (events + [e])[i] == e
  {
    assert (events + [e])[..|events|] == events;
    if i < |events| { CountsBefore(boot, id, events, e, i); }
  }

  lemma StepVotes(s: State, id: Identity, e: Event)
    requires e.Polled? && !InVotingTime(e.now) && s.inPhase ==> |s.votes| < 2
    ensures var r := Step(s, id, e);
      && s.votes <= r.votes && s.ballots <= r.ballots
      && (OneVoteEach(s, id) ==> OneVoteEach(r, id))
      && (forall key :: HasVoteOf(s, key) ==> HasVoteOf(r, key))
      && (e.Voted? && e.verified && !s.ignore ==> HasVoteOf(r, e.publicKey))
      && (HoldsLastCast(s, id) ==> HoldsLastCast(r, id))
      && (r.ignore ==> s.ignore && r.votes == s.votes && r.closed == s.closed)
      && (s.ignore && !r.ignore ==> r.closed == s.closed + 1)
      && (r.closed >= s.closed)
  {
  }

  lemma NewSource(boot: nat, id: Identity, events: seq<Event>, e: Event, v: Voter)
    requires v in Run(boot, id, events + [e]).votes && v !in Run(boot, id, events).votes
    requires Run(boot, id, events).ignore <==> SitsOut(boot, id, events)
    ensures HasSource(boot, id, events + [e], v) && IsRight(v)
  {
    EventAfter(boot, id, events, e);
    var s, s' := Run(boot, id, events), Run(boot, id, events + [e]);
    hide Run, Elects, CharSum, Elected, SortBy, ToString;
    if e.Voted? {
      assert Counts(boot, id, events + [e], |events|);
    } else {
      assert s'.ballots[|s.ballots|] in s'.ballots;
      hide Counts, SitsOut;
    }
  }

  lemma ElectionEmpties(s: State, id: Identity, e: Event)
    requires e.Polled? && !InVotingTime(e.now) && s.inPhase && |s.votes| >= 2
    ensures var r := Step(s, id, e); r.votes == [] && !r.ignore && !r.inPhase && r.closed == s.closed + 1
  {
    hide Elected, SortBy, InVotingTime;
  }

  lemma NoneCounts(boot: nat, id: Identity, events: seq<Event>)
    requires events == [] || Elects(boot, id, events, |events| - 1)
    ensures forall i: nat :: !Counts(boot, id, events, i)
  {
    hide Run, SitsOut;
  }

  lemma NoVotesHold(boot: nat, id: Identity, events: seq<Event>)
    requires var s := Run(boot, id, events); s.votes == [] && (s.ignore <==> SitsOut(boot, id, events)) && !s.inPhase
    requires forall i: nat :: !Counts(boot, id, events, i)
    ensures HoldsVotes(boot, id, events)
  {
    hide Run, SitsOut, Counts, HasSource, IsRight, HasVoteOf;
  }

  /** After an election no votes are held, and no message before it counts any more. */
  lemma ElectionHolds(boot: nat, id: Identity, events: seq<Event>)
    requires events != [] && Elects(boot, id, events, |events| - 1)
    ensures HoldsVotes(boot, id, events)
  {
    var n := |events| - 1;
    assert Run(boot, id, events) == Step(Run(boot, id, events[..n]), id, events[n]);
    NoneCounts(boot, id, events);
    ElectionEmpties(Run(boot, id, events[..n]), id, events[n]);
    hide Run, Step, Counts, HoldsVotes;
    NoVotesHold(boot, id, events);
  }

  lemma {:induction false} RunHoldsVotes(boot: nat, id: Identity, events: seq<Event>)
    ensures HoldsVotes(boot, id, events)
  {
    if events != [] {
      var n := |events| - 1;
      RunHoldsVotes(boot, id, events[..n]);
      assert events == events[..n] + [events[n]];
      hide HoldsVotes, Elects, Run;
      if Elects(boot, id, events, n) {
        ElectionHolds(boot, id, events);
      } else {
        StepHolds(boot, id, events[..n], events[n]);
      }
    } else {
      NoneCounts(boot, id, events);
      NoVotesHold(boot, id, events);
    }
  }

  /**
   In every run, a poll that closes a phase elects from the votes held if they are two or more, and drops them; fewer
   elect nobody and are kept.
   */
  lemma CloseElects(boot: nat, id: Identity, events: seq<Event>, now: nat)
    requires Run(boot, id, events).inPhase && !InVotingTime(now)
    ensures var s, r := Run(boot, id, events), Run(boot, id, events + [Polled(now)]);
      if |s.votes| >= 2 then IsElection(r.producers, s.votes) && r.votes == []
      else r.producers == [] && r.votes == s.votes
  {
    OneMorePoll(boot, id, events, now, events + [Polled(now)]);
    var s := Run(boot, id, events);
    ElectsTheLowest(s.votes, SortBy(s.votes, Number));
    hide Elected, IsElection, InVotingTime, Run, CharSum;
  }

  predicate ClosesPhase(s: State, e: Event) { e.Polled? && !InVotingTime(e.now) && s.inPhase }

  /** A phase is open exactly from the first poll in voting time to the first behind it; only its end elects. */
  lemma PhasesTurn(boot: nat, id: Identity, events: seq<Event>, e: Event)
    ensures var s, r := Run(boot, id, events), Run(boot, id, events + [e]);
      && r.inPhase == (if e.Polled? then InVotingTime(e.now) else s.inPhase)
      && r.closed == s.closed + (if ClosesPhase(s, e) then 1 else 0)
      && (!ClosesPhase(s, e) ==> r.producers == s.producers)
      && |r.ballots| == |s.ballots| +
           if e.Polled? && InVotingTime(e.now) && !s.inPhase && !SitsOut(boot, id, events) then 1 else 0
  {
    EventAfter(boot, id, events, e);
    RunHoldsVotes(boot, id, events);
    hide Run, Elected, SortBy, CharSum, InVotingTime;
  }

  /** Two nodes that close a phase with the same votes, no two of them with one number, elect the same. */
  lemma NodesElectTheSame(boot: nat, id: Identity, events: seq<Event>, now: nat,
                          boot': nat, id': Identity, events': seq<Event>, now': nat)
    requires Run(boot, id, events).inPhase && !InVotingTime(now)
    requires Run(boot', id', events').inPhase && !InVotingTime(now')
    requires multiset(Run(boot, id, events).votes) == multiset(Run(boot', id', events').votes)
    requires DistinctKeys(multiset(Run(boot, id, events).votes), Number)
    ensures Run(boot, id, events + [Polled(now)]).producers == Run(boot', id', events' + [Polled(now')]).producers
  {
    OneMorePoll(boot, id, events, now, events + [Polled(now)]);
    OneMorePoll(boot', id', events', now', events' + [Polled(now')]);
    var votes, others := Run(boot, id, events).votes, Run(boot', id', events').votes;
    assert |multiset(votes)| == |multiset(others)|;
    hide Run, Elected, SortBy, InOrder, AtLeast;
    SameElection(votes, others, SortBy(votes, Number), SortBy(others, Number));
  }

  // ----- A node alone -----

  /** No vote of another node is accepted. */
  ghost predicate Alone(boot: nat, id: Identity, events: seq<Event>) {
    forall i :: 0 <= i < |events| && events[i].Voted? ==> IsRefused(Run(boot, id, events[..i]), events[i])
  }

  predicate IsRefused(s: State, e: Event)
    requires e.Voted?
  {
    Register(s, e.signature, e.publicKey, e.verified) == s
  }

  function Own(s: State, id: Identity, k: nat): (v: Voter)
    requires k < |s.ballots|
    ensures v.valid && v.publicKey == id.publicKey
  {
    OwnVote(id, s.ballots[k].text)
  }

  /** The votes a lone node holds: its last one is kept over a close, and then joined by the next one. */
  function LoneVotes(s: State, id: Identity): seq<Voter> {
    var n := |s.ballots|;
    if n % 2 == 1 then [Own(s, id, n - 1)]
    else if n > 0 && s.inPhase then [Own(s, id, n - 2), Own(s, id, n - 1)]
    else []
  }

  ghost predicate IsAlone(s: State, id: Identity) {
    && s.votes == LoneVotes(s, id)
    && (s.ignore ==> s.ballots == [])
    && (s.inPhase && !s.ignore ==> s.ballots != [])
  }

  lemma PollAlone(s: State, id: Identity, now: nat)
    requires IsAlone(s, id)
    ensures IsAlone(Poll(s, id, now), id)
  {
    hide Elected, SortBy, CharSum, ToString, OwnVote;
  }

  lemma {:induction false} RunAlone(boot: nat, id: Identity, events: seq<Event>)
    requires Alone(boot, id, events)
    ensures IsAlone(Run(boot, id, events), id)
  {
    if events != [] {
      var n := |events| - 1;
      assert Alone(boot, id, events[..n]) by {
        forall i | 0 <= i < n && events[i].Voted? ensures IsRefused(Run(boot, id, events[..n][..i]), events[i]) {
          assert events[..n][..i] == events[..i];
        }
      }
      RunAlone(boot, id, events[..n]);
      hide IsAlone;
      var s := Run(boot, id, events[..n]);
      match events[n] {
        case Polled(now) => PollAlone(s, id, now);
        case Voted(_, _, _) => assert IsRefused(s, events[n]);
      }
    }
  }

  /** The producers are the node's last two votes. */
  ghost predicate AreLastTwo(producers: seq<Voter>, s: State, id: Identity) {
    var n := |s.ballots|;
    n >= 2 && multiset(producers) == multiset{Own(s, id, n - 2), Own(s, id, n - 1)}
  }

  lemma CloseAlone(s: State, id: Identity, now: nat)
    requires IsAlone(s, id) && !InVotingTime(now) && s.inPhase
    ensures var r, n := Poll(s, id, now), |s.ballots|;
      if n > 0 && n % 2 == 0 then AreLastTwo(r.producers, s, id) else r.producers == []
  {
    var n := |s.ballots|;
    hide Elected, SortBy, CharSum, ToString, Own, InVotingTime;
    if n > 0 && n % 2 == 0 {
      TwoValid(Own(s, id, n - 2), Own(s, id, n - 1));
    }
  }

  /**
   In every run without votes of others: a round that closes after an even number of the node's own votes elects the
   last two of these, so that the node elects itself, and a round that closes after an odd number, or without any,
   elects nobody.
   */
  lemma LoneNodeElectsItselfIff(boot: nat, id: Identity, events: seq<Event>, now: nat)
    requires Alone(boot, id, events) && !InVotingTime(now) && Run(boot, id, events).inPhase
    ensures var s, r := Run(boot, id, events), Poll(Run(boot, id, events), id, now);
      var n := |s.ballots|;
      if n > 0 && n % 2 == 0 then AreLastTwo(r.producers, s, id) else r.producers == []
  {
    RunAlone(boot, id, events);
    CloseAlone(Run(boot, id, events), id, now);
  }

  lemma LastTwoAreOwn(producers: seq<Voter>, s: State, id: Identity)
    ensures AreLastTwo(producers, s, id) ==>
      producers != [] && forall v :: v in producers ==> v.publicKey == id.publicKey
  {
    assert forall v :: v in producers ==> v in multiset(producers);
  }

  /** If the loop is watchful as well, the clock alone decides: the parity of the votes due by the last poll. */
  lemma LoneNodeByTheClock(boot: nat, id: Identity, events: seq<Event>, now: nat)
    requires Alone(boot, id, events) && !InVotingTime(now) && Run(boot, id, events).inPhase
    requires Watchful(Polls(events))
    ensures var due, r := VotesDue(boot, Polls(events)), Poll(Run(boot, id, events), id, now);
      && (r.producers != [] <==> due > 0 && due % 2 == 0)
      && forall v :: v in r.producers ==> v.publicKey == id.publicKey
  {
    assert |Run(boot, id, events).ballots| == VotesDue(boot, Polls(events)) by { SignsEveryMark(boot, id, events); }
    LoneNodeElectsItselfIff(boot, id, events, now);
    hide *;
    LastTwoAreOwn(Poll(Run(boot, id, events), id, now).producers, Run(boot, id, events), id);
  }

  lemma TwoValid(v: Voter, w: Voter)
    requires v.valid && w.valid
    ensures multiset(Elected(SortBy([v, w], Number))) == multiset{v, w}
  {
    assert [v, w][1..] == [w] && [w][1..] == [];
    assert SortBy([w], Number) == [w];
    assert SortBy([v, w], Number) == if Number(v) <= Number(w) then [v, w] else [w] + [v];
    BothValid(v, w);
    BothValid(w, v);
    assert [w] + [v] == [w, v];
  }

  lemma BothValid(v: Voter, w: Voter)
    requires v.valid && w.valid
    ensures Elected([v, w]) == [v, w]
  {
    assert [v, w][1..] == [w] && [w][1..] == [];
    assert ValidOnes([w]) == [w];
  }

  // ----- The node in memory -----

  lemma TakeNext(producers: seq<Voter>, sorted: seq<Voter>, i: nat)
    requires i < |sorted|
    ensures producers + ValidOnes(sorted[i..]) ==
      (if sorted[i].valid then producers + [sorted[i]] else producers) + ValidOnes(sorted[i + 1..])
  {
  }

  lemma TakenEnough(producers: seq<Voter>, rest: seq<Voter>, sorted: seq<Voter>)
    requires producers + rest == ValidOnes(sorted)
    requires |producers| == TOTAL_MASTER_NODES || (|producers| < TOTAL_MASTER_NODES && rest == [])
    ensures producers == Elected(sorted)
  {
  }

  lemma NoneLeft(sorted: seq<Voter>)
    ensures [] + ValidOnes(sorted[0..]) == ValidOnes(sorted) && ValidOnes(sorted[|sorted|..]) == []
  {
    assert sorted[0..] == sorted;
  }

  /** The loop over the sorted votes. */
  method TakeProducers(sorted: seq<Voter>) returns (producers: seq<Voter>)
    ensures producers == Elected(sorted)
  {
    hide ValidOnes, Elected;
    NoneLeft(sorted);
    producers := [];
    for i := 0 to |sorted|
      invariant |producers| < TOTAL_MASTER_NODES
      invariant producers + ValidOnes(sorted[i..]) == ValidOnes(sorted)
    {
      TakeNext(producers, sorted, i);
      if sorted[i].valid {
        producers := producers + [sorted[i]];
      }
      if |producers| == TOTAL_MASTER_NODES {
        TakenEnough(producers, ValidOnes(sorted[i + 1..]), sorted);
        return;
      }
    }
    TakenEnough(producers, [], sorted);
  }

  class VotingNode {
    const publicKey: string
    const sign: string -> string
    var nextVotingTimestampStr: string
    var inVotingPhase: bool
    var ignoreThisVotingRound: bool
    var randomNumbers: seq<Voter>
    var blockProducers: seq<Voter>
    ghost var ballots: seq<Ballot>
    ghost var closed: nat
    ghost var next: nat

    ghost predicate Valid()
      reads this
    {
      nextVotingTimestampStr == ToString(next)
    }

    ghost function Abs(): State
      reads this
    {
      State(next, inVotingPhase, ignoreThisVotingRound, randomNumbers, blockProducers, ballots, closed)
    }

    ghost function Id(): Identity { Identity(publicKey, sign) }

    constructor (publicKey: string, sign: string -> string, now: nat)
      ensures Valid() && Id() == Identity(publicKey, sign) && Abs() == Boot(now)
    {
      this.publicKey, this.sign := publicKey, sign;
      inVotingPhase, ignoreThisVotingRound := false, false;
      randomNumbers, blockProducers, ballots, closed := [], [], [], 0;
      nextVotingTimestampStr := "";
      new;
      InitializeNextVotingTimestamp(now);
      HourParts(now);
      if InVotingTime(now) {
        ignoreThisVotingRound := true;
      }
    }

    method InitializeNextVotingTimestamp(now: nat)
      modifies this`nextVotingTimestampStr, this`next
      ensures Valid() && next == Mark(now)
    {
      HourParts(now);
      var secondsUntilNextHour := HOUR - SecondsPastHour(now);
      next := now + secondsUntilNextHour - (60 - OPEN_VOTING_START_MINUTE) * 60;
      nextVotingTimestampStr := ToString(now + secondsUntilNextHour - (60 - OPEN_VOTING_START_MINUTE) * 60);
    }

    method UpdateNextVotingTimestamp()
      requires Valid()
      modifies this`nextVotingTimestampStr, this`next
      ensures Valid() && next == old(next) + HOUR
    {
      ValueOfString(next);
      var lastVotingTimestamp := DigitsValue(nextVotingTimestampStr);
      nextVotingTimestampStr := ToString(lastVotingTimestamp + HOUR);
      next := next + HOUR;
    }

    /** The sum of the characters of a signature, in 32 bits. */
    method NumberOf(signature: string) returns (number: nat)
      ensures number == CharSum(signature) % NUMBER_LIMIT
    {
      number := 0;
      for i := 0 to |signature|
        invariant number == CharSum(signature[..i]) % NUMBER_LIMIT
      {
        assert signature[..i + 1][..i] == signature[..i];
        number := (number + signature[i] as int) % NUMBER_LIMIT;
      }
      assert signature[..|signature|] == signature;
    }

    method CastVote(now: nat)
      requires Valid() && InVotingTime(now) && !inVotingPhase && !ignoreThisVotingRound
      modifies this
      ensures Valid() && Abs() == Poll(old(Abs()), Id(), now)
    {
      inVotingPhase := true;
      var signature := sign(nextVotingTimestampStr);
      var number := NumberOf(signature);
      randomNumbers := randomNumbers + [Voter(signature, publicKey, number, true)];
      ballots := ballots + [Ballot(now, nextVotingTimestampStr)];
    }

    method Elect()
      modifies this`randomNumbers, this`blockProducers
      ensures |old(randomNumbers)| > 1 ==>
        blockProducers == Elected(SortBy(old(randomNumbers), Number)) && randomNumbers == []
      ensures |old(randomNumbers)| <= 1 ==> blockProducers == [] && randomNumbers == old(randomNumbers)
    {
      blockProducers := [];
      if |randomNumbers| > 1 {
        randomNumbers := SortBy(randomNumbers, Number);
        blockProducers := TakeProducers(randomNumbers);
        randomNumbers := [];
      }
    }

    method EnterAndExitVotingPhase(now: nat)
      requires Valid()
      modifies this
      ensures Valid() && Abs() == Step(old(Abs()), Id(), Polled(now))
    {
      hide Elected, SortBy, CharSum, ToString;
      if InVotingTime(now) {
        if !inVotingPhase {
          if !ignoreThisVotingRound {
            CastVote(now);
          } else {
            inVotingPhase := true;
          }
        }
      } else if inVotingPhase {
        inVotingPhase := false;
        UpdateNextVotingTimestamp();
        Elect();
        ignoreThisVotingRound := false;
        closed := closed + 1;
      }
    }

    method RegisterVote(signature: string, publicKey: string, verified: bool)
      requires Valid()
      modifies this`randomNumbers
      ensures Valid() && Abs() == Step(old(Abs()), Id(), Voted(signature, publicKey, verified))
    {
      if ignoreThisVotingRound {
        return;
      }
      for i := 0 to |randomNumbers|
        invariant forall k :: 0 <= k < i ==> randomNumbers[k].publicKey != publicKey
      {
        if randomNumbers[i].publicKey == publicKey {
          assert randomNumbers[i] in randomNumbers;
          return;
        }
      }
      if verified {
        var number := NumberOf(signature);
        randomNumbers := randomNumbers + [Voter(signature, publicKey, number, true)];
      }
    }

    method GetBlockProducerFor(timestamp: nat) returns (position: int)
      ensures position == BlockProducerFor(timestamp, |blockProducers|)
      ensures blockProducers != [] ==> 0 <= position < |blockProducers|
    {
      if |blockProducers| < 1 {
        return -1;
      }
      position := SecondsPastHour(timestamp) % |blockProducers|;
    }
  }
}
