/**
 The two resumable, permuting option scanners of the repository.

 An argument is seen as the scanners see it: an operand, "--", or an option
 entry that one call reads, plus one call for each further letter of a cluster,
 and that may then take the following entry, whatever it is, as its argument.
 Each call of a scanner moves entries of argv; over a whole scan both leave
 exactly Arrangement of the original vector, with optind at the first operand.
 */
module GetoptScan {
  import opened ArgvRotation

  datatype Arg = Operand(text: string) | DashDash | Option(text: string, further: nat, takesNext: bool)

  /** What a call returns: a letter of an option entry, numbered from 0, with the argument if it takes one. */
  datatype Outcome =
    | Letter(entry: Arg, index: nat)
    | WithArgument(entry: Arg, index: nat, optarg: Arg)
    | MissingArgument(entry: Arg, index: nat)
    | Done

  /** What a scan makes of the entries it is given. */
  datatype Sorting = Sorting(options: seq<Arg>, operands: seq<Arg>, rest: seq<Arg>)

  /** Number of entries an option occupies at the head of args. */
  function Span(args: seq<Arg>): (n: nat)
    requires args != [] && args[0].Option?
    ensures 1 <= n <= |args|
  {
    if args[0].takesNext && |args| > 1 then 2 else 1
  }

  /** Options with their arguments, skipped operands, and what follows "--", each in order. */
  function Classify(args: seq<Arg>): (s: Sorting)
    ensures |s.options| + |s.operands| + |s.rest| == |args|
  {
    if args == [] then Sorting([], [], [])
    else match args[0]
      case Operand(_) => var s := Classify(args[1..]); s.(operands := [args[0]] + s.operands)
      case DashDash => Sorting(args[..1], [], args[1..])
      case Option(_, _, _) =>
        var s := Classify(args[Span(args)..]);
        s.(options := args[..Span(args)] + s.options)
  }

  /** The vector a finished scan from index base leaves behind. */
  function Arrangement(v: seq<Arg>, base: nat): (r: seq<Arg>)
    requires base <= |v|
    ensures |r| == |v|
  {
    var s := Classify(v[base..]);
    v[..base] + s.options + s.operands + s.rest
  }

  // ----- What the calls of a scan return -----

  /** The call for the last letter of an entry finds its argument, if it takes one, in the entry that follows. */
  function LastLetter(args: seq<Arg>): Outcome
    requires args != [] && args[0].Option?
  {
    if !args[0].takesNext then Letter(args[0], args[0].further)
    else if |args| > 1 then WithArgument(args[0], args[0].further, args[1])
    else MissingArgument(args[0], args[0].further)
  }

  function LettersOf(args: seq<Arg>): (r: seq<Outcome>)
    requires args != [] && args[0].Option?
    ensures |r| == args[0].further + 1 && r[args[0].further] == LastLetter(args)
    ensures forall i :: 0 <= i < args[0].further ==> r[i] == Letter(args[0], i)
  {
    seq(args[0].further, i requires i >= 0 => Letter(args[0], i)) + [LastLetter(args)]
  }

  /** One call for each letter of each option entry up to "--", in order; operands and arguments yield none. */
  function Calls(args: seq<Arg>): (r: seq<Outcome>) {
    if args == [] then []
    else match args[0]
      case Operand(_) => Calls(args[1..])
      case DashDash => []
      case Option(_, _, _) => LettersOf(args) + Calls(args[Span(args)..])
  }

  /** Operands make no difference: the calls are those for the option entries and their arguments alone. */
  lemma {:induction false} CallsOfOptions(args: seq<Arg>)
    ensures Calls(args) == Calls(Classify(args).options)
  {
    if args != [] {
      match args[0]
      case Operand(_) => CallsOfOptions(args[1..]);
      case DashDash =>
      case Option(_, _, _) =>
        var n := Span(args);
        var rest := Classify(args[n..]).options;
        CallsOfOptions(args[n..]);
        var options := args[..n] + rest;
        assert n == 1 && args[0].takesNext ==> rest == [];
        assert options[..n] == args[..n] && options[n..] == rest;
        assert LettersOf(options) == LettersOf(args);
    }
  }

  /** An argument is missing only at the end: at the last letter of an option that stands last and takes an argument. */
  lemma {:induction false} MissingStandsLast(args: seq<Arg>, k: nat)
    requires k < |Calls(args)|
    ensures Calls(args)[k] != Done
    ensures Calls(args)[k].MissingArgument? ==>
      var last := args[|args| - 1];
      && k == |Calls(args)| - 1 && last.Option? && last.takesNext
      && Calls(args)[k] == MissingArgument(last, last.further)
  {
    match args[0]
    case Operand(_) => MissingStandsLast(args[1..], k);
    case Option(_, _, _) =>
      var n := Span(args);
      if k > args[0].further { MissingStandsLast(args[n..], k - args[0].further - 1); }
  }

  /** The calls so far, and those still to come after read letters of the entry at optind, make up those of the scan. */
  ghost predicate Told(calls: seq<Outcome>, orig: seq<Arg>, base: nat, optind: nat, read: int) {
    && base <= |orig| && optind <= |orig| && 0 <= read <= |Calls(orig[optind..])|
    && calls + Calls(orig[optind..])[read..] == Calls(orig[base..])
  }

  lemma ReadIsFew(calls: seq<Outcome>, orig: seq<Arg>, base: nat, optind: nat, read: int)
    requires Told(calls, orig, base, optind, read)
    ensures read >= 0
  {
  }

  lemma NothingTold(orig: seq<Arg>, base: nat)
    requires base <= |orig|
    ensures Told([], orig, base, base, 0)
  {
  }

  lemma TellOperand(calls: seq<Outcome>, orig: seq<Arg>, base: nat, optind: nat)
    requires Told(calls, orig, base, optind, 0) && optind < |orig| && orig[optind].Operand?
    ensures Told(calls, orig, base, optind + 1, 0)
  {
    assert orig[optind..][1..] == orig[optind + 1..];
  }

  lemma TellLetter(calls: seq<Outcome>, orig: seq<Arg>, base: nat, optind: nat, read: nat)
    requires Told(calls, orig, base, optind, read) && optind < |orig| && orig[optind].Option?
    requires read < orig[optind].further
    ensures Told(calls + [Letter(orig[optind], read)], orig, base, optind, read + 1)
  {
    var ahead := Calls(orig[optind..]);
    assert ahead[read] == LettersOf(orig[optind..])[read];
    assert ahead[read..] == [ahead[read]] + ahead[read + 1..];
    assert calls + ([ahead[read]] + ahead[read + 1..]) == calls + [ahead[read]] + ahead[read + 1..];
  }

  lemma TellLast(calls: seq<Outcome>, orig: seq<Arg>, base: nat, optind: nat)
    requires optind < |orig| && orig[optind].Option? && Told(calls, orig, base, optind, orig[optind].further)
    ensures var args := orig[optind..];
      Told(calls + [LastLetter(args)], orig, base, optind + Span(args), 0)
  {
    var args, read := orig[optind..], orig[optind].further;
    assert args[Span(args)..] == orig[optind + Span(args)..];
    var ahead := Calls(args);
    assert ahead[read..] == [LastLetter(args)] + Calls(args[Span(args)..]);
    assert calls + ([LastLetter(args)] + Calls(args[Span(args)..])) ==
      calls + [LastLetter(args)] + Calls(args[Span(args)..]);
  }

  lemma TellEnd(calls: seq<Outcome>, orig: seq<Arg>, base: nat, optind: nat)
    requires Told(calls, orig, base, optind, 0) && (optind < |orig| ==> orig[optind].DashDash?)
    ensures base <= |orig| && calls == Calls(orig[base..])
  {
  }

  // ----- What a scan makes of the vector -----

  lemma {:induction false} ClassifyIsPermutation(args: seq<Arg>)
    ensures var s := Classify(args); multiset(s.options) + multiset(s.operands) + multiset(s.rest) == multiset(args)
  {
    if args != [] {
      var n := if args[0].Option? then Span(args) else 1;
      assert args == args[..n] + args[n..];
      match args[0]
      case DashDash =>
      case Operand(_) => ClassifyIsPermutation(args[n..]); assert args[..n] == [args[0]];
      case Option(_, _, _) => ClassifyIsPermutation(args[n..]);
    }
  }

  /** Only operands are skipped, and only "--" ends the scan early: it is then the last option read. */
  lemma {:induction false} WhatIsSkipped(args: seq<Arg>)
    ensures var s := Classify(args);
      && (forall i :: 0 <= i < |s.operands| ==> s.operands[i].Operand?)
      && (s.rest != [] ==> s.options != [] && s.options[|s.options| - 1].DashDash?)
      && (DashDash !in args ==> s.rest == [])
  {
    if args != [] && !args[0].DashDash? {
      WhatIsSkipped(args[if args[0].Option? then Span(args) else 1..]);
    }
  }

  /** A finished scan has only moved entries. */
  lemma ArrangementIsPermutation(v: seq<Arg>, base: nat)
    requires base <= |v|
    ensures multiset(Arrangement(v, base)) == multiset(v)
  {
    ClassifyIsPermutation(v[base..]);
    assert v == v[..base] + v[base..];
  }

  // ----- The state of a scan -----

  /**
   A scan begun at base with vector orig has reached optind: v[first..last] are the operands
   skipped so far, the options read lie on both sides of them, and left sorts what is ahead.
   */
  ghost predicate Scanned(v: seq<Arg>, orig: seq<Arg>, base: nat, first: nat, last: nat, optind: nat, left: Sorting) {
    && base <= first <= last <= optind <= |v| == |orig|
    && v[..base] == orig[..base] && v[optind..] == orig[optind..]
    && Classify(orig[base..]) ==
       Sorting(v[base..first] + v[last..optind] + left.options, v[first..last] + left.operands, left.rest)
  }

  ghost predicate Reached(v: seq<Arg>, orig: seq<Arg>, base: nat, first: nat, last: nat, optind: nat) {
    optind <= |orig| && Scanned(v, orig, base, first, last, optind, Classify(orig[optind..]))
  }

  /** At any point of a scan, entries have only been moved. */
  lemma ReachedIsPermutation(v: seq<Arg>, orig: seq<Arg>, base: nat, first: nat, last: nat, optind: nat)
    requires Reached(v, orig, base, first, last, optind)
    ensures multiset(v) == multiset(orig)
  {
    var left := Classify(orig[optind..]);
    ClassifyIsPermutation(orig[base..]);
    ClassifyIsPermutation(orig[optind..]);
    assert orig == orig[..base] + orig[base..];
    hide *;
    InFive(v, base, first, last, optind);
    SameParts(v[base..first], v[last..optind], left.options, v[first..last], left.operands, left.rest);
  }

  lemma InFive(v: seq<Arg>, base: nat, first: nat, last: nat, optind: nat)
    requires base <= first <= last <= optind <= |v|
    ensures multiset(v) == multiset(v[..base]) + multiset(v[base..first]) + multiset(v[first..last]) +
                           multiset(v[last..optind]) + multiset(v[optind..])
  {
    assert v == v[..base] + v[base..first] + v[first..last] + v[last..optind] + v[optind..];
  }

  lemma SameParts(a: seq<Arg>, b: seq<Arg>, c: seq<Arg>, d: seq<Arg>, e: seq<Arg>, f: seq<Arg>)
    ensures multiset(a + b + c) + multiset(d + e) + multiset(f) ==
      multiset(a) + multiset(d) + multiset(b) + (multiset(c) + multiset(e) + multiset(f))
  {
  }

  lemma SameAhead(v: seq<Arg>, orig: seq<Arg>, base: nat, first: nat, last: nat, optind: nat, left: Sorting)
    requires Scanned(v, orig, base, first, last, optind, left)
    ensures v[optind..] == orig[optind..] && (optind < |v| ==> v[optind] == orig[optind])
  {
    if optind < |v| { assert v[optind] == v[optind..][0] == orig[optind..][0]; }
  }

  lemma StartScan(v: seq<Arg>, base: nat)
    requires base <= |v|
    ensures Reached(v, v, base, base, base, base)
  {
  }

  /** An empty block of operands may be marked anywhere. */
  lemma Collapse(v: seq<Arg>, orig: seq<Arg>, base: nat, first: nat, optind: nat, left: Sorting)
    requires Scanned(v, orig, base, first, first, optind, left)
    ensures Scanned(v, orig, base, optind, optind, optind, left)
  {
  }

  /** An operand next to the block of operands joins it. */
  lemma SkipOperand(v: seq<Arg>, orig: seq<Arg>, base: nat, first: nat, optind: nat)
    requires Reached(v, orig, base, first, optind, optind) && optind < |v| && v[optind].Operand?
    ensures Reached(v, orig, base, first, optind + 1, optind + 1)
  {
    var args := orig[optind..];
    assert v[optind..] == args && args[0] == v[optind] && args[1..] == orig[optind + 1..];
    var rest := Classify(args[1..]);
    assert Classify(args) == rest.(operands := [args[0]] + rest.operands);
    hide Classify;
    assert v[optind + 1..] == v[optind..][1..];
    assert v[first..optind] + ([args[0]] + rest.operands) == v[first..optind + 1] + rest.operands;
  }

  /** Exchanging the operands with the options behind them leaves all options in front. */
  lemma MoveOperands(v: seq<Arg>, w: seq<Arg>, orig: seq<Arg>, base: nat, first: nat, last: nat, optind: nat,
      left: Sorting)
    requires Scanned(v, orig, base, first, last, optind, left)
    requires first <= last <= optind <= |v| && w == Exchanged(v, first, last, optind)
    ensures Scanned(w, orig, base, first + (optind - last), optind, optind, left)
    ensures forall i :: optind <= i < |v| ==> w[i] == v[i]
  {
  }

  /** Entries ahead that count as options join them when they are passed. */
  lemma PassEntries(v: seq<Arg>, orig: seq<Arg>, base: nat, first: nat, last: nat, optind: nat, n: nat, s: Sorting)
    requires optind + n <= |v|
    requires Scanned(v, orig, base, first, last, optind, s.(options := v[optind..optind + n] + s.options))
    ensures Scanned(v, orig, base, first, last, optind + n, s)
    ensures first == last ==> Scanned(v, orig, base, optind + n, optind + n, optind + n, s)
  {
    hide Classify;
    MoveOver(v[base..first], v[last..optind], v[optind..optind + n], s.options);
    assert v[last..optind] + v[optind..optind + n] == v[last..optind + n];
    assert v[optind + n..] == v[optind..][n..] && orig[optind + n..] == orig[optind..][n..];
    if first == last { Collapse(v, orig, base, first, optind + n, s); }
  }

  lemma MoveOver(a: seq<Arg>, b: seq<Arg>, c: seq<Arg>, d: seq<Arg>)
    ensures a + b + (c + d) == a + (b + c) + d
  {
  }

  /** Reading an option with its argument adds them to the options. */
  lemma ReadOption(v: seq<Arg>, orig: seq<Arg>, base: nat, first: nat, last: nat, optind: nat)
    requires Reached(v, orig, base, first, last, optind) && optind < |v| && v[optind].Option?
    ensures var next := optind + if v[optind].takesNext && optind + 1 < |v| then 2 else 1;
      Reached(v, orig, base, first, last, next) && (first == last ==> Reached(v, orig, base, next, next, next))
  {
    var args := orig[optind..];
    assert v[optind..] == args && args[0] == v[optind];
    var n := Span(args);
    assert args[n..] == orig[optind + n..] && args[..n] == v[optind..optind + n];
    var rest := Classify(args[n..]);
    assert Classify(args) == rest.(options := args[..n] + rest.options);
    hide Scanned, Classify, Span;
    PassEntries(v, orig, base, first, last, optind, n, Classify(args[n..]));
  }

  lemma ReadDashDash(v: seq<Arg>, orig: seq<Arg>, base: nat, first: nat, last: nat, optind: nat)
    requires Reached(v, orig, base, first, last, optind) && optind < |v| && v[optind].DashDash?
    ensures var left, next := Sorting([], [], orig[optind + 1..]), optind + 1;
      Scanned(v, orig, base, first, last, next, left) && (first == last ==>
        Scanned(v, orig, base, next, next, next, left))
  {
    var args := orig[optind..];
    assert v[optind..] == args && args[0] == v[optind];
    assert args[1..] == orig[optind + 1..] && args[..1] == v[optind..optind + 1] && args[..1] + [] == args[..1];
    PassEntries(v, orig, base, first, last, optind, 1, Sorting([], [], orig[optind + 1..]));
  }

  lemma NothingAhead(v: seq<Arg>, orig: seq<Arg>, base: nat, first: nat, last: nat, optind: nat)
    requires Reached(v, orig, base, first, last, optind) && optind == |v|
    ensures Scanned(v, orig, base, first, last, optind, Sorting([], [], orig[optind..]))
  {
  }

  lemma FinishScan(v: seq<Arg>, orig: seq<Arg>, base: nat, first: nat, optind: nat)
    requires optind <= |orig| && Scanned(v, orig, base, first, optind, optind, Sorting([], [], orig[optind..]))
    ensures v == Arrangement(orig, base) && first == base + |Classify(orig[base..]).options|
  {
  }

  /** getopt_internal of shared/wingetopts.h, called with FLAG_PERMUTE. */
  class BsdScanner {
    const argv: array<Arg>
    var optind: nat
    var place: nat // letters of argv[optind] still to be read; 0 stands for the empty scanning pointer
    var nonoptStart: int
    var nonoptEnd: int

    ghost var base: nat // where the present scan began ...
    ghost var orig: seq<Arg> // ... and argv at that moment
    ghost var calls: seq<Outcome> // what the calls of the scan have returned

    ghost function First(): nat
      reads this
    {
      if nonoptStart < 0 then optind else nonoptStart
    }

    ghost function Last(): nat
      reads this
    {
      if nonoptEnd < 0 then optind else nonoptEnd
    }

    /** Letters read of the entry at optind. */
    ghost function Read(): int
      reads this, argv
    {
      if place == 0 || optind >= argv.Length || !argv[optind].Option? then 0 else argv[optind].further + 1 - place
    }

    /** Between two arguments: the marks are consistent and describe the scan so far. */
    ghost predicate Marked(left: Sorting)
      reads this, argv
    {
      && -1 <= nonoptStart && -1 <= nonoptEnd && (nonoptStart == -1 ==> nonoptEnd == -1)
      && base <= First() <= Last() <= optind <= argv.Length == |orig|
      && (nonoptStart != -1 ==> First() < Last())
      && Scanned(argv[..], orig, base, First(), Last(), optind, left)
    }

    ghost predicate Valid()
      reads this, argv
    {
      && optind <= |orig| && Marked(Classify(orig[optind..]))
      && (nonoptStart != -1 ==> nonoptEnd != -1 && (place == 0 ==> nonoptEnd < optind))
      && (place > 0 ==> optind < argv.Length && argv[optind].Option?)
      && Told(calls, orig, base, optind, Read())
    }

    /** In an option entry, before its next letter is read. */
    ghost predicate OnOption()
      reads this, argv
    {
      && place > 0 && optind < |orig| && Marked(Classify(orig[optind..])) && (nonoptStart != -1 ==> nonoptEnd != -1)
      && argv[optind].Option? && Told(calls, orig, base, optind, Read())
    }

    constructor (argv: array<Arg>, optind: nat)
      requires optind <= argv.Length
      ensures Valid() && this.argv == argv && this.optind == base == optind && orig == argv[..] && calls == []
      ensures place == 0
    {
      StartScan(argv[..], optind);
      NothingTold(argv[..], optind);
      this.argv, this.optind, this.place := argv, optind, 0;
      nonoptStart, nonoptEnd := -1, -1;
      base, orig, calls := optind, argv[..], [];
    }

    /** One operand passed; options read since the last operands go before these first. */
    method PassOperand()
      requires optind < |orig| == argv.Length && Marked(Classify(orig[optind..])) && argv[optind].Operand?
      requires (nonoptEnd != -1 ==> nonoptEnd < optind) && Told(calls, orig, base, optind, 0)
      modifies this`optind, this`nonoptStart, this`nonoptEnd, argv
      ensures optind == old(optind) + 1 <= |orig| && Marked(Classify(orig[optind..])) && nonoptEnd == -1
      ensures Told(calls, orig, base, optind, 0)
    {
      hide Scanned, Exchanged, Classify, Told;
      SameAhead(argv[..], orig, base, First(), Last(), optind, Classify(orig[optind..]));
      TellOperand(calls, orig, base, optind);
      if nonoptStart == -1 {
        nonoptStart := optind;
      } else if nonoptEnd != -1 {
        ghost var before := argv[..];
        PermuteArgs(argv, nonoptStart, nonoptEnd, optind);
        MoveOperands(before, argv[..], orig, base, First(), Last(), optind, Classify(orig[optind..]));
        nonoptStart := optind - (nonoptEnd - nonoptStart);
        nonoptEnd := -1;
      }
      SkipOperand(argv[..], orig, base, First(), optind);
      optind := optind + 1;
    }

    /** The part of a call that passes over operands, up to an option, "--" or the end. */
    method SkipOperands()
      requires Valid() && place == 0
      modifies this`optind, this`nonoptStart, this`nonoptEnd, argv
      ensures optind <= |orig| && Marked(Classify(orig[optind..])) && optind >= old(optind)
      ensures Told(calls, orig, base, optind, 0)
      ensures nonoptEnd != -1 ==> nonoptEnd < optind
      ensures optind < argv.Length ==> !argv[optind].Operand?
    {
      hide Scanned, Exchanged, Classify, Told;
      while optind < argv.Length && argv[optind].Operand?
        invariant optind <= |orig| == argv.Length && Marked(Classify(orig[optind..])) && optind >= old(optind)
        invariant nonoptEnd != -1 ==> nonoptEnd < optind
        invariant Told(calls, orig, base, optind, 0)
        decreases argv.Length - optind
      {
        PassOperand();
      }
    }

    /** The end of a scan: optind becomes the first operand, after moving the operands if need be. */
    method Finish()
      requires optind <= |orig| && Marked(Sorting([], [], orig[optind..])) && (nonoptEnd != -1 ==> nonoptEnd < optind)
      modifies this, argv
      ensures Valid() && place == 0 && base == optind && orig == argv[..] && calls == []
      ensures old(base) <= |old(orig)| && argv[..] == Arrangement(old(orig), old(base))
      ensures optind == old(base) + |Classify(old(orig)[old(base)..]).options|
    {
      hide Scanned, Exchanged, Classify, Arrangement, Told;
      ghost var left := Sorting([], [], orig[optind..]);
      if nonoptEnd != -1 {
        ghost var before := argv[..];
        PermuteArgs(argv, nonoptStart, nonoptEnd, optind);
        MoveOperands(before, argv[..], orig, base, First(), Last(), optind, left);
        FinishScan(argv[..], orig, base, First() + (optind - Last()), optind);
        optind := optind - (nonoptEnd - nonoptStart);
      } else if nonoptStart != -1 {
        FinishScan(argv[..], orig, base, First(), optind);
        optind := nonoptStart;
      } else {
        FinishScan(argv[..], orig, base, First(), optind);
      }
      nonoptStart, nonoptEnd, place := -1, -1, 0;
      base, orig, calls := optind, argv[..], [];
      StartScan(orig, base);
      NothingTold(orig, base);
    }

    /** The scan ends at the end of the vector, or behind "--". */
    method EndScan()
      requires optind <= |orig| && Marked(Classify(orig[optind..])) && place == 0
      requires optind == argv.Length || (argv[optind].DashDash? && (nonoptStart != -1 ==> nonoptEnd != -1))
      requires optind == argv.Length && nonoptEnd != -1 ==> nonoptEnd < optind
      requires Told(calls, orig, base, optind, 0)
      modifies this, argv
      ensures Valid() && place == 0 && base == optind && orig == argv[..] && calls == []
      ensures old(base) <= |old(orig)| && old(calls) == Calls(old(orig)[old(base)..])
      ensures old(base) <= |old(orig)| && argv[..] == Arrangement(old(orig), old(base))
      ensures optind == old(base) + |Classify(old(orig)[old(base)..]).options|
    {
      hide Scanned, Exchanged, Classify, Arrangement, Told;
      SameAhead(argv[..], orig, base, First(), Last(), optind, Classify(orig[optind..]));
      TellEnd(calls, orig, base, optind);
      if optind == argv.Length {
        NothingAhead(argv[..], orig, base, First(), Last(), optind);
      } else {
        ReadDashDash(argv[..], orig, base, First(), Last(), optind);
        optind := optind + 1;
      }
      Finish();
    }

    /** The update of the scanning pointer: place is set on the next option entry, unless the scan ends. */
    method NextEntry() returns (ended: bool)
      requires Valid() && place == 0
      modifies this, argv
      ensures ended ==> Valid() && orig == argv[..]
      ensures ended ==> old(base) <= |old(orig)| && argv[..] == Arrangement(old(orig), old(base))
      ensures ended ==> optind == base == old(base) + |Classify(old(orig)[old(base)..]).options|
      ensures ended ==> old(calls) == Calls(old(orig)[old(base)..]) && calls == []
      ensures !ended ==>
        orig == old(orig) && base == old(base) && calls == old(calls) && old(optind) <= optind && OnOption()
    {
      hide Scanned, Exchanged, Classify, Arrangement, Told;
      SkipOperands();
      if optind < argv.Length {
        if nonoptStart != -1 && nonoptEnd == -1 {
          nonoptEnd := optind;
        }
        if !argv[optind].DashDash? {
          place := argv[optind].further + 1;
          return false;
        }
      }
      EndScan();
      return true;
    }

    ghost function Entries(): multiset<Arg>
      reads argv
    {
      multiset(argv[..])
    }

    lemma IsPermutation()
      requires Valid()
      ensures Entries() == multiset(orig) && (place > 0 ==> OnOption())
    {
      ReachedIsPermutation(argv[..], orig, base, First(), Last(), optind);
    }

    /** The next letter of the entry; behind the last one the entry is passed, with the option's argument. */
    method ReadLetter() returns (r: Outcome)
      requires OnOption()
      modifies this`optind, this`place, this`calls
      ensures Valid() && !r.Done? && calls == old(calls) + [r]
      ensures optind >= old(optind) && (optind == old(optind) ==> 0 < place < old(place))
    {
      hide Scanned, Exchanged, Classify, Arrangement, Told;
      SameAhead(argv[..], orig, base, First(), Last(), optind, Classify(orig[optind..]));
      ReadIsFew(calls, orig, base, optind, Read());
      place := place - 1;
      if place > 0 {
        r := Letter(argv[optind], argv[optind].further - place);
        TellLetter(calls, orig, base, optind, r.index);
        calls := calls + [r];
        return;
      }
      r := FinishOption();
    }

    /** One call of getopt_internal. */
    method GetoptInternal() returns (r: Outcome)
      requires Valid()
      modifies this, argv
      ensures Valid() && Entries() == old(Entries())
      ensures r.Done? ==> old(base) <= |old(orig)| && argv[..] == Arrangement(old(orig), old(base)) && orig == argv[..]
      ensures r.Done? ==> optind == base == old(base) + |Classify(old(orig)[old(base)..]).options|
      ensures r.Done? ==> old(calls) == Calls(old(orig)[old(base)..]) && calls == []
      ensures !r.Done? ==> orig == old(orig) && base == old(base) && optind >= old(optind) && calls == old(calls) + [r]
      ensures !r.Done? && optind == old(optind) ==> place > 0 && (old(place) == 0 || place < old(place))
    {
      hide *;
      IsPermutation();
      if place == 0 {
        var ended := NextEntry();
        if ended {
          IsPermutation();
          ArrangementIsPermutation(old(orig), old(base));
          return Done;
        }
      }
      r := ReadLetter();
      IsPermutation();
    }

    /** Calling until the scan ends: whatever the options, argv and optind end as Arrangement says. */
    method ScanAll() returns (outcomes: seq<Outcome>)
      requires Valid() && place == 0 && base == optind && orig == argv[..] && calls == []
      modifies this, argv
      ensures argv[..] == Arrangement(old(argv[..]), old(optind))
      ensures multiset(argv[..]) == multiset(old(argv[..]))
      ensures optind == old(optind) + |Classify(old(argv[..])[old(optind)..]).options|
      ensures outcomes == Calls(old(argv[..])[old(optind)..])
    {
      hide Scanned, Exchanged, Classify, Arrangement, Told, Calls;
      ghost var start, v := optind, argv[..];
      outcomes := [];
      var r := GetoptInternal();
      while !r.Done?
        invariant Valid() && optind <= argv.Length && (!r.Done? ==> base == start && orig == v)
        invariant !r.Done? ==> calls == outcomes + [r]
        invariant r.Done? ==> argv[..] == Arrangement(v, start) && optind == start + |Classify(v[start..]).options|
        invariant r.Done? ==> outcomes == Calls(v[start..])
        decreases !r.Done?, argv.Length - optind, place == 0, place
      {
        outcomes := outcomes + [r];
        r := GetoptInternal();
      }
      ArrangementIsPermutation(v, start);
    }

    /** The last letter of an option entry: the entry is passed, and the next one if it is the argument. */
    method FinishOption() returns (r: Outcome)
      requires optind < |orig| && Marked(Classify(orig[optind..])) && (nonoptStart != -1 ==> nonoptEnd != -1)
      requires place == 0 && argv[optind].Option? && Told(calls, orig, base, optind, argv[optind].further)
      modifies this`optind, this`calls
      ensures Valid() && !r.Done? && optind > old(optind) && calls == old(calls) + [r]
    {
      hide Scanned, Exchanged, Classify, Arrangement, Told;
      SameAhead(argv[..], orig, base, First(), Last(), optind, Classify(orig[optind..]));
      ReadOption(argv[..], orig, base, First(), Last(), optind);
      TellLast(calls, orig, base, optind);
      calls := calls + [LastLetter(orig[optind..])];
      var entry := argv[optind];
      r := Letter(entry, entry.further);
      if entry.takesNext {
        optind := optind + 1;
        if optind >= argv.Length {
          return MissingArgument(entry, entry.further);
        }
        r := WithArgument(entry, entry.further, argv[optind]);
      }
      optind := optind + 1;
    }
  }

  function Min(a: nat, b: nat): nat { if a > b then b else a }

  /** _getopt_internal_r_a of BlockChainCommon/wingetopts.cpp, with ordering PERMUTE. */
  class GnuScanner {
    const argv: array<Arg>
    var optind: nat
    var nextchar: nat // letters of argv[optind] still to be read
    var firstNonopt: nat
    var lastNonopt: nat

    ghost var base: nat
    ghost var orig: seq<Arg>
    ghost var calls: seq<Outcome>

    ghost function Read(): int
      reads this, argv
    {
      if nextchar == 0 || optind >= argv.Length || !argv[optind].Option? then 0
      else argv[optind].further + 1 - nextchar
    }

    ghost predicate Marked(left: Sorting)
      reads this, argv
    {
      && base <= firstNonopt <= lastNonopt <= optind <= argv.Length == |orig|
      && Scanned(argv[..], orig, base, firstNonopt, lastNonopt, optind, left)
    }

    /** After a scan, lastNonopt may lie beyond the first operand; the next call clamps it. */
    ghost predicate Ended()
      reads this, argv
    {
      base == optind == firstNonopt <= lastNonopt <= argv.Length && orig == argv[..] && nextchar == 0 && calls == []
    }

    ghost predicate Valid()
      reads this, argv
    {
      && optind <= argv.Length == |orig|
      && ((Marked(Classify(orig[optind..])) && Told(calls, orig, base, optind, Read())) || Ended())
      && (nextchar > 0 ==> optind < argv.Length && argv[optind].Option?)
    }

    ghost predicate OnOption()
      reads this, argv
    {
      && nextchar > 0 && optind < |orig| && Marked(Classify(orig[optind..])) && argv[optind].Option?
      && Told(calls, orig, base, optind, Read())
    }

    constructor (argv: array<Arg>, optind: nat)
      requires optind <= argv.Length
      ensures Valid() && this.argv == argv && nextchar == 0 && this.optind == base == optind && orig == argv[..]
      ensures calls == []
    {
      this.argv, this.optind, nextchar := argv, optind, 0;
      firstNonopt, lastNonopt := optind, optind;
      base, orig, calls := optind, argv[..], [];
    }

    /** exchange_a: the blocks are exchanged and the marks follow the operands. */
    method Exchange(ghost left: Sorting)
      requires Marked(left)
      modifies argv, this`firstNonopt, this`lastNonopt
      ensures Marked(left) && lastNonopt == optind
      ensures argv[..] == Exchanged(old(argv[..]), old(firstNonopt), old(lastNonopt), optind)
      ensures firstNonopt == old(firstNonopt) + (optind - old(lastNonopt))
      ensures argv[firstNonopt..lastNonopt] == old(argv[firstNonopt..lastNonopt])
      ensures forall i :: optind <= i < argv.Length ==> argv[i] == old(argv[i])
    {
      hide Scanned, Classify;
      ghost var before := argv[..];
      ExchangeBlocks(argv, firstNonopt, lastNonopt, optind);
      MoveOperands(before, argv[..], orig, base, firstNonopt, lastNonopt, optind, left);
      firstNonopt := firstNonopt + (optind - lastNonopt);
      lastNonopt := optind;
    }

    /** The marks are clamped, and options read since the last operands go before these. */
    method MovePending()
      requires Valid() && nextchar == 0
      modifies this`firstNonopt, this`lastNonopt, argv
      ensures optind <= |orig| == argv.Length && base <= firstNonopt <= optind
      ensures Scanned(argv[..], orig, base, firstNonopt, optind, optind, Classify(orig[optind..]))
      ensures Told(calls, orig, base, optind, 0)
    {
      hide Scanned, Exchanged, Classify, Told;
      if Ended() {
        StartScan(orig, base);
        NothingTold(orig, base);
      }
      lastNonopt := Min(lastNonopt, optind);
      firstNonopt := Min(firstNonopt, optind);
      if firstNonopt != lastNonopt && lastNonopt != optind {
        Exchange(Classify(orig[optind..]));
      } else if lastNonopt != optind {
        Collapse(argv[..], orig, base, firstNonopt, optind, Classify(orig[optind..]));
        firstNonopt := optind;
      }
    }

    /** The permuting prefix of a call: options since the last operands go before them, then operands are passed. */
    method SkipOperands()
      requires Valid() && nextchar == 0
      modifies this`optind, this`firstNonopt, this`lastNonopt, argv
      ensures orig == old(orig) && base == old(base) && optind >= old(optind)
      ensures optind <= |orig| && Marked(Classify(orig[optind..])) && lastNonopt == optind
      ensures Told(calls, orig, base, optind, 0)
      ensures optind < argv.Length ==> !argv[optind].Operand?
    {
      hide Scanned, Exchanged, Classify, Told;
      MovePending();
      while optind < argv.Length && argv[optind].Operand?
        invariant optind <= |orig| == argv.Length && optind >= old(optind) && base <= firstNonopt <= optind
        invariant Scanned(argv[..], orig, base, firstNonopt, optind, optind, Classify(orig[optind..]))
        invariant Told(calls, orig, base, optind, 0)
        decreases argv.Length - optind
      {
        SameAhead(argv[..], orig, base, firstNonopt, optind, optind, Classify(orig[optind..]));
        TellOperand(calls, orig, base, optind);
        SkipOperand(argv[..], orig, base, firstNonopt, optind);
        optind := optind + 1;
      }
      lastNonopt := optind;
    }

    /** "--": what follows it counts as operands, up to the end of the vector. */
    method ReadTerminator()
      requires optind < |orig| && Marked(Classify(orig[optind..])) && argv[optind].DashDash?
      modifies argv, this`optind, this`firstNonopt, this`lastNonopt
      ensures argv[..] == Arrangement(orig, base) && lastNonopt == optind == argv.Length
      ensures firstNonopt == base + |Classify(orig[base..]).options| <= optind
    {
      hide Scanned, Exchanged, Classify, Arrangement;
      ReadDashDash(argv[..], orig, base, firstNonopt, lastNonopt, optind);
      optind := optind + 1;
      if firstNonopt != lastNonopt && lastNonopt != optind {
        Exchange(Sorting([], [], orig[optind..]));
      } else if firstNonopt == lastNonopt {
        firstNonopt := optind;
      }
      FinishScan(argv[..], orig, base, firstNonopt, optind);
      lastNonopt := argv.Length;
      optind := argv.Length;
    }

    /** The "--" and end-of-vector part of a call. */
    method NextEntry() returns (ended: bool)
      requires Valid() && nextchar == 0
      modifies this, argv
      ensures ended ==> Valid() && orig == argv[..]
      ensures ended ==> old(base) <= |old(orig)| && argv[..] == Arrangement(old(orig), old(base))
      ensures ended ==> optind == base == old(base) + |Classify(old(orig)[old(base)..]).options|
      ensures ended ==> old(calls) == Calls(old(orig)[old(base)..]) && calls == []
      ensures !ended ==>
        orig == old(orig) && base == old(base) && calls == old(calls) && old(optind) <= optind && OnOption()
    {
      hide Scanned, Exchanged, Classify, Arrangement, Told;
      SkipOperands();
      SameAhead(argv[..], orig, base, firstNonopt, lastNonopt, optind, Classify(orig[optind..]));
      if optind == argv.Length {
        TellEnd(calls, orig, base, optind);
        NothingAhead(argv[..], orig, base, firstNonopt, lastNonopt, optind);
        FinishScan(argv[..], orig, base, firstNonopt, optind);
      } else if argv[optind].DashDash? {
        TellEnd(calls, orig, base, optind);
        ReadTerminator();
      }
      if optind == argv.Length {
        if firstNonopt != lastNonopt {
          optind := firstNonopt;
        }
        base, orig, calls := optind, argv[..], [];
        return true;
      }
      nextchar := argv[optind].further + 1;
      return false;
    }

    ghost function Entries(): multiset<Arg>
      reads argv
    {
      multiset(argv[..])
    }

    lemma IsPermutation()
      requires Valid()
      ensures Entries() == multiset(orig) && (nextchar > 0 ==> OnOption())
    {
      hide Scanned;
      if !Ended() {
        ReachedIsPermutation(argv[..], orig, base, firstNonopt, lastNonopt, optind);
      }
    }

    method ReadLetter() returns (r: Outcome)
      requires OnOption()
      modifies this`optind, this`nextchar, this`calls
      ensures Valid() && !r.Done? && calls == old(calls) + [r]
      ensures optind >= old(optind) && (optind == old(optind) ==> 0 < nextchar < old(nextchar))
    {
      hide Scanned, Exchanged, Classify, Arrangement, Told;
      SameAhead(argv[..], orig, base, firstNonopt, lastNonopt, optind, Classify(orig[optind..]));
      var entry := argv[optind];
      ReadIsFew(calls, orig, base, optind, Read());
      nextchar := nextchar - 1;
      r := Letter(entry, entry.further - nextchar);
      if nextchar > 0 {
        TellLetter(calls, orig, base, optind, r.index);
        calls := calls + [r];
        return;
      }
      ReadOption(argv[..], orig, base, firstNonopt, lastNonopt, optind);
      TellLast(calls, orig, base, optind);
      calls := calls + [LastLetter(orig[optind..])];
      optind := optind + 1;
      if entry.takesNext {
        if optind == argv.Length {
          return MissingArgument(entry, entry.further);
        }
        r := WithArgument(entry, entry.further, argv[optind]);
        optind := optind + 1;
      }
    }

    /** One call of _getopt_internal_r_a. */
    method GetoptInternal() returns (r: Outcome)
      requires Valid()
      modifies this, argv
      ensures Valid() && Entries() == old(Entries())
      ensures r.Done? ==> old(base) <= |old(orig)| && argv[..] == Arrangement(old(orig), old(base)) && orig == argv[..]
      ensures r.Done? ==> optind == base == old(base) + |Classify(old(orig)[old(base)..]).options|
      ensures r.Done? ==> old(calls) == Calls(old(orig)[old(base)..]) && calls == []
      ensures !r.Done? ==> orig == old(orig) && base == old(base) && optind >= old(optind) && calls == old(calls) + [r]
      ensures !r.Done? && optind == old(optind) ==> nextchar > 0 && (old(nextchar) == 0 || nextchar < old(nextchar))
    {
      hide *;
      IsPermutation();
      if nextchar == 0 {
        var ended := NextEntry();
        if ended {
          IsPermutation();
          ArrangementIsPermutation(old(orig), old(base));
          return Done;
        }
      }
      r := ReadLetter();
      IsPermutation();
    }

    /** Both scanners leave the same vector and the same optind. */
    method ScanAll() returns (outcomes: seq<Outcome>)
      requires Valid() && nextchar == 0 && base == optind && orig == argv[..] && calls == []
      modifies this, argv
      ensures argv[..] == Arrangement(old(argv[..]), old(optind))
      ensures multiset(argv[..]) == multiset(old(argv[..]))
      ensures optind == old(optind) + |Classify(old(argv[..])[old(optind)..]).options|
      ensures outcomes == Calls(old(argv[..])[old(optind)..])
    {
      hide Scanned, Exchanged, Classify, Arrangement, Told, Calls;
      ghost var start, v := optind, argv[..];
      outcomes := [];
      var r := GetoptInternal();
      while !r.Done?
        invariant Valid() && optind <= argv.Length && (!r.Done? ==> base == start && orig == v)
        invariant !r.Done? ==> calls == outcomes + [r]
        invariant r.Done? ==> argv[..] == Arrangement(v, start) && optind == start + |Classify(v[start..]).options|
        invariant r.Done? ==> outcomes == Calls(v[start..])
        decreases !r.Done?, argv.Length - optind, nextchar == 0, nextchar
      {
        outcomes := outcomes + [r];
        r := GetoptInternal();
      }
      ArrangementIsPermutation(v, start);
    }
  }
}
