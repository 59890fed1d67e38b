/** Splitting and joining at a character, and removing NULs: what both wire formats are made of. */
module Strings {

  const NUL: char := '\0'

  /** boost::split at one character: always at least one piece, which may be empty. */
  function Split(s: string, c: char): (pieces: seq<string>)
    ensures |pieces| >= 1
  {
    if s == "" then [""]
    else
      var rest := Split(s[1..], c);
      if s[0] == c then [""] + rest else [[s[0]] + rest[0]] + rest[1..]
  }

  function Join(pieces: seq<string>, c: char): string
    requires |pieces| >= 1
  {
    if |pieces| == 1 then pieces[0] else Join(pieces[..|pieces| - 1], c) + [c] + pieces[|pieces| - 1]
  }

  lemma JoinLast(pieces: seq<string>, piece: string, c: char)
    ensures Join(pieces + [piece], c) == if pieces == [] then piece else Join(pieces, c) + [c] + piece
  {
  }

  lemma {:induction false} JoinFirst(piece: string, pieces: seq<string>, c: char)
    requires |pieces| >= 1
    ensures Join([piece] + pieces, c) == piece + [c] + Join(pieces, c)
  {
    var n := |pieces| - 1;
    var all := [piece] + pieces;
    assert all[..n + 1] == [piece] + pieces[..n];
    if n > 0 {
      JoinFirst(piece, pieces[..n], c);
    } else {
      assert all[..1] == [piece];
    }
  }

  /** A character in front of the first piece is in front of the text. */
  lemma JoinLonger(first: char, rest: seq<string>, c: char)
    requires rest != []
    ensures Join([[first] + rest[0]] + rest[1..], c) == [first] + Join(rest, c)
  {
    if |rest| > 1 {
      assert rest == [rest[0]] + rest[1..];
      JoinFirst(rest[0], rest[1..], c);
      JoinFirst([first] + rest[0], rest[1..], c);
    }
  }

  /** Splitting and joining again changes nothing. */
  lemma {:induction false} JoinSplit(s: string, c: char)
    ensures Join(Split(s, c), c) == s
  {
    if s != "" {
      var rest := Split(s[1..], c);
      JoinSplit(s[1..], c);
      assert s == [s[0]] + s[1..];
      if s[0] == c {
        JoinFirst("", rest, c);
      } else {
        JoinLonger(s[0], rest, c);
      }
    }
  }

  /** A text free of the character, up to where the character first occurs, is the first piece. */
  lemma {:induction false} SplitFirst(piece: string, rest: string, c: char)
    requires c !in piece
    ensures Split(piece + [c] + rest, c) == [piece] + Split(rest, c)
  {
    var s := piece + [c] + rest;
    if piece == "" {
      assert s[1..] == rest;
    } else {
      SplitFirst(piece[1..], rest, c);
      assert s[1..] == piece[1..] + [c] + rest;
      assert [piece[0]] + piece[1..] == piece;
    }
  }

  lemma {:induction false} SplitWhole(piece: string, c: char)
    requires c !in piece
    ensures Split(piece, c) == [piece]
  {
    if piece != "" {
      SplitWhole(piece[1..], c);
      assert [piece[0]] + piece[1..] == piece;
    }
  }

  /** Joining pieces free of the character and splitting gives the pieces back. */
  lemma {:induction false} SplitJoin(pieces: seq<string>, c: char)
    requires |pieces| >= 1 && forall i :: 0 <= i < |pieces| ==> c !in pieces[i]
    ensures Split(Join(pieces, c), c) == pieces
  {
    if |pieces| == 1 {
      SplitWhole(pieces[0], c);
    } else {
      SplitJoin(pieces[1..], c);
      assert pieces == [pieces[0]] + pieces[1..];
      JoinFirst(pieces[0], pieces[1..], c);
      SplitFirst(pieces[0], Join(pieces[1..], c), c);
    }
  }

  function WithoutNuls(s: string): (r: string)
    ensures NUL !in r && |r| <= |s| && (NUL !in s ==> r == s)
  {
    if s == "" then ""
    else WithoutNuls(s[..|s| - 1]) + if s[|s| - 1] == NUL then "" else [s[|s| - 1]]
  }

  lemma {:induction false} WithoutNulsOfSum(s: string, t: string)
    ensures WithoutNuls(s + t) == WithoutNuls(s) + WithoutNuls(t)
  {
    if t == "" {
      assert s + t == s;
    } else {
      var before, last := t[..|t| - 1], if t[|t| - 1] == NUL then "" else [t[|t| - 1]];
      WithoutNulsOfSum(s, before);
      assert (s + t)[..|s + t| - 1] == s + before;
      Associate(WithoutNuls(s), WithoutNuls(before), last);
    }
  }

  lemma Associate(a: string, b: string, c: string)
    ensures (a + b) + c == a + (b + c)
  {
  }

  lemma WithoutNulsFirst(h: char, t: string)
    ensures WithoutNuls([h] + t) == if h == NUL then WithoutNuls(t) else [h] + WithoutNuls(t)
  {
    WithoutNulsOfSum([h], t);
    assert [h][..0] == "" && "" + WithoutNuls(t) == WithoutNuls(t);
  }

  lemma WithoutNulsNext(s: string, k: nat)
    requires k < |s|
    ensures WithoutNuls(s[..k + 1]) == WithoutNuls(s[..k]) + if s[k] == NUL then "" else [s[k]]
  {
    assert s[..k + 1][..k] == s[..k];
  }

  /** The text after k of its characters have been looked at. */
  function Cleaned(s: string, k: nat): string
    requires k <= |s|
  {
    WithoutNuls(s[..k]) + s[k..]
  }

  /** Where the iterator then stands. */
  function Passed(s: string, k: nat): nat
    requires k <= |s|
  {
    |WithoutNuls(s[..k])|
  }

  lemma EraseOrPass(s: string, k: nat)
    requires k < |s|
    ensures var str, it := Cleaned(s, k), Passed(s, k);
      && it < |str| && str[it] == s[k]
      && |Cleaned(s, k + 1)| == Passed(s, k + 1) + |s| - (k + 1)
      && Cleaned(s, k + 1) == (if s[k] == NUL then str[..it] + str[it + 1..] else str)
      && Passed(s, k + 1) == (if s[k] == NUL then it else it + 1)
  {
    WithoutNulsNext(s, k);
    assert s[k..] == [s[k]] + s[k + 1..];
  }

  lemma CleanedEnds(s: string)
    ensures Cleaned(s, 0) == s && Passed(s, 0) == 0 && Cleaned(s, |s|) == WithoutNuls(s)
  {
    assert s[..|s|] == s;
  }

  /** removeNullTerminators, erasing in place. */
  method RemoveNullTerminators(s: string) returns (str: string)
    ensures str == WithoutNuls(s)
  {
    hide *;
    CleanedEnds(s);
    str := s;
    var it := 0;
    ghost var seen := 0;
    while it < |str|
      invariant seen <= |s| && it == Passed(s, seen) && str == Cleaned(s, seen) && |str| == it + |s| - seen
      decreases |s| - seen
    {
      EraseOrPass(s, seen);
      if str[it] == NUL {
        str := str[..it] + str[it + 1..];
      } else {
        it := it + 1;
      }
      seen := seen + 1;
    }
  }
}
