/**
 Exchanging two adjacent blocks of an argument vector in place.

 The repository does this twice: permute_args follows gcd-many cycles of the
 rotation, and exchange_a swaps ever smaller equal-length blocks.  Both are
 proved here to compute the same function of the vector, Exchanged.
 */
module ArgvRotation {
  import opened Arithmetic

  /** v with its blocks [lo, mid) and [mid, hi) exchanged, each in its own order. */
  function Exchanged<T>(v: seq<T>, lo: nat, mid: nat, hi: nat): (r: seq<T>)
    requires lo <= mid <= hi <= |v|
    ensures |r| == |v|
  {
    v[..lo] + v[mid..hi] + v[lo..mid] + v[hi..]
  }

  lemma ExchangedIsPermutation<T>(v: seq<T>, lo: nat, mid: nat, hi: nat)
    requires lo <= mid <= hi <= |v|
    ensures multiset(Exchanged(v, lo, mid, hi)) == multiset(v)
  {
    assert v == v[..lo] + v[lo..mid] + v[mid..hi] + v[hi..];
  }

  // ----- Euclid's algorithm -----

  function Gcd(a: nat, b: nat): (g: nat)
    requires b > 0
    ensures 0 < g <= b
    decreases b
  {
    if a % b == 0 then b else Gcd(b, a % b)
  }

  method ComputeGcd(x: nat, y: nat) returns (g: nat)
    requires y > 0
    ensures g == Gcd(x, y)
  {
    var a, b := x, y;
    var c := a % b;
    while c != 0
      invariant b > 0 && c == a % b
      invariant Gcd(a, b) == Gcd(x, y)
      decreases c
    {
      a := b;
      b := c;
      c := a % b;
    }
    g := b;
  }

  /** The result divides both arguments. */
  lemma {:induction false} GcdDivides(a: nat, b: nat) returns (p: nat, q: nat)
    requires b > 0
    ensures a == Gcd(a, b) * p && b == Gcd(a, b) * q
    decreases b
  {
    if a % b == 0 {
      p, q := a / b, 1;
    } else {
      var p', q' := GcdDivides(b, a % b);
      p, q := p' * (a / b) + q', p';
      Collect(Gcd(a, b), p', a / b, q');
    }
  }

  /** The result is an integer combination of the arguments. */
  lemma {:induction false} GcdCombines(a: nat, b: nat) returns (u: int, v: int)
    requires b > 0
    ensures Gcd(a, b) == u * a + v * b
    decreases b
  {
    if a % b == 0 {
      u, v := 0, 1;
    } else {
      var u', v' := GcdCombines(b, a % b);
      u, v := v', u' - v' * (a / b);
      Recombine(a, b, a / b, u', v');
    }
  }

  /** Every common divisor divides the result, which is therefore the greatest one. */
  lemma GcdIsGreatest(a: nat, b: nat, d: nat, x: nat, y: nat) returns (t: int)
    requires b > 0 && a == d * x && b == d * y
    ensures Gcd(a, b) == d * t && d <= Gcd(a, b)
  {
    var u, v := GcdCombines(a, b);
    t := u * x + v * y;
    Factor(d, u, x, v, y);
    PositiveProduct(d, t);
  }

  // ----- The cycles of the rotation -----

  /** A walk of d steps, fewer than total/gcd, is never a whole number w of turns. */
  lemma NoEarlyReturn(a: nat, b: nat, len: nat, d: nat, w: int)
    requires b > 0 && a + b == Gcd(a, b) * len && 0 < d < len
    ensures d * b != w * (a + b)
  {
    var g := Gcd(a, b);
    var p, q := GcdDivides(a, b);
    var u, v := GcdCombines(a, b);
    if d * b == w * (a + b) {
      Factor(g, 1, p, 1, q);
      Cancel(g, p + q, len);
      Factor(g, u, p, v, q);
      Cancel(g, 1, u * p + v * q);
      Factor(g, d, q, w, len);
      Cancel(g, d * q, w * len) by { Factor(g, d, q, 0, 0); Factor(g, w, len, 0, 0); }
      Bezout(d, q, len, u, v, w);
      NoMultipleBelow(len, d, d * u + (v - u) * w);
    }
  }

  /** Where the entry at position p of [lo, hi) moves to. */
  function Target(lo: nat, mid: nat, hi: nat, p: int): (q: int)
    requires lo < mid < hi
  {
    if p >= mid then p - (mid - lo) else p + (hi - mid)
  }

  /** The position whose old entry ends up at p; the inverse of Target. */
  function Source(lo: nat, mid: nat, hi: nat, p: int): (q: int)
    requires lo < mid < hi
  {
    if p < lo + (hi - mid) then p + (mid - lo) else p - (hi - mid)
  }

  /** The position reached from start by moving k times. */
  function Walk(lo: nat, mid: nat, hi: nat, start: int, k: nat): (p: int)
    requires lo < mid < hi && lo <= start < hi
    ensures lo <= p < hi
  {
    if k == 0 then start else Target(lo, mid, hi, Walk(lo, mid, hi, start, k - 1))
  }

  /** A walk of k steps advances by k option blocks and comes back by w whole lengths. */
  lemma {:induction false} WalkDistance(lo: nat, mid: nat, hi: nat, start: int, k: nat) returns (w: int)
    requires lo < mid < hi && lo <= start < hi
    ensures Walk(lo, mid, hi, start, k) == start + k * (hi - mid) - w * (hi - lo)
  {
    if k == 0 {
      w := 0;
    } else {
      var w' := WalkDistance(lo, mid, hi, start, k - 1);
      w := if Walk(lo, mid, hi, start, k - 1) >= mid then w' + 1 else w';
      Distribute(k - 1, 1, hi - mid);
      Distribute(w', 1, hi - lo);
    }
  }

  /** A walk visits no position twice before its cycle closes. */
  lemma WalkIsFresh(lo: nat, mid: nat, hi: nat, start: int, len: nat, j: nat, k: nat)
    requires lo < mid < hi && lo <= start < hi
    requires hi - lo == Gcd(mid - lo, hi - mid) * len && j < k < j + len
    ensures Walk(lo, mid, hi, start, j) != Walk(lo, mid, hi, start, k)
  {
    var v := WalkDistance(lo, mid, hi, start, j);
    var w := WalkDistance(lo, mid, hi, start, k);
    NoEarlyReturn(mid - lo, hi - mid, len, k - j, w - v);
    Apart(start, hi - mid, hi - lo, j, k, v, w);
  }

  /** A walk of total/gcd steps ends where it began. */
  lemma WalkCloses(lo: nat, mid: nat, hi: nat, start: int, len: nat)
    requires lo < mid < hi && lo <= start < hi
    requires hi - lo == Gcd(mid - lo, hi - mid) * len
    ensures Walk(lo, mid, hi, start, len) == start
  {
    var p, q := GcdDivides(mid - lo, hi - mid);
    var w := WalkDistance(lo, mid, hi, start, len);
    Together(start, Walk(lo, mid, hi, start, len), Gcd(mid - lo, hi - mid), q, len, w);
  }

  /** The position's distance from mid, modulo the gcd. */
  function CycleOf(lo: nat, mid: nat, hi: nat, p: int): int
    requires lo < mid < hi
  {
    (p - mid) % Gcd(mid - lo, hi - mid)
  }

  /** Positions on one walk agree modulo the gcd, so walks from different residues never meet. */
  lemma WalkResidue(lo: nat, mid: nat, hi: nat, i: nat, k: nat)
    requires lo < mid < hi && i < Gcd(mid - lo, hi - mid)
    ensures CycleOf(lo, mid, hi, Walk(lo, mid, hi, mid + i, k)) == i
  {
    var p, q := GcdDivides(mid - lo, hi - mid);
    var w := WalkDistance(lo, mid, hi, mid + i, k);
    WalkOffset(Gcd(mid - lo, hi - mid), p, q, i, k, w, Walk(lo, mid, hi, mid + i, k) - mid);
  }

  /** after is before with the entries at the positions s taken from their sources. */
  ghost predicate Moved<T>(before: seq<T>, after: seq<T>, lo: nat, mid: nat, hi: nat, s: set<int>)
    requires lo < mid < hi <= |before|
  {
    && |after| == |before|
    && forall p {:trigger after[p]} :: 0 <= p < |after| ==>
      after[p] == if lo <= p < hi && p in s then before[Source(lo, mid, hi, p)] else before[p]
  }

  ghost predicate HoldsSources(lo: nat, mid: nat, hi: nat, t: set<int>)
    requires lo < mid < hi
  {
    forall p {:trigger Source(lo, mid, hi, p)} :: p in t ==> Source(lo, mid, hi, p) in t
  }

  /** Moving every entry of both blocks exchanges them. */
  lemma MovingAllExchanges<T>(before: seq<T>, after: seq<T>, lo: nat, mid: nat, hi: nat)
    requires lo < mid < hi <= |before| && Moved(before, after, lo, mid, hi, Interval(lo, hi))
    ensures after == Exchanged(before, lo, mid, hi)
  {}

  /** Moving the positions s and then those of a disjoint set t closed under Source moves both. */
  lemma MovedTwice<T>(v: seq<T>, w: seq<T>, x: seq<T>, lo: nat, mid: nat, hi: nat, s: set<int>, t: set<int>)
    requires lo < mid < hi <= |v|
    requires Moved(v, w, lo, mid, hi, s) && Moved(w, x, lo, mid, hi, t) && s !! t
    requires HoldsSources(lo, mid, hi, t)
    ensures Moved(v, x, lo, mid, hi, s + t)
  {
  }

  /** The positions a walk visits in its steps 1 to k. */
  function Visited(lo: nat, mid: nat, hi: nat, start: int, k: nat): (s: set<int>)
    requires lo < mid < hi && lo <= start < hi
    ensures forall p :: p in s ==> lo <= p < hi
  {
    if k == 0 then {} else Visited(lo, mid, hi, start, k - 1) + {Walk(lo, mid, hi, start, k)}
  }

  lemma {:induction false} VisitedBy(lo: nat, mid: nat, hi: nat, start: int, k: nat, p: int) returns (j: nat)
    requires lo < mid < hi && lo <= start < hi && p in Visited(lo, mid, hi, start, k)
    ensures 1 <= j <= k && p == Walk(lo, mid, hi, start, j)
  {
    if p == Walk(lo, mid, hi, start, k) { j := k; } else { j := VisitedBy(lo, mid, hi, start, k - 1, p); }
  }

  /** The k-th step from start goes somewhere new, and closes the cycle exactly when k == len. */
  ghost predicate Fresh(lo: nat, mid: nat, hi: nat, start: int, len: nat, k: nat)
    requires lo < mid < hi && lo <= start < hi && 1 <= k <= len
  {
    && Walk(lo, mid, hi, start, k) !in Visited(lo, mid, hi, start, k - 1)
    && (Walk(lo, mid, hi, start, k) == start <==> k == len)
  }

  /** The walk from start closes after len steps and not before. */
  ghost predicate ClosesAfter(lo: nat, mid: nat, hi: nat, start: int, len: nat)
    requires lo < mid < hi && lo <= start < hi
  {
    forall k :: 1 <= k <= len ==> Fresh(lo, mid, hi, start, len, k)
  }

  lemma StepIsFresh(lo: nat, mid: nat, hi: nat, start: int, len: nat, k: nat)
    requires lo < mid < hi && lo <= start < hi
    requires hi - lo == Gcd(mid - lo, hi - mid) * len && 1 <= k <= len
    ensures Fresh(lo, mid, hi, start, len, k)
  {
    var pos := Walk(lo, mid, hi, start, k);
    if pos in Visited(lo, mid, hi, start, k - 1) {
      var j := VisitedBy(lo, mid, hi, start, k - 1, pos);
      WalkIsFresh(lo, mid, hi, start, len, j, k);
    }
    if k < len {
      WalkIsFresh(lo, mid, hi, start, len, 0, k);
    } else {
      WalkCloses(lo, mid, hi, start, len);
    }
  }

  /** Follows one cycle of the rotation, the one through start, carrying entries through argv[start]. */
  method FollowCycle<T>(argv: array<T>, lo: nat, mid: nat, hi: nat, start: nat, cyclelen: nat)
    requires lo < mid <= start < hi <= argv.Length && cyclelen > 0
    requires ClosesAfter(lo, mid, hi, start, cyclelen)
    modifies argv
    ensures Moved(old(argv[..]), argv[..], lo, mid, hi, Visited(lo, mid, hi, start, cyclelen))
  {
    ghost var orig := argv[..];
    var pos := start;
    for j := 0 to cyclelen
      invariant pos == Walk(lo, mid, hi, start, j)
      invariant if j < cyclelen then start !in Visited(lo, mid, hi, start, j) && argv[start] == orig[pos]
                else start in Visited(lo, mid, hi, start, j) && argv[start] == orig[Source(lo, mid, hi, start)]
      invariant forall p :: 0 <= p < argv.Length && p != start ==>
        argv[p] == if p in Visited(lo, mid, hi, start, j) then orig[Source(lo, mid, hi, p)] else orig[p]
    {
      assert Fresh(lo, mid, hi, start, cyclelen, j + 1);
      ghost var from := pos;
      if pos >= mid {
        pos := pos - (mid - lo);
      } else {
        pos := pos + (hi - mid);
      }
      assert pos == Walk(lo, mid, hi, start, j + 1) && from == Source(lo, mid, hi, pos);
      var swap := argv[pos];
      argv[pos] := argv[start];
      argv[start] := swap;
    }
  }

  /** The positions of the first i cycles, started at mid, mid + 1, ... */
  function Covered(lo: nat, mid: nat, hi: nat, i: nat, len: nat): (s: set<int>)
    requires lo < mid < hi && i <= hi - mid
    ensures forall p :: p in s ==> lo <= p < hi
  {
    if i == 0 then {} else Covered(lo, mid, hi, i - 1, len) + Visited(lo, mid, hi, mid + i - 1, len)
  }

  lemma {:induction false} VisitedSize(lo: nat, mid: nat, hi: nat, start: int, len: nat, k: nat)
    requires lo < mid < hi && lo <= start < hi && k <= len && ClosesAfter(lo, mid, hi, start, len)
    ensures |Visited(lo, mid, hi, start, k)| == k
  {
    if k > 0 {
      VisitedSize(lo, mid, hi, start, len, k - 1);
      assert Fresh(lo, mid, hi, start, len, k);
    }
  }

  lemma {:induction false} CoveredResidue(lo: nat, mid: nat, hi: nat, i: nat, len: nat, p: int)
    requires lo < mid < hi && i <= Gcd(mid - lo, hi - mid) && p in Covered(lo, mid, hi, i, len)
    ensures CycleOf(lo, mid, hi, p) < i
  {
    hide CycleOf, Gcd, Walk, Visited;
    if p in Visited(lo, mid, hi, mid + i - 1, len) {
      var k := VisitedBy(lo, mid, hi, mid + i - 1, len, p);
      WalkResidue(lo, mid, hi, i - 1, k);
    } else {
      CoveredResidue(lo, mid, hi, i - 1, len, p);
    }
  }

  /** The i-th cycle shares no position with the earlier ones. */
  lemma CyclesAreDisjoint(lo: nat, mid: nat, hi: nat, i: nat, len: nat)
    requires lo < mid < hi && i < Gcd(mid - lo, hi - mid)
    ensures Covered(lo, mid, hi, i, len) !! Visited(lo, mid, hi, mid + i, len)
  {
    hide CycleOf, Gcd, Walk, Visited, Covered;
    var before, cycle := Covered(lo, mid, hi, i, len), Visited(lo, mid, hi, mid + i, len);
    forall p | p in before ensures p !in cycle {
      CoveredResidue(lo, mid, hi, i, len, p);
      if p in cycle {
        var k := VisitedBy(lo, mid, hi, mid + i, len, p);
        WalkResidue(lo, mid, hi, i, k);
      }
    }
  }

  /** The first i cycles have i * len positions. */
  lemma {:induction false} CoveredSize(lo: nat, mid: nat, hi: nat, i: nat, len: nat)
    requires lo < mid < hi && i <= Gcd(mid - lo, hi - mid)
    requires hi - lo == Gcd(mid - lo, hi - mid) * len
    ensures |Covered(lo, mid, hi, i, len)| == Times(i, len)
  {
    hide Gcd, Visited, ClosesAfter;
    if i > 0 {
      CoveredSize(lo, mid, hi, i - 1, len);
      CycleCloses(lo, mid, hi, mid + i - 1, len);
      VisitedSize(lo, mid, hi, mid + i - 1, len, len);
      CyclesAreDisjoint(lo, mid, hi, i - 1, len);
    }
  }

  lemma CycleCloses(lo: nat, mid: nat, hi: nat, start: int, len: nat)
    requires lo < mid < hi && lo <= start < hi
    requires hi - lo == Gcd(mid - lo, hi - mid) * len
    ensures ClosesAfter(lo, mid, hi, start, len)
  {
    forall k | 1 <= k <= len
      ensures Fresh(lo, mid, hi, start, len, k)
    {
      StepIsFresh(lo, mid, hi, start, len, k);
    }
  }

  /** The gcd-many cycles together cover both blocks. */
  lemma CyclesCover(lo: nat, mid: nat, hi: nat, len: nat)
    requires lo < mid < hi && hi - lo == Gcd(mid - lo, hi - mid) * len
    ensures Covered(lo, mid, hi, Gcd(mid - lo, hi - mid), len) == Interval(lo, hi)
  {
    var all := Covered(lo, mid, hi, Gcd(mid - lo, hi - mid), len);
    CoveredSize(lo, mid, hi, Gcd(mid - lo, hi - mid), len);
    TimesIsProduct(Gcd(mid - lo, hi - mid), len);
    FullInterval(all, lo, hi);
  }

  /** What a closed cycle writes at its positions, it reads from its own positions. */
  lemma SourceStaysInCycle(lo: nat, mid: nat, hi: nat, start: int, len: nat)
    requires lo < mid < hi && lo <= start < hi && len > 0 && ClosesAfter(lo, mid, hi, start, len)
    ensures HoldsSources(lo, mid, hi, Visited(lo, mid, hi, start, len))
  {
    forall p | p in Visited(lo, mid, hi, start, len)
      ensures Source(lo, mid, hi, p) in Visited(lo, mid, hi, start, len)
    {
      var j := VisitedBy(lo, mid, hi, start, len, p);
      assert Fresh(lo, mid, hi, start, len, len);
      var from := if j == 1 then len else j - 1;
      assert Source(lo, mid, hi, p) == Walk(lo, mid, hi, start, from);
      WalkIsVisited(lo, mid, hi, start, from, len);
    }
  }

  lemma {:induction false} WalkIsVisited(lo: nat, mid: nat, hi: nat, start: int, j: nat, k: nat)
    requires lo < mid < hi && lo <= start < hi && 1 <= j <= k
    ensures Walk(lo, mid, hi, start, j) in Visited(lo, mid, hi, start, k)
  {
    if j < k { WalkIsVisited(lo, mid, hi, start, j, k - 1); }
  }

  /** The gcd divides the total, so the cycles are all of the length the code computes. */
  lemma CycleLength(a: nat, b: nat)
    requires b > 0
    ensures a + b == Gcd(a, b) * ((a + b) / Gcd(a, b))
    ensures a > 0 ==> (a + b) / Gcd(a, b) > 0
  {
    var g := Gcd(a, b);
    var p, q := GcdDivides(a, b);
    Factor(g, 1, p, 1, q);
    Residue(g, 0, p + q, a + b);
  }

  function CycleLen(lo: nat, mid: nat, hi: nat): (len: nat)
    requires lo < mid < hi
  {
    (hi - lo) / Gcd(mid - lo, hi - mid)
  }

  /** All that the i-th round of the outer loop needs to know about its cycle. */
  ghost predicate CycleIsReady(lo: nat, mid: nat, hi: nat, i: nat, len: nat)
    requires lo < mid < hi && i < hi - mid
  {
    && len > 0 && ClosesAfter(lo, mid, hi, mid + i, len)
    && Covered(lo, mid, hi, i, len) !! Visited(lo, mid, hi, mid + i, len)
    && HoldsSources(lo, mid, hi, Visited(lo, mid, hi, mid + i, len))
  }

  lemma EachCycleIsReady(lo: nat, mid: nat, hi: nat, i: nat)
    requires lo < mid < hi && i < Gcd(mid - lo, hi - mid)
    ensures CycleIsReady(lo, mid, hi, i, CycleLen(lo, mid, hi))
  {
    var len := CycleLen(lo, mid, hi);
    CycleLength(mid - lo, hi - mid);
    CycleCloses(lo, mid, hi, mid + i, len);
    CyclesAreDisjoint(lo, mid, hi, i, len);
    SourceStaysInCycle(lo, mid, hi, mid + i, len);
  }

  /** Following the i-th cycle after the earlier ones moves the entries of them all. */
  lemma NextCycleMoved<T>(v: seq<T>, w: seq<T>, x: seq<T>, lo: nat, mid: nat, hi: nat, i: nat, len: nat)
    requires lo < mid < hi <= |v| && i < hi - mid && CycleIsReady(lo, mid, hi, i, len)
    requires Moved(v, w, lo, mid, hi, Covered(lo, mid, hi, i, len))
    requires Moved(w, x, lo, mid, hi, Visited(lo, mid, hi, mid + i, len))
    ensures Moved(v, x, lo, mid, hi, Covered(lo, mid, hi, i + 1, len))
  {
    hide Moved, HoldsSources, ClosesAfter, Visited;
    MovedTwice(v, w, x, lo, mid, hi, Covered(lo, mid, hi, i, len), Visited(lo, mid, hi, mid + i, len));
  }

  /** Following all gcd-many cycles exchanges the blocks. */
  lemma AllCyclesExchange<T>(before: seq<T>, after: seq<T>, lo: nat, mid: nat, hi: nat)
    requires lo < mid < hi <= |before|
    requires Moved(before, after, lo, mid, hi, Covered(lo, mid, hi, Gcd(mid - lo, hi - mid), CycleLen(lo, mid, hi)))
    ensures after == Exchanged(before, lo, mid, hi)
  {
    CycleLength(mid - lo, hi - mid);
    CyclesCover(lo, mid, hi, CycleLen(lo, mid, hi));
    MovingAllExchanges(before, after, lo, mid, hi);
  }

  lemma NothingMoved<T>(v: seq<T>, lo: nat, mid: nat, hi: nat, len: nat)
    requires lo < mid < hi <= |v|
    ensures Moved(v, v, lo, mid, hi, Covered(lo, mid, hi, 0, len))
  {
  }

  ghost predicate AllReady(lo: nat, mid: nat, hi: nat, ncycle: nat, len: nat)
    requires lo < mid < hi && ncycle <= hi - mid
  {
    forall i :: 0 <= i < ncycle ==> CycleIsReady(lo, mid, hi, i, len)
  }

  lemma IsReady(lo: nat, mid: nat, hi: nat, ncycle: nat, len: nat, i: nat)
    requires lo < mid < hi && i < ncycle <= hi - mid && AllReady(lo, mid, hi, ncycle, len)
    ensures CycleIsReady(lo, mid, hi, i, len)
  {
  }

  /** The outer loop, over the starts of the cycles. */
  method FollowCycles<T>(argv: array<T>, lo: nat, mid: nat, hi: nat, ncycle: nat, cyclelen: nat)
    requires lo < mid < hi <= argv.Length && ncycle <= hi - mid && AllReady(lo, mid, hi, ncycle, cyclelen)
    modifies argv
    ensures Moved(old(argv[..]), argv[..], lo, mid, hi, Covered(lo, mid, hi, ncycle, cyclelen))
  {
    hide *;
    ghost var v := argv[..];
    NothingMoved(v, lo, mid, hi, cyclelen);
    for i := 0 to ncycle
      invariant Moved(v, argv[..], lo, mid, hi, Covered(lo, mid, hi, i, cyclelen))
    {
      IsReady(lo, mid, hi, ncycle, cyclelen, i);
      FollowNext(argv, v, lo, mid, hi, i, cyclelen);
    }
  }

  /** One round of the outer loop. */
  method FollowNext<T>(argv: array<T>, ghost v: seq<T>, lo: nat, mid: nat, hi: nat, i: nat, cyclelen: nat)
    requires lo < mid < hi <= argv.Length == |v| && i < hi - mid && CycleIsReady(lo, mid, hi, i, cyclelen)
    requires Moved(v, argv[..], lo, mid, hi, Covered(lo, mid, hi, i, cyclelen))
    modifies argv
    ensures Moved(v, argv[..], lo, mid, hi, Covered(lo, mid, hi, i + 1, cyclelen))
  {
    hide Moved, HoldsSources, ClosesAfter, Visited, Covered;
    ghost var before := argv[..];
    FollowCycle(argv, lo, mid, hi, mid + i, cyclelen);
    NextCycleMoved(v, before, argv[..], lo, mid, hi, i, cyclelen);
  }

  lemma CyclesAreReady(lo: nat, mid: nat, hi: nat)
    requires lo < mid < hi
    ensures AllReady(lo, mid, hi, Gcd(mid - lo, hi - mid), CycleLen(lo, mid, hi))
  {
    hide CycleIsReady, Gcd, CycleLen;
    forall i | 0 <= i < Gcd(mid - lo, hi - mid) ensures CycleIsReady(lo, mid, hi, i, CycleLen(lo, mid, hi)) {
      EachCycleIsReady(lo, mid, hi, i);
    }
  }

  /** permute_args: the gcd-cycle loop exchanges the two blocks. */
  method PermuteArgs<T>(argv: array<T>, nonoptStart: nat, nonoptEnd: nat, optEnd: nat)
    requires nonoptStart < nonoptEnd < optEnd <= argv.Length
    modifies argv
    ensures argv[..] == Exchanged(old(argv[..]), nonoptStart, nonoptEnd, optEnd)
  {
    var ncycle := ComputeGcd(nonoptEnd - nonoptStart, optEnd - nonoptEnd);
    var cyclelen := (optEnd - nonoptStart) / ncycle;
    assert cyclelen == CycleLen(nonoptStart, nonoptEnd, optEnd);
    hide *;
    CyclesAreReady(nonoptStart, nonoptEnd, optEnd);
    FollowCycles(argv, nonoptStart, nonoptEnd, optEnd, ncycle, cyclelen);
    AllCyclesExchange(old(argv[..]), argv[..], nonoptStart, nonoptEnd, optEnd);
  }

  // ----- The same exchange by block swaps -----

  /** v with the equal-length ranges at x and y swapped. */
  function RangesSwapped<T>(v: seq<T>, x: nat, y: nat, len: nat): (r: seq<T>)
    requires x + len <= y && y + len <= |v|
    ensures |r| == |v|
  {
    v[..x] + v[y..y + len] + v[x + len..y] + v[x..x + len] + v[y + len..]
  }

  /** w is v with the first n positions of the ranges at x and y swapped. */
  ghost predicate Swapped<T>(v: seq<T>, w: seq<T>, x: nat, y: nat, n: nat)
    requires x + n <= y && y + n <= |v|
  {
    && |w| == |v|
    && forall p {:trigger w[p]} :: 0 <= p < |v| ==>
      w[p] == if x <= p < x + n then v[p - x + y] else if y <= p < y + n then v[p - y + x] else v[p]
  }

  lemma SwappedOneMore<T>(v: seq<T>, w: seq<T>, x: nat, y: nat, n: nat)
    requires x + n < y && y + n < |v| && Swapped(v, w, x, y, n)
    ensures Swapped(v, w[x + n := w[y + n]][y + n := w[x + n]], x, y, n + 1)
  {
    var r := w[x + n := w[y + n]][y + n := w[x + n]];
    assert w[x + n] == v[x + n] && w[y + n] == v[y + n];
    forall p | 0 <= p < |v|
      ensures r[p] == if x <= p < x + n + 1 then v[p - x + y] else if y <= p < y + n + 1 then v[p - y + x] else v[p]
    {
      assert p != x + n && p != y + n ==> r[p] == w[p];
    }
  }

  lemma SwappedIsRangesSwapped<T>(v: seq<T>, w: seq<T>, x: nat, y: nat, len: nat)
    requires x + len <= y && y + len <= |v| && Swapped(v, w, x, y, len)
    ensures w == RangesSwapped(v, x, y, len)
  {
    assert w[..x] == v[..x] && w[x..x + len] == v[y..y + len] && w[x + len..y] == v[x + len..y];
    assert w[y..y + len] == v[x..x + len] && w[y + len..] == v[y + len..];
    assert w == w[..x] + w[x..x + len] + w[x + len..y] + w[y..y + len] + w[y + len..];
  }

  method SwapRanges<T>(argv: array<T>, x: nat, y: nat, len: nat)
    requires x + len <= y && y + len <= argv.Length
    modifies argv
    ensures argv[..] == RangesSwapped(old(argv[..]), x, y, len)
  {
    ghost var v := argv[..];
    assert Swapped(v, argv[..], x, y, 0);
    hide Swapped, RangesSwapped;
    for i := 0 to len
      invariant Swapped(v, argv[..], x, y, i)
    {
      ghost var w := argv[..];
      SwappedOneMore(v, w, x, y, i);
      var tem := argv[x + i];
      argv[x + i] := argv[y + i];
      argv[y + i] := tem;
      assert argv[..] == w[x + i := w[y + i]][y + i := w[x + i]];
    }
    SwappedIsRangesSwapped(v, argv[..], x, y, len);
  }

  /** Swapping the left block with the right end of a longer right block leaves a smaller exchange. */
  lemma ExchangeShrinksRight<T>(v: seq<T>, w: seq<T>, lo: nat, mid: nat, hi: nat)
    requires lo < mid <= hi - (mid - lo) && hi <= |v|
    requires w == RangesSwapped(v, lo, hi - (mid - lo), mid - lo)
    ensures Exchanged(w, lo, mid, hi - (mid - lo)) == Exchanged(v, lo, mid, hi)
  {
    var n := mid - lo;
    assert w[mid..hi - n] == v[mid..hi - n];
    assert w[lo..mid] == v[hi - n..hi];
    assert w[hi - n..hi] == v[lo..mid];
    assert v[mid..hi] == v[mid..hi - n] + v[hi - n..hi];
  }

  /** Swapping the right block with the left end of a left block at least as long does too. */
  lemma ExchangeShrinksLeft<T>(v: seq<T>, w: seq<T>, lo: nat, mid: nat, hi: nat)
    requires lo + (hi - mid) <= mid < hi <= |v|
    requires w == RangesSwapped(v, lo, mid, hi - mid)
    ensures Exchanged(w, lo + (hi - mid), mid, hi) == Exchanged(v, lo, mid, hi)
  {}

  lemma NothingLeft<T>(v: seq<T>, lo: nat, mid: nat, hi: nat)
    requires lo <= mid <= hi <= |v| && (lo == mid || mid == hi)
    ensures Exchanged(v, lo, mid, hi) == v
  {}

  /** The loop of exchange_a: equal-length swaps, each removing one settled block from the problem. */
  method ExchangeBlocks<T>(argv: array<T>, first: nat, last: nat, optind: nat)
    requires first <= last <= optind <= argv.Length
    modifies argv
    ensures argv[..] == Exchanged(old(argv[..]), first, last, optind)
  {
    hide Exchanged, RangesSwapped;
    var bottom, middle, top := first, last, optind;
    ghost var v, goal := argv[..], Exchanged(argv[..], first, last, optind);
    while top > middle && middle > bottom
      invariant first <= bottom <= middle <= top <= optind
      invariant v == argv[..] && Exchanged(v, bottom, middle, top) == goal
      decreases top - bottom
    {
      if top - middle > middle - bottom {
        var len := middle - bottom;
        SwapRanges(argv, bottom, top - (middle - bottom), len);
        ExchangeShrinksRight(v, argv[..], bottom, middle, top);
        v, top := argv[..], top - len;
      } else {
        var len := top - middle;
        SwapRanges(argv, bottom, middle, len);
        ExchangeShrinksLeft(v, argv[..], bottom, middle, top);
        v, bottom := argv[..], bottom + len;
      }
    }
    NothingLeft(argv[..], bottom, middle, top);
  }

  // ----- Arithmetic of walks -----

  lemma Apart(start: int, b: int, n: int, j: int, k: int, v: int, w: int)
    requires (k - j) * b != (w - v) * n
    ensures start + j * b - v * n != start + k * b - w * n
  {
  }

  lemma Together(start: int, pos: int, g: nat, q: int, len: nat, w: int)
    requires pos == start + len * (g * q) - w * (g * len)
    requires -(g * len) < pos - start < g * len
    ensures pos == start
  {
    var n := g * len;
    assert len * (g * q) == q * n;
    Distribute(q, -w, n);
    Distribute(w, -q, n);
    if pos > start { NoMultipleBelow(n, pos - start, q - w); }
    if pos < start { NoMultipleBelow(n, start - pos, w - q); }
  }

  lemma WalkOffset(g: nat, p: int, q: int, i: nat, k: int, w: int, off: int)
    requires i < g && off == i + k * (g * q) - w * (g * p + g * q)
    ensures off % g == i
  {
    Factor(g, 1, p, 1, q);
    Factor(g, k, q, -w, p + q);
    Residue(g, i, k * q - w * (p + q), off);
  }

  // ----- Integer intervals -----

  function Interval(lo: int, hi: int): (s: set<int>)
    requires lo <= hi
    ensures |s| == hi - lo
    ensures forall p :: p in s <==> lo <= p < hi
    decreases hi - lo
  {
    if lo == hi then {} else {lo} + Interval(lo + 1, hi)
  }

  /** A set of hi - lo members of an interval of hi - lo integers is the whole interval. */
  lemma FullInterval(s: set<int>, lo: int, hi: int)
    requires lo <= hi && |s| == hi - lo
    requires forall p :: p in s ==> lo <= p < hi
    ensures s == Interval(lo, hi)
  {
    assert Interval(lo, hi) == s + (Interval(lo, hi) - s);
  }
}
