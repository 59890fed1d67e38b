/**
 The search for the first and last occurrence of a value in a sorted column of field values.

 Indices are 32-bit unsigned in the repository.  A step to the left of index 0 would wrap
 around; the search reports that case, and when it arises is proved exactly.
 */
module SortedSearch {
  import opened MerkleDag

  // ----- The order of fields -----

  /** Strings compare by their first difference; a proper prefix is smaller. */
  predicate TextLess(a: string, b: string) {
    b != "" && (a == "" || a[0] < b[0] || (a[0] == b[0] && TextLess(a[1..], b[1..])))
  }

  lemma {:induction false} TextLessIsTotal(a: string, b: string)
    ensures TextLess(a, b) || a == b || TextLess(b, a)
    ensures !(TextLess(a, b) && TextLess(b, a)) && (a == b ==> !TextLess(a, b))
  {
    if a != "" && b != "" && a[0] == b[0] {
      TextLessIsTotal(a[1..], b[1..]);
      assert a == [a[0]] + a[1..] && b == [b[0]] + b[1..];
    }
  }

  lemma {:induction false} TextLessIsTransitive(a: string, b: string, c: string)
    requires TextLess(a, b) && TextLess(b, c)
    ensures TextLess(a, c)
  {
    if a != "" && a[0] == b[0] == c[0] {
      TextLessIsTransitive(a[1..], b[1..], c[1..]);
    }
  }

  /** null is below every string. */
  predicate Less(a: Field, b: Field) { b.Word? && (a.Null? || TextLess(a.text, b.text)) }

  lemma LessIsTotal(a: Field, b: Field)
    ensures Less(a, b) || a == b || Less(b, a)
    ensures !(Less(a, b) && Less(b, a)) && (a == b ==> !Less(a, b))
  {
    hide TextLess;
    if a.Word? && b.Word? { TextLessIsTotal(a.text, b.text); }
  }

  lemma LessIsTransitive(a: Field, b: Field, c: Field)
    requires Less(a, b) && Less(b, c)
    ensures Less(a, c)
  {
    hide TextLess;
    if a.Word? { TextLessIsTransitive(a.text, b.text, c.text); }
  }

  predicate AtMost(a: Field, b: Field) { !Less(b, a) }

  lemma AtMostIsTransitive(a: Field, b: Field, c: Field)
    requires AtMost(a, b) && AtMost(b, c)
    ensures AtMost(a, c)
  {
    LessIsTotal(a, b);
    LessIsTotal(b, c);
    LessIsTotal(a, c);
    if Less(c, a) {
      if a == b || b == c { assert false; }
      LessIsTransitive(a, b, c);
    }
  }

  predicate Sorted(col: seq<Field>) {
    forall i, j :: 0 <= i <= j < |col| ==> AtMost(col[i], col[j])
  }

  // ----- getSearchIndex -----

  const INT_MAX := 0x7FFF_FFFF

  datatype Search = Hit(begin: nat, middle: nat, end: nat) | Missing | Wrapped

  /** The index at which an interval is split. */
  function Middle(begin: nat, end: nat): (m: nat)
    requires begin <= end
    ensures begin <= m <= end
  {
    begin + (end - begin) / 2
  }

  function GetSearchIndex(col: seq<Field>, begin: nat, end: nat, value: Field): (r: Search)
    requires begin <= end ==> end < |col|
    ensures r.Hit? ==> begin <= r.begin <= r.middle <= r.end <= end && col[r.middle] == value
    decreases end + 1 - begin
  {
    if end >= begin then
      var middle := Middle(begin, end);
      if col[middle] == value then Hit(begin, middle, end)
      else if Less(value, col[middle]) then
        if middle == 0 then Wrapped else GetSearchIndex(col, begin, middle - 1, value)
      else GetSearchIndex(col, middle + 1, end, value)
    else Missing
  }

  /** The positions whose field a search reads: reading a missing field of a JSON object adds it as null. */
  function Probes(col: seq<Field>, begin: nat, end: nat, value: Field): set<nat>
    requires begin <= end ==> end < |col|
    decreases end + 1 - begin
  {
    if end >= begin then
      var middle := Middle(begin, end);
      {middle} +
      if col[middle] == value then {}
      else if Less(value, col[middle]) then if middle == 0 then {} else Probes(col, begin, middle - 1, value)
      else Probes(col, middle + 1, end, value)
    else {}
  }

  lemma {:induction false} SearchKeeps(col: seq<Field>, begin: nat, end: nat, value: Field, i: nat)
    requires Sorted(col) && begin <= i <= end < |col| && col[i] == value
    ensures var r := GetSearchIndex(col, begin, end, value); r.Hit? && r.begin <= i <= r.end
    decreases end - begin
  {
    hide Less, Middle;
    var middle := Middle(begin, end);
    LessIsTotal(value, col[middle]);
    if i < middle { assert AtMost(col[i], col[middle]); } else { assert AtMost(col[middle], col[i]); }
    if Less(value, col[middle]) {
      SearchKeeps(col, begin, middle - 1, value, i);
    } else if col[middle] != value {
      SearchKeeps(col, middle + 1, end, value, i);
    }
  }

  /** A hit's interval still holds every occurrence; a miss means there is none. */
  lemma SearchKeepsOccurrences(col: seq<Field>, begin: nat, end: nat, value: Field)
    requires Sorted(col) && (begin <= end ==> end < |col|)
    ensures var r := GetSearchIndex(col, begin, end, value);
      forall i :: begin <= i <= end && col[i] == value ==> r.Hit? && r.begin <= i <= r.end
  {
    hide Sorted, GetSearchIndex;
    forall i | begin <= i <= end && col[i] == value
      ensures var r := GetSearchIndex(col, begin, end, value); r.Hit? && r.begin <= i <= r.end
    {
      SearchKeeps(col, begin, end, value, i);
    }
  }

  /** The only way to wrap is to look left of index 0: the value lies below the whole column. */
  lemma {:induction false} WrapsOnlyBelow(col: seq<Field>, begin: nat, end: nat, value: Field)
    requires Sorted(col) && (begin <= end ==> end < |col|)
    ensures GetSearchIndex(col, begin, end, value).Wrapped? ==> begin == 0 && col != [] && Less(value, col[0])
    ensures begin == 0 && begin <= end && Less(value, col[0]) ==> GetSearchIndex(col, begin, end, value).Wrapped?
    decreases end + 1 - begin
  {
    hide Less, Middle;
    if end >= begin {
      var middle := Middle(begin, end);
      LessIsTotal(value, col[middle]);
      LessIsTotal(value, col[0]);
      if begin == 0 && Less(value, col[0]) {
        assert AtMost(col[0], col[middle]);
        if AtMost(col[middle], value) {
          AtMostIsTransitive(col[0], col[middle], value);
        }
      }
      if Less(value, col[middle]) {
        if middle > 0 { WrapsOnlyBelow(col, begin, middle - 1, value); }
      } else if col[middle] != value {
        WrapsOnlyBelow(col, middle + 1, end, value);
      }
    }
  }

  // ----- getlowerIndex and getUpperIndex -----

  datatype Occurrence = At(index: nat) | NotFound | OutOfBounds

  /** i is the first index of value in the column. */
  predicate IsFirst(col: seq<Field>, value: Field, i: int) {
    0 <= i < |col| && col[i] == value && value !in col[..i]
  }

  predicate IsLast(col: seq<Field>, value: Field, i: int) {
    0 <= i < |col| && col[i] == value && value !in col[i + 1..]
  }

  /** From one hit, the loop searches left of each hit in turn. */
  function LowerFrom(col: seq<Field>, value: Field, h: Search): (r: Occurrence)
    requires h.Hit? && h.begin <= h.middle < |col|
    decreases h.middle
  {
    if h.middle == 0 then At(0)
    else match GetSearchIndex(col, h.begin, h.middle - 1, value)
      case Missing => At(h.middle)
      case Wrapped => OutOfBounds
      case Hit(b, m, e) => LowerFrom(col, value, Hit(b, m, e))
  }

  function LowerIndex(col: seq<Field>, value: Field): (r: Occurrence)
    requires col != []
  {
    match GetSearchIndex(col, 0, |col| - 1, value)
    case Missing => NotFound
    case Wrapped => OutOfBounds
    case Hit(b, m, e) => LowerFrom(col, value, Hit(b, m, e))
  }

  function LowerProbesFrom(col: seq<Field>, value: Field, h: Search): set<nat>
    requires h.Hit? && h.begin <= h.middle < |col|
    decreases h.middle
  {
    if h.middle == 0 then {}
    else
      var next := GetSearchIndex(col, h.begin, h.middle - 1, value);
      Probes(col, h.begin, h.middle - 1, value) + if next.Hit? then LowerProbesFrom(col, value, next) else {}
  }

  /** All that getlowerIndex reads. */
  function LowerProbes(col: seq<Field>, value: Field): set<nat>
    requires col != []
  {
    var first := GetSearchIndex(col, 0, |col| - 1, value);
    Probes(col, 0, |col| - 1, value) + if first.Hit? then LowerProbesFrom(col, value, first) else {}
  }

  function UpperFrom(col: seq<Field>, value: Field, h: Search): (r: Occurrence)
    requires h.Hit? && h.middle <= h.end < |col|
    decreases h.end - h.middle
  {
    match GetSearchIndex(col, h.middle + 1, h.end, value)
    case Missing => At(h.middle)
    case Wrapped => OutOfBounds
    case Hit(b, m, e) => UpperFrom(col, value, Hit(b, m, e))
  }

  function UpperIndex(col: seq<Field>, value: Field): (r: Occurrence)
    requires col != []
  {
    match GetSearchIndex(col, 0, |col| - 1, value)
    case Missing => NotFound
    case Wrapped => OutOfBounds
    case Hit(b, m, e) => UpperFrom(col, value, Hit(b, m, e))
  }

  function UpperProbesFrom(col: seq<Field>, value: Field, h: Search): set<nat>
    requires h.Hit? && h.middle <= h.end < |col|
    decreases h.end - h.middle
  {
    var next := GetSearchIndex(col, h.middle + 1, h.end, value);
    Probes(col, h.middle + 1, h.end, value) + if next.Hit? then UpperProbesFrom(col, value, next) else {}
  }

  /** All that getUpperIndex reads. */
  function UpperProbes(col: seq<Field>, value: Field): set<nat>
    requires col != []
  {
    var first := GetSearchIndex(col, 0, |col| - 1, value);
    Probes(col, 0, |col| - 1, value) + if first.Hit? then UpperProbesFrom(col, value, first) else {}
  }

  // ----- What the two indices are -----

  lemma NothingBelow(col: seq<Field>, value: Field)
    requires Sorted(col) && value in col
    ensures !Less(value, col[0])
  {
  }

  lemma {:induction false} LowerFromIsFirst(col: seq<Field>, value: Field, h: Search)
    requires Sorted(col) && h.Hit? && h.begin <= h.middle < |col| && col[h.middle] == value && value !in col[..h.begin]
    ensures var r := LowerFrom(col, value, h); r.At? && IsFirst(col, value, r.index)
    decreases h.middle
  {
    hide GetSearchIndex, Less;
    if h.middle > 0 {
      var r := GetSearchIndex(col, h.begin, h.middle - 1, value);
      SearchKeepsOccurrences(col, h.begin, h.middle - 1, value);
      WrapsOnlyBelow(col, h.begin, h.middle - 1, value);
      NothingBelow(col, value);
      if r.Hit? {
        NotBefore(col, value, h.begin, r.begin);
        LowerFromIsFirst(col, value, r);
      } else {
        NotBefore(col, value, h.begin, h.middle);
      }
    }
  }

  lemma NotBefore(col: seq<Field>, value: Field, b: nat, c: nat)
    requires b <= c <= |col| && value !in col[..b] && forall i :: b <= i < c ==> col[i] != value
    ensures value !in col[..c]
  {
  }

  lemma {:induction false} UpperFromIsLast(col: seq<Field>, value: Field, h: Search)
    requires Sorted(col) && h.Hit? && h.middle <= h.end < |col| && col[h.middle] == value
    requires forall i :: h.end < i < |col| ==> col[i] != value
    ensures var r := UpperFrom(col, value, h); r.At? && IsLast(col, value, r.index)
    decreases h.end - h.middle
  {
    hide GetSearchIndex, Less;
    SearchKeepsOccurrences(col, h.middle + 1, h.end, value);
    WrapsOnlyBelow(col, h.middle + 1, h.end, value);
    var r := GetSearchIndex(col, h.middle + 1, h.end, value);
    if r.Hit? {
      UpperFromIsLast(col, value, r);
    }
  }

  /** The first and last occurrence are found, absence is noticed, and the search wraps just below the column. */
  lemma IndicesAreExact(col: seq<Field>, value: Field)
    requires col != [] && Sorted(col)
    ensures var lo, hi := LowerIndex(col, value), UpperIndex(col, value);
      && (value in col ==> lo.At? && IsFirst(col, value, lo.index) && hi.At? && IsLast(col, value, hi.index))
      && (value !in col && !Less(value, col[0]) ==> lo.NotFound? && hi.NotFound?)
      && (Less(value, col[0]) ==> lo.OutOfBounds? && hi.OutOfBounds?)
  {
    hide GetSearchIndex, Less, LowerFrom, UpperFrom;
    var r := GetSearchIndex(col, 0, |col| - 1, value);
    SearchKeepsOccurrences(col, 0, |col| - 1, value);
    WrapsOnlyBelow(col, 0, |col| - 1, value);
    if value in col { NothingBelow(col, value); }
    if r.Hit? {
      LowerFromIsFirst(col, value, r);
      UpperFromIsLast(col, value, r);
    }
  }
}
