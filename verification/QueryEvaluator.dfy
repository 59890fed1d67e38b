/**
 The evaluation of a filter tree over the documents of an entity: each comparison sorts the
 documents by its field, finds the value's occurrences by binary search and keeps a slice.

 Reading a missing field of a JSON object adds it as null, so the searches leave their traces in the
 documents; what a query returns is therefore described up to null fields.
 */
module QueryEvaluator {
  import opened FilterParser
  import opened SortedSearch
  import opened MerkleDag

  /**
   Text is a JSON string, an operand or the "" marker; Failed is an exception; Unspecified is what
   comes of a search outside the array, of reading an empty stack, or of an entity without "id" index.
   */
  datatype Value = Text(text: string) | Docs(docs: seq<Doc>) | Failed | Unspecified

  // ----- Sorting -----

  function Column(docs: seq<Doc>, field: string): (col: seq<Field>)
    ensures |col| == |docs| && forall i :: 0 <= i < |docs| ==> col[i] == Lookup(docs[i], field)
  {
    seq(|docs|, i requires 0 <= i < |docs| => Lookup(docs[i], field))
  }

  function Insert(d: Doc, docs: seq<Doc>, field: string): (r: seq<Doc>)
    ensures multiset(r) == multiset([d] + docs)
  {
    if docs == [] || !Less(Lookup(docs[0], field), Lookup(d, field)) then [d] + docs
    else
      assert docs == [docs[0]] + docs[1..];
      [docs[0]] + Insert(d, docs[1..], field)
  }

  function Arranged(docs: seq<Doc>, field: string): (r: seq<Doc>)
    ensures multiset(r) == multiset(docs)
  {
    if docs == [] then []
    else
      assert docs == [docs[0]] + docs[1..];
      Insert(docs[0], Arranged(docs[1..], field), field)
  }

  predicate InOrder(docs: seq<Doc>, field: string) {
    docs == [] || ((forall i :: 0 <= i < |docs| ==>
      AtMost(Lookup(docs[0], field), Lookup(docs[i], field))) && InOrder(docs[1..], field))
  }

  lemma {:induction false} InsertInOrder(d: Doc, docs: seq<Doc>, field: string)
    requires InOrder(docs, field)
    ensures InOrder(Insert(d, docs, field), field)
  {
    hide Less, Lookup;
    if docs == [] || !Less(Lookup(docs[0], field), Lookup(d, field)) {
      LessIsTotal(Lookup(d, field), Lookup(d, field));
      forall i | 0 <= i < |docs| ensures AtMost(Lookup(d, field), Lookup(docs[i], field)) {
        AtMostIsTransitive(Lookup(d, field), Lookup(docs[0], field), Lookup(docs[i], field));
      }
    } else {
      InsertInOrder(d, docs[1..], field);
      LessIsTotal(Lookup(docs[0], field), Lookup(d, field));
      LessIsTotal(Lookup(docs[0], field), Lookup(docs[0], field));
      var rest := Insert(d, docs[1..], field);
      forall i | 0 <= i < |rest| ensures AtMost(Lookup(docs[0], field), Lookup(rest[i], field)) {
        assert rest[i] in multiset([d] + docs[1..]);
        assert rest[i] == d || rest[i] in docs[1..];
      }
    }
  }

  lemma {:induction false} InOrderIsSorted(docs: seq<Doc>, field: string)
    requires InOrder(docs, field)
    ensures Sorted(Column(docs, field))
  {
    hide AtMost;
    if docs != [] {
      InOrderIsSorted(docs[1..], field);
      forall i, j | 0 <= i <= j < |docs| ensures AtMost(Lookup(docs[i], field), Lookup(docs[j], field)) {
        if i > 0 {
          assert AtMost(Column(docs[1..], field)[i - 1], Column(docs[1..], field)[j - 1]);
        }
      }
    }
  }

  lemma {:induction false} ArrangedIsInOrder(docs: seq<Doc>, field: string)
    ensures InOrder(Arranged(docs, field), field)
  {
    if docs != [] {
      ArrangedIsInOrder(docs[1..], field);
      InsertInOrder(docs[0], Arranged(docs[1..], field), field);
    }
  }

  ghost predicate IsSorting(r: seq<Doc>, docs: seq<Doc>, field: string) {
    multiset(r) == multiset(docs) && Sorted(Column(r, field))
  }

  lemma CanBeSorted(docs: seq<Doc>, field: string)
    ensures IsSorting(Arranged(docs, field), docs, field)
  {
    ArrangedIsInOrder(docs, field);
    InOrderIsSorted(Arranged(docs, field), field);
  }

  /** What std::sort makes of the array: documents with equal fields come in an order that is left open. */
  ghost function SortBy(docs: seq<Doc>, field: string): (r: seq<Doc>)
    ensures IsSorting(r, docs, field)
  {
    CanBeSorted(docs, field);
    var r :| IsSorting(r, docs, field);
    r
  }

  /** Sorting keeps the documents and orders them by the field, those without it first. */
  lemma SortByIsSorted(docs: seq<Doc>, field: string)
    ensures Sorted(Column(SortBy(docs, field), field)) && |SortBy(docs, field)| == |docs|
    ensures forall d :: d in SortBy(docs, field) <==> d in docs
  {
    assert |multiset(SortBy(docs, field))| == |multiset(docs)|;
    forall d ensures d in SortBy(docs, field) <==> d in docs {
      assert d in multiset(SortBy(docs, field)) <==> d in multiset(docs);
    }
  }

  // ----- What a search leaves behind -----

  /** A document after doc[field] has been read. */
  function Shown(d: Doc, field: string): Doc { if field in d then d else d[field := Null] }

  /** The documents after the field has been read at some positions. */
  function Touch(docs: seq<Doc>, field: string, probes: set<nat>): (r: seq<Doc>)
    ensures |r| == |docs|
    ensures forall i :: 0 <= i < |docs| ==> r[i] == if i in probes then Shown(docs[i], field) else docs[i]
  {
    seq(|docs|, i requires 0 <= i < |docs| => if i in probes then Shown(docs[i], field) else docs[i])
  }

  lemma TouchMore(docs: seq<Doc>, field: string, probes: set<nat>, more: set<nat>)
    ensures Touch(Touch(docs, field, probes), field, more) == Touch(docs, field, probes + more)
    ensures Column(Touch(docs, field, probes), field) == Column(docs, field)
  {
  }

  /** json[k][field]: a missing field is added as null. */
  method ReadField(json: array<Doc>, k: nat, field: string) returns (found: Field)
    requires k < json.Length
    modifies json
    ensures json[..] == Touch(old(json[..]), field, {k})
    ensures Column(json[..], field) == Column(old(json[..]), field) && found == Column(old(json[..]), field)[k]
  {
    json[k] := Shown(json[k], field);
    found := json[k][field];
  }

  lemma TouchNone(docs: seq<Doc>, field: string)
    ensures Touch(docs, field, {}) == docs
  {
  }

  lemma SearchLeft(col: seq<Field>, begin: nat, end: nat, v: Field)
    requires begin <= end < |col|
    ensures var middle := Middle(begin, end);
      middle > 0 && col[middle] != v && Less(v, col[middle]) ==>
        && GetSearchIndex(col, begin, end, v) == GetSearchIndex(col, begin, middle - 1, v)
        && Probes(col, begin, end, v) == {middle} + Probes(col, begin, middle - 1, v)
  {
    hide Less;
  }

  lemma SearchRight(col: seq<Field>, begin: nat, end: nat, v: Field)
    requires begin <= end < |col|
    ensures var middle := Middle(begin, end);
      col[middle] != v && !Less(v, col[middle]) ==>
        && GetSearchIndex(col, begin, end, v) == GetSearchIndex(col, middle + 1, end, v)
        && Probes(col, begin, end, v) == {middle} + Probes(col, middle + 1, end, v)
  {
    hide Less;
  }

  lemma SearchEnds(col: seq<Field>, begin: nat, end: nat, v: Field)
    requires begin <= end ==> end < |col|
    ensures end < begin ==> GetSearchIndex(col, begin, end, v) == Missing && Probes(col, begin, end, v) == {}
    ensures begin <= end ==>
      var middle := Middle(begin, end);
      && (col[middle] == v ==>
           GetSearchIndex(col, begin, end, v) == Hit(begin, middle, end) && Probes(col, begin, end, v) == {middle})
      && (col[middle] != v && Less(v, col[middle]) && middle == 0 ==>
           GetSearchIndex(col, begin, end, v) == Wrapped && Probes(col, begin, end, v) == {middle})
  {
    hide Less;
  }

  /** getSearchIndex, on the array that its reads may add fields to. */
  method SearchIndex(json: array<Doc>, begin: nat, end: nat, field: string, value: string) returns (r: Search)
    requires begin <= end ==> end < json.Length
    modifies json
    ensures r == GetSearchIndex(Column(old(json[..]), field), begin, end, Word(value))
    ensures json[..] == Touch(old(json[..]), field, Probes(Column(old(json[..]), field), begin, end, Word(value)))
    decreases end + 1 - begin
  {
    hide *;
    ghost var docs, col, v := json[..], Column(json[..], field), Word(value);
    SearchEnds(col, begin, end, v);
    if end < begin {
      TouchNone(docs, field);
      return Missing;
    }
    var middle := Middle(begin, end);
    var found := ReadField(json, middle, field);
    if found == Word(value) {
      return Hit(begin, middle, end);
    }
    if Less(Word(value), found) {
      if middle == 0 {
        return Wrapped;
      }
      SearchLeft(col, begin, end, v);
      r := SearchIndex(json, begin, middle - 1, field, value);
      TouchMore(docs, field, {middle}, Probes(col, begin, middle - 1, v));
    } else {
      SearchRight(col, begin, end, v);
      r := SearchIndex(json, middle + 1, end, field, value);
      TouchMore(docs, field, {middle}, Probes(col, middle + 1, end, v));
    }
  }

  lemma LowerStart(col: seq<Field>, v: Field)
    requires col != []
    ensures var first := GetSearchIndex(col, 0, |col| - 1, v);
      && (first.Missing? ==> LowerIndex(col, v) == NotFound) && (first.Wrapped? ==> LowerIndex(col, v) == OutOfBounds)
      && (first.Hit? ==> LowerIndex(col, v) == LowerFrom(col, v, first))
      && LowerProbes(col, v) ==
           Probes(col, 0, |col| - 1, v) + if first.Hit? then LowerProbesFrom(col, v, first) else {}
  {
  }

  lemma LowerNext(col: seq<Field>, v: Field, h: Search)
    requires h.Hit? && h.begin <= h.middle < |col|
    ensures h.middle == 0 ==> LowerFrom(col, v, h) == At(0) && LowerProbesFrom(col, v, h) == {}
    ensures h.middle > 0 ==>
      var next := GetSearchIndex(col, h.begin, h.middle - 1, v);
      && (next.Missing? ==> LowerFrom(col, v, h) == At(h.middle))
      && (next.Wrapped? ==> LowerFrom(col, v, h) == OutOfBounds)
      && (next.Hit? ==> LowerFrom(col, v, h) == LowerFrom(col, v, next))
      && LowerProbesFrom(col, v, h) ==
           Probes(col, h.begin, h.middle - 1, v) + if next.Hit? then LowerProbesFrom(col, v, next) else {}
  {
  }

  method GetLowerIndex(json: array<Doc>, field: string, value: string) returns (r: Occurrence)
    requires 0 < json.Length <= INT_MAX
    modifies json
    ensures r == LowerIndex(Column(old(json[..]), field), Word(value))
    ensures json[..] == Touch(old(json[..]), field, LowerProbes(Column(old(json[..]), field), Word(value)))
  {
    hide *;
    ghost var docs, col, v := json[..], Column(json[..], field), Word(value);
    var result := SearchIndex(json, 0, json.Length - 1, field, value);
    ghost var seen := Probes(col, 0, |col| - 1, v);
    TouchMore(docs, field, seen, {});
    LowerStart(col, v);
    if result.Missing? { return NotFound; }
    if result.Wrapped? { return OutOfBounds; }
    var lastfoundat := result.middle;
    while result.Hit?
      invariant Column(json[..], field) == col && json[..] == Touch(docs, field, seen)
      invariant result.Hit? ==>
        && result.begin <= result.middle < |col| && LowerFrom(col, v, result) == LowerIndex(col, v)
        && seen + LowerProbesFrom(col, v, result) == LowerProbes(col, v)
      invariant !result.Hit? ==> seen == LowerProbes(col, v)
      invariant !result.Hit? ==> LowerIndex(col, v) == if result.Wrapped? then OutOfBounds else At(lastfoundat)
      decreases result.Hit?, if result.Hit? then result.middle else 0
    {
      lastfoundat := result.middle;
      LowerNext(col, v, result);
      if lastfoundat == 0 { return At(0); }
      ghost var more := Probes(col, result.begin, lastfoundat - 1, v);
      result := SearchIndex(json, result.begin, lastfoundat - 1, field, value);
      TouchMore(docs, field, seen, more);
      seen := seen + more;
      TouchMore(docs, field, seen, {});
    }
    r := if result.Wrapped? then OutOfBounds else At(lastfoundat);
  }

  lemma UpperStart(col: seq<Field>, v: Field)
    requires col != []
    ensures var first := GetSearchIndex(col, 0, |col| - 1, v);
      && (first.Missing? ==> UpperIndex(col, v) == NotFound) && (first.Wrapped? ==> UpperIndex(col, v) == OutOfBounds)
      && (first.Hit? ==> UpperIndex(col, v) == UpperFrom(col, v, first))
      && UpperProbes(col, v) ==
           Probes(col, 0, |col| - 1, v) + if first.Hit? then UpperProbesFrom(col, v, first) else {}
  {
  }

  lemma UpperNext(col: seq<Field>, v: Field, h: Search)
    requires h.Hit? && h.middle <= h.end < |col|
    ensures var next := GetSearchIndex(col, h.middle + 1, h.end, v);
      && (next.Missing? ==> UpperFrom(col, v, h) == At(h.middle))
      && (next.Wrapped? ==> UpperFrom(col, v, h) == OutOfBounds)
      && (next.Hit? ==> UpperFrom(col, v, h) == UpperFrom(col, v, next))
      && UpperProbesFrom(col, v, h) ==
           Probes(col, h.middle + 1, h.end, v) + if next.Hit? then UpperProbesFrom(col, v, next) else {}
  {
  }

  method GetUpperIndex(json: array<Doc>, field: string, value: string) returns (r: Occurrence)
    requires 0 < json.Length <= INT_MAX
    modifies json
    ensures r == UpperIndex(Column(old(json[..]), field), Word(value))
    ensures json[..] == Touch(old(json[..]), field, UpperProbes(Column(old(json[..]), field), Word(value)))
  {
    hide *;
    ghost var docs, col, v := json[..], Column(json[..], field), Word(value);
    var result := SearchIndex(json, 0, json.Length - 1, field, value);
    ghost var seen := Probes(col, 0, |col| - 1, v);
    TouchMore(docs, field, seen, {});
    UpperStart(col, v);
    if result.Missing? { return NotFound; }
    if result.Wrapped? { return OutOfBounds; }
    var lastfoundat := result.middle;
    while result.Hit?
      invariant Column(json[..], field) == col && json[..] == Touch(docs, field, seen)
      invariant result.Hit? ==>
        && result.middle <= result.end < |col| && UpperFrom(col, v, result) == UpperIndex(col, v)
        && seen + UpperProbesFrom(col, v, result) == UpperProbes(col, v)
      invariant !result.Hit? ==> seen == UpperProbes(col, v)
      invariant !result.Hit? ==> UpperIndex(col, v) == if result.Wrapped? then OutOfBounds else At(lastfoundat)
      decreases result.Hit?, if result.Hit? then result.end - result.middle else 0
    {
      lastfoundat := result.middle;
      UpperNext(col, v, result);
      ghost var more := Probes(col, lastfoundat + 1, result.end, v);
      result := SearchIndex(json, lastfoundat + 1, result.end, field, value);
      TouchMore(docs, field, seen, more);
      seen := seen + more;
      TouchMore(docs, field, seen, {});
    }
    r := if result.Wrapped? then OutOfBounds else At(lastfoundat);
  }

  // ----- The filters on a sorted array -----

  const FILTERS := {"=", "<>", "<", "<=", ">", ">="}

  /** What each filter function returns, given the indices of the value in the column. */
  function Slice(op: string, docs: seq<Doc>, lower: nat, upper: nat): (r: seq<Doc>)
    requires lower <= upper < |docs|
  {
    if op == "=" then docs[lower..upper + 1]
    else if op == "<>" then docs[..lower] + docs[upper + 1..]
    else if op == "<" then docs[..lower]
    else if op == "<=" then docs[..upper + 1]
    else if op == ">" then if upper == |docs| - 1 then [] else docs[upper..]
    else docs[upper..]
  }

  /** The positions read by the searches of each filter function that finds the value. */
  function Read(op: string, col: seq<Field>, value: Field): set<nat>
    requires col != []
  {
    if op in {"=", "<>"} then LowerProbes(col, value) + UpperProbes(col, value)
    else if op == "<" then LowerProbes(col, value)
    else UpperProbes(col, value)
  }

  function Filter(op: string, docs: seq<Doc>, field: string, value: string): (r: Value)
    requires docs != []
  {
    var col, v := Column(docs, field), Word(value);
    match (LowerIndex(col, v), UpperIndex(col, v))
    case (At(lower), At(upper)) =>
      if lower <= upper < |docs| then Docs(Slice(op, Touch(docs, field, Read(op, col, v)), lower, upper))
      else Unspecified
    case (NotFound, NotFound) => Docs([])
    case _ => Unspecified
  }

  /** The copying loops of the filter functions. */
  method CopyRange(json: array<Doc>, from: nat, to: nat) returns (filtered: seq<Doc>)
    requires from <= to <= json.Length
    ensures filtered == json[from..to]
  {
    filtered := [];
    for i := from to to
      invariant filtered == json[from..i]
    {
      filtered := filtered + [json[i]];
    }
  }

  lemma FirstBeforeLast(col: seq<Field>, value: Field)
    ensures forall i, j :: IsFirst(col, value, i) && IsLast(col, value, j) ==> i <= j
  {
  }

  /** equals and not_equals, which search for both ends. */
  method FilterBothEnds(op: string, json: array<Doc>, field: string, value: string) returns (r: Value)
    requires 0 < json.Length <= INT_MAX && op in {"=", "<>"} && Sorted(Column(json[..], field))
    modifies json
    ensures r == Filter(op, old(json[..]), field, value)
  {
    hide GetSearchIndex, Less, LowerIndex, UpperIndex, Sorted, Column, LowerProbes, UpperProbes, Touch;
    ghost var docs, col, v := json[..], Column(json[..], field), Word(value);
    IndicesAreExact(col, v);
    FirstBeforeLast(col, v);
    var from := GetLowerIndex(json, field, value);
    if from.NotFound? { return Docs([]); }
    if from.OutOfBounds? { return Unspecified; }
    TouchMore(docs, field, LowerProbes(col, v), UpperProbes(col, v));
    var to := GetUpperIndex(json, field, value);
    assert json[..] == Touch(docs, field, Read(op, col, v));
    var filtered: seq<Doc>;
    if op == "=" {
      filtered := CopyRange(json, from.index, to.index + 1);
    } else {
      filtered := CopyRange(json, 0, from.index);
      var above := CopyRange(json, to.index + 1, json.Length);
      filtered := filtered + above;
    }
    r := Docs(filtered);
  }

  /** lessthan, which searches for the lower end only. */
  method FilterLess(json: array<Doc>, field: string, value: string) returns (r: Value)
    requires 0 < json.Length <= INT_MAX && Sorted(Column(json[..], field))
    modifies json
    ensures r == Filter("<", old(json[..]), field, value)
  {
    hide GetSearchIndex, Less, LowerIndex, UpperIndex, Sorted, Column, LowerProbes, UpperProbes, Touch;
    ghost var docs, col, v := json[..], Column(json[..], field), Word(value);
    IndicesAreExact(col, v);
    FirstBeforeLast(col, v);
    var from := GetLowerIndex(json, field, value);
    if from.NotFound? { return Docs([]); }
    if from.OutOfBounds? { return Unspecified; }
    assert json[..] == Touch(docs, field, Read("<", col, v));
    var filtered := CopyRange(json, 0, from.index);
    r := Docs(filtered);
  }

  /** lessthan_equals, greaterthan and greaterthan_equals, which search for the upper end only. */
  method FilterUpper(op: string, json: array<Doc>, field: string, value: string) returns (r: Value)
    requires 0 < json.Length <= INT_MAX && op in {"<=", ">", ">="} && Sorted(Column(json[..], field))
    modifies json
    ensures r == Filter(op, old(json[..]), field, value)
  {
    hide GetSearchIndex, Less, LowerIndex, UpperIndex, Sorted, Column, LowerProbes, UpperProbes, Touch;
    ghost var docs, col, v := json[..], Column(json[..], field), Word(value);
    IndicesAreExact(col, v);
    FirstBeforeLast(col, v);
    var from := GetUpperIndex(json, field, value);
    if from.NotFound? { return Docs([]); }
    if from.OutOfBounds? { return Unspecified; }
    assert json[..] == Touch(docs, field, Read(op, col, v));
    var filtered := [];
    if op == "<=" {
      filtered := CopyRange(json, 0, from.index + 1);
    } else if op == ">=" || json.Length - 1 != from.index {
      filtered := CopyRange(json, from.index, json.Length);
    }
    r := Docs(filtered);
  }

  // ----- What a comparison means -----

  predicate Holds(op: string, a: Field, b: Field) {
    if op == "=" then a == b
    else if op == "<>" then a != b
    else if op == "<" then Less(a, b)
    else if op == "<=" then AtMost(a, b)
    else if op == ">" then Less(b, a)
    else AtMost(b, a)
  }

  /** x is d, perhaps with some of the fields that d lacks added as null. */
  predicate IsVersion(x: Doc, d: Doc, fields: set<string>) {
    && d.Keys <= x.Keys <= d.Keys + fields
    && forall k :: k in x ==> x[k] == Lookup(d, k)
  }

  lemma VersionLooksLike(x: Doc, d: Doc, fields: set<string>, field: string)
    requires IsVersion(x, d, fields)
    ensures Lookup(x, field) == Lookup(d, field) && (fields <= d.Keys ==> x == d)
  {
  }

  lemma ShownIsVersion(d: Doc, field: string)
    ensures IsVersion(d, d, {field}) && IsVersion(Shown(d, field), d, {field})
  {
  }

  /** A tree of "&" and "|" over comparisons of a field with a value. */
  predicate IsQuery(f: TreeNode) {
    f.Node? &&
    if f.root in FILTERS then f.left.Leaf? && f.right.Leaf?
    else f.root in {"&", "|"} && IsQuery(f.left) && IsQuery(f.right)
  }

  /** The fields a query compares. */
  function Fields(f: TreeNode): set<string>
    requires IsQuery(f)
  {
    if f.root in FILTERS then {f.left.root} else Fields(f.left) + Fields(f.right)
  }

  predicate Satisfies(f: TreeNode, d: Doc)
    requires IsQuery(f)
  {
    if f.root in FILTERS then Holds(f.root, Lookup(d, f.left.root), Word(f.right.root))
    else if f.root == "&" then Satisfies(f.left, d) && Satisfies(f.right, d)
    else Satisfies(f.left, d) || Satisfies(f.right, d)
  }

  /** x is a document that satisfies the query, in some version. */
  ghost predicate Comes(x: Doc, f: TreeNode, docs: seq<Doc>)
    requires IsQuery(f)
  {
    exists d :: d in docs && IsVersion(x, d, Fields(f)) && Satisfies(f, d)
  }

  /** d is in r, in some version. */
  ghost predicate IsListed(d: Doc, fields: set<string>, r: seq<Doc>) {
    exists x :: x in r && IsVersion(x, d, fields)
  }

  /** r lists exactly the documents that satisfy the query, each in some version. */
  ghost predicate Answers(r: Value, f: TreeNode, docs: seq<Doc>)
    requires IsQuery(f)
  {
    && r.Docs?
    && (forall x :: x in r.docs ==> Comes(x, f, docs))
    && (forall d :: d in docs && Satisfies(f, d) ==> IsListed(d, Fields(f), r.docs))
  }

  function Comparison(op: string, field: string, value: string): TreeNode { Node(op, Leaf(field), Leaf(value)) }

  /** r lists exactly the documents that satisfy the comparison, as they are. */
  ghost predicate Lists(r: seq<Doc>, op: string, docs: seq<Doc>, field: string, value: string) {
    forall d :: d in r <==> d in docs && Holds(op, Lookup(d, field), Word(value))
  }

  // ----- When a filter is the plain filter -----

  predicate Occurs(docs: seq<Doc>, field: string, value: string) {
    exists i :: 0 <= i < |docs| && Lookup(docs[i], field) == Word(value)
  }

  predicate SomeAbove(docs: seq<Doc>, field: string, value: string) {
    exists i :: 0 <= i < |docs| && Less(Word(value), Lookup(docs[i], field))
  }

  predicate AllAbove(docs: seq<Doc>, field: string, value: string) {
    forall i :: 0 <= i < |docs| ==> Less(Word(value), Lookup(docs[i], field))
  }

  /** The documents with this value are all one document. */
  predicate Unique(docs: seq<Doc>, field: string, value: string) {
    forall i, j ::
      0 <= i < |docs| && 0 <= j < |docs| && Lookup(docs[i], field) == Word(value) == Lookup(docs[j], field) ==>
      docs[i] == docs[j]
  }

  /**
   The exact condition under which a filter returns the documents its operator means: the value is
   not below the smallest one, and then "=" is always right; "<>", "<" and "<=" need the value to
   occur; ">" is right only when nothing is above it; ">=" when at most one document has it.  A
   document without the field counts as one whose value is below every string.
   */
  predicate Exact(op: string, docs: seq<Doc>, field: string, value: string) {
    docs == [] ||
    (!AllAbove(docs, field, value) &&
     if op == "=" then true
     else if op in {"<>", "<", "<="} then Occurs(docs, field, value)
     else if op == ">" then !SomeAbove(docs, field, value)
     else if Occurs(docs, field, value) then Unique(docs, field, value) else !SomeAbove(docs, field, value))
  }

  /** In a sorted column, below, at and above the value are three consecutive ranges. */
  lemma Partition(col: seq<Field>, value: Field, lower: nat, upper: nat)
    requires Sorted(col) && IsFirst(col, value, lower) && IsLast(col, value, upper)
    ensures lower <= upper
    ensures forall i :: 0 <= i < |col| ==> (Less(col[i], value) <==> i < lower)
    ensures forall i :: 0 <= i < |col| ==> (Less(value, col[i]) <==> i > upper)
    ensures forall i :: 0 <= i < |col| ==> (col[i] == value <==> lower <= i <= upper)
  {
    hide Less;
    FirstBeforeLast(col, value);
    forall i | 0 <= i < |col|
      ensures Less(col[i], value) <==> i < lower
      ensures Less(value, col[i]) <==> i > upper
      ensures col[i] == value <==> lower <= i <= upper
    {
      LessIsTotal(col[i], value);
      if i < lower { assert col[i] in col[..lower] && AtMost(col[i], col[lower]); }
      if lower <= i { assert AtMost(col[lower], col[i]); }
      if i <= upper { assert AtMost(col[i], col[upper]); }
      if i > upper { assert col[i] in col[upper + 1..] && AtMost(col[upper], col[i]); }
    }
  }

  /** What each slice holds, in terms of the three ranges. */
  lemma SliceMembers(op: string, docs: seq<Doc>, lower: nat, upper: nat, d: Doc)
    requires lower <= upper < |docs| && op in FILTERS
    ensures d in Slice(op, docs, lower, upper) <==>
      exists i :: 0 <= i < |docs| && docs[i] == d && Within(op, |docs|, lower, upper, i)
  {
  }

  predicate Within(op: string, n: nat, lower: nat, upper: nat, i: nat) {
    if op == "=" then lower <= i <= upper
    else if op == "<>" then i < lower || i > upper
    else if op == "<" then i < lower
    else if op == "<=" then i <= upper
    else if op == ">" then upper < n - 1 && i >= upper
    else i >= upper
  }

  lemma SlicesBelowList(op: string, docs: seq<Doc>, field: string, value: string, lower: nat, upper: nat)
    requires op in {"=", "<>", "<", "<="} && Sorted(Column(docs, field))
    requires IsFirst(Column(docs, field), Word(value), lower) && IsLast(Column(docs, field), Word(value), upper)
    ensures lower <= upper < |docs| && Lists(Slice(op, docs, lower, upper), op, docs, field, value)
  {
    hide Less, Slice, Sorted, Lookup;
    Partition(Column(docs, field), Word(value), lower, upper);
    forall d ensures d in Slice(op, docs, lower, upper) <==> d in docs && Holds(op, Lookup(d, field), Word(value)) {
      SliceMembers(op, docs, lower, upper, d);
    }
  }

  /** ">" also returns the last document that equals the value, unless it returns nothing. */
  lemma AboveLists(docs: seq<Doc>, field: string, value: string, lower: nat, upper: nat)
    requires Sorted(Column(docs, field))
    requires IsFirst(Column(docs, field), Word(value), lower) && IsLast(Column(docs, field), Word(value), upper)
    ensures lower <= upper < |docs|
    ensures Lists(Slice(">", docs, lower, upper), ">", docs, field, value) <==> !SomeAbove(docs, field, value)
  {
    hide Less, Sorted, Lookup;
    Partition(Column(docs, field), Word(value), lower, upper);
    if upper < |docs| - 1 {
      assert docs[upper..][0] == docs[upper];
      assert Less(Word(value), Lookup(docs[upper + 1], field));
    }
  }

  /** ">=" returns only the last of the documents that equal the value. */
  lemma FromLists(docs: seq<Doc>, field: string, value: string, lower: nat, upper: nat)
    requires Sorted(Column(docs, field))
    requires IsFirst(Column(docs, field), Word(value), lower) && IsLast(Column(docs, field), Word(value), upper)
    ensures lower <= upper < |docs|
    ensures Lists(Slice(">=", docs, lower, upper), ">=", docs, field, value) <==> Unique(docs, field, value)
  {
    hide Less, Sorted, Lookup;
    Partition(Column(docs, field), Word(value), lower, upper);
    var r := docs[upper..];
    forall d | d in r
      ensures d in docs && Holds(">=", Lookup(d, field), Word(value))
      ensures Lookup(d, field) == Word(value) ==> d == docs[upper]
    {
      var k :| 0 <= k < |r| && r[k] == d;
      assert d == docs[upper + k];
    }
    if Unique(docs, field, value) {
      forall d | d in docs && Holds(">=", Lookup(d, field), Word(value)) ensures d in r {
        var i :| 0 <= i < |docs| && docs[i] == d;
        if i > upper { assert r[i - upper] == d; } else { assert r[0] == docs[upper] == d; }
      }
    } else {
      var i, j :| 0 <= i < |docs| && 0 <= j < |docs| &&
        Lookup(docs[i], field) == Word(value) == Lookup(docs[j], field) && docs[i] != docs[j];
      assert docs[i] !in r || docs[j] !in r;
    }
  }

  /** A slice of the documents read is a slice of the documents, each in some version. */
  lemma SliceOfTouched(op: string, docs: seq<Doc>, field: string, probes: set<nat>, lower: nat, upper: nat)
    requires lower <= upper < |docs| && op in FILTERS
    ensures var r, s := Slice(op, Touch(docs, field, probes), lower, upper), Slice(op, docs, lower, upper);
      && |r| == |s|
      && (forall i :: 0 <= i < |s| ==> r[i] == s[i] || r[i] == Shown(s[i], field))
  {
    hide Touch, Shown, Slice;
    SliceByElement(op, docs, Touch(docs, field, probes), field, lower, upper);
  }

  /** shown are the documents, some of them with the field. */
  ghost predicate ByElement(shown: seq<Doc>, docs: seq<Doc>, field: string) {
    |shown| == |docs| && forall i :: 0 <= i < |docs| ==> shown[i] == docs[i] || shown[i] == Shown(docs[i], field)
  }

  lemma RangeByElement(shown: seq<Doc>, docs: seq<Doc>, field: string, from: nat, to: nat)
    requires ByElement(shown, docs, field) && from <= to <= |docs|
    ensures ByElement(shown[from..to], docs[from..to], field)
  {
    hide Shown;
  }

  lemma JoinedByElement(a: seq<Doc>, b: seq<Doc>, c: seq<Doc>, d: seq<Doc>, field: string)
    requires ByElement(a, c, field) && ByElement(b, d, field)
    ensures ByElement(a + b, c + d, field)
  {
    hide Shown;
  }

  lemma SliceByElement(op: string, docs: seq<Doc>, shown: seq<Doc>, field: string, lower: nat, upper: nat)
    requires lower <= upper < |docs| == |shown| && op in FILTERS && ByElement(shown, docs, field)
    ensures ByElement(Slice(op, shown, lower, upper), Slice(op, docs, lower, upper), field)
  {
    hide ByElement;
    var n := |docs|;
    if op == "=" {
      RangeByElement(shown, docs, field, lower, upper + 1);
    } else if op == "<>" {
      RangeByElement(shown, docs, field, 0, lower);
      RangeByElement(shown, docs, field, upper + 1, n);
      assert shown[0..lower] == shown[..lower] && docs[0..lower] == docs[..lower];
      assert shown[upper + 1..n] == shown[upper + 1..] && docs[upper + 1..n] == docs[upper + 1..];
      JoinedByElement(shown[..lower], shown[upper + 1..], docs[..lower], docs[upper + 1..], field);
    } else if op == "<" {
      RangeByElement(shown, docs, field, 0, lower);
      assert shown[0..lower] == shown[..lower] && docs[0..lower] == docs[..lower];
    } else if op == "<=" {
      RangeByElement(shown, docs, field, 0, upper + 1);
      assert shown[0..upper + 1] == shown[..upper + 1] && docs[0..upper + 1] == docs[..upper + 1];
    } else {
      RangeByElement(shown, docs, field, upper, n);
      assert shown[upper..n] == shown[upper..] && docs[upper..n] == docs[upper..];
      RangeByElement(shown, docs, field, n, n);
      assert shown[n..n] == [] && docs[n..n] == [];
    }
  }

  /** Nothing above or at the value is changed by reading the field. */
  lemma NothingAdded(op: string, docs: seq<Doc>, field: string, value: string, probes: set<nat>, lower: nat, upper: nat)
    requires op in {">", ">="} && Sorted(Column(docs, field))
    requires IsFirst(Column(docs, field), Word(value), lower) && IsLast(Column(docs, field), Word(value), upper)
    ensures lower <= upper < |docs|
    ensures Slice(op, Touch(docs, field, probes), lower, upper) == Slice(op, docs, lower, upper)
    ensures forall d :: d in Slice(op, docs, lower, upper) ==> field in d
  {
    var col := Column(docs, field);
    Partition(col, Word(value), lower, upper);
    assert forall i :: upper <= i < |docs| ==> col[i].Word? by {
      assert forall i :: upper <= i < |docs| ==> col[i] == Word(value) || Less(Word(value), col[i]);
    }
    assert forall i :: upper <= i < |docs| ==> field in docs[i] && Touch(docs, field, probes)[i] == docs[i];
    assert Touch(docs, field, probes)[upper..] == docs[upper..];
  }

  lemma ListedSelects(op: string, docs: seq<Doc>, field: string, value: string, probes: set<nat>,
      lower: nat, upper: nat)
    requires op in FILTERS && lower <= upper < |docs| && Lists(Slice(op, docs, lower, upper), op, docs, field, value)
    ensures Answers(Docs(Slice(op, Touch(docs, field, probes), lower, upper)), Comparison(op, field, value), docs)
  {
    hide Slice, Holds, Touch, Lookup, Shown, IsVersion;
    var f := Comparison(op, field, value);
    var r, s := Slice(op, Touch(docs, field, probes), lower, upper), Slice(op, docs, lower, upper);
    SliceOfTouched(op, docs, field, probes, lower, upper);
    forall x | x in r ensures Comes(x, f, docs) {
      var i :| 0 <= i < |r| && r[i] == x;
      ShownIsVersion(s[i], field);
      assert s[i] in s;
    }
    forall d | d in docs && Satisfies(f, d) ensures IsListed(d, {field}, r) {
      assert d in s;
      var i :| 0 <= i < |s| && s[i] == d;
      ShownIsVersion(d, field);
      assert r[i] in r;
    }
  }

  /** Among documents that all have the field, a version is the document. */
  lemma AnswersLists(op: string, r: seq<Doc>, docs: seq<Doc>, field: string, value: string)
    requires op in {">", ">="} && (forall d :: d in r ==> field in d)
    requires Answers(Docs(r), Comparison(op, field, value), docs)
    ensures Lists(r, op, docs, field, value)
  {
    hide Comes, IsListed;
    var f := Comparison(op, field, value);
    forall d ensures d in r <==> d in docs && Holds(op, Lookup(d, field), Word(value)) {
      if d in r { OnlyVersion(d, f, docs); }
      if d in docs && Satisfies(f, d) { OnlyForm(d, field, r); }
    }
  }

  lemma OnlyVersion(x: Doc, f: TreeNode, docs: seq<Doc>)
    requires IsQuery(f) && f.root in {">", ">="} && Comes(x, f, docs)
    ensures x in docs && Satisfies(f, x)
  {
    var d :| d in docs && IsVersion(x, d, Fields(f)) && Satisfies(f, d);
    assert Lookup(d, f.left.root).Word?;
    assert x == d;
  }

  lemma OnlyForm(d: Doc, field: string, r: seq<Doc>)
    requires IsListed(d, {field}, r) && Lookup(d, field).Word?
    ensures d in r
  {
    var x :| x in r && IsVersion(x, d, {field});
    assert x == d;
  }

  lemma FilterFound(op: string, docs: seq<Doc>, field: string, value: string, probes: set<nat>, lower: nat, upper: nat)
    requires op in FILTERS && docs != [] && Sorted(Column(docs, field))
    requires IsFirst(Column(docs, field), Word(value), lower) && IsLast(Column(docs, field), Word(value), upper)
    ensures lower <= upper < |docs|
    ensures Answers(Docs(Slice(op, Touch(docs, field, probes), lower, upper)), Comparison(op, field, value), docs) <==>
      Exact(op, docs, field, value)
  {
    hide Less, Slice, Sorted, Lookup, Touch, Answers, Lists, Unique;
    Partition(Column(docs, field), Word(value), lower, upper);
    assert Lookup(docs[lower], field) == Word(value);
    if op == ">" || op == ">=" {
      NothingAdded(op, docs, field, value, probes, lower, upper);
      var r := Slice(op, docs, lower, upper);
      if op == ">" {
        AboveLists(docs, field, value, lower, upper);
      } else {
        FromLists(docs, field, value, lower, upper);
      }
      if Lists(r, op, docs, field, value) { ListedSelects(op, docs, field, value, probes, lower, upper); }
      if Answers(Docs(r), Comparison(op, field, value), docs) { AnswersLists(op, r, docs, field, value); }
    } else {
      SlicesBelowList(op, docs, field, value, lower, upper);
      ListedSelects(op, docs, field, value, probes, lower, upper);
    }
  }

  lemma AboveFirst(docs: seq<Doc>, field: string, value: string)
    requires docs != [] && Sorted(Column(docs, field))
    ensures AllAbove(docs, field, value) <==> Less(Word(value), Lookup(docs[0], field))
  {
    hide Less, Lookup;
    var col, v := Column(docs, field), Word(value);
    if Less(v, col[0]) {
      forall i | 0 <= i < |docs| ensures Less(v, Lookup(docs[i], field)) {
        assert AtMost(col[0], col[i]);
        LessIsTotal(v, col[0]);
        LessIsTotal(v, col[i]);
        if !Less(v, col[i]) { AtMostIsTransitive(col[0], col[i], v); }
      }
    }
  }

  /** When the value is absent but not below the column, every filter returns nothing. */
  lemma NothingSelects(op: string, docs: seq<Doc>, field: string, value: string)
    requires op in FILTERS && docs != []
    requires !Occurs(docs, field, value) && !Less(Word(value), Lookup(docs[0], field))
    ensures Answers(Docs([]), Comparison(op, field, value), docs) <==> Exact(op, docs, field, value)
  {
    hide Less, Lookup;
    var f := Comparison(op, field, value);
    assert Answers(Docs([]), f, docs) <==> forall d :: d in docs ==> !Holds(op, Lookup(d, field), Word(value)) by {
      assert forall d :: Satisfies(f, d) == Holds(op, Lookup(d, field), Word(value));
      assert forall d :: !IsListed(d, Fields(f), []);
    }
    hide Answers;
    forall d | d in docs
      ensures Lookup(d, field) != Word(value)
      ensures AtMost(Word(value), Lookup(d, field)) <==> Less(Word(value), Lookup(d, field))
    {
      LessIsTotal(Word(value), Lookup(d, field));
    }
    LessIsTotal(Word(value), Lookup(docs[0], field));
    assert docs[0] in docs;
  }

  /** On the sorted documents, a filter returns what its operator means exactly under its condition. */
  lemma FilterIsExact(op: string, docs: seq<Doc>, field: string, value: string)
    requires op in FILTERS && docs != [] && Sorted(Column(docs, field))
    ensures Answers(Filter(op, docs, field, value), Comparison(op, field, value), docs) <==>
      Exact(op, docs, field, value)
    ensures Filter(op, docs, field, value).Unspecified? <==> AllAbove(docs, field, value)
    ensures Filter(op, docs, field, value).Unspecified? || Filter(op, docs, field, value).Docs?
  {
    hide Less, Slice, Sorted, LowerIndex, UpperIndex, Lookup, Touch, Read, Answers;
    var col, v := Column(docs, field), Word(value);
    IndicesAreExact(col, v);
    AboveFirst(docs, field, value);
    if v in col {
      FilterFound(op, docs, field, value, Read(op, col, v), LowerIndex(col, v).index, UpperIndex(col, v).index);
      NothingBelow(col, v);
    } else if !Less(v, col[0]) {
      assert forall i :: 0 <= i < |docs| ==> col[i] in col;
      NothingSelects(op, docs, field, value);
    } else {
      UnspecifiedSelectsNothing(op, docs, field, value);
    }
  }

  lemma UnspecifiedSelectsNothing(op: string, docs: seq<Doc>, field: string, value: string)
    requires op in FILTERS
    ensures !Answers(Unspecified, Comparison(op, field, value), docs)
  {
  }

  /** The condition and the meaning depend on the documents only as a set. */
  lemma OrderDoesNotMatter(r: Value, op: string, docs: seq<Doc>, docs': seq<Doc>, field: string, value: string)
    requires op in FILTERS && forall d :: d in docs <==> d in docs'
    ensures Exact(op, docs, field, value) <==> Exact(op, docs', field, value)
    ensures Answers(r, Comparison(op, field, value), docs) <==> Answers(r, Comparison(op, field, value), docs')
  {
    hide IsVersion, Holds, IsListed;
    SameOccurrences(docs, docs', field, value);
    SameOccurrences(docs', docs, field, value);
  }

  lemma SameOccurrences(docs: seq<Doc>, docs': seq<Doc>, field: string, value: string)
    requires forall d :: d in docs <==> d in docs'
    ensures docs == [] ==> docs' == []
    ensures Occurs(docs, field, value) ==> Occurs(docs', field, value)
    ensures SomeAbove(docs, field, value) ==> SomeAbove(docs', field, value)
    ensures AllAbove(docs, field, value) ==> AllAbove(docs', field, value)
    ensures Unique(docs, field, value) ==> Unique(docs', field, value)
  {
    hide Less, Lookup;
    if docs' != [] { assert docs'[0] in docs; }
    forall i | 0 <= i < |docs'| ensures exists j :: 0 <= j < |docs| && docs[j] == docs'[i] { assert docs'[i] in docs; }
    forall i | 0 <= i < |docs| ensures exists j :: 0 <= j < |docs'| && docs'[j] == docs[i] { assert docs[i] in docs'; }
  }

  // ----- Trees -----

  /** The documents that the links lead to, in an order that is left open. */
  ghost function FetchAll(links: map<string, Object>): (docs: seq<Doc>)
    requires forall id :: id in links ==> links[id].data.Json?
    ensures forall d :: d in docs <==> exists id :: id in links && links[id].data.doc == d
  {
    if links == map[] then []
    else
      var id :| id in links;
      var rest := links - {id};
      assert forall i :: i in links ==> i == id || i in rest;
      [links[id].data.doc] + FetchAll(rest)
  }

  predicate AllJson(links: map<string, Object>) { forall id :: id in links ==> links[id].data.Json? }

  /** The links of the collection below the "id" index; a missing "__" link leads nowhere. */
  function Collection(indexes: map<string, Object>): map<string, Object>
    requires "id" in indexes
  {
    if "__" in indexes["id"].links then indexes["id"].links["__"].links else map[]
  }

  /** std::map's lower_bound for the name: the least that is not below it. */
  predicate IsLowerBound(links: map<string, Object>, k: string, name: string) {
    k in links && !TextLess(k, name) && forall j :: j in links && !TextLess(j, name) ==> !TextLess(j, k)
  }

  /** The links an indexed comparison other than "=" follows: edges of the index node itself. */
  function Followed(op: string, links: map<string, Object>, value: string): map<string, Object> {
    map k | k in links &&
      (if op == "<>" then k != value
       else if op == ">" then TextLess(value, k)
       else if op == ">=" then !TextLess(k, value)
       else if op == "<=" then TextLess(k, value) || IsLowerBound(links, k, value)
       else TextLess(k, value)) :: links[k]
  }

  ghost function CompareIndexed(op: string, links: map<string, Object>, value: string): (r: Value) {
    if op == "=" then
      if value !in links then Text("")
      else if links[value].data.Json? then Docs([links[value].data.doc]) else Failed
    else if forall k :: k in links ==> if op == ">" then !TextLess(value, k) else TextLess(k, value) then Text("")
    else if AllJson(Followed(op, links, value)) then Docs(FetchAll(Followed(op, links, value)))
    else Failed
  }

  /** The comparison of a field with a value. */
  ghost function Compare(op: string, field: string, value: string, indexes: map<string, Object>): (r: Value) {
    if field in indexes then
      if op == "=" && field == "id" then CompareIndexed(op, Collection(indexes), value)
      else CompareIndexed(op, indexes[field].links, value)
    else if "id" !in indexes then Unspecified
    else if !AllJson(Collection(indexes)) then Failed
    else
      var docs := FetchAll(Collection(indexes));
      if docs == [] then Docs([]) else Filter(op, SortBy(docs, field), field, value)
  }

  /** std::set<json> brings the documents into an order that is left open. */
  ghost function Listed(s: set<Doc>): (docs: seq<Doc>)
    ensures forall d :: d in docs <==> d in s
  {
    if s == {} then [] else var d :| d in s; [d] + Listed(s - {d})
  }

  ghost function Union(a: seq<Doc>, b: seq<Doc>): (r: seq<Doc>)
    ensures forall d :: d in r <==> d in a || d in b
  {
    Listed((set d | d in a) + (set d | d in b))
  }

  function Intersection(a: seq<Doc>, b: seq<Doc>): (r: seq<Doc>)
    ensures forall d :: d in r <==> d in a && d in b
  {
    if b == [] then []
    else if b[0] in a then [b[0]] + Intersection(a, b[1..])
    else Intersection(a, b[1..])
  }

  /** Only an empty array is empty(); a string, even "", is not. */
  predicate IsEmpty(v: Value) { v == Docs([]) }

  ghost function Evaluate(filter: TreeNode, indexes: map<string, Object>): (r: Value) {
    match filter
    case Leaf(root) => Text(root)
    case Node(op, l, r) =>
      var left, right := Evaluate(l, indexes), Evaluate(r, indexes);
      if left.Unspecified? || right.Unspecified? then Unspecified
      else if left.Failed? || right.Failed? then Failed
      else if op in FILTERS then
        if left.Text? && right.Text? then Compare(op, left.text, right.text, indexes) else Failed
      else if op == "|" then
        if IsEmpty(left) then right
        else if IsEmpty(right) then left
        else if left.Docs? && right.Docs? then Docs(Union(left.docs, right.docs)) else Failed
      else if op == "&" then
        if IsEmpty(left) || IsEmpty(right) then Docs([])
        else if left.Docs? && right.Docs? then Docs(Intersection(left.docs, right.docs)) else Failed
      else Docs([])
  }

  /** Every comparison of f is on an unindexed field and meets the exact condition of its operator. */
  predicate AllExact(f: TreeNode, docs: seq<Doc>, indexes: map<string, Object>)
    requires IsQuery(f)
  {
    if f.root in FILTERS then f.left.root !in indexes && Exact(f.root, docs, f.left.root, f.right.root)
    else AllExact(f.left, docs, indexes) && AllExact(f.right, docs, indexes)
  }

  lemma ComparisonMeaning(op: string, field: string, value: string, indexes: map<string, Object>, docs: seq<Doc>)
    requires op in FILTERS && field !in indexes && "id" in indexes && AllJson(Collection(indexes))
    requires docs == FetchAll(Collection(indexes))
    ensures Answers(Compare(op, field, value, indexes), Comparison(op, field, value), docs) <==>
      Exact(op, docs, field, value)
  {
    hide FetchAll, Exact, Answers, Filter, Insert;
    if docs == [] {
      EmptyIsExact(op, field, value);
    } else {
      var sorted := SortBy(docs, field);
      SortByIsSorted(docs, field);
      FilterIsExact(op, sorted, field, value);
      OrderDoesNotMatter(Compare(op, field, value, indexes), op, docs, sorted, field, value);
    }
  }

  lemma EmptyIsExact(op: string, field: string, value: string)
    requires op in FILTERS
    ensures Answers(Docs([]), Comparison(op, field, value), []) && Exact(op, [], field, value)
  {
  }

  lemma MoreFields(x: Doc, d: Doc, fields: set<string>, more: set<string>)
    requires IsVersion(x, d, fields) && fields <= more
    ensures IsVersion(x, d, more)
  {
  }

  lemma EvaluateOr(f: TreeNode, indexes: map<string, Object>)
    requires f.Node? && f.root == "|" && Evaluate(f.left, indexes).Docs? && Evaluate(f.right, indexes).Docs?
    ensures Evaluate(f, indexes).Docs?
    ensures forall x :: x in Evaluate(f, indexes).docs <==>
      x in Evaluate(f.left, indexes).docs || x in Evaluate(f.right, indexes).docs
  {
  }

  lemma EvaluateAnd(f: TreeNode, indexes: map<string, Object>)
    requires f.Node? && f.root == "&" && Evaluate(f.left, indexes).Docs? && Evaluate(f.right, indexes).Docs?
    ensures Evaluate(f, indexes).Docs?
    ensures forall x :: x in Evaluate(f, indexes).docs <==>
      x in Evaluate(f.left, indexes).docs && x in Evaluate(f.right, indexes).docs
  {
    hide Intersection;
    var left, right := Evaluate(f.left, indexes), Evaluate(f.right, indexes);
    assert Evaluate(f, indexes) ==
      if IsEmpty(left) || IsEmpty(right) then Docs([]) else Docs(Intersection(left.docs, right.docs));
  }

  // ----- What a comparison lists -----

  /** No document occurs twice, nor two that differ in null fields only. */
  ghost predicate Apart(docs: seq<Doc>) {
    forall i, j :: 0 <= i < |docs| && 0 <= j < |docs| && LookAlike(docs[i], docs[j]) ==> i == j
  }

  ghost predicate LookAlike(d: Doc, e: Doc) { forall k :: Lookup(d, k) == Lookup(e, k) }

  lemma {:induction false} ApartInAnyOrder(docs: seq<Doc>, sorted: seq<Doc>)
    requires Apart(docs) && multiset(sorted) == multiset(docs)
    ensures Apart(sorted)
  {
    hide LookAlike;
    forall i, j | 0 <= i < |sorted| && 0 <= j < |sorted| && LookAlike(sorted[i], sorted[j]) ensures i == j {
      assert sorted[i] in multiset(docs) && sorted[j] in multiset(docs);
      var k :| 0 <= k < |docs| && docs[k] == sorted[i];
      var l :| 0 <= l < |docs| && docs[l] == sorted[j];
      assert k == l;
      if i != j {
        OccursTwice(sorted, if i < j then i else j, if i < j then j else i);
        OccursOnce(docs, k);
      }
    }
  }

  lemma OccursTwice(docs: seq<Doc>, i: nat, j: nat)
    requires i < j < |docs| && docs[i] == docs[j]
    ensures multiset(docs)[docs[i]] >= 2
  {
    assert docs == docs[..i] + [docs[i]] + docs[i + 1..j] + [docs[j]] + docs[j + 1..];
  }

  lemma OccursOnce(docs: seq<Doc>, k: nat)
    requires k < |docs| && Apart(docs)
    ensures multiset(docs)[docs[k]] == 1
  {
    assert LookAlike(docs[k], docs[k]);
    assert forall i :: 0 <= i < |docs| && docs[i] == docs[k] ==> i == k;
    assert docs[k] !in docs[..k] && docs[k] !in docs[k + 1..];
    assert docs == docs[..k] + [docs[k]] + docs[k + 1..];
  }

  /** The positions of the sorted documents that the searches of a comparison read. */
  function ReadIn(f: TreeNode, sorted: seq<Doc>): set<nat>
    requires IsQuery(f) && f.root in FILTERS && sorted != []
  {
    Read(f.root, Column(sorted, f.left.root), Word(f.right.root))
  }

  /** x is the document at position i as the searches leave it. */
  predicate IsLeftAt(f: TreeNode, sorted: seq<Doc>, i: nat, x: Doc)
    requires IsQuery(f) && f.root in FILTERS && i < |sorted|
  {
    x == if i in ReadIn(f, sorted) then Shown(sorted[i], f.left.root) else sorted[i]
  }

  /** d after the comparison's searches: with the field, if they have read it at d's position. */
  ghost function Left(f: TreeNode, docs: seq<Doc>, d: Doc): Doc
    requires IsQuery(f) && f.root in FILTERS
  {
    var sorted := SortBy(docs, f.left.root);
    if exists i :: 0 <= i < |sorted| && sorted[i] == d && i in ReadIn(f, sorted) then Shown(d, f.left.root) else d
  }

  /** The comparison lists the documents that satisfy it, each as its searches leave it. */
  lemma ListsAsLeft(f: TreeNode, indexes: map<string, Object>, docs: seq<Doc>, x: Doc)
    requires "id" in indexes && AllJson(Collection(indexes)) && docs == FetchAll(Collection(indexes)) && docs != []
    requires IsQuery(f) && f.root in FILTERS && f.left.root !in indexes && Apart(docs)
    requires Exact(f.root, docs, f.left.root, f.right.root)
    ensures Evaluate(f, indexes).Docs?
    ensures x in Evaluate(f, indexes).docs <==> exists d :: d in docs && Satisfies(f, d) && x == Left(f, docs, d)
  {
    var field := f.left.root;
    var sorted := SortBy(docs, field);
    SortByIsSorted(docs, field);
    ApartInAnyOrder(docs, sorted);
    OrderDoesNotMatter(Failed, f.root, docs, sorted, field, f.right.root);
    assert Evaluate(f, indexes) == Filter(f.root, sorted, field, f.right.root);
    hide *;
    SortedListsAsLeft(f, sorted, x);
    ByIndex(f, docs, sorted, Evaluate(f, indexes).docs, x);
  }

  /** The same on the sorted documents. */
  lemma SortedListsAsLeft(f: TreeNode, docs: seq<Doc>, x: Doc)
    requires IsQuery(f) && f.root in FILTERS && docs != [] && Sorted(Column(docs, f.left.root)) && Apart(docs)
    requires Exact(f.root, docs, f.left.root, f.right.root)
    ensures var r := Filter(f.root, docs, f.left.root, f.right.root);
      r.Docs? && (x in r.docs <==> exists i :: 0 <= i < |docs| && Satisfies(f, docs[i]) && IsLeftAt(f, docs, i, x))
  {
    hide Less, Sorted, LowerIndex, UpperIndex, Lookup, Touch, Read, Answers, Slice, Holds, Apart;
    var op, field, value := f.root, f.left.root, f.right.root;
    var col, v := Column(docs, field), Word(value);
    IndicesAreExact(col, v);
    FilterIsExact(op, docs, field, value);
    if v in col {
      var lower, upper := LowerIndex(col, v).index, UpperIndex(col, v).index;
      FirstBeforeLast(col, v);
      SliceMembers(op, Touch(docs, field, ReadIn(f, docs)), lower, upper, x);
      forall i | 0 <= i < |docs| ensures Within(op, |docs|, lower, upper, i) <==> Satisfies(f, docs[i]) {
        WithinHolds(op, docs, field, value, lower, upper, i);
      }
    } else {
      assert Filter(op, docs, field, value) == Docs([]);
      NothingFound(op, docs, field, value);
    }
  }

  lemma ByIndex(f: TreeNode, docs: seq<Doc>, sorted: seq<Doc>, r: seq<Doc>, x: Doc)
    requires IsQuery(f) && f.root in FILTERS && sorted == SortBy(docs, f.left.root)
    requires Apart(sorted) && forall d :: d in sorted <==> d in docs
    requires x in r <==> exists i :: 0 <= i < |sorted| && Satisfies(f, sorted[i]) && IsLeftAt(f, sorted, i, x)
    ensures x in r <==> exists d :: d in docs && Satisfies(f, d) && x == Left(f, docs, d)
  {
    hide Satisfies, Left, Apart, SortBy, IsLeftAt;
    if x in r {
      var i :| 0 <= i < |sorted| && Satisfies(f, sorted[i]) && IsLeftAt(f, sorted, i, x);
      LeftAt(f, docs, i);
      assert sorted[i] in docs;
    }
    if d :| d in docs && Satisfies(f, d) && x == Left(f, docs, d) {
      assert d in sorted;
      var i :| 0 <= i < |sorted| && sorted[i] == d;
      LeftAt(f, docs, i);
    }
  }

  lemma LeftAt(f: TreeNode, docs: seq<Doc>, i: nat)
    requires IsQuery(f) && f.root in FILTERS && i < |SortBy(docs, f.left.root)| && Apart(SortBy(docs, f.left.root))
    ensures var sorted := SortBy(docs, f.left.root);
      forall x :: IsLeftAt(f, sorted, i, x) <==> x == Left(f, docs, sorted[i])
  {
    hide Apart, Read, Column, Shown, ReadIn;
    var sorted := SortBy(docs, f.left.root);
    forall j | 0 <= j < |sorted| && sorted[j] == sorted[i] ensures j == i { SameIndex(sorted, i, j); }
  }

  /** Under the exact condition the slice takes the positions whose documents satisfy the comparison. */
  lemma WithinHolds(op: string, docs: seq<Doc>, field: string, value: string, lower: nat, upper: nat, i: nat)
    requires op in FILTERS && i < |docs| && Sorted(Column(docs, field)) && Apart(docs) && Exact(op, docs, field, value)
    requires IsFirst(Column(docs, field), Word(value), lower) && IsLast(Column(docs, field), Word(value), upper)
    ensures lower <= upper
    ensures Within(op, |docs|, lower, upper, i) <==> Holds(op, Lookup(docs[i], field), Word(value))
  {
    hide Less, Sorted, Lookup, Apart;
    var col, v := Column(docs, field), Word(value);
    Partition(col, v, lower, upper);
    LessIsTotal(col[i], v);
    if op == ">" && upper < |docs| - 1 {
      assert Less(v, col[upper + 1]);
    }
    if op == ">=" {
      assert Lookup(docs[lower], field) == v == Lookup(docs[upper], field);
      SameIndex(docs, lower, upper);
    }
  }

  lemma SameIndex(docs: seq<Doc>, i: nat, j: nat)
    requires Apart(docs) && i < |docs| && j < |docs| && docs[i] == docs[j]
    ensures i == j
  {
    assert LookAlike(docs[i], docs[j]);
  }

  lemma NothingFound(op: string, docs: seq<Doc>, field: string, value: string)
    requires op in FILTERS && docs != [] && Exact(op, docs, field, value) && Word(value) !in Column(docs, field)
    ensures forall i :: 0 <= i < |docs| ==> !Holds(op, Lookup(docs[i], field), Word(value))
  {
    hide Less, Lookup;
    var col := Column(docs, field);
    forall i | 0 <= i < |docs| ensures !Holds(op, Lookup(docs[i], field), Word(value)) {
      assert col[i] in col;
      LessIsTotal(Lookup(docs[i], field), Word(value));
    }
  }

  lemma LeftIsVersion(f: TreeNode, docs: seq<Doc>, d: Doc)
    requires IsQuery(f) && f.root in FILTERS
    ensures IsVersion(Left(f, docs, d), d, Fields(f))
  {
  }

  // ----- What a tree lists -----

  /**
   The forms in which a query lists a document: a comparison lists it as its searches leave it, if it satisfies the
   comparison; "|" lists what either side lists, and "&" what both sides list alike.
   */
  ghost function Versions(f: TreeNode, docs: seq<Doc>, d: Doc): (r: set<Doc>)
    requires IsQuery(f)
  {
    if f.root in FILTERS then if Satisfies(f, d) then {Left(f, docs, d)} else {}
    else if f.root == "&" then Versions(f.left, docs, d) * Versions(f.right, docs, d)
    else Versions(f.left, docs, d) + Versions(f.right, docs, d)
  }

  /** Only a document that satisfies the query is listed, in versions of itself. */
  lemma {:induction false} VersionsAreVersions(f: TreeNode, docs: seq<Doc>, d: Doc, x: Doc)
    requires IsQuery(f) && x in Versions(f, docs, d)
    ensures IsVersion(x, d, Fields(f)) && Satisfies(f, d)
  {
    hide IsVersion, Left, Holds;
    if f.root in FILTERS {
      LeftIsVersion(f, docs, d);
    } else if x in Versions(f.left, docs, d) {
      VersionsAreVersions(f.left, docs, d, x);
      MoreFields(x, d, Fields(f.left), Fields(f));
      if f.root == "&" { VersionsAreVersions(f.right, docs, d, x); }
    } else {
      VersionsAreVersions(f.right, docs, d, x);
      MoreFields(x, d, Fields(f.right), Fields(f));
    }
  }

  /** A document with all the fields compared is listed as it is, if it satisfies the query. */
  lemma {:induction false} CompleteIsListed(f: TreeNode, docs: seq<Doc>, d: Doc)
    requires IsQuery(f) && Fields(f) <= d.Keys
    ensures Versions(f, docs, d) == if Satisfies(f, d) then {d} else {}
  {
    hide Holds, IsVersion;
    if f.root in FILTERS {
      LeftIsVersion(f, docs, d);
      VersionLooksLike(Left(f, docs, d), d, Fields(f), "");
    } else {
      CompleteIsListed(f.left, docs, d);
      CompleteIsListed(f.right, docs, d);
    }
  }

  /** One document only can be listed in the form x. */
  lemma OneOrigin(f: TreeNode, g: TreeNode, docs: seq<Doc>, d: Doc, e: Doc, x: Doc)
    requires IsQuery(f) && IsQuery(g) && Apart(docs) && d in docs && e in docs
    requires x in Versions(f, docs, d) && x in Versions(g, docs, e)
    ensures d == e
  {
    VersionsAreVersions(f, docs, d, x);
    VersionsAreVersions(g, docs, e, x);
    hide Versions, IsVersion, Fields, Satisfies;
    SameDocument(docs, d, e, x, Fields(f), Fields(g));
  }

  lemma SameDocument(docs: seq<Doc>, d: Doc, e: Doc, x: Doc, fields: set<string>, others: set<string>)
    requires Apart(docs) && d in docs && e in docs && IsVersion(x, d, fields) && IsVersion(x, e, others)
    ensures d == e
  {
    forall k ensures Lookup(d, k) == Lookup(e, k) {
      VersionLooksLike(x, d, fields, k);
      VersionLooksLike(x, e, others, k);
    }
    var i :| 0 <= i < |docs| && docs[i] == d;
    var j :| 0 <= j < |docs| && docs[j] == e;
    assert LookAlike(docs[i], docs[j]);
  }

  ghost predicate IsFound(x: Doc, f: TreeNode, docs: seq<Doc>)
    requires IsQuery(f)
  {
    exists d :: d in docs && x in Versions(f, docs, d)
  }

  lemma UnionFound(f: TreeNode, docs: seq<Doc>, x: Doc)
    requires IsQuery(f) && f.root == "|"
    ensures IsFound(x, f, docs) <==> IsFound(x, f.left, docs) || IsFound(x, f.right, docs)
  {
    hide Left, Satisfies;
  }

  lemma IntersectionFound(f: TreeNode, docs: seq<Doc>, x: Doc)
    requires IsQuery(f) && f.root == "&" && Apart(docs)
    ensures IsFound(x, f, docs) <==> IsFound(x, f.left, docs) && IsFound(x, f.right, docs)
  {
    hide Left, Satisfies, Apart;
    if IsFound(x, f.left, docs) && IsFound(x, f.right, docs) {
      var d :| d in docs && x in Versions(f.left, docs, d);
      var e :| e in docs && x in Versions(f.right, docs, e);
      OneOrigin(f.left, f.right, docs, d, e, x);
      assert x in Versions(f, docs, d);
    }
  }

  lemma FoundByComparison(f: TreeNode, docs: seq<Doc>, x: Doc)
    requires IsQuery(f) && f.root in FILTERS
    ensures IsFound(x, f, docs) <==> exists d :: d in docs && Satisfies(f, d) && x == Left(f, docs, d)
  {
    hide Left, Satisfies;
    assert forall d :: x in Versions(f, docs, d) <==> Satisfies(f, d) && x == Left(f, docs, d);
  }

  lemma ComparisonLists(f: TreeNode, indexes: map<string, Object>, docs: seq<Doc>)
    requires "id" in indexes && AllJson(Collection(indexes)) && docs == FetchAll(Collection(indexes)) && Apart(docs)
    requires IsQuery(f) && f.root in FILTERS && AllExact(f, docs, indexes)
    ensures Evaluate(f, indexes).Docs? && forall x :: x in Evaluate(f, indexes).docs <==> IsFound(x, f, docs)
  {
    assert Evaluate(f.left, indexes) == Text(f.left.root) && Evaluate(f.right, indexes) == Text(f.right.root);
    if docs == [] {
      assert Evaluate(f, indexes) == Docs([]);
    } else {
      hide Evaluate, FetchAll, Collection, AllJson, Apart, IsFound, Exact;
      ListsAsLeft(f, indexes, docs, map[]);
      forall x ensures x in Evaluate(f, indexes).docs <==> IsFound(x, f, docs) {
        ListsAsLeft(f, indexes, docs, x);
        FoundByComparison(f, docs, x);
      }
    }
  }

  /** A tree over exact comparisons lists exactly the versions of the documents. */
  lemma {:induction false} EvaluateLists(f: TreeNode, indexes: map<string, Object>, docs: seq<Doc>)
    requires "id" in indexes && AllJson(Collection(indexes)) && docs == FetchAll(Collection(indexes)) && Apart(docs)
    requires IsQuery(f) && AllExact(f, docs, indexes)
    ensures Evaluate(f, indexes).Docs? && forall x :: x in Evaluate(f, indexes).docs <==> IsFound(x, f, docs)
  {
    if f.root in FILTERS {
      ComparisonLists(f, indexes, docs);
    } else {
      hide Evaluate, FetchAll, Collection, AllJson, Apart, IsFound;
      EvaluateLists(f.left, indexes, docs);
      EvaluateLists(f.right, indexes, docs);
      if f.root == "|" {
        EvaluateOr(f, indexes);
        forall x ensures x in Evaluate(f, indexes).docs <==> IsFound(x, f, docs) { UnionFound(f, docs, x); }
      } else {
        EvaluateAnd(f, indexes);
        forall x ensures x in Evaluate(f, indexes).docs <==> IsFound(x, f, docs) { IntersectionFound(f, docs, x); }
      }
    }
  }

  /** The query lists every document that satisfies it: no "&" misses one that its sides list in different forms. */
  ghost predicate NoneLost(f: TreeNode, docs: seq<Doc>)
    requires IsQuery(f)
  {
    forall d :: d in docs && Satisfies(f, d) ==> Versions(f, docs, d) != {}
  }

  /** The query lists no document in two forms. */
  ghost predicate NoneDoubled(f: TreeNode, docs: seq<Doc>)
    requires IsQuery(f)
  {
    forall d :: d in docs ==> |Versions(f, docs, d)| <= 1
  }

  /**
   A query over comparisons that are right by themselves returns exactly the documents that satisfy its formula, up to
   fields read as null, if and only if none is lost.
   */
  lemma QueryMeaning(f: TreeNode, indexes: map<string, Object>, docs: seq<Doc>)
    requires "id" in indexes && AllJson(Collection(indexes)) && docs == FetchAll(Collection(indexes)) && Apart(docs)
    requires IsQuery(f) && AllExact(f, docs, indexes)
    ensures Answers(Evaluate(f, indexes), f, docs) <==> NoneLost(f, docs)
  {
    EvaluateLists(f, indexes, docs);
    var r := Evaluate(f, indexes).docs;
    hide *;
    ListingAnswers(f, docs, r);
  }

  lemma ListingAnswers(f: TreeNode, docs: seq<Doc>, r: seq<Doc>)
    requires IsQuery(f) && Apart(docs) && forall x :: x in r <==> IsFound(x, f, docs)
    ensures Answers(Docs(r), f, docs) <==> NoneLost(f, docs)
  {
    hide Versions, IsVersion, Satisfies, Apart, Fields;
    forall x | x in r ensures Comes(x, f, docs) {
      var d :| d in docs && x in Versions(f, docs, d);
      VersionsAreVersions(f, docs, d, x);
    }
    forall d | d in docs && Satisfies(f, d) ensures IsListed(d, Fields(f), r) <==> Versions(f, docs, d) != {} {
      if x :| x in Versions(f, docs, d) {
        VersionsAreVersions(f, docs, d, x);
        assert IsFound(x, f, docs);
      }
      if IsListed(d, Fields(f), r) {
        var x :| x in r && IsVersion(x, d, Fields(f));
        var e :| e in docs && x in Versions(f, docs, e);
        VersionsAreVersions(f, docs, e, x);
        SameDocument(docs, d, e, x, Fields(f), Fields(f));
      }
    }
  }

  /** So it does if the documents that satisfy the formula have the fields compared, and lists none of them twice. */
  lemma CompleteDocuments(f: TreeNode, docs: seq<Doc>)
    requires IsQuery(f) && forall d :: d in docs && Satisfies(f, d) ==> Fields(f) <= d.Keys
    ensures NoneLost(f, docs) && NoneDoubled(f, docs)
  {
    hide Versions, Satisfies, Fields;
    forall d | d in docs ensures Versions(f, docs, d) == if Satisfies(f, d) then {d} else {} {
      if Satisfies(f, d) {
        CompleteIsListed(f, docs, d);
      } else {
        forall x ensures x !in Versions(f, docs, d) {
          if x in Versions(f, docs, d) { VersionsAreVersions(f, docs, d, x); }
        }
      }
    }
  }

  // ----- Three documents, of which a tree loses or lists twice the first -----

  /** docs are the three documents, each once, in any order. */
  ghost predicate AreThree(docs: seq<Doc>, a: Doc, b: Doc, c: Doc) {
    Apart(docs) && a in docs && b in docs && c in docs && forall d :: d in docs ==> d == a || d == b || d == c
  }

  lemma OneOfThree(s: seq<Doc>, i: nat, j: nat, k: nat, m: nat)
    requires i < |s| && j < |s| && k < |s| && m < |s| && AreThree(s, s[i], s[j], s[k])
    ensures m == i || m == j || m == k
  {
    hide Apart;
    assert s[m] in s;
    if s[m] == s[i] { SameIndex(s, m, i); }
    if s[m] == s[j] { SameIndex(s, m, j); }
    if s[m] == s[k] { SameIndex(s, m, k); }
  }

  lemma LessIsBefore(col: seq<Field>, i: nat, j: nat)
    requires Sorted(col) && i < |col| && j < |col| && Less(col[i], col[j])
    ensures i < j
  {
  }

  lemma ThreeInOrder(s: seq<Doc>, field: string, a: Doc, b: Doc, c: Doc)
    requires AreThree(s, a, b, c) && Sorted(Column(s, field))
    requires Less(Lookup(a, field), Lookup(b, field)) && Less(Lookup(b, field), Lookup(c, field))
    ensures s == [a, b, c]
  {
    hide Less, Lookup, Apart, Sorted;
    var i :| 0 <= i < |s| && s[i] == a;
    var j :| 0 <= j < |s| && s[j] == b;
    var k :| 0 <= k < |s| && s[k] == c;
    LessIsBefore(Column(s, field), i, j);
    LessIsBefore(Column(s, field), j, k);
    hide *;
    OneOfThree(s, i, j, k, 0);
    OneOfThree(s, i, j, k, 1);
    OneOfThree(s, i, j, k, 2);
    if |s| > 3 { OneOfThree(s, i, j, k, 3); }
  }

  lemma SplitOfThree()
    ensures Middle(0, 2) == 1 && Middle(2, 2) == 2
  {
  }

  lemma FindsLast(col: seq<Field>, v: Field)
    requires |col| == 3 && col[2] == v && col[1] != v && !Less(v, col[1])
    ensures GetSearchIndex(col, 0, 2, v) == Hit(2, 2, 2) && Probes(col, 0, 2, v) == {1, 2}
  {
    hide *;
    SplitOfThree();
    SearchRight(col, 0, 2, v);
    SearchEnds(col, 2, 2, v);
  }

  lemma NothingBeside(col: seq<Field>, v: Field)
    requires |col| == 3
    ensures LowerProbesFrom(col, v, Hit(2, 2, 2)) == {} && UpperProbesFrom(col, v, Hit(2, 2, 2)) == {}
  {
    hide Less, GetSearchIndex, Probes;
    SearchEnds(col, 2, 1, v);
    SearchEnds(col, 3, 2, v);
  }

  /** The search for the last of three does not read the first. */
  lemma ReadsOfLast(col: seq<Field>, v: Field)
    requires |col| == 3 && col[2] == v && col[1] != v && !Less(v, col[1])
    ensures 0 !in LowerProbes(col, v) + UpperProbes(col, v)
  {
    hide Less, GetSearchIndex, Probes, LowerProbesFrom, UpperProbesFrom;
    FindsLast(col, v);
    NothingBeside(col, v);
  }

  /** The search for the second of three does. */
  lemma ReadsOfMiddle(col: seq<Field>, v: Field)
    requires |col| == 3 && col[1] == v && col[0] != v && !Less(v, col[0])
    ensures 0 in LowerProbes(col, v)
  {
    var hit := Hit(0, 1, 2);
    assert GetSearchIndex(col, 0, 2, v) == hit by {
      assert Middle(0, 2) == 1;
      hide *;
      SearchEnds(col, 0, 2, v);
    }
    assert 0 in Probes(col, 0, 0, v) by {
      assert Middle(0, 0) == 0;
      hide *;
      SearchRight(col, 0, 0, v);
    }
    assert 0 in LowerProbesFrom(col, v, hit) by { hide Less, GetSearchIndex, Probes; }
    hide Less, GetSearchIndex, Probes, LowerProbesFrom;
  }

  lemma SortedThree(docs: seq<Doc>, field: string, a: Doc, b: Doc, c: Doc)
    requires AreThree(docs, a, b, c)
    requires Less(Lookup(a, field), Lookup(b, field)) && Less(Lookup(b, field), Lookup(c, field))
    ensures SortBy(docs, field) == [a, b, c] && a != b && a != c
  {
    hide SortBy, Apart, Less, Sorted, Lookup;
    SortByIsSorted(docs, field);
    ApartInAnyOrder(docs, SortBy(docs, field));
    ThreeInOrder(SortBy(docs, field), field, a, b, c);
    LessIsTransitive(Lookup(a, field), Lookup(b, field), Lookup(c, field));
    LessIsTotal(Lookup(a, field), Lookup(b, field));
    LessIsTotal(Lookup(a, field), Lookup(c, field));
  }

  /** So it does not add its field to the first ... */
  lemma LeftAsIs(f: TreeNode, docs: seq<Doc>, a: Doc, b: Doc, c: Doc)
    requires IsQuery(f) && f.root == "<>" && AreThree(docs, a, b, c) && Lookup(c, f.left.root) == Word(f.right.root)
    requires Less(Lookup(a, f.left.root), Lookup(b, f.left.root))
    requires Less(Lookup(b, f.left.root), Lookup(c, f.left.root))
    ensures Left(f, docs, a) == a
  {
    hide SortBy, Apart, Less, Lookup, LowerProbes, UpperProbes, AreThree;
    var field, v := f.left.root, Word(f.right.root);
    SortedThree(docs, field, a, b, c);
    LessIsTotal(Lookup(b, field), v);
    ReadsOfLast(Column(SortBy(docs, field), field), v);
  }

  /** ... and it does. */
  lemma LeftShown(f: TreeNode, docs: seq<Doc>, a: Doc, b: Doc, c: Doc)
    requires IsQuery(f) && f.root == "<>" && AreThree(docs, a, b, c) && Lookup(b, f.left.root) == Word(f.right.root)
    requires Less(Lookup(a, f.left.root), Lookup(b, f.left.root))
    requires Less(Lookup(b, f.left.root), Lookup(c, f.left.root))
    ensures Left(f, docs, a) == Shown(a, f.left.root)
  {
    hide SortBy, Apart, Less, Lookup, LowerProbes, UpperProbes, AreThree;
    var field, v := f.left.root, Word(f.right.root);
    var sorted := SortBy(docs, field);
    SortedThree(docs, field, a, b, c);
    LessIsTotal(Lookup(a, field), v);
    ReadsOfMiddle(Column(sorted, field), v);
    assert sorted[0] == a && 0 in ReadIn(f, sorted);
  }

  lemma NotEqualIsExact(docs: seq<Doc>, field: string, value: string, low: Doc, at: Doc)
    requires low in docs && at in docs && Lookup(low, field) == Null && Lookup(at, field) == Word(value)
    ensures Exact("<>", docs, field, value)
  {
    var i :| 0 <= i < |docs| && docs[i] == low;
    var j :| 0 <= j < |docs| && docs[j] == at;
    assert !Less(Word(value), Lookup(docs[i], field));
  }

  lemma BothForms(f: TreeNode, g: TreeNode, docs: seq<Doc>, d: Doc)
    requires IsQuery(f) && IsQuery(g) && f.root in FILTERS && g.root in FILTERS && d in docs
    requires Satisfies(f, d) && Satisfies(g, d) && Left(f, docs, d) != Left(g, docs, d)
    ensures IsQuery(Node("&", f, g)) && !NoneLost(Node("&", f, g), docs)
    ensures IsQuery(Node("|", f, g)) && !NoneDoubled(Node("|", f, g), docs)
  {
    hide Left, Holds;
    var both, either, x, y := Node("&", f, g), Node("|", f, g), Left(f, docs, d), Left(g, docs, d);
    assert Versions(f, docs, d) == {x} && Versions(g, docs, d) == {y};
    assert Versions(both, docs, d) == Versions(both.left, docs, d) * Versions(both.right, docs, d) == {};
    assert Versions(either, docs, d) == Versions(either.left, docs, d) + Versions(either.right, docs, d) == {x, y};
    assert Satisfies(both, d);
  }

  /** The second and the third have the fields compared, the first has not. */
  ghost predicate FirstIsBare(a: Doc, b: Doc, c: Doc) {
    && "a" !in a && "b" !in a
    && Lookup(b, "a") == Word("w") && Lookup(b, "b") == Word("y")
    && Lookup(c, "a") == Word("x") && Lookup(c, "b") == Word("z")
  }

  /** Two comparisons are right, but their "&" loses the first document, and their "|" lists it in two forms. */
  lemma LostAndDoubled(docs: seq<Doc>, a: Doc, b: Doc, c: Doc)
    requires AreThree(docs, a, b, c) && FirstIsBare(a, b, c)
    ensures var f, g := Comparison("<>", "a", "x"), Comparison("<>", "b", "y");
      && Exact("<>", docs, "a", "x") && Exact("<>", docs, "b", "y")
      && IsQuery(Node("&", f, g)) && !NoneLost(Node("&", f, g), docs)
      && IsQuery(Node("|", f, g)) && !NoneDoubled(Node("|", f, g), docs)
  {
    var f, g := Comparison("<>", "a", "x"), Comparison("<>", "b", "y");
    assert TextLess("w", "x") && TextLess("y", "z");
    hide Left, Apart, Exact;
    NotEqualIsExact(docs, "a", "x", a, c);
    NotEqualIsExact(docs, "b", "y", a, b);
    LeftAsIs(f, docs, a, b, c);
    LeftShown(g, docs, a, b, c);
    assert a["b" := Null] != a;
    BothForms(f, g, docs, a);
  }
}
