/**
 Queries on the document index, from the text of a filter to what a search finds, an update changes and
 a delete removes, in terms of the meaning of the query's formula.
 */
module DocumentQueries {
  import opened FilterParser
  import opened SortedSearch
  import opened MerkleDag
  import opened QueryEvaluator
  import opened DocumentIndex

  // ----- Finding by id -----

  /** "id" = "x", however it is spaced or parenthesised, finds exactly the live document x. */
  lemma FindById(e: Entity, live: map<string, Doc>, x: string, s: Syntax, gaps: seq<string>)
    requires Printable(s) && OnlyQuoted(s) && Tree(s) == Node("=", Leaf("id"), Leaf(x))
    requires |gaps| == |Tokens(s)| + 1 && forall g :: g in gaps ==> Blank(g)
    ensures SearchLive(e, live, Spell(Tokens(s), gaps)) == if x in live then Docs([live[x]]) else Text("")
  {
    hide Spell, Tokens, Blank, ParseFilter;
    FilterRoundTrip(Node("=", Leaf("id"), Leaf(x)), s, gaps);
    var indexes := RootOf(e, live).links;
    assert Evaluate(Leaf("id"), indexes) == Text("id") && Evaluate(Leaf(x), indexes) == Text(x);
    assert Collection(RootOf(e, live).links) == DocLinks(live);
  }

  /** What comparing a value with the only link gives, whose object is no document. */
  function WithOnlyLink(op: string, link: string, x: string): Value {
    if TextLess(link, x) || (op == ">" && x == link) then Text("")
    else if op == "<" || (op == "<>" && x == link) then Docs([])
    else Failed
  }

  lemma FollowsOnlyLink(op: string, links: map<string, Object>, link: string, x: string)
    requires op in FILTERS && op != "=" && links.Keys == {link} && !links[link].data.Json?
    ensures CompareIndexed(op, links, x) == WithOnlyLink(op, link, x)
  {
    TextLessIsTotal(link, x);
    TextLessIsTotal(link, link);
    hide TextLess;
    var followed := Followed(op, links, x);
    if link in followed {
      assert !AllJson(followed);
    } else {
      assert followed == map[];
      assert FetchAll(followed) == [];
    }
  }

  /**
   Compared in any other way, "id" finds no document: the comparison follows the one link of the index itself, "__",
   and throws when it gets to it.
   */
  lemma IdFindsByEqualsOnly(e: Entity, live: map<string, Doc>, op: string, x: string, s: Syntax, gaps: seq<string>)
    requires op in FILTERS && op != "="
    requires Printable(s) && OnlyQuoted(s) && Tree(s) == Node(op, Leaf("id"), Leaf(x))
    requires |gaps| == |Tokens(s)| + 1 && forall g :: g in gaps ==> Blank(g)
    ensures SearchLive(e, live, Spell(Tokens(s), gaps)) == WithOnlyLink(op, "__", x)
  {
    hide Spell, Tokens, Blank, ParseFilter, WithOnlyLink, CompareIndexed, TextLess;
    FilterRoundTrip(Node(op, Leaf("id"), Leaf(x)), s, gaps);
    var root := RootOf(e, live);
    assert Evaluate(Leaf("id"), root.links) == Text("id") && Evaluate(Leaf(x), root.links) == Text(x);
    FollowsOnlyLink(op, root.links["id"].links, "__", x);
  }

  // ----- No version is listed twice -----

  ghost predicate NoRepeats(docs: seq<Doc>) { forall i, j :: 0 <= i < j < |docs| ==> docs[i] != docs[j] }

  lemma {:induction false} FetchedApart(live: map<string, Doc>, links: map<string, Object>)
    requires Named(live) && forall id :: id in links ==> id in live && links[id].data == Json(live[id])
    ensures Apart(FetchAll(links))
    decreases |links|
  {
    if links != map[] {
      var docs := FetchAll(links);
      var id :| id in links && docs == [links[id].data.doc] + FetchAll(links - {id});
      FetchedApart(live, links - {id});
      var rest := FetchAll(links - {id});
      forall d | d in rest ensures Lookup(d, "id") != Lookup(docs[0], "id") {
        var id' :| id' in links - {id} && (links - {id})[id'].data.doc == d;
      }
      hide FetchAll, Named;
      OneMoreApart(docs[0], rest);
    }
  }

  lemma OneMoreApart(d: Doc, rest: seq<Doc>)
    requires Apart(rest) && forall x :: x in rest ==> Lookup(x, "id") != Lookup(d, "id")
    ensures Apart([d] + rest)
  {
    hide Lookup;
    var docs := [d] + rest;
    forall i, j | 0 <= i < |docs| && 0 <= j < |docs| && LookAlike(docs[i], docs[j]) ensures i == j {
      assert Lookup(docs[i], "id") == Lookup(docs[j], "id");
      assert forall k :: 0 < k < |docs| ==> docs[k] == rest[k - 1] && docs[k] in rest;
      if i > 0 && j > 0 { assert LookAlike(rest[i - 1], rest[j - 1]); }
    }
  }

  lemma TouchedOnce(docs: seq<Doc>, field: string, probes: set<nat>)
    requires Apart(docs)
    ensures NoRepeats(Touch(docs, field, probes))
  {
    hide Lookup;
    var shown := Touch(docs, field, probes);
    forall i, j | 0 <= i < |docs| && 0 <= j < |docs| && shown[i] == shown[j] ensures i == j {
      forall k ensures Lookup(docs[i], k) == Lookup(docs[j], k) {
        ShownLooksLike(docs[i], field, k);
        ShownLooksLike(docs[j], field, k);
      }
      assert LookAlike(docs[i], docs[j]);
    }
  }

  lemma ShownLooksLike(d: Doc, field: string, k: string)
    ensures Lookup(Shown(d, field), k) == Lookup(d, k)
  {
  }

  lemma SliceOnce(op: string, docs: seq<Doc>, lower: nat, upper: nat)
    requires lower <= upper < |docs| && NoRepeats(docs)
    ensures NoRepeats(Slice(op, docs, lower, upper))
  {
  }

  lemma {:induction false} ListedOnce(s: set<Doc>)
    ensures NoRepeats(Listed(s))
  {
    if s != {} {
      var d :| d in s && Listed(s) == [d] + Listed(s - {d});
      ListedOnce(s - {d});
    }
  }

  lemma {:induction false} IntersectionOnce(a: seq<Doc>, b: seq<Doc>)
    requires NoRepeats(b)
    ensures NoRepeats(Intersection(a, b))
  {
    if b != [] {
      IntersectionOnce(a, b[1..]);
      assert forall x :: x in b[1..] ==> x != b[0];
    }
  }

  lemma ComparisonOnce(op: string, field: string, value: string, e: Entity, live: map<string, Doc>)
    requires Named(live) && op in FILTERS
    ensures var r := Compare(op, field, value, RootOf(e, live).links); r.Docs? ==> NoRepeats(r.docs)
  {
    hide Filter, FetchAll, SortBy, Followed, NoRepeats, Apart;
    assert Collection(RootOf(e, live).links) == DocLinks(live);
    var r := Compare(op, field, value, RootOf(e, live).links);
    if field == "id" {
      if op != "=" { OnlyTheCollection(op, RootOf(e, live), value); }
      if r.Docs? { ShortOnce(r.docs); }
    } else {
      ShortOnce([]);
      var docs := FetchAll(DocLinks(live));
      if docs != [] {
        FetchedApart(live, DocLinks(live));
        ApartInAnyOrder(docs, SortBy(docs, field));
        assert |multiset(SortBy(docs, field))| == |multiset(docs)|;
        FilterOnce(op, SortBy(docs, field), field, value);
      }
    }
  }

  lemma ShortOnce(docs: seq<Doc>)
    requires |docs| <= 1
    ensures NoRepeats(docs)
  {
  }

  lemma FilterOnce(op: string, docs: seq<Doc>, field: string, value: string)
    requires docs != [] && Apart(docs)
    ensures var r := Filter(op, docs, field, value); r.Docs? ==> NoRepeats(r.docs)
  {
    hide LowerIndex, UpperIndex, Slice, Read, NoRepeats, Apart;
    var r, col, v := Filter(op, docs, field, value), Column(docs, field), Word(value);
    if r.Docs? {
      var shown := Touch(docs, field, Read(op, col, v));
      TouchedOnce(docs, field, Read(op, col, v));
      ShortOnce([]);
      if r.docs != [] { SliceOnce(op, shown, LowerIndex(col, v).index, UpperIndex(col, v).index); }
    }
  }

  /** A search lists no version of a document twice. */
  lemma {:induction false} SearchOnce(filter: TreeNode, e: Entity, live: map<string, Doc>)
    requires Named(live)
    ensures var r := Evaluate(filter, RootOf(e, live).links); r.Docs? ==> NoRepeats(r.docs)
  {
    hide RootOf, Compare, Listed, NoRepeats;
    ShortOnce([]);
    match filter
    case Leaf(_) =>
    case Node(op, l, r) =>
      SearchOnce(l, e, live);
      SearchOnce(r, e, live);
      var left, right := Evaluate(l, RootOf(e, live).links), Evaluate(r, RootOf(e, live).links);
      if op in FILTERS {
        if left.Text? && right.Text? { ComparisonOnce(op, left.text, right.text, e, live); }
      } else if left.Docs? && right.Docs? {
        ListedOnce((set d | d in left.docs) + (set d | d in right.docs));
        IntersectionOnce(left.docs, right.docs);
      }
  }

  // ----- What a printed query finds -----

  /** The documents of an entity, in the order in which they are fetched. */
  ghost function Stored(live: map<string, Doc>): (docs: seq<Doc>)
    ensures forall d :: d in docs <==> exists id :: id in live && live[id] == d
  {
    assert forall id :: id in live ==> DocLinks(live)[id].data.doc == live[id];
    FetchAll(DocLinks(live))
  }

  /** A printed query, its comparisons right by themselves, lists exactly the versions of the live documents. */
  lemma SearchLists(e: Entity, live: map<string, Doc>, f: TreeNode, s: Syntax, gaps: seq<string>)
    requires Printable(s) && OnlyQuoted(s) && Tree(s) == f && IsQuery(f) && Named(live)
    requires |gaps| == |Tokens(s)| + 1 && forall g :: g in gaps ==> Blank(g)
    requires AllExact(f, Stored(live), RootOf(e, live).links)
    ensures var r := SearchLive(e, live, Spell(Tokens(s), gaps));
      && r.Docs? && (forall x :: x in r.docs <==> IsFound(x, f, Stored(live)))
      && NoRepeats(r.docs)
  {
    hide Spell, Tokens, Blank, ParseFilter, AllExact, FetchAll, Named, IsFound, Evaluate, NoRepeats, Apart;
    FilterRoundTrip(f, s, gaps);
    assert Collection(RootOf(e, live).links) == DocLinks(live);
    FetchedApart(live, DocLinks(live));
    EvaluateLists(f, RootOf(e, live).links, Stored(live));
    SearchOnce(f, e, live);
  }

  /**
   It finds exactly the live documents that satisfy its formula, each in some version, if and only if none is lost;
   none is if those documents have the fields compared.
   */
  lemma SearchAnswers(e: Entity, live: map<string, Doc>, f: TreeNode, s: Syntax, gaps: seq<string>)
    requires Printable(s) && OnlyQuoted(s) && Tree(s) == f && IsQuery(f) && Named(live)
    requires |gaps| == |Tokens(s)| + 1 && forall g :: g in gaps ==> Blank(g)
    requires AllExact(f, Stored(live), RootOf(e, live).links)
    ensures Answers(SearchLive(e, live, Spell(Tokens(s), gaps)), f, Stored(live)) <==> NoneLost(f, Stored(live))
    ensures (forall d :: d in Stored(live) && Satisfies(f, d) ==> Fields(f) <= d.Keys) ==> NoneLost(f, Stored(live))
  {
    hide Spell, Tokens, Blank, ParseFilter, AllExact, FetchAll, Named, Evaluate, SearchLive, Stored, Satisfies, Fields;
    SearchLists(e, live, f, s, gaps);
    assert Apart(Stored(live)) by { StoredApart(live); }
    hide Apart, Answers, NoneLost, IsFound;
    ListingAnswers(f, Stored(live), SearchLive(e, live, Spell(Tokens(s), gaps)).docs);
    if forall d :: d in Stored(live) && Satisfies(f, d) ==> Fields(f) <= d.Keys { CompleteDocuments(f, Stored(live)); }
  }

  lemma StoredApart(live: map<string, Doc>)
    requires Named(live)
    ensures Apart(Stored(live))
  {
    hide Apart, FetchAll, Named;
    FetchedApart(live, DocLinks(live));
  }

  predicate SameId(x: Doc, id: string) { Lookup(x, "id") == Word(id) }

  /** An update gives every document found the content of its last version, changed. */
  lemma {:induction false} UpdateResult(live: map<string, Doc>, docs: seq<Doc>, changes: Doc, id: string)
    requires Nameable(live, docs, Update) && id in live
    ensures var (live', ok) := ProcessPlain(live, docs, Update, changes);
      && ok && live'.Keys == live.Keys
      && ((forall x :: x in docs ==> !SameId(x, id)) ==> live'[id] == live[id])
      && (forall y :: y in docs && SameId(y, id) ==> exists x :: x in docs && SameId(x, id) && live'[id] == x + changes)
    decreases |docs|
  {
    if docs != [] {
      assert docs[0] in docs;
      var id0 := Lookup(docs[0], "id").text;
      var live1 := After(live, Update, id0, Rewritten(docs[0], Update, changes));
      assert forall x :: x in docs[1..] ==> x in docs;
      assert Nameable(live1, docs[1..], Update);
      UpdateResult(live1, docs[1..], changes, id);
      assert forall x :: x in docs ==> x == docs[0] || x in docs[1..];
    }
  }

  /** What a listing holds of a live document are the versions that the query lists of it. */
  lemma ListedOfId(live: map<string, Doc>, f: TreeNode, r: seq<Doc>, id: string, x: Doc)
    requires Named(live) && IsQuery(f) && (forall y :: y in r <==> IsFound(y, f, Stored(live))) && id in live
    ensures x in r && SameId(x, id) <==> x in Versions(f, Stored(live), live[id])
    ensures x in r && SameId(x, id) ==> IsVersion(x, live[id], Fields(f)) && Satisfies(f, live[id])
  {
    hide Versions, IsVersion, Satisfies, Fields;
    var docs := Stored(live);
    if x in Versions(f, docs, live[id]) {
      VersionsAreVersions(f, docs, live[id], x);
      VersionLooksLike(x, live[id], Fields(f), "id");
      assert live[id] in docs && IsFound(x, f, docs);
    }
    if x in r && SameId(x, id) {
      var d :| d in docs && x in Versions(f, docs, d);
      VersionsAreVersions(f, docs, d, x);
      VersionLooksLike(x, d, Fields(f), "id");
      var id' :| id' in live && live[id'] == d;
    }
  }

  lemma ChangedVersion(x: Doc, d: Doc, fields: set<string>, changes: Doc)
    requires IsVersion(x, d, fields)
    ensures IsVersion(x + changes, d + changes, fields)
  {
  }

  /**
   An update by a printed query changes exactly the live documents of which it lists a version, and these satisfy it;
   a compared field that one of them lacks may become null. So it changes all that satisfy it if none is lost.
   */
  lemma UpdateByQuery(e: Entity, live: map<string, Doc>, f: TreeNode, s: Syntax, gaps: seq<string>, changes: Doc)
    requires Printable(s) && OnlyQuoted(s) && Tree(s) == f && IsQuery(f) && Named(live)
    requires |gaps| == |Tokens(s)| + 1 && forall g :: g in gaps ==> Blank(g)
    requires AllExact(f, Stored(live), RootOf(e, live).links)
    ensures SearchLive(e, live, Spell(Tokens(s), gaps)).Docs?
    ensures var (live', ok) := ProcessPlain(live, SearchLive(e, live, Spell(Tokens(s), gaps)).docs, Update, changes);
      && ok && live'.Keys == live.Keys
      && (forall id :: id in live ==>
           if Versions(f, Stored(live), live[id]) == {} then live'[id] == live[id]
           else Satisfies(f, live[id]) && IsVersion(live'[id], live[id] + changes, Fields(f)))
      && (NoneLost(f, Stored(live)) ==> forall id :: id in live && Satisfies(f, live[id]) ==>
           IsVersion(live'[id], live[id] + changes, Fields(f)))
  {
    hide Spell, Tokens, Blank, ParseFilter, AllExact, Satisfies, SearchLive, IsVersion, Versions;
    SearchLists(e, live, f, s, gaps);
    var r := SearchLive(e, live, Spell(Tokens(s), gaps)).docs;
    hide Stored, NoRepeats, IsFound;
    ListingSelects(live, f, r);
    SelectedAreNamed(live, r, Update);
    UpdateSucceeds(live, r, changes);
    forall id | id in live ensures
      var live' := ProcessPlain(live, r, Update, changes).0;
      if Versions(f, Stored(live), live[id]) == {} then live'[id] == live[id]
      else Satisfies(f, live[id]) && IsVersion(live'[id], live[id] + changes, Fields(f))
    {
      UpdateOfId(live, f, r, changes, id);
    }
    assert forall id :: id in live ==> live[id] in Stored(live) by { StoredHolds(live); }
  }

  lemma StoredHolds(live: map<string, Doc>)
    ensures forall id :: id in live ==> live[id] in Stored(live)
    ensures forall d :: d in Stored(live) ==> exists id :: id in live && live[id] == d
  {
  }

  lemma UpdateOfId(live: map<string, Doc>, f: TreeNode, r: seq<Doc>, changes: Doc, id: string)
    requires Named(live) && IsQuery(f) && (forall y :: y in r <==> IsFound(y, f, Stored(live))) && id in live
    requires Nameable(live, r, Update) && ProcessPlain(live, r, Update, changes).0.Keys == live.Keys
    ensures var live' := ProcessPlain(live, r, Update, changes).0;
      if Versions(f, Stored(live), live[id]) == {} then live'[id] == live[id]
      else Satisfies(f, live[id]) && IsVersion(live'[id], live[id] + changes, Fields(f))
  {
    hide Satisfies, IsVersion, Versions, Stored, IsFound, Named, Nameable, ProcessPlain;
    UpdateResult(live, r, changes, id);
    if y :| y in Versions(f, Stored(live), live[id]) {
      ListedOfId(live, f, r, id, y);
      var x :| x in r && SameId(x, id) && ProcessPlain(live, r, Update, changes).0[id] == x + changes;
      ListedOfId(live, f, r, id, x);
      ChangedVersion(x, live[id], Fields(f), changes);
    } else {
      forall x | x in r ensures !SameId(x, id) { ListedOfId(live, f, r, id, x); }
    }
  }

  lemma {:induction false} UpdateSucceeds(live: map<string, Doc>, docs: seq<Doc>, changes: Doc)
    requires Nameable(live, docs, Update)
    ensures ProcessPlain(live, docs, Update, changes).1 && ProcessPlain(live, docs, Update, changes).0.Keys == live.Keys
    decreases |docs|
  {
    if docs != [] {
      assert docs[0] in docs;
      var live1 := After(live, Update, Lookup(docs[0], "id").text, Rewritten(docs[0], Update, changes));
      assert forall x :: x in docs[1..] ==> x in docs;
      UpdateSucceeds(live1, docs[1..], changes);
    }
  }

  lemma ListingSelects(live: map<string, Doc>, f: TreeNode, r: seq<Doc>)
    requires IsQuery(f) && forall y :: y in r <==> IsFound(y, f, Stored(live))
    ensures Selected(live, r)
  {
    hide Satisfies, Versions, Fields;
    forall x | x in r ensures exists id :: id in live && IsVersion(x, live[id], x.Keys) {
      var d :| d in Stored(live) && x in Versions(f, Stored(live), d);
      VersionsAreVersions(f, Stored(live), d, x);
      var id :| id in live && live[id] == d;
    }
  }

  // ----- Deleting by query -----

  predicate DistinctIds(docs: seq<Doc>) {
    forall i, j :: 0 <= i < j < |docs| ==> Lookup(docs[i], "id") != Lookup(docs[j], "id")
  }

  /** Deleting succeeds exactly if no document is named twice, and then removes those named. */
  lemma {:induction false} DeleteResult(live: map<string, Doc>, docs: seq<Doc>)
    requires Nameable(live, docs, Update)
    ensures var (live', ok) := ProcessPlain(live, docs, Delete, map[]);
      (ok <==> DistinctIds(docs)) && (ok ==> live' == NotNamed(live, docs))
    decreases |docs|
  {
    if docs != [] {
      assert docs[0] in docs;
      var live1 := live - {Lookup(docs[0], "id").text};
      assert ProcessPlain(live, docs, Delete, map[]) == ProcessPlain(live1, docs[1..], Delete, map[]);
      hide ProcessPlain, NotNamed;
      if j :| 0 < j < |docs| && Lookup(docs[j], "id") == Lookup(docs[0], "id") {
        DeletedBefore(live1, docs[1..], j - 1);
      } else {
        OthersNamed(live, docs);
        DeleteResult(live1, docs[1..]);
      }
    }
  }

  /** The live documents that none of docs names. */
  function NotNamed(live: map<string, Doc>, docs: seq<Doc>): map<string, Doc> {
    map id | id in live && forall x :: x in docs ==> !SameId(x, id) :: live[id]
  }

  lemma OthersNamed(live: map<string, Doc>, docs: seq<Doc>)
    requires Nameable(live, docs, Update) && docs != []
    requires forall j :: 0 < j < |docs| ==> Lookup(docs[j], "id") != Lookup(docs[0], "id")
    ensures docs[0] in docs
    ensures var live1 := live - {Lookup(docs[0], "id").text};
      Nameable(live1, docs[1..], Update) && NotNamed(live1, docs[1..]) == NotNamed(live, docs)
    ensures DistinctIds(docs[1..]) <==> DistinctIds(docs)
  {
    hide Lookup;
    assert forall x :: x in docs <==> x == docs[0] || x in docs[1..];
    forall x | x in docs[1..] ensures Lookup(x, "id") != Lookup(docs[0], "id") {
      var j :| 0 <= j < |docs[1..]| && docs[1..][j] == x;
      assert docs[j + 1] == x;
    }
    forall i, j | DistinctIds(docs[1..]) && 0 <= i < j < |docs| ensures Lookup(docs[i], "id") != Lookup(docs[j], "id") {
      if i > 0 { assert docs[1..][i - 1] == docs[i] && docs[1..][j - 1] == docs[j]; }
    }
  }

  /** A document that is no longer there stops the deletion. */
  lemma {:induction false} DeletedBefore(live: map<string, Doc>, docs: seq<Doc>, j: nat)
    requires j < |docs| && Lookup(docs[j], "id").Word? && Lookup(docs[j], "id").text !in live
    ensures !ProcessPlain(live, docs, Delete, map[]).1
    decreases |docs|
  {
    if j > 0 && Lookup(docs[0], "id").Word? && Lookup(docs[0], "id").text in live {
      DeletedBefore(live - {Lookup(docs[0], "id").text}, docs[1..], j - 1);
    }
  }

  /** No live document is listed in two versions. */
  ghost predicate OneVersionEach(docs: seq<Doc>) {
    forall x, y :: x in docs && y in docs && Lookup(x, "id") == Lookup(y, "id") ==> x == y
  }

  lemma IdsAreDistinct(docs: seq<Doc>)
    requires NoRepeats(docs)
    ensures DistinctIds(docs) <==> OneVersionEach(docs)
  {
    hide Lookup;
    if OneVersionEach(docs) {
      forall i, j | 0 <= i < j < |docs| ensures Lookup(docs[i], "id") != Lookup(docs[j], "id") {
        assert docs[i] in docs && docs[j] in docs;
      }
    }
    if DistinctIds(docs) {
      forall x, y | x in docs && y in docs && Lookup(x, "id") == Lookup(y, "id") ensures x == y {
        var i :| 0 <= i < |docs| && docs[i] == x;
        var j :| 0 <= j < |docs| && docs[j] == y;
        assert !(i < j) && !(j < i);
      }
    }
  }

  lemma AtMostOne(s: set<Doc>)
    ensures |s| <= 1 <==> forall x, y :: x in s && y in s ==> x == y
  {
    if x :| x in s {
      assert |s - {x}| == |s| - 1;
      if y :| y in s - {x} { assert |s - {x}| > 0; }
      if forall x, y :: x in s && y in s ==> x == y { assert s - {x} == {}; }
    }
  }

  /** No live document is listed in two versions exactly if the query lists none in two forms. */
  lemma OneVersionIff(live: map<string, Doc>, f: TreeNode, r: seq<Doc>)
    requires Named(live) && IsQuery(f) && (forall y :: y in r <==> IsFound(y, f, Stored(live)))
    requires Nameable(live, r, Update)
    ensures OneVersionEach(r) <==> NoneDoubled(f, Stored(live))
  {
    hide Versions, Stored, Satisfies, IsVersion, IsFound, Named, Lookup;
    StoredHolds(live);
    if OneVersionEach(r) {
      forall d | d in Stored(live) ensures |Versions(f, Stored(live), d)| <= 1 {
        var id :| id in live && live[id] == d;
        forall x ensures x in r && SameId(x, id) <==> x in Versions(f, Stored(live), d) {
          ListedOfId(live, f, r, id, x);
        }
        AtMostOne(Versions(f, Stored(live), d));
      }
    }
    if NoneDoubled(f, Stored(live)) {
      forall x, y | x in r && y in r && Lookup(x, "id") == Lookup(y, "id") ensures x == y {
        var id := Lookup(x, "id").text;
        ListedOfId(live, f, r, id, x);
        ListedOfId(live, f, r, id, y);
        AtMostOne(Versions(f, Stored(live), live[id]));
      }
    }
  }

  /** The live documents of which the query lists no version. */
  ghost function Unlisted(live: map<string, Doc>, f: TreeNode): map<string, Doc>
    requires IsQuery(f)
  {
    map id | id in live && Versions(f, Stored(live), live[id]) == {} :: live[id]
  }

  /** The live documents that do not satisfy the query. */
  function Rest(live: map<string, Doc>, f: TreeNode): map<string, Doc>
    requires IsQuery(f)
  {
    map id | id in live && !Satisfies(f, live[id]) :: live[id]
  }

  lemma UnlistedIsRest(live: map<string, Doc>, f: TreeNode)
    requires IsQuery(f)
    ensures Unlisted(live, f) == Rest(live, f) <==> NoneLost(f, Stored(live))
  {
    hide Versions, Stored, Satisfies;
    StoredHolds(live);
    forall id | id in live ensures Versions(f, Stored(live), live[id]) != {} ==> Satisfies(f, live[id]) {
      if x :| x in Versions(f, Stored(live), live[id]) { VersionsAreVersions(f, Stored(live), live[id], x); }
    }
    if Unlisted(live, f) == Rest(live, f) {
      forall d | d in Stored(live) && Satisfies(f, d) ensures Versions(f, Stored(live), d) != {} {
        var id :| id in live && live[id] == d;
        assert id !in Rest(live, f) && id !in Unlisted(live, f);
      }
    } else {
      assert exists id :: id in live && (id in Unlisted(live, f)) != (id in Rest(live, f));
    }
  }

  /**
   A delete by a printed query succeeds if and only if the query lists no document in two forms, and then removes
   exactly the documents of which it lists a version; so it removes exactly the documents that satisfy it if and only
   if it loses none either.
   */
  lemma DeleteByQuery(e: Entity, live: map<string, Doc>, f: TreeNode, s: Syntax, gaps: seq<string>)
    requires Printable(s) && OnlyQuoted(s) && Tree(s) == f && IsQuery(f) && Named(live)
    requires |gaps| == |Tokens(s)| + 1 && forall g :: g in gaps ==> Blank(g)
    requires AllExact(f, Stored(live), RootOf(e, live).links)
    ensures SearchLive(e, live, Spell(Tokens(s), gaps)).Docs?
    ensures var (live', ok) := ProcessPlain(live, SearchLive(e, live, Spell(Tokens(s), gaps)).docs, Delete, map[]);
      && (ok <==> NoneDoubled(f, Stored(live))) && (ok ==> live' == Unlisted(live, f))
      && (ok && live' == Rest(live, f) <==> NoneDoubled(f, Stored(live)) && NoneLost(f, Stored(live)))
  {
    hide Spell, Tokens, Blank, ParseFilter, AllExact, SearchLive, IsFound, Versions;
    SearchLists(e, live, f, s, gaps);
    UnlistedIsRest(live, f);
    hide *;
    DeleteListed(live, f, SearchLive(e, live, Spell(Tokens(s), gaps)).docs);
  }

  lemma DeleteListed(live: map<string, Doc>, f: TreeNode, r: seq<Doc>)
    requires Named(live) && IsQuery(f) && (forall y :: y in r <==> IsFound(y, f, Stored(live))) && NoRepeats(r)
    ensures var (live', ok) := ProcessPlain(live, r, Delete, map[]);
      (ok <==> NoneDoubled(f, Stored(live))) && (ok ==> live' == Unlisted(live, f))
  {
    hide Satisfies, Stored, IsVersion, IsFound, NoRepeats, DistinctIds, ProcessPlain, OneVersionEach, Versions;
    ListingSelects(live, f, r);
    SelectedAreNamed(live, r, Update);
    DeleteResult(live, r);
    IdsAreDistinct(r);
    OneVersionIff(live, f, r);
    hide Named, Nameable, NoneDoubled, SameId;
    forall id | id in live
      ensures Versions(f, Stored(live), live[id]) == {} <==> forall x :: x in r ==> !SameId(x, id)
    {
      forall x ensures x in r && SameId(x, id) <==> x in Versions(f, Stored(live), live[id]) {
        ListedOfId(live, f, r, id, x);
      }
    }
  }

  // ----- A query that loses a document, and a delete that throws -----

  lemma ThreeStored(a: Doc, b: Doc, c: Doc)
    requires SameId(a, "1") && SameId(b, "2") && SameId(c, "3")
    ensures var live := map["1" := a, "2" := b, "3" := c];
      Named(live) && AreThree(Stored(live), a, b, c)
  {
    hide Apart, Stored;
    var live := map["1" := a, "2" := b, "3" := c];
    StoredHolds(live);
    StoredApart(live);
    assert live["1"] in Stored(live) && live["2"] in Stored(live) && live["3"] in Stored(live);
  }

  /** "a" <> "x" & "b" <> "y" does not find document 1, which has neither field, although it satisfies both. */
  lemma AndLosesOne(e: Entity, a: Doc, b: Doc, c: Doc, s: Syntax, gaps: seq<string>)
    requires SameId(a, "1") && SameId(b, "2") && SameId(c, "3") && FirstIsBare(a, b, c)
    requires Printable(s) && OnlyQuoted(s)
    requires Tree(s) == Node("&", Comparison("<>", "a", "x"), Comparison("<>", "b", "y"))
    requires |gaps| == |Tokens(s)| + 1 && forall g :: g in gaps ==> Blank(g)
    ensures var live := map["1" := a, "2" := b, "3" := c];
      && IsQuery(Tree(s)) && AllExact(Tree(s), Stored(live), RootOf(e, live).links)
      && !Answers(SearchLive(e, live, Spell(Tokens(s), gaps)), Tree(s), Stored(live))
  {
    hide Spell, Tokens, Blank, SearchLive, Stored, Answers, NoneLost, FirstIsBare, AreThree, Exact, Printable,
      OnlyQuoted;
    var live := map["1" := a, "2" := b, "3" := c];
    ThreeStored(a, b, c);
    LostAndDoubled(Stored(live), a, b, c);
    SearchAnswers(e, live, Tree(s), s, gaps);
  }

  /** With "|" it finds document 1 in two versions, and a delete throws at the second. */
  lemma OrDeletesTwice(e: Entity, a: Doc, b: Doc, c: Doc, s: Syntax, gaps: seq<string>)
    requires SameId(a, "1") && SameId(b, "2") && SameId(c, "3") && FirstIsBare(a, b, c)
    requires Printable(s) && OnlyQuoted(s)
    requires Tree(s) == Node("|", Comparison("<>", "a", "x"), Comparison("<>", "b", "y"))
    requires |gaps| == |Tokens(s)| + 1 && forall g :: g in gaps ==> Blank(g)
    ensures var live := map["1" := a, "2" := b, "3" := c];
      && IsQuery(Tree(s)) && AllExact(Tree(s), Stored(live), RootOf(e, live).links)
      && SearchLive(e, live, Spell(Tokens(s), gaps)).Docs?
      && !ProcessPlain(live, SearchLive(e, live, Spell(Tokens(s), gaps)).docs, Delete, map[]).1
  {
    hide Spell, Tokens, Blank, SearchLive, Stored, ProcessPlain, NoneDoubled, FirstIsBare, AreThree, Exact, Printable,
      OnlyQuoted;
    var live := map["1" := a, "2" := b, "3" := c];
    ThreeStored(a, b, c);
    LostAndDoubled(Stored(live), a, b, c);
    DeleteByQuery(e, live, Tree(s), s, gaps);
  }
}
