/**
 The document index of a storage node.

 Each entity has a root object; the root links its indexes by field name, an index links
 collections, and a collection links documents by id.  The DHT holds the latest root of every
 entity and the latest hash of every document.  Documents are created, updated and deleted by
 patching links bottom-up; the theorem is that the index and the DHT both stay exactly the
 finite map of live documents.
 */
module DocumentIndex {
  import opened FilterParser
  import opened SortedSearch
  import opened MerkleDag
  import opened QueryEvaluator

  /** An entity, named by tenant and template. */
  datatype Entity = Entity(tenant: string, id: string)

  datatype Key = RootKey(e: Entity) | DocKey(e: Entity, id: string)

  /** The DHT as a last-write-wins map; None is the empty string. */
  type Dht = map<Key, Option<Object>>

  function Get(dht: Dht, k: Key): Option<Object> {
    if k in dht then dht[k] else None
  }

  datatype Op = Create | Update | Delete

  // ----- Patching the links -----

  /** Every index leads to its documents through one collection, labelled "__". */
  predicate HasCollections(root: Object) {
    forall i :: i in root.links ==> "__" in root.links[i].links
  }

  /** The index node after its collection has dropped and regained its link for the document. */
  function PatchIndex(index: Object, op: Op, id: string, document: Object): (r: Option<Object>)
    requires "__" in index.links
  {
    var c := index.links["__"];
    var dropped := if op.Create? then Some(c) else RmLink(c, id);
    if dropped.None? then None
    else
      var c' := if op.Delete? then dropped.value else AddLink(dropped.value, id, document);
      Some(AddLink(index, "__", c'))
  }

  /** The document's link can be patched below each of the given indexes, whose fields it has as strings. */
  predicate CanPatch(root: Object, op: Op, id: string, doc: Doc, indexes: set<string>)
    requires HasCollections(root)
  {
    forall i :: i in indexes && i in root.links ==>
      Lookup(doc, i).Word? && PatchIndex(root.links[i], op, id, Put(Json(doc))).Some?
  }

  /** The root after the given indexes have been patched. */
  function Relink(root: Object, op: Op, id: string, doc: Doc, indexes: set<string>): (r: Object)
    requires HasCollections(root) && CanPatch(root, op, id, doc, indexes)
  {
    root.(links := map i | i in root.links ::
      if i in indexes then PatchIndex(root.links[i], op, id, Put(Json(doc))).value else root.links[i])
  }

  lemma RelinkNothing(root: Object, op: Op, id: string, doc: Doc)
    requires HasCollections(root)
    ensures CanPatch(root, op, id, doc, {}) && Relink(root, op, id, doc, {}) == root
  {
  }

  /** One more index: its link in the root is dropped and regained, unless its patch throws. */
  lemma RelinkNext(root: Object, op: Op, id: string, doc: Doc, indexes: set<string>, next: string)
    requires HasCollections(root) && next in root.links && next !in indexes
    requires CanPatch(root, op, id, doc, indexes)
    ensures var before := Relink(root, op, id, doc, indexes);
      var patched := PatchIndex(root.links[next], op, id, Put(Json(doc)));
      && (Lookup(doc, next).Word? && patched.Some? <==> CanPatch(root, op, id, doc, indexes + {next}))
      && (patched.Some? ==> RmLink(before, next).Some?)
      && (CanPatch(root, op, id, doc, indexes + {next}) ==>
        Relink(root, op, id, doc, indexes + {next}) == AddLink(RmLink(before, next).value, next, patched.value))
  {
  }

  lemma CollectionOf(root: Object, index: string)
    requires HasCollections(root) && index in root.links
    ensures "__" in root.links[index].links
  {}

  lemma NoPatch(root: Object, op: Op, id: string, doc: Doc, indexes: set<string>, more: set<string>)
    requires HasCollections(root) && !CanPatch(root, op, id, doc, indexes) && indexes <= more
    ensures !CanPatch(root, op, id, doc, more)
  {}

  /** The DHT after the given indexes have been patched, and the root stored again for each. */
  function UpdateIndexes(dht: Dht, e: Entity, root: Object, op: Op, id: string, doc: Doc,
      indexes: set<string>): (r: Dht)
    requires HasCollections(root) && CanPatch(root, op, id, doc, indexes)
  {
    if indexes == {} then dht else dht[RootKey(e) := Some(Relink(root, op, id, doc, indexes))]
  }

  lemma StoreNothing(dht: Dht, e: Entity, root: Object, op: Op, id: string, doc: Doc)
    requires HasCollections(root)
    ensures CanPatch(root, op, id, doc, {}) && UpdateIndexes(dht, e, root, op, id, doc, {}) == dht
  {}

  lemma StoreAgain(dht: Dht, e: Entity, root: Object, op: Op, id: string, doc: Doc, indexes: set<string>,
      more: set<string>)
    requires HasCollections(root) && CanPatch(root, op, id, doc, indexes) && CanPatch(root, op, id, doc, more)
    requires more != {}
    ensures var stored := UpdateIndexes(dht, e, root, op, id, doc, indexes);
      stored[RootKey(e) := Some(Relink(root, op, id, doc, more))] == UpdateIndexes(dht, e, root, op, id, doc, more)
  {}

  /** The indexes already visited that the document has fields for. */
  function Patched(all: set<string>, pending: set<string>, fields: set<string>): (r: set<string>)
    ensures r <= fields
  {
    (all - pending) * fields
  }

  lemma NextIndex(all: set<string>, pending: set<string>, fields: set<string>, index: string)
    requires index in pending && index in all
    ensures index !in Patched(all, pending, fields) && Patched(all, pending, fields) <= all * fields
    ensures Patched(all, pending - {index}, fields) ==
      if index in fields then Patched(all, pending, fields) + {index} else Patched(all, pending, fields)
  {}

  predicate IsIndexed(dht: Dht, e: Entity) {
    Get(dht, RootKey(e)).Some? && HasCollections(Get(dht, RootKey(e)).value)
  }

  /** The DHT with the document's new hash, or without it after a delete. */
  function Entered(dht: Dht, e: Entity, op: Op, id: string, doc: Doc): Dht {
    dht[DocKey(e, id) := if op.Delete? then None else Some(Put(Json(doc)))]
  }

  /**
   createOrDeleteDocument on an existing entity: all indexes that the document has fields for are patched, or,
   when a patch throws, those visited before it.
   */
  ghost predicate Changed(dht: Dht, e: Entity, op: Op, id: string, doc: Doc, dht': Dht, ok: bool)
    requires IsIndexed(dht, e)
  {
    var root := Get(dht, RootKey(e)).value;
    var all := root.links.Keys * doc.Keys;
    && (ok <==> CanPatch(root, op, id, doc, all))
    && exists done ::
         && done <= all && CanPatch(root, op, id, doc, done) && (ok ==> done == all)
         && dht' == UpdateIndexes(Entered(dht, e, op, id, doc), e, root, op, id, doc, done)
  }

  lemma RelinkedHasCollections(root: Object, op: Op, id: string, doc: Doc, indexes: set<string>)
    requires HasCollections(root) && CanPatch(root, op, id, doc, indexes)
    ensures HasCollections(Relink(root, op, id, doc, indexes))
  {
  }

  lemma ChangedIsIndexed(dht: Dht, e: Entity, op: Op, id: string, doc: Doc, dht': Dht, ok: bool)
    requires IsIndexed(dht, e) && Changed(dht, e, op, id, doc, dht', ok)
    ensures IsIndexed(dht', e)
  {
    var root, entered := Get(dht, RootKey(e)).value, Entered(dht, e, op, id, doc);
    var done: set<string> :| done <= root.links.Keys * doc.Keys && CanPatch(root, op, id, doc, done) &&
      dht' == UpdateIndexes(entered, e, root, op, id, doc, done);
    hide HasCollections, CanPatch, Relink;
    RelinkedHasCollections(root, op, id, doc, done);
  }

  /** updateValues: the fields of changes override those of the document; a delete changes nothing. */
  function Rewritten(doc: Doc, op: Op, changes: Doc): Doc {
    if op.Update? then doc + changes else doc
  }

  /** updateOrDeleteDocument on the documents found, one after the other until one throws. */
  ghost predicate Processes(dht: Dht, e: Entity, docs: seq<Doc>, op: Op, changes: Doc, dht': Dht, ok: bool)
    requires IsIndexed(dht, e)
    decreases |docs|
  {
    if docs == [] then ok && dht' == dht
    else if Lookup(docs[0], "id").Null? then !ok && dht' == dht
    else
      exists mid, changed ::
        && Changed(dht, e, op, Lookup(docs[0], "id").text, Rewritten(docs[0], op, changes), mid, changed)
        && IsIndexed(mid, e)
        && if changed then Processes(mid, e, docs[1..], op, changes, dht', ok) else !ok && dht' == mid
  }

  class Storage {
    var dht: Dht

    /** createOrDeleteDocument; ok tells that nothing was thrown. */
    method CreateOrDeleteDocument(e: Entity, op: Op, id: string, doc: Doc) returns (ok: bool)
      requires Get(dht, RootKey(e)).Some? ==> HasCollections(Get(dht, RootKey(e)).value)
      modifies this
      ensures Get(old(dht), RootKey(e)).None? ==> ok && dht == old(dht)
      ensures Get(old(dht), RootKey(e)).Some? ==> Changed(old(dht), e, op, id, doc, dht, ok)
    {
      hide HasCollections, CanPatch, UpdateIndexes;
      if Get(dht, RootKey(e)).None? {
        return true;
      }
      var entityRoot := Get(dht, RootKey(e)).value;
      dht := dht[DocKey(e, id) := if op.Delete? then None else Some(Put(Json(doc)))];
      ghost var done;
      ok, done := PatchIndexes(e, entityRoot, op, id, doc);
    }

    /** The loop over the indexes: each one the document has a field for is patched and the root stored again. */
    method PatchIndexes(e: Entity, root: Object, op: Op, id: string, doc: Doc)
        returns (ok: bool, ghost done: set<string>)
      requires HasCollections(root)
      modifies this
      ensures ok <==> CanPatch(root, op, id, doc, root.links.Keys * doc.Keys)
      ensures done <= root.links.Keys * doc.Keys && (ok ==> done == root.links.Keys * doc.Keys)
      ensures CanPatch(root, op, id, doc, done) && dht == UpdateIndexes(old(dht), e, root, op, id, doc, done)
    {
      var entityRoot, pending := root, root.links.Keys;
      ghost var all, fields := root.links.Keys, doc.Keys;
      done := {};
      assert Patched(all, all, fields) == {} && Patched(all, {}, fields) == all * fields;
      hide HasCollections, CanPatch, Relink, PatchIndex, AddLink, RmLink, UpdateIndexes, Patched;
      RelinkNothing(root, op, id, doc);
      StoreNothing(dht, e, root, op, id, doc);
      while pending != {}
        invariant pending <= all && done == Patched(all, pending, fields) && done <= all * fields
        invariant CanPatch(root, op, id, doc, done) && entityRoot == Relink(root, op, id, doc, done)
        invariant dht == UpdateIndexes(old(dht), e, root, op, id, doc, done)
        decreases |pending|
      {
        var index :| index in pending;
        NextIndex(all, pending, fields, index);
        pending := pending - {index};
        if index in doc {
          CollectionOf(root, index);
          RelinkNext(root, op, id, doc, done, index);
          if doc[index].Null? {
            NoPatch(root, op, id, doc, done + {index}, all * fields);
            return false, done;
          }
          var newBNode := RelinkDocument(root.links[index], op, id, Put(Json(doc)));
          if newBNode.None? {
            NoPatch(root, op, id, doc, done + {index}, all * fields);
            return false, done;
          }
          StoreAgain(old(dht), e, root, op, id, doc, done, done + {index});
          entityRoot := AddLink(RmLink(entityRoot, index).value, index, newBNode.value);
          dht := dht[RootKey(e) := Some(entityRoot)];
          done := done + {index};
        }
      }
      return true, done;
    }

    /** The patches below one index: the document's link in the collection, then the collection's link. */
    method RelinkDocument(bNode: Object, op: Op, id: string, document: Object) returns (newBNode: Option<Object>)
      requires "__" in bNode.links
      ensures newBNode == PatchIndex(bNode, op, id, document)
    {
      var cNode := bNode.links["__"];
      if op.Update? || op.Delete? {
        var removed := RmLink(cNode, id);
        if removed.None? {
          return None;
        }
        cNode := removed.value;
      }
      if !op.Delete? {
        cNode := AddLink(cNode, id, document);
      }
      RelinkReplaces(bNode, "__", cNode);
      newBNode := Some(AddLink(RmLink(bNode, "__").value, "__", cNode));
    }

    /** updateOrDeleteDocument on the documents its search has found; false when an exception ends it. */
    method ProcessDocuments(e: Entity, docs: seq<Doc>, op: Op, changes: Doc) returns (ok: bool)
      requires !op.Create? && IsIndexed(dht, e)
      modifies this
      ensures Processes(old(dht), e, docs, op, changes, dht, ok)
    {
      for i := 0 to |docs|
        invariant IsIndexed(dht, e)
        invariant forall end, r ::
          Processes(dht, e, docs[i..], op, changes, end, r) ==> Processes(old(dht), e, docs, op, changes, end, r)
      {
        hide Changed, HasCollections;
        assert docs[i..][0] == docs[i] && docs[i..][1..] == docs[i + 1..];
        ghost var before := dht;
        if Lookup(docs[i], "id").Null? {
          return false;
        }
        var done := CreateOrDeleteDocument(e, op, docs[i]["id"].text, Rewritten(docs[i], op, changes));
        ChangedIsIndexed(before, e, op, Lookup(docs[i], "id").text, Rewritten(docs[i], op, changes), dht, done);
        assert !done ==> Processes(before, e, docs[i..], op, changes, dht, false);
        assert done ==> forall end, r ::
          Processes(dht, e, docs[i + 1..], op, changes, end, r) ==>
            Processes(before, e, docs[i..], op, changes, end, r);
        if !done {
          return false;
        }
      }
      assert docs[|docs|..] == [];
      return true;
    }

    /** addChildNode for a template: the document index of the new entity, with an empty collection. */
    method AddTemplate(e: Entity)
      modifies this
      ensures dht == old(dht)[RootKey(e) := Some(RootOf(e, map[]))]
    {
      var dataRoot := Put(Raw(RootName(e)));
      var hashB := Put(Raw("id"));
      var hashC := Put(Raw("collection"));
      var bc := AddLink(hashB, "__", hashC);
      var newDataRoot := AddLink(dataRoot, "id", bc);
      assert newDataRoot.links == map["id" := bc] && bc.links == map["__" := hashC] && hashC.links == DocLinks(map[]);
      dht := dht[RootKey(e) := Some(newDataRoot)];
    }
  }

  // ----- What the index represents -----

  function RootName(e: Entity): string { ".data_" + e.tenant + "_" + e.id }

  function DocLinks(live: map<string, Doc>): map<string, Object> {
    map id | id in live :: Put(Json(live[id]))
  }

  /** The root of an entity whose live documents are given. */
  function RootOf(e: Entity, live: map<string, Doc>): Object {
    Object(Raw(RootName(e)), map["id" := Object(Raw("id"), map["__" := Object(Raw("collection"), DocLinks(live))])])
  }

  predicate Named(live: map<string, Doc>) {
    forall id :: id in live ==> Lookup(live[id], "id") == Word(id)
  }

  /** Index and DHT both hold exactly the live documents, each under its latest hash. */
  ghost predicate Represents(dht: Dht, e: Entity, live: map<string, Doc>) {
    && Named(live)
    && Get(dht, RootKey(e)) == Some(RootOf(e, live))
    && forall id :: Get(dht, DocKey(e, id)) == if id in live then Some(Put(Json(live[id]))) else None
  }

  function After(live: map<string, Doc>, op: Op, id: string, doc: Doc): map<string, Doc> {
    if op.Delete? then live - {id} else live[id := doc]
  }

  lemma PatchedLinks(live: map<string, Doc>, op: Op, id: string, doc: Doc)
    ensures DocLinks(After(live, op, id, doc)) ==
      if op.Delete? then DocLinks(live) - {id} else DocLinks(live)[id := Put(Json(doc))]
    ensures id in live && !op.Delete? ==>
      (DocLinks(live) - {id})[id := Put(Json(doc))] == DocLinks(live)[id := Put(Json(doc))]
  {
  }

  lemma PatchedRoot(e: Entity, live: map<string, Doc>, op: Op, id: string, doc: Doc)
    requires (op.Create? || id in live) && Lookup(doc, "id").Word?
    ensures var root := RootOf(e, live);
      && HasCollections(root) && CanPatch(root, op, id, doc, {"id"})
      && Relink(root, op, id, doc, {"id"}) == RootOf(e, After(live, op, id, doc))
  {
    var root, document := RootOf(e, live), Put(Json(doc));
    var live' := After(live, op, id, doc);
    PatchedLinks(live, op, id, doc);
    assert id in live ==> id in DocLinks(live);
    hide DocLinks, After;
    assert root.links["id"].links["__"].links == DocLinks(live);
    var patched := PatchIndex(root.links["id"], op, id, document);
    assert patched.Some? && patched.value.links == map["__" := Object(Raw("collection"), DocLinks(live'))];
    assert Relink(root, op, id, doc, {"id"}).links == map["id" := patched.value];
  }

  lemma NoSuchLink(e: Entity, live: map<string, Doc>, op: Op, id: string, doc: Doc)
    requires !op.Create? && id !in live
    ensures HasCollections(RootOf(e, live)) && !CanPatch(RootOf(e, live), op, id, doc, {"id"})
  {
    assert RootOf(e, live).links["id"].links["__"].links == DocLinks(live);
  }

  lemma RootHasId(e: Entity, live: map<string, Doc>, doc: Doc)
    requires "id" in doc
    ensures RootOf(e, live).links.Keys * doc.Keys == {"id"}
  {}

  /** The keys of the DHT that belong to other entities, or to other documents than id. */
  ghost predicate SameElsewhere(dht: Dht, dht': Dht, e: Entity) {
    forall k :: k != RootKey(e) && (forall id :: k != DocKey(e, id)) ==> Get(dht', k) == Get(dht, k)
  }

  /** The "id" index is patched, and no other. */
  lemma OnlyIdChanged(dht: Dht, e: Entity, live: map<string, Doc>, op: Op, id: string, doc: Doc, dht': Dht, ok: bool)
    requires Represents(dht, e, live) && (op.Create? || id in live) && Lookup(doc, "id") == Word(id)
    requires IsIndexed(dht, e) && Changed(dht, e, op, id, doc, dht', ok)
    ensures ok && dht' == Entered(dht, e, op, id, doc)[RootKey(e) := Some(RootOf(e, After(live, op, id, doc)))]
  {
    hide HasCollections, CanPatch, Relink, RootOf, After, Entered, Named;
    PatchedRoot(e, live, op, id, doc);
    assert RootOf(e, live).links.Keys * doc.Keys == {"id"} by { RootHasId(e, live, doc); }
  }

  /** One create, update or delete does to the index what it does to the map of live documents. */
  lemma OperationRefines(dht: Dht, e: Entity, live: map<string, Doc>, op: Op, id: string, doc: Doc, dht': Dht, ok: bool)
    requires Represents(dht, e, live) && (op.Create? || id in live) && Lookup(doc, "id") == Word(id)
    requires IsIndexed(dht, e) && Changed(dht, e, op, id, doc, dht', ok)
    ensures ok && Represents(dht', e, After(live, op, id, doc))
    ensures SameElsewhere(dht, dht', e)
  {
    hide *;
    OnlyIdChanged(dht, e, live, op, id, doc, dht', ok);
    NewContents(dht, e, live, op, id, doc, dht');
  }

  lemma NewContents(dht: Dht, e: Entity, live: map<string, Doc>, op: Op, id: string, doc: Doc, dht': Dht)
    requires Represents(dht, e, live) && Lookup(doc, "id") == Word(id)
    requires dht' == Entered(dht, e, op, id, doc)[RootKey(e) := Some(RootOf(e, After(live, op, id, doc)))]
    ensures Represents(dht', e, After(live, op, id, doc)) && SameElsewhere(dht, dht', e)
  {
    hide RootOf;
  }

  /** Deleting a document that is not there throws and changes nothing that can be seen. */
  lemma DeleteAgain(dht: Dht, e: Entity, live: map<string, Doc>, id: string, doc: Doc, dht': Dht, ok: bool)
    requires Represents(dht, e, live) && id !in live && Lookup(doc, "id") == Word(id)
    requires IsIndexed(dht, e) && Changed(dht, e, Delete, id, doc, dht', ok)
    ensures !ok && Represents(dht', e, live)
    ensures SameElsewhere(dht, dht', e)
  {
    hide HasCollections, CanPatch, Relink, RootOf;
    NoSuchLink(e, live, Delete, id, doc);
    assert RootOf(e, live).links.Keys * doc.Keys == {"id"} by { RootHasId(e, live, doc); }
    assert forall done: set<string> :: done <= {"id"} ==> done == {} || done == {"id"};
  }

  // ----- Several documents at once -----

  /** docs are live documents, each in some version; one may occur in several. */
  ghost predicate Selected(live: map<string, Doc>, docs: seq<Doc>) {
    forall x :: x in docs ==> exists id :: id in live && IsVersion(x, live[id], x.Keys)
  }

  /** The documents found are rewritten or deleted in turn; deleting one a second time stops it. */
  function ProcessPlain(live: map<string, Doc>, docs: seq<Doc>, op: Op, changes: Doc): (r: (map<string, Doc>, bool))
    decreases |docs|
  {
    if docs == [] then (live, true)
    else if Lookup(docs[0], "id").Null? || Lookup(docs[0], "id").text !in live then (live, false)
    else
      var next := After(live, op, Lookup(docs[0], "id").text, Rewritten(docs[0], op, changes));
      ProcessPlain(next, docs[1..], op, changes)
  }

  /** docs name documents; those an update is to rewrite are live. */
  predicate Nameable(live: map<string, Doc>, docs: seq<Doc>, op: Op) {
    forall x :: x in docs ==> Lookup(x, "id").Word? && (op.Update? ==> Lookup(x, "id").text in live)
  }

  lemma SelectedAreNamed(live: map<string, Doc>, docs: seq<Doc>, op: Op)
    requires Named(live) && Selected(live, docs)
    ensures Nameable(live, docs, op)
  {
    forall x | x in docs ensures Lookup(x, "id").Word? && Lookup(x, "id").text in live {
      var id :| id in live && IsVersion(x, live[id], x.Keys);
      VersionLooksLike(x, live[id], x.Keys, "id");
    }
  }

  lemma {:induction false} ProcessingRefines(dht: Dht, e: Entity, live: map<string, Doc>, docs: seq<Doc>, op: Op,
      changes: Doc, dht': Dht, ok: bool)
    requires Represents(dht, e, live) && Nameable(live, docs, op) && !op.Create? && "id" !in changes
    requires IsIndexed(dht, e) && Processes(dht, e, docs, op, changes, dht', ok)
    ensures Represents(dht', e, ProcessPlain(live, docs, op, changes).0)
    ensures ok == ProcessPlain(live, docs, op, changes).1
    ensures SameElsewhere(dht, dht', e)
    decreases |docs|
  {
    hide Represents, Changed, HasCollections, RootOf;
    if docs != [] {
      assert docs[0] in docs;
      var id, doc := Lookup(docs[0], "id").text, Rewritten(docs[0], op, changes);
      var mid, changed :| Changed(dht, e, op, id, doc, mid, changed) && IsIndexed(mid, e) &&
        if changed then Processes(mid, e, docs[1..], op, changes, dht', ok) else !ok && dht' == mid;
      if id in live {
        OperationRefines(dht, e, live, op, id, doc, mid, changed);
        var live' := After(live, op, id, doc);
        assert Nameable(live', docs[1..], op);
        ProcessingRefines(mid, e, live', docs[1..], op, changes, dht', ok);
        SameTwice(dht, mid, dht', e);
      } else {
        DeleteAgain(dht, e, live, id, doc, mid, changed);
      }
    }
  }

  lemma SameTwice(a: Dht, b: Dht, c: Dht, e: Entity)
    requires SameElsewhere(a, b, e) && SameElsewhere(b, c, e)
    ensures SameElsewhere(a, c, e)
  {
  }

  // ----- What a search over the index finds -----

  /** searchDocument below the links of an entity's root. */
  ghost function SearchIn(indexes: map<string, Object>, expression: string): (r: Value) {
    match ParseFilter(expression)
    case Ok(filter) => Evaluate(filter, indexes)
    case OutOfRange => Failed
    case EmptyStackRead => Unspecified
  }

  /** The same on an entity whose live documents are given. */
  ghost function SearchLive(e: Entity, live: map<string, Doc>, expression: string): (r: Value) {
    SearchIn(RootOf(e, live).links, expression)
  }

  lemma IsForm(live: map<string, Doc>, id: string, x: Doc, field: string)
    requires id in live && (x == live[id] || x == Shown(live[id], field))
    ensures IsVersion(x, live[id], x.Keys)
  {
  }

  /** What a filter lists are the documents it is given, perhaps with the field added. */
  lemma FilterLists(op: string, docs: seq<Doc>, field: string, value: string, x: Doc)
    requires op in FILTERS && docs != []
    ensures var r := Filter(op, docs, field, value);
      r.Docs? && x in r.docs ==> exists d :: d in docs && (x == d || x == Shown(d, field))
  {
    hide LowerIndex, UpperIndex, Slice, Read;
    var r, col, v := Filter(op, docs, field, value), Column(docs, field), Word(value);
    if r.Docs? && x in r.docs {
      var lower, upper := LowerIndex(col, v).index, UpperIndex(col, v).index;
      var shown := Touch(docs, field, Read(op, col, v));
      SliceMembers(op, shown, lower, upper, x);
      var i :| 0 <= i < |shown| && shown[i] == x;
      assert docs[i] in docs;
    }
  }

  lemma ComparisonSelects(op: string, field: string, value: string, e: Entity, live: map<string, Doc>)
    requires op in FILTERS
    ensures var r := Compare(op, field, value, RootOf(e, live).links); r.Docs? ==> Selected(live, r.docs)
  {
    hide Filter, FetchAll, SortBy, Followed;
    var indexes := RootOf(e, live).links;
    assert Collection(indexes) == DocLinks(live);
    var r := Compare(op, field, value, indexes);
    if field == "id" {
      if op == "=" {
        if value in live { IsForm(live, value, live[value], ""); }
      } else {
        OnlyTheCollection(op, RootOf(e, live), value);
      }
    } else if r.Docs? && r.docs != [] {
      var docs := FetchAll(DocLinks(live));
      forall x | x in r.docs ensures exists id :: id in live && IsVersion(x, live[id], x.Keys) {
        FilterLists(op, SortBy(docs, field), field, value, x);
        var d :| d in SortBy(docs, field) && (x == d || x == Shown(d, field));
        assert d in multiset(docs);
        assert d in docs;
        var id :| id in DocLinks(live) && DocLinks(live)[id].data.doc == d;
        IsForm(live, id, x, field);
      }
    }
  }

  /** The index node of an entity links its collection only, which is no document. */
  lemma OnlyTheCollection(op: string, root: Object, value: string)
    requires "id" in root.links && root.links["id"].links.Keys == {"__"} && !root.links["id"].links["__"].data.Json?
    ensures op != "=" ==>
      var r := CompareIndexed(op, root.links["id"].links, value); r.Docs? ==> r.docs == []
  {
    var links := Followed(op, root.links["id"].links, value);
    assert links == map[] || "__" in links;
  }

  /** A search finds live documents, each in some version. */
  lemma {:induction false} SearchSelects(filter: TreeNode, e: Entity, live: map<string, Doc>)
    ensures var r := Evaluate(filter, RootOf(e, live).links); r.Docs? ==> Selected(live, r.docs)
  {
    hide RootOf, Compare, Listed, IsVersion;
    match filter
    case Leaf(_) =>
    case Node(op, l, r) =>
      SearchSelects(l, e, live);
      SearchSelects(r, e, live);
      var left, right := Evaluate(l, RootOf(e, live).links), Evaluate(r, RootOf(e, live).links);
      if op in FILTERS && left.Text? && right.Text? { ComparisonSelects(op, left.text, right.text, e, live); }
  }

  // ----- Whole histories -----

  datatype Command =
    | AddTemplate(e: Entity)
    | AddDocument(e: Entity, guid: string, body: Doc)
    | UpdateDocuments(e: Entity, expression: string, changes: Doc)
    | DeleteDocuments(e: Entity, expression: string)

  /** updateOrDeleteDocument: only a list of documents leads to changes; anything else is reported or throws. */
  ghost predicate Bulk(dht: Dht, e: Entity, expression: string, op: Op, changes: Doc, dht': Dht) {
    if Get(dht, RootKey(e)).None? then dht' == dht
    else
      var found := SearchIn(Get(dht, RootKey(e)).value.links, expression);
      if found.Docs? then IsIndexed(dht, e) && exists ok :: Processes(dht, e, found.docs, op, changes, dht', ok)
      else dht' == dht
  }

  ghost predicate Added(dht: Dht, e: Entity, guid: string, doc: Doc, dht': Dht)
    requires IsIndexed(dht, e)
  {
    exists ok :: Changed(dht, e, Create, guid, doc, dht', ok)
  }

  /** dht' is what a command may leave. */
  ghost predicate Exec(dht: Dht, cmd: Command, dht': Dht) {
    match cmd
    case AddTemplate(e) => dht' == dht[RootKey(e) := Some(RootOf(e, map[]))]
    case AddDocument(e, guid, body) =>
      if Get(dht, RootKey(e)).None? then dht' == dht
      else IsIndexed(dht, e) && Added(dht, e, guid, body["id" := Word(guid)], dht')
    case UpdateDocuments(e, expression, changes) => Bulk(dht, e, expression, Update, changes, dht')
    case DeleteDocuments(e, expression) => Bulk(dht, e, expression, Delete, map[], dht')
  }

  /** The command's search neither reads an empty stack nor leaves the array it searches. */
  ghost predicate IsSpecified(dht: Dht, e: Entity, expression: string) {
    Get(dht, RootKey(e)).Some? ==> !SearchIn(Get(dht, RootKey(e)).value.links, expression).Unspecified?
  }

  /** Identifiers are generated afresh, an update leaves "id" alone, and what a search does is specified. */
  ghost predicate Allowed(dht: Dht, cmd: Command) {
    match cmd
    case AddTemplate(e) => RootKey(e) !in dht && forall id :: DocKey(e, id) !in dht
    case AddDocument(e, guid, _) => DocKey(e, guid) !in dht
    case UpdateDocuments(e, expression, changes) => "id" !in changes && IsSpecified(dht, e, expression)
    case DeleteDocuments(e, expression) => IsSpecified(dht, e, expression)
  }

  /** The plain map of live documents of every entity. */
  type Entities = map<Entity, map<string, Doc>>

  ghost function ApplyBulk(ents: Entities, e: Entity, expression: string, op: Op, changes: Doc): (r: Entities) {
    if e !in ents then ents
    else match SearchLive(e, ents[e], expression)
      case Docs(docs) => ents[e := ProcessPlain(ents[e], docs, op, changes).0]
      case _ => ents
  }

  ghost function Apply(ents: Entities, cmd: Command): (r: Entities) {
    match cmd
    case AddTemplate(e) => ents[e := map[]]
    case AddDocument(e, guid, body) =>
      if e in ents then ents[e := ents[e][guid := body["id" := Word(guid)]]] else ents
    case UpdateDocuments(e, expression, changes) => ApplyBulk(ents, e, expression, Update, changes)
    case DeleteDocuments(e, expression) => ApplyBulk(ents, e, expression, Delete, map[])
  }

  ghost predicate Agrees(dht: Dht, ents: Entities) {
    && (forall e :: e in ents ==> Represents(dht, e, ents[e]))
    && (forall e :: e !in ents ==> Get(dht, RootKey(e)).None?)
  }

  /** What a command touches belongs to its own entity. */
  lemma OthersUntouched(dht: Dht, dht': Dht, ents: Entities, e: Entity, live': map<string, Doc>)
    requires Agrees(dht, ents) && Represents(dht', e, live') && SameElsewhere(dht, dht', e)
    ensures Agrees(dht', ents[e := live'])
  {
    hide RootOf, Get;
    forall f | f in ents && f != e ensures Represents(dht', f, ents[f]) {
      assert Represents(dht, f, ents[f]);
      forall id ensures Get(dht', DocKey(f, id)) == Get(dht, DocKey(f, id)) {}
    }
  }

  /** An update or delete by query does to the index what it does to the plain map. */
  lemma BulkRefines(dht: Dht, ents: Entities, e: Entity, expression: string, op: Op, changes: Doc, dht': Dht)
    requires Agrees(dht, ents) && !op.Create? && "id" !in changes && Bulk(dht, e, expression, op, changes, dht')
    ensures Agrees(dht', ApplyBulk(ents, e, expression, op, changes))
  {
    hide RootOf, Evaluate, Processes, ProcessPlain, ParseFilter, Selected, Nameable, HasCollections;
    if e in ents {
      assert Represents(dht, e, ents[e]);
      var found := SearchLive(e, ents[e], expression);
      if found.Docs? {
        SearchSelects(ParseFilter(expression).value, e, ents[e]);
        SelectedAreNamed(ents[e], found.docs, op);
        var ok :| Processes(dht, e, found.docs, op, changes, dht', ok);
        ProcessingRefines(dht, e, ents[e], found.docs, op, changes, dht', ok);
        OthersUntouched(dht, dht', ents, e, ProcessPlain(ents[e], found.docs, op, changes).0);
      }
    }
  }

  lemma CommandRefines(dht: Dht, ents: Entities, cmd: Command, dht': Dht)
    requires Agrees(dht, ents) && Allowed(dht, cmd) && Exec(dht, cmd, dht')
    ensures Agrees(dht', Apply(ents, cmd))
  {
    hide RootOf, Bulk, ApplyBulk, Changed, HasCollections, IsSpecified;
    match cmd
    case AddTemplate(e) =>
      OthersUntouched(dht, dht', ents, e, map[]);
    case AddDocument(e, guid, body) =>
      if e in ents {
        assert Represents(dht, e, ents[e]);
        var doc := body["id" := Word(guid)];
        var ok :| Changed(dht, e, Create, guid, doc, dht', ok);
        OperationRefines(dht, e, ents[e], Create, guid, doc, dht', ok);
        OthersUntouched(dht, dht', ents, e, ents[e][guid := doc]);
      }
    case UpdateDocuments(e, expression, changes) => BulkRefines(dht, ents, e, expression, Update, changes, dht');
    case DeleteDocuments(e, expression) => BulkRefines(dht, ents, e, expression, Delete, map[], dht');
  }

  ghost function RunPlain(ents: Entities, cmds: seq<Command>): (r: Entities) {
    if cmds == [] then ents else Apply(RunPlain(ents, cmds[..|cmds| - 1]), cmds[|cmds| - 1])
  }

  /** dhts[k] is the DHT after k commands. */
  ghost predicate History(dhts: seq<Dht>, cmds: seq<Command>) {
    && |dhts| == |cmds| + 1
    && forall k :: 0 <= k < |cmds| ==> Allowed(dhts[k], cmds[k]) && Exec(dhts[k], cmds[k], dhts[k + 1])
  }

  /** After every history of commands, index and DHT agree with the plain map of live documents. */
  lemma {:induction false} HistoryRefines(dhts: seq<Dht>, ents: Entities, cmds: seq<Command>)
    requires History(dhts, cmds) && Agrees(dhts[0], ents)
    ensures Agrees(dhts[|cmds|], RunPlain(ents, cmds))
  {
    hide Agrees, Exec, Apply, Allowed;
    if cmds != [] {
      var n := |cmds| - 1;
      HistoryRefines(dhts[..n + 1], ents, cmds[..n]);
      CommandRefines(dhts[n], RunPlain(ents, cmds[..n]), cmds[n], dhts[n + 1]);
    }
  }

  /** In particular when the history begins with an empty DHT. */
  lemma HistoryFromNothing(dhts: seq<Dht>, cmds: seq<Command>, e: Entity)
    requires History(dhts, cmds) && dhts[0] == map[]
    ensures Get(dhts[|cmds|], RootKey(e)).Some? <==> e in RunPlain(map[], cmds)
    ensures e in RunPlain(map[], cmds) ==> Represents(dhts[|cmds|], e, RunPlain(map[], cmds)[e])
  {
    hide RunPlain;
    HistoryRefines(dhts, map[], cmds);
  }
}
