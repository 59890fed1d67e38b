/**
 The content-addressed object store.  A hash names one immutable object, so an object stands
 for its own hash here, and patching a link yields a new object.
 */
module MerkleDag {

  datatype Option<T> = None | Some(value: T)

  /** A field of a JSON document. */
  datatype Field = Null | Word(text: string)

  /** A JSON document whose fields are strings or null. */
  type Doc = map<string, Field>

  /** doc[field]: a missing field reads as null. */
  function Lookup(d: Doc, field: string): Field { if field in d then d[field] else Null }

  datatype Data = Raw(bytes: string) | Json(doc: Doc)

  datatype Object = Object(data: Data, links: map<string, Object>)

  function Put(data: Data): Object { Object(data, map[]) }

  /** ObjectPatchAddLink: a link of the same name is replaced. */
  function AddLink(o: Object, name: string, child: Object): Object {
    o.(links := o.links[name := child])
  }

  /** ObjectPatchRmLink: removing a link that is not there is an error. */
  function RmLink(o: Object, name: string): Option<Object> {
    if name in o.links then Some(o.(links := o.links - {name})) else None
  }

  lemma RelinkReplaces(o: Object, name: string, child: Object)
    requires name in o.links
    ensures RmLink(o, name).Some? && AddLink(RmLink(o, name).value, name, child) == AddLink(o, name, child)
  {
  }
}
