/** db/pastedata.go: the "pastes" bucket, documents keyed by content hash with a reference count. */
module DocStores {
  import opened Basics

  /** docwithrefs.DocWithRefs: the data may be missing (a placeholder for a document not fetched yet);
      the count is a 32-bit unsigned integer. */
  datatype DocWithRefs<+D> = DocWithRefs(data: Option<D>, refs: Uint32)

  type Pastes<D> = map<Multihash, DocWithRefs<D>>

  /** Doc.Add on the bucket. */
  function Added<D>(pastes: Pastes<D>, h: Multihash, data: Option<D>): Pastes<D> {
    if h !in pastes then pastes[h := DocWithRefs(data, 1)]
    else
      var kept := if pastes[h].data.None? then data else pastes[h].data;
      pastes[h := DocWithRefs(kept, (pastes[h].refs + 1) % U32)]
  }

  /** Doc.RemoveRef on the bucket: a missing document is only logged, the last reference deletes. */
  function RefRemoved<D>(pastes: Pastes<D>, h: Multihash): Pastes<D> {
    if h !in pastes then pastes
    else
      var refs := (pastes[h].refs + U32 - 1) % U32;
      if refs > 0 then pastes[h := pastes[h].(refs := refs)] else pastes - {h}
  }

  /** Every document sits under its own hash. */
  ghost predicate Addressed<D(!new)>(hash: D -> Multihash, pastes: Pastes<D>) {
    forall h :: h in pastes && pastes[h].data.Some? ==> hash(pastes[h].data.value) == h
  }

  ghost predicate Holds<D>(pastes: Pastes<D>, h: Multihash, d: D) {
    h in pastes && pastes[h].data == Some(d)
  }

  /** No document is lost or replaced on the way from `p` to `q`. */
  ghost predicate Grows<D>(p: Pastes<D>, q: Pastes<D>) {
    forall h :: h in p ==> h in q && (p[h].data.Some? ==> q[h].data == p[h].data)
  }

  class DocStore<D> {
    var pastes: Pastes<D>

    constructor ()
      ensures pastes == map[]
    {
      pastes := map[];
    }

    method Get(h: Multihash) returns (doc: DocWithRefs<D>, success: bool)
      ensures success <==> h in pastes
      ensures success ==> doc == pastes[h]
      ensures !success ==> doc == DocWithRefs(None, 0)
    {
      if h !in pastes {
        return DocWithRefs(None, 0), false;
      }
      return pastes[h], true;
    }

    method Add(h: Multihash, data: Option<D>)
      modifies this
      ensures pastes == Added(old(pastes), h, data)
    {
      var doc, success := Get(h);
      if !success {
        doc := DocWithRefs(data, 1);
      } else {
        if doc.data.None? && data.Some? {
          doc := doc.(data := data);
        }
        doc := doc.(refs := (doc.refs + 1) % U32);
      }
      pastes := pastes[h := doc];
    }

    method RemoveRef(h: Multihash)
      modifies this
      ensures pastes == RefRemoved(old(pastes), h)
    {
      var doc, success := Get(h);
      if !success {
        return;
      }
      doc := doc.(refs := (doc.refs + U32 - 1) % U32);
      if doc.refs > 0 {
        pastes := pastes[h := doc];
      } else {
        pastes := pastes - {h};
      }
    }
  }

  /** Storing a document under its hash: it is there afterwards, nothing else changes. */
  lemma AddedHolds<D(!new)>(hash: D -> Multihash, pastes: Pastes<D>, d: D)
    requires Injective(hash) && Addressed(hash, pastes)
    ensures Holds(Added(pastes, hash(d), Some(d)), hash(d), d)
    ensures Addressed(hash, Added(pastes, hash(d), Some(d)))
    ensures Grows(pastes, Added(pastes, hash(d), Some(d)))
  {}
}
