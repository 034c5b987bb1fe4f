/** The versioned document store (listertesting.FakeCRUD) as functions on its contents. */
module VersionedStore {
  import opened KubeApplier

  datatype Store = Store(docs: map<string, Doc>, seqNo: nat)

  datatype Reply = Stored(doc: Doc) | NotFound | AlreadyExists | PreconditionFailed | EmptyID

  function Get(s: Store, id: string): Option<Doc> {
    if id in s.docs then Some(s.docs[id]) else None
  }

  function Create(s: Store, obj: Doc): (Store, Reply) {
    if obj.id == "" then (s, EmptyID)
    else if obj.id in s.docs then (s, AlreadyExists)
    else
      var stored := obj.(updateTime := s.seqNo + 1, createTime := s.seqNo + 1);
      (Store(s.docs[obj.id := stored], s.seqNo + 1), Stored(stored))
  }

  function Replace(s: Store, obj: Doc): (Store, Reply) {
    if obj.id !in s.docs then (s, NotFound)
    else if obj.updateTime != s.docs[obj.id].updateTime then (s, PreconditionFailed)
    else
      var stored := obj.(updateTime := s.seqNo + 1, createTime := s.docs[obj.id].createTime);
      (Store(s.docs[obj.id := stored], s.seqNo + 1), Stored(stored))
  }

  function Delete(s: Store, id: string): (Store, bool) {
    if id in s.docs then (s.(docs := s.docs - {id}), true) else (s, false)
  }

  /** Every stored document sits under its own id, with a token some call of nextTime produced. */
  ghost predicate Valid(s: Store) {
    forall id | id in s.docs ::
      s.docs[id].id == id && id != "" && 0 < s.docs[id].createTime <= s.docs[id].updateTime <= s.seqNo
  }

  /** A request of another writer reaching the store. */
  datatype Rival = Creating(obj: Doc) | Replacing(obj: Doc)

  function Step(s: Store, r: Rival): Store {
    if r.Creating? then Create(s, r.obj).0 else Replace(s, r.obj).0
  }

  /** The store after other writers' requests; none of them is a Delete. */
  function After(s: Store, rivals: seq<Rival>): Store {
    if rivals == [] then s else Step(After(s, rivals[..|rivals| - 1]), rivals[|rivals| - 1])
  }

  /** What other writers can have made of a document: it is still there, and under an unchanged token
      it is unchanged. */
  ghost predicate Later(read: Store, s: Store, id: string) {
    && Valid(read) && Valid(s) && read.seqNo <= s.seqNo
    && (id in read.docs ==>
          && id in s.docs && read.docs[id].updateTime <= s.docs[id].updateTime
          && (read.docs[id].updateTime == s.docs[id].updateTime ==> read.docs[id] == s.docs[id]))
  }

  lemma {:induction false} AfterIsLater(s: Store, rivals: seq<Rival>, id: string)
    requires Valid(s)
    ensures Later(s, After(s, rivals), id)
  {
    if rivals != [] {
      AfterIsLater(s, rivals[..|rivals| - 1], id);
    }
  }

  /* ---- Laws of the store ---- */

  /** A Create fails on an empty id, and else exactly if the document exists; a Replace fails exactly if
      there is no document or its token is not the one sent. Nothing else is answered. */
  lemma Replies(s: Store, obj: Doc)
    ensures var c, r := Create(s, obj).1, Replace(s, obj).1;
            && (c == EmptyID <==> obj.id == "")
            && (c == AlreadyExists <==> obj.id != "" && Get(s, obj.id).Some?)
            && (c.Stored? <==> obj.id != "" && Get(s, obj.id).None?)
            && (r == NotFound <==> Get(s, obj.id).None?)
            && (r == PreconditionFailed <==> Get(s, obj.id).Some? && Get(s, obj.id).value.updateTime != obj.updateTime)
            && (r.Stored? <==> Get(s, obj.id).Some? && Get(s, obj.id).value.updateTime == obj.updateTime)
  {
  }

  /** What was stored is read back with a fresh token, the time of creation of the first Create, and the
      rest as sent; what was refused changed nothing; no other document is affected. */
  lemma ReadsBack(s: Store, obj: Doc, create: bool, id: string)
    requires Valid(s)
    ensures var (s', reply) := if create then Create(s, obj) else Replace(s, obj);
            && (if reply.Stored?
                then
                  && Valid(s') && Get(s', obj.id) == Some(reply.doc) && reply.doc.id == obj.id
                      && reply.doc.body == obj.body
                  && (forall other | other in s.docs :: s.docs[other].updateTime < reply.doc.updateTime)
                  && reply.doc.createTime == (if create then reply.doc.updateTime else s.docs[obj.id].createTime)
                else s' == s)
            && (id != obj.id ==> Get(s', id) == Get(s, id))
  {
  }

  /** A Delete removes that document and no other, and says whether it was there. */
  lemma DeleteRemoves(s: Store, id: string, other: string)
    ensures var (s', ok) := Delete(s, id);
            && ok == Get(s, id).Some? && Get(s', id) == None && s'.seqNo == s.seqNo
            && (other != id ==> Get(s', other) == Get(s, other))
  {
  }
}
