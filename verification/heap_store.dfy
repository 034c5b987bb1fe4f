/** FakeCRUD over heap objects (internal/database/listertesting/fake_crud.go). */
module DesireStore {
  import opened KubeApplier
  import opened DesireHeap
  import VS = VersionedStore

  datatype CrudError = NotFound | AlreadyExists | PreconditionFailed | EmptyID

  // d's cells, d among them, lie in the region, and it reads as doc.
  ghost predicate Holds(d: Desire, doc: Doc, region: set<object>)
    reads region
  {
    && d in region
    && (d.conditions != null ==> d.conditions in region)
    && (d.specKubeContent != null ==>
          d.specKubeContent in region && (d.specKubeContent.raw != null ==> d.specKubeContent.raw in region))
    && (d.statusKubeContent != null ==>
          d.statusKubeContent in region && (d.statusKubeContent.raw != null ==> d.statusKubeContent.raw in region))
    && d.View() == doc
  }

  lemma HoldsMore(d: Desire, doc: Doc, region: set<object>, more: set<object>)
    requires Holds(d, doc, region) && region <= more
    ensures Holds(d, doc, more)
  {
  }

  lemma HoldsOwn(d: Desire)
    ensures Holds(d, d.View(), d.Cells())
  {
  }

  class FakeCRUD {
    var store: map<string, Desire>
    var seqNo: nat
    /** The cells of the stored objects, and the store as a value. */
    ghost var Repr: set<object>
    ghost var Contents: VS.Store

    constructor ()
      ensures Valid() && Repr == {} && Contents == VS.Store(map[], 0)
    {
      store, seqNo := map[], 0;
      Repr, Contents := {}, VS.Store(map[], 0);
    }

    ghost predicate Valid()
      reads this, Repr
    {
      && this !in Repr
      && Contents.docs.Keys == store.Keys
      && Contents.seqNo == seqNo
      && forall id | id in store :: Holds(store[id], Contents.docs[id], Repr)
    }

    lemma AllHold(more: set<object>)
      requires Valid() && Repr <= more
      ensures forall id | id in store :: Holds(store[id], Contents.docs[id], more)
    {
      forall id | id in store ensures Holds(store[id], Contents.docs[id], more) {
        HoldsMore(store[id], Contents.docs[id], Repr, more);
      }
    }

    method Get(documentID: string) returns (found: Desire?)
      requires Valid()
      ensures match VS.Get(Contents, documentID)
              case None => found == null
              case Some(doc) => found != null && fresh(found.Cells()) && found.View() == doc
    {
      if documentID !in store {
        return null;
      }
      assert Holds(store[documentID], Contents.docs[documentID], Repr);
      found := store[documentID].DeepCopy();
    }

    // nextTime, and f.store[id] = stored
    method Put(stored: Desire, ghost doc: Doc, ghost region: set<object>)
      requires Valid() && doc.updateTime == seqNo + 1 && Holds(stored, doc, region) && this !in region
      modifies this
      ensures Valid() && Repr == old(Repr) + region
      ensures Contents == VS.Store(old(Contents.docs)[doc.id := doc], old(seqNo) + 1)
    {
      ghost var more := Repr + region;
      AllHold(more);
      HoldsMore(stored, doc, region, more);
      store := store[stored.id := stored];
      seqNo := seqNo + 1;
      Repr, Contents := more, VS.Store(Contents.docs[doc.id := doc], seqNo);
    }

    // clone(obj), then SetUpdateTime and SetCreateTime
    method Stamped(obj: Desire, update: nat, create: nat) returns (stored: Desire)
      ensures fresh(stored.Cells()) && stored.View() == obj.View().(updateTime := update, createTime := create)
    {
      stored := obj.DeepCopy();
      stored.SetTimes(update, create);
    }

    method Save(obj: Desire, create: nat) returns (copied: Desire)
      requires Valid()
      modifies this
      ensures Valid() && fresh(Repr - old(Repr))
      ensures var doc := old(obj.View()).(updateTime := old(seqNo) + 1, createTime := create);
              Contents == VS.Store(old(Contents.docs)[doc.id := doc], old(seqNo) + 1) && copied.View() == doc
      ensures fresh(copied.Cells()) && copied.Cells() !! Repr
    {
      ghost var doc := obj.View().(updateTime := seqNo + 1, createTime := create);
      var stored := Stamped(obj, seqNo + 1, create);
      ghost var region := stored.Cells();
      assert Holds(stored, doc, region) by {
        HoldsOwn(stored);
      }
      Put(stored, doc, region);
      copied := stored.DeepCopy();
    }

    /** The caller keeps `obj` and gets another object back; the store keeps neither. */
    method Create(obj: Desire) returns (created: Desire?, err: Option<CrudError>)
      requires Valid()
      modifies this
      ensures Valid() && fresh(Repr - old(Repr))
      ensures Answers(old(VS.Create(Contents, obj.View())), created, err)
      ensures created != null ==> fresh(created.Cells())
    {
      if obj.id == "" {
        return null, Some(EmptyID);
      }
      if obj.id in store {
        return null, Some(AlreadyExists);
      }
      created := Save(obj, seqNo + 1);
      err := None;
    }

    method Replace(obj: Desire) returns (replaced: Desire?, err: Option<CrudError>)
      requires Valid()
      modifies this
      ensures Valid() && fresh(Repr - old(Repr))
      ensures Answers(old(VS.Replace(Contents, obj.View())), replaced, err)
      ensures replaced != null ==> fresh(replaced.Cells())
    {
      if obj.id !in store {
        return null, Some(NotFound);
      }
      assert Holds(store[obj.id], Contents.docs[obj.id], Repr);
      if obj.updateTime != store[obj.id].updateTime {
        return null, Some(PreconditionFailed);
      }
      replaced := Save(obj, store[obj.id].createTime);
      err := None;
    }

    method Delete(documentID: string) returns (ok: bool)
      requires Valid()
      modifies this`store, this`Contents
      ensures Valid() && (Contents, ok) == old(VS.Delete(Contents, documentID))
    {
      ok := documentID in store;
      if ok {
        store := store - {documentID};
        Contents := VS.Delete(Contents, documentID).0;
      }
    }

    /** What a call to the store answers, given what the specification says of it. */
    ghost predicate Answers(expected: (VS.Store, VS.Reply), obj: Desire?, err: Option<CrudError>)
      reads this, obj
      reads if obj == null then {} else obj.Cells()
    {
      && Contents == expected.0
      && match expected.1
         case Stored(doc) => err == None && obj != null && obj.View() == doc && obj.Cells() !! Repr
         case NotFound => obj == null && err == Some(NotFound)
         case AlreadyExists => obj == null && err == Some(AlreadyExists)
         case PreconditionFailed => obj == null && err == Some(PreconditionFailed)
         case EmptyID => obj == null && err == Some(EmptyID)
    }
  }
}
