/** Desires as the heap objects the Go code shares and mutates: DeepCopy (pkg/api/kubeapplier/deepcopy.go)
    and the in-place condition setters (pkg/controllers/conditions/conditions.go). */
module DesireHeap {
  import opened KubeApplier
  import opened Conditions
  import opened Outcomes

  class RawExtension {
    var raw: array?<byte>

    constructor (raw: array?<byte>)
      ensures this.raw == raw
    {
      this.raw := raw;
    }

    function Bytes(): seq<byte>
      reads this, raw
    {
      if raw == null then [] else raw[..]
    }

    method DeepCopy() returns (out: RawExtension)
      ensures fresh(out) && (out.raw != null ==> fresh(out.raw))
      ensures (out.raw == null <==> raw == null) && out.Bytes() == Bytes()
    {
      out := new RawExtension(null);
      if raw != null {
        var copied := new byte[raw.Length];
        forall i | 0 <= i < raw.Length {
          copied[i] := raw[i];
        }
        out.raw := copied;
      }
    }
  }

  /** A desire of any kind; `specKubeContent` is nil but for apply, `statusKubeContent` but for read. */
  class Desire {
    var id: string
    var updateTime: nat
    var createTime: nat
    var spec: Spec
    var specKubeContent: RawExtension?
    var conditions: array?<Condition>
    var observed: nat
    var generation: int
    var statusKubeContent: RawExtension?

    /** var initial T */
    constructor ()
      ensures View() == ZeroDoc && fresh(Cells())
    {
      id, updateTime, createTime := "", 0, 0;
      spec := ZeroBody.spec;
      specKubeContent, statusKubeContent := null, null;
      conditions := null;
      observed, generation := 0, 0;
    }

    /** *out = *in, then the pointers replaced. */
    constructor Shallow(d: Desire, specKube: RawExtension?, conds: array?<Condition>, statusKube: RawExtension?)
      ensures id == d.id && updateTime == d.updateTime && createTime == d.createTime && spec == d.spec
      ensures observed == d.observed && generation == d.generation
      ensures specKubeContent == specKube && conditions == conds && statusKubeContent == statusKube
    {
      id, updateTime, createTime := d.id, d.updateTime, d.createTime;
      spec, observed, generation := d.spec, d.observed, d.generation;
      specKubeContent, conditions, statusKubeContent := specKube, conds, statusKube;
    }

    /** An object that reads as doc, over these pointers. */
    constructor Reading(doc: Doc, specKube: RawExtension?, conds: array?<Condition>, statusKube: RawExtension?)
      ensures id == doc.id && updateTime == doc.updateTime && createTime == doc.createTime && spec == doc.body.spec
      ensures observed == doc.body.observed && generation == doc.body.generation
      ensures specKubeContent == specKube && conditions == conds && statusKubeContent == statusKube
    {
      id, updateTime, createTime := doc.id, doc.updateTime, doc.createTime;
      spec, observed, generation := doc.body.spec, doc.body.observed, doc.body.generation;
      specKubeContent, conditions, statusKubeContent := specKube, conds, statusKube;
    }

    /** Every mutable cell reachable from this desire. */
    ghost function Cells(): set<object>
      reads this, specKubeContent, statusKubeContent
    {
      {this} + (if conditions == null then {} else {conditions}) + Reached(specKubeContent) + Reached(statusKubeContent)
    }

    /** The value: what equality.Semantic compares, under which nil and empty slices are equal. */
    function View(): Doc
      reads this, conditions, specKubeContent, statusKubeContent
      reads if specKubeContent == null then null else specKubeContent.raw
      reads if statusKubeContent == null then null else statusKubeContent.raw
    {
      Doc(id, updateTime, createTime,
        Body(spec, Content(specKubeContent), List(conditions), observed, generation, Content(statusKubeContent)))
    }

    method DeepCopy() returns (out: Desire)
      ensures fresh(out.Cells()) && out.View() == View()
      ensures out.conditions == null <==> conditions == null
    {
      var kube := CopyExtension(specKubeContent);
      var conds := CopyConditions(conditions);
      var observedKube := CopyExtension(statusKubeContent);
      out := new Desire.Shallow(this, kube, conds, observedKube);
    }

    /** SetUpdateTime and SetCreateTime. */
    method SetTimes(update: nat, create: nat)
      modifies this`updateTime, this`createTime
      ensures View() == old(View()).(updateTime := update, createTime := create)
    {
      updateTime, createTime := update, create;
    }

    /** What a mutate closure assigns. */
    method Assign(name: string, rev: nat, generation: int, conds: array?<Condition>, kube: RawExtension?)
      modifies this
      ensures View() == Doc(name, old(updateTime), old(createTime),
                Body(old(spec), Content(old(specKubeContent)), List(conds), rev, generation, Content(kube)))
      ensures specKubeContent == old(specKubeContent) && conditions == conds && statusKubeContent == kube
    {
      id := name;
      observed := rev;
      this.generation := generation;
      conditions := conds;
      statusKubeContent := kube;
    }
  }

  function List(conds: array?<Condition>): seq<Condition>
    reads conds
  {
    if conds == null then [] else conds[..]
  }

  /* The setters get `conds *[]metav1.Condition`: the slice is updated in place, or grown into a new
     one that is handed back. */

  /** meta.SetStatusCondition for a condition without a transition time. */
  method SetInPlace(conds: array?<Condition>, c: Condition, now: nat) returns (out: array?<Condition>)
    modifies conds
    ensures List(out) == SetStatusCondition(old(List(conds)), c, now)
    ensures out == conds || fresh(out)
  {
    var n := if conds == null then 0 else conds.Length;
    var i := 0;
    while i < n && conds[i].kind != c.kind
      invariant 0 <= i <= n
      invariant forall j | 0 <= j < i :: conds[j].kind != c.kind
    {
      i := i + 1;
    }
    if i < n {
      FindUnique(List(conds), c.kind, i);
      var was := conds[i];
      conds[i] := c.(lastTransition := if was.status == c.status then was.lastTransition else now);
      out := conds;
    } else {
      var list := List(conds);
      out := new Condition[n + 1](j requires 0 <= j <= n => if j < n then list[j] else c.(lastTransition := now));
      assert out[..] == list + [c.(lastTransition := now)];
    }
  }

  method SetSuccessful(conds: array?<Condition>, err: Option<Error>, now: nat) returns (out: array?<Condition>)
    modifies conds
    ensures List(out) == SetStatusCondition(old(List(conds)), SuccessfulCondition(err), now)
    ensures out == conds || fresh(out)
  {
    if err == None {
      out := SetInPlace(conds, Successful(ConditionTrue, REASON_NO_ERRORS, "As expected."), now);
      return;
    }
    var reason := REASON_KUBE_API_ERROR;
    if err.value.PreCheckError? {
      reason := REASON_PRE_CHECK_FAILED;
    }
    out := SetInPlace(conds, Successful(ConditionFalse, reason, err.value.Text()), now);
  }

  method SetSuccessfulWaitingForDeletion(conds: array?<Condition>, deletion: nat, uid: string, now: nat)
    returns (out: array?<Condition>)
    modifies conds
    ensures List(out) == SetStatusCondition(old(List(conds)), WaitingCondition(WaitingMessage(deletion, uid)), now)
    ensures out == conds || fresh(out)
  {
    var note := WaitingMessage(deletion, uid);
    out := SetInPlace(conds, Successful(ConditionFalse, REASON_WAITING_FOR_DELETION, note), now);
  }

  method SetDegraded(conds: array?<Condition>, err: Option<Error>, now: nat) returns (out: array?<Condition>)
    modifies conds
    ensures List(out) == SetStatusCondition(old(List(conds)), DegradedCondition(err), now)
    ensures out == conds || fresh(out)
  {
    if err == None {
      out := SetInPlace(conds, Degraded(ConditionFalse, REASON_NO_ERRORS, "As expected."), now);
      return;
    }
    var message := "Had an error while syncing: " + err.value.Text();
    out := SetInPlace(conds, Degraded(ConditionTrue, REASON_FAILED, message), now);
  }

  ghost function Reached(ext: RawExtension?): set<object>
    reads ext
  {
    if ext == null then {} else {ext} + if ext.raw == null then {} else {ext.raw}
  }

  function Content(ext: RawExtension?): Option<seq<byte>>
    reads ext, if ext == null then null else ext.raw
  {
    if ext == null then None else Some(ext.Bytes())
  }

  method CopyExtension(ext: RawExtension?) returns (out: RawExtension?)
    ensures fresh(Reached(out)) && Content(out) == Content(ext)
  {
    out := null;
    if ext != null {
      out := ext.DeepCopy();
    }
  }

  method CopyConditions(conditions: array?<Condition>) returns (out: array?<Condition>)
    ensures (out == null <==> conditions == null) && (out != null ==> fresh(out) && out[..] == conditions[..])
  {
    out := null;
    if conditions != null {
      out := new Condition[conditions.Length](_ => Successful(ConditionUnknown, "", ""));
      var i := 0;
      while i < conditions.Length
        invariant 0 <= i <= conditions.Length
        invariant out[..i] == conditions[..i]
      {
        out[i] := conditions[i];
        i := i + 1;
      }
    }
  }

  /* ---- The mutate closures of the controllers, run on a desire in place ---- */

  method SetVerdict(conds: array?<Condition>, verdict: Verdict, now: nat) returns (out: array?<Condition>)
    modifies conds
    ensures List(out) == SetBoth(old(List(conds)), VerdictSuccessful(verdict), VerdictDegraded(verdict), now)
    ensures out == conds || fresh(out)
  {
    match verdict {
      case Gone =>
        out := SetSuccessful(conds, None, now);
        out := SetDegraded(out, None, now);
      case Waiting(deletion, uid) =>
        out := SetSuccessfulWaitingForDeletion(conds, deletion, uid, now);
        out := SetDegraded(out, None, now);
      case Failed(err) =>
        out := SetSuccessful(conds, Some(err), now);
        out := SetDegraded(out, ClassifyAsDegraded(Some(err)), now);
    }
  }

  method SetApplied(conds: array?<Condition>, err: Option<Error>, now: nat) returns (out: array?<Condition>)
    modifies conds
    ensures List(out) ==
            SetBoth(old(List(conds)), SuccessfulCondition(err), DegradedCondition(ClassifyAsDegraded(err)), now)
    ensures out == conds || fresh(out)
  {
    out := SetSuccessful(conds, err, now);
    out := SetDegraded(out, ClassifyAsDegraded(err), now);
  }

  method RecordApply(d: Desire, name: string, rev: nat, generation: int, err: Option<Error>, now: nat)
    modifies d, d.conditions
    ensures d.View() == old(Mutated(d.View(), name, ApplyOutcome(rev, generation, err, now)))
    ensures fresh(d.Cells() - old(d.Cells()))
  {
    ghost var kube, statusKube := Content(d.specKubeContent), Content(d.statusKubeContent);
    var conds := SetApplied(d.conditions, err, now);
    assert Content(d.specKubeContent) == kube && Content(d.statusKubeContent) == statusKube;
    d.Assign(name, rev, generation, conds, d.statusKubeContent);
  }

  method RecordDelete(d: Desire, name: string, rev: nat, verdict: Verdict, now: nat)
    modifies d, d.conditions
    ensures d.View() == old(Mutated(d.View(), name, DeleteOutcome(rev, verdict, now)))
    ensures fresh(d.Cells() - old(d.Cells()))
  {
    ghost var kube, statusKube := Content(d.specKubeContent), Content(d.statusKubeContent);
    var conds := SetVerdict(d.conditions, verdict, now);
    assert Content(d.specKubeContent) == kube && Content(d.statusKubeContent) == statusKube;
    d.Assign(name, rev, d.generation, conds, d.statusKubeContent);
  }

  method RecordRead(d: Desire, name: string, rev: nat, cause: Option<Error>, now: nat)
    modifies d, d.conditions
    ensures var m := if cause == None then ReadKept(rev, now) else ReadFailed(rev, cause.value, now);
            d.View() == old(Mutated(d.View(), name, m))
    ensures fresh(d.Cells() - old(d.Cells()))
  {
    var conds := SetSuccessful(d.conditions, cause, now);
    d.Assign(name, rev, d.generation, conds, d.statusKubeContent);
  }

  method RecordStored(d: Desire, name: string, rev: nat, newRaw: Option<seq<byte>>, now: nat)
    modifies d, d.conditions
    ensures d.View() == old(Mutated(d.View(), name, ReadStored(rev, newRaw, now)))
    ensures fresh(d.Cells() - old(d.Cells()))
  {
    var content := NewExtension(newRaw);
    var conds := SetSuccessful(d.conditions, None, now);
    d.Assign(name, rev, d.generation, conds, content);
  }

  method NewExtension(raw: Option<seq<byte>>) returns (ext: RawExtension?)
    ensures Content(ext) == raw && fresh(Reached(ext))
  {
    if raw == None {
      return null;
    }
    var copied := new byte[|raw.value|](i requires 0 <= i < |raw.value| => raw.value[i]);
    assert copied[..] == raw.value;
    ext := new RawExtension(copied);
  }

  /** A heap object for a value. */
  method NewDesire(doc: Doc) returns (d: Desire)
    ensures fresh(d.Cells()) && d.View() == doc
  {
    var kube := NewExtension(doc.body.specKubeContent);
    var statusKube := NewExtension(doc.body.statusKubeContent);
    var conds := doc.body.conditions;
    var copied := new Condition[|conds|](i requires 0 <= i < |conds| => conds[i]);
    assert copied[..] == conds;
    d := new Desire.Reading(doc, kube, copied, statusKube);
  }

  function Mutated(d: Doc, name: string, m: Mutation): Doc {
    d.(id := name, body := Mutate(m, d.body))
  }

  method MutateInPlace(d: Desire, name: string, m: Mutation)
    modifies d, d.conditions
    ensures d.View() == old(Mutated(d.View(), name, m))
    ensures fresh(d.Cells() - old(d.Cells()))
  {
    match m {
      case ApplyOutcome(rev, generation, err, now) => RecordApply(d, name, rev, generation, err, now);
      case DeleteOutcome(rev, verdict, now) => RecordDelete(d, name, rev, verdict, now);
      case ReadFailed(rev, cause, now) => RecordRead(d, name, rev, Some(cause), now);
      case ReadKept(rev, now) => RecordRead(d, name, rev, None, now);
      case ReadStored(rev, raw, now) => RecordStored(d, name, rev, raw, now);
    }
  }
}
