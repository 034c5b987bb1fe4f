/** The kube-applier API types as values: references, keys, conditions, errors,
    desire bodies and stored documents. Times are `nat`; 0 is Go's zero time. */
module KubeApplier {

  datatype Option<+T> = None | Some(value: T)

  newtype byte = x: int | 0 <= x < 256

  /** pkg/api/kubeapplier/types_resource_reference.go */
  datatype ResourceReference = ResourceReference(
    group: string, version: string, resource: string, namespace: string, name: string)
  {
    // The precheck shared by applyDesired, evaluate and the per-instance constructor.
    predicate Complete() {
      resource != "" && version != "" && name != ""
    }
  }

  /** A workqueue key. Store calls use only `name`. */
  datatype Key = Key(clusterID: string, nodePoolName: string, name: string)

  datatype ConditionStatus = ConditionTrue | ConditionFalse | ConditionUnknown

  datatype Condition = Condition(
    kind: string, status: ConditionStatus, reason: string, message: string,
    lastTransition: nat, observedGeneration: int)

  const TYPE_SUCCESSFUL := "Successful"
  const TYPE_DEGRADED := "Degraded"
  const REASON_KUBE_API_ERROR := "KubeAPIError"
  const REASON_PRE_CHECK_FAILED := "PreCheckFailed"
  const REASON_WAITING_FOR_DELETION := "WaitingForDeletion"
  const REASON_NO_ERRORS := "NoErrors"
  const REASON_FAILED := "Failed"

  /** An error value and the chain `errors.As` walks. */
  datatype Error =
    | PreCheckError(inner: Error)
    | Wrapped(prefix: string, inner: Error)
    | StatusError(code: int, notFound: bool, message: string)
    | PlainError(message: string)
  {
    function Text(): string {
      match this
      case PreCheckError(e) => e.Text()
      case Wrapped(p, e) => p + ": " + e.Text()
      case StatusError(_, _, m) => m
      case PlainError(m) => m
    }

    // Every error reachable by Unwrap, this one included.
    function Chain(): seq<Error> {
      match this
      case PreCheckError(e) => [this] + e.Chain()
      case Wrapped(_, e) => [this] + e.Chain()
      case StatusError(_, _, _) => [this]
      case PlainError(_) => [this]
    }
  }

  datatype Spec = Spec(
    managementCluster: string, clusterID: string, nodePoolName: string, target: ResourceReference)

  /** The stored part of a desire of any of the three kinds; a field a kind lacks keeps its zero. */
  datatype Body = Body(
    spec: Spec,
    specKubeContent: Option<seq<byte>>,
    conditions: seq<Condition>,
    observed: nat,
    generation: int,
    statusKubeContent: Option<seq<byte>>)

  const ZeroBody: Body :=
    Body(Spec("", "", "", ResourceReference("", "", "", "", "")), None, [], 0, 0, None)

  datatype Doc = Doc(id: string, updateTime: nat, createTime: nat, body: Body)

  const ZeroDoc: Doc := Doc("", 0, 0, ZeroBody)
}
