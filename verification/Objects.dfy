/** The Kubernetes and AVI objects the operator coordinates through, as values. */
module Objects {

  datatype Option<+T> = None | Some(value: T)

  predicate Distinct<T(==)>(s: seq<T>) {
    forall i, j :: 0 <= i < j < |s| ==> s[i] != s[j]
  }

  const SYSTEM_NAMESPACE := "tkg-system"
  const MANAGEMENT_ADC := "install-ako-for-management-cluster"
  const DEFAULT_ADC := "install-ako-for-all"
  const AVI_LABEL := "networking.tkg.tanzu.vmware.com/avi"
  const HOOK_PREFIX := "pre-terminate.delete.hook.machine.cluster.x-k8s.io"
  const PRE_TERMINATE_HOOK := HOOK_PREFIX + "/avi-cleanup"

  /** Namespace and name of a namespaced object. */
  datatype Key = Key(ns: string, name: string)

  type Labels = map<string, string>

  /** Status of a Cluster API condition; `Unset` when the object does not carry it. */
  datatype Condition = Unset | IsFalse | IsTrue

  /** What the cluster's `kubeVipLoadBalancerProvider` variable says, if it can be decoded. */
  datatype LbProvider = Avi | KubeVip | Unreadable

  /** A workload Cluster. `finalizer` is the operator's own finalizer. */
  datatype Cluster = Cluster(
    labels: Labels,
    deleting: bool,
    finalizer: bool,
    ready: Condition,
    lb: LbProvider,
    resourceCleanup: Condition,
    userCleanup: Condition)

  /** One requirement of a parsed label selector. */
  datatype Requirement =
    | In(key: string, values: set<string>)
    | NotIn(key: string, values: set<string>)
    | Exists(key: string)
    | DoesNotExist(key: string)

  /** A label selector after conversion, which fails on a malformed one. */
  datatype Selector = Malformed | Parsed(requirements: seq<Requirement>)

  datatype Adc = Adc(
    name: string,
    selector: Selector,
    deleting: bool,
    finalizer: bool,
    customerCredentials: bool)

  datatype Machine = Machine(
    clusterName: Option<string>,
    deleting: bool,
    annotations: map<string, string>)

  /** The AVI credentials of one cluster, kept in the management cluster. */
  datatype Secret = Secret(username: string, password: string, ca: string)

  /** The AKO data values stored in the workload cluster. */
  datatype DataValues = Unparsable | Values(deleteConfig: string)

  /** The AKO StatefulSet and its deletion-status annotation ("" when missing). */
  datatype Ako = NoStatefulSet | StatefulSet(deletionStatus: string)

  datatype Remote = Remote(dataValues: Option<DataValues>, ako: Ako)

  /** Everything outside the Cluster, Machine and AKODeploymentConfig objects. */
  datatype Ext = Ext(
    secrets: map<Key, Secret>,
    users: map<string, string>,
    remotes: map<Key, Remote>,
    addons: set<Key>)

  datatype World = World(
    bootstrap: bool,
    clusters: map<Key, Cluster>,
    machines: map<Key, Machine>,
    adcs: map<string, Adc>,
    ext: Ext)

  /** `ctrl.Result`. */
  datatype Result = Result(requeue: bool, after: int) {
    predicate IsZero() { !requeue && after == 0 }
  }

  const ZERO := Result(false, 0)

  /** Fate of a write: applied and acknowledged, refused, or applied with the reply lost. */
  datatype Write = Done | Rejected | ReplyLost {
    predicate Applied() { !Rejected? }
    predicate Failed() { !Done? }
  }

  /** The answers one per-cluster iteration gets from the API servers and the AVI
      controller. A `bool` is true when that read fails. */
  datatype Faults = Faults(
    defaultAdcGet: bool,
    patchHelper: bool,
    patch: Write,
    addonGet: bool,
    addonWrite: Write,
    remoteClient: bool,
    remoteGet: bool,
    valuesMarshal: bool,
    remoteUpdate: Write,
    statefulSetGet: bool,
    caGet: bool,
    adminGet: bool,
    customerGet: bool,
    secretGet: bool,
    secretWrite: Write,
    versionGet: bool,
    userGet: bool,
    tenantGet: bool,
    roleSync: bool,
    passwordVisible: bool,
    userWrite: Write,
    userDelete: Write,
    secretDelete: Write,
    ca: string,
    newPassword: string,
    admin: Secret)

  /** No call fails. */
  predicate FaultFree(f: Faults) {
    && !f.defaultAdcGet && !f.patchHelper && f.patch.Done?
    && !f.addonGet && f.addonWrite.Done?
    && !f.remoteClient && !f.remoteGet && !f.valuesMarshal && f.remoteUpdate.Done? && !f.statefulSetGet
    && !f.caGet && !f.adminGet && !f.customerGet && !f.secretGet && f.secretWrite.Done?
    && !f.versionGet && !f.userGet && !f.tenantGet && !f.roleSync
    && f.userWrite.Done? && f.userDelete.Done? && f.secretDelete.Done?
  }
}
