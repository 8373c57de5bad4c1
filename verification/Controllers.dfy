/** The Cluster and Machine controllers
    (controllers/cluster/cluster_controller.go, controllers/machine/machine_controller.go). */
module Controllers {
  import opened Objects
  import opened Store
  import opened Selection

  /** The answers a pass of the Cluster controller gets; `haService` is the outcome of the
      control-plane service, when AVI provides it. */
  datatype ClusterAnswers =
    ClusterAnswers(vipUnreadable: bool, haServiceFails: bool, listFails: bool, listing: seq<Adc>, patch: Write)

  predicate ReachesLookup(c: Cluster, a: ClusterAnswers) {
    !a.vipUnreadable && !a.haServiceFails && c.lb.Avi? && !a.listFails
  }

  /** The cluster object after a pass whose lookup returned `owner`. */
  function ClusterSpec(c: Cluster, a: ClusterAnswers, owner: Option<Adc>): Cluster {
    if !ReachesLookup(c, a) then c
    else if owner.None? then RemoveLabel(c).(finalizer := false)
    else ApplyLabel(c, owner.value.name)
  }

  method ReconcileCluster(api: ApiServer, k: Key, a: ClusterAnswers) returns (err: bool, ghost owner: Option<Adc>)
    modifies api`clusters
    ensures k !in old(api.clusters) ==> api.clusters == old(api.clusters) && !err
    ensures k in old(api.clusters) ==>
      var c := old(api.clusters)[k];
      && (ReachesLookup(c, a) ==> IsOwner(a.listing, c.labels, owner))
      && api.clusters == (if a.patch.Applied() then old(api.clusters)[k := ClusterSpec(c, a, owner)]
                          else old(api.clusters))
      && (err <==> a.patch.Failed() || a.vipUnreadable || a.haServiceFails || c.lb.Unreadable?
                   || (c.lb.Avi? && a.listFails))
  {
    err, owner := false, None;
    if k !in api.clusters {
      return;
    }
    var obj := new ClusterObject(k, api.clusters[k]);
    if a.vipUnreadable || a.haServiceFails {
      err := true;
    } else if obj.lb.Unreadable? {
      err := true;
    } else if obj.lb.Avi? {
      if a.listFails {
        err := true;
      } else {
        var adc := GetAdcForCluster(a.listing, obj.labels);
        owner := adc;
        if adc.None? {
          obj.labels := obj.labels - {AVI_LABEL};
          obj.finalizer := false;
        } else {
          obj.labels := obj.labels[AVI_LABEL := adc.value.name];
        }
      }
    }
    if a.patch.Applied() {
      api.clusters := api.clusters[k := obj.Value()];
    }
    err := err || a.patch.Failed();
  }

  // ---------------------------------------------------------------- machines

  datatype MachineAnswers = MachineAnswers(clusterGet: bool, vipUnreadable: bool, haEndpointsFail: bool, patch: Write)

  predicate HasWithPrefix(prefix: string, annotations: map<string, string>) {
    exists key <- annotations :: prefix <= key
  }

  function WithoutHook(m: Machine): Machine {
    m.(annotations := m.annotations - {PRE_TERMINATE_HOOK})
  }

  predicate HasHook(m: Machine) {
    PRE_TERMINATE_HOOK in m.annotations
  }

  /** The machine, in namespace `ns`, after a pass that sees `clusters`. */
  function MachineSpec(m: Machine, ns: string, clusters: map<Key, Cluster>, a: MachineAnswers): Machine {
    if m.clusterName.None? || a.clusterGet || Key(ns, m.clusterName.value) !in clusters then m
    else
      var c := clusters[Key(ns, m.clusterName.value)];
      if a.vipUnreadable || a.haEndpointsFail || !c.lb.Avi? then m
      else if AVI_LABEL !in c.labels then WithoutHook(m)
      else if c.deleting then if c.finalizer then m else WithoutHook(m)
      else if m.deleting then WithoutHook(m)
      else if HOOK_PREFIX !in m.annotations && ns != SYSTEM_NAMESPACE then
        m.(annotations := m.annotations[PRE_TERMINATE_HOOK := "ako-operator"])
      else m
  }

  /** The pass returns an error: a machine with a cluster name could not get past its cluster. */
  predicate MachineFails(m: Machine, ns: string, clusters: map<Key, Cluster>, a: MachineAnswers) {
    m.clusterName.Some? &&
    var k := Key(ns, m.clusterName.value);
    a.clusterGet || k !in clusters || a.vipUnreadable || a.haEndpointsFail || clusters[k].lb.Unreadable?
  }

  method ReconcileMachine(api: ApiServer, mk: Key, a: MachineAnswers) returns (err: bool)
    modifies api`machines
    ensures api.machines == if mk in old(api.machines) && a.patch.Applied()
                            then old(api.machines)[mk := MachineSpec(old(api.machines)[mk], mk.ns, api.clusters, a)]
                            else old(api.machines)
    ensures err <==> mk in old(api.machines)
                     && (a.patch.Failed() || MachineFails(old(api.machines)[mk], mk.ns, api.clusters, a))
  {
    if mk !in api.machines {
      return false;
    }
    var m := api.machines[mk];
    var annotations, failed := ReconcileAnnotations(api, mk, m, a);
    if a.patch.Applied() {
      api.machines := api.machines[mk := m.(annotations := annotations)];
    }
    return failed || a.patch.Failed();
  }

  method ReconcileAnnotations(api: ApiServer, mk: Key, m: Machine, a: MachineAnswers)
    returns (annotations: map<string, string>, err: bool)
    ensures m.(annotations := annotations) == MachineSpec(m, mk.ns, api.clusters, a)
    ensures err <==> MachineFails(m, mk.ns, api.clusters, a)
  {
    annotations, err := m.annotations, false;
    if m.clusterName.None? {
      return;
    }
    var k := Key(mk.ns, m.clusterName.value);
    if a.clusterGet || k !in api.clusters {
      err := true;
      return;
    }
    var cluster := api.clusters[k];
    if a.vipUnreadable || a.haEndpointsFail {
      err := true;
      return;
    }
    if cluster.lb.Unreadable? {
      err := true;
      return;
    } else if !cluster.lb.Avi? {
      return;
    }
    if AVI_LABEL !in cluster.labels {
      annotations := annotations - {PRE_TERMINATE_HOOK};
      return;
    }
    if m.deleting && !cluster.deleting {
      annotations := annotations - {PRE_TERMINATE_HOOK};
      return;
    }
    if cluster.deleting {
      if cluster.finalizer {
        return;
      }
      if HasWithPrefix(HOOK_PREFIX, annotations) {
        annotations := annotations - {PRE_TERMINATE_HOOK};
      } else {
        assert HOOK_PREFIX <= PRE_TERMINATE_HOOK;
        assert PRE_TERMINATE_HOOK !in annotations;
        assert annotations - {PRE_TERMINATE_HOOK} == annotations;
      }
      return;
    }
    if HOOK_PREFIX !in annotations {
      if mk.ns != SYSTEM_NAMESPACE {
        annotations := annotations[PRE_TERMINATE_HOOK := "ako-operator"];
      }
    }
  }
}
