/** Clean-up of a deleting cluster's AVI resources and the cluster finalizer
    (controllers/akodeploymentconfig/cluster/cluster_controller.go, pkg/ako/ako.go). */
module ClusterCleanup {
  import opened Objects
  import opened Store

  const REQUEUE_FOR_AKO := Result(true, 1_000_000_000)

  /** AKO is done when its StatefulSet is gone or says `Done` or `Timeout`. */
  predicate CleanupFinished(a: Ako) {
    a.NoStatefulSet? || a.deletionStatus == "Done" || a.deletionStatus == "Timeout"
  }

  /** AKO no longer works: there is no StatefulSet, or its annotation says so. */
  ghost predicate EndState(a: Ako) {
    a in {NoStatefulSet, StatefulSet("Done"), StatefulSet("Timeout")}
  }

  /** Evidence that AKO has released its AVI resources: the data values were absent, or they
      now ask for deletion and AKO's StatefulSet was gone or reported an end state. */
  ghost predicate Evidence(k: Key, before: Ext, after: Ext) {
    && k in before.remotes
    && (|| before.remotes[k].dataValues.None?
        || (&& k in after.remotes && after.remotes[k].dataValues == Some(Values("true"))
            && after.remotes[k].ako == before.remotes[k].ako
            && EndState(before.remotes[k].ako)))
  }

  datatype CleanupOut = CleanupOut(c: Cluster, e: Ext, finished: bool, err: bool)

  /** The effect of one clean-up attempt on the cluster object and the workload cluster. */
  function CleanupSpec(k: Key, c: Cluster, e: Ext, f: Faults): (o: CleanupOut)
    ensures o.finished <==> o.c.resourceCleanup.IsTrue?
    ensures o.finished ==> !o.err && (c.resourceCleanup.IsTrue? || Evidence(k, e, o.e))
    ensures o.c.(resourceCleanup := c.resourceCleanup) == c
    ensures o.e.remotes - {k} == e.remotes - {k} && o.e.(remotes := e.remotes) == e
  {
    if c.resourceCleanup.IsTrue? then CleanupOut(c, e, true, false)
    else
      var c1 := c.(resourceCleanup := IsFalse);
      if f.remoteClient || k !in e.remotes || f.remoteGet then CleanupOut(c1, e, false, true)
      else
        var r := e.remotes[k];
        match r.dataValues
        case None => CleanupOut(c.(resourceCleanup := IsTrue), e, true, false)
        case Some(Unparsable) => CleanupOut(c1, e, false, true)
        case Some(Values(d)) =>
          var marked := e.(remotes := e.remotes[k := r.(dataValues := Some(Values("true")))]);
          if d != "true" && f.valuesMarshal then CleanupOut(c1, e, false, true)
          else if d != "true" && f.remoteUpdate.Rejected? then CleanupOut(c1, e, false, true)
          else if d != "true" && f.remoteUpdate.ReplyLost? then CleanupOut(c1, marked, false, true)
          else if f.statefulSetGet then CleanupOut(c1, marked, false, true)
          else if CleanupFinished(r.ako) then CleanupOut(c.(resourceCleanup := IsTrue), marked, true, false)
          else CleanupOut(c1, marked, false, false)
  }

  method Cleanup(obj: ClusterObject, b: Backend, f: Faults) returns (finished: bool, err: bool)
    modifies obj`resourceCleanup, b`remotes
    ensures CleanupOut(obj.Value(), b.Value(), finished, err)
         == CleanupSpec(obj.key, old(obj.Value()), old(b.Value()), f)
  {
    if obj.resourceCleanup.Unset? {
      obj.resourceCleanup := IsFalse;
    } else if obj.resourceCleanup.IsTrue? {
      return true, false;
    }
    if f.remoteClient || obj.key !in b.remotes {
      return false, true;
    }
    if f.remoteGet {
      return false, true;
    }
    var remote := b.remotes[obj.key];
    if remote.dataValues.None? {
      obj.resourceCleanup := IsTrue;
      return true, false;
    }
    if remote.dataValues.value.Unparsable? {
      return false, true;
    }
    if remote.dataValues.value.deleteConfig != "true" {
      if f.valuesMarshal {
        return false, true;
      }
      if f.remoteUpdate.Applied() {
        b.remotes := b.remotes[obj.key := remote.(dataValues := Some(Values("true")))];
      }
      if f.remoteUpdate.Failed() {
        return false, true;
      }
    }
    assert b.remotes == old(b.remotes)[obj.key := remote.(dataValues := Some(Values("true")))];
    if f.statefulSetGet {
      return false, true;
    }
    if CleanupFinished(remote.ako) {
      obj.resourceCleanup := IsTrue;
      return true, false;
    }
    return false, false;
  }

  /** The data values of the workload cluster can be read. */
  predicate Reaches(k: Key, e: Ext, f: Faults) {
    !f.remoteClient && k in e.remotes && !f.remoteGet
  }

  /** They parse, and they ask AKO to delete already or can be made to. */
  predicate CanAsk(k: Key, e: Ext, f: Faults) {
    && Reaches(k, e, f) && e.remotes[k].dataValues.Some? && e.remotes[k].dataValues.value.Values?
    && (e.remotes[k].dataValues.value.deleteConfig == "true" || (!f.valuesMarshal && f.remoteUpdate.Applied()))
  }

  /** A clean-up attempt that is not over yet asks AKO to delete whenever it can, whatever AKO is
      doing; it ends exactly when the data values are absent, or AKO was asked, the request was
      acknowledged and AKO is in an end state; it fails exactly when it could not find that out. */
  lemma CleanupOutcome(k: Key, c: Cluster, e: Ext, f: Faults)
    requires !c.resourceCleanup.IsTrue?
    ensures var o := CleanupSpec(k, c, e, f);
      var asked := CanAsk(k, e, f)
                   && (e.remotes[k].dataValues == Some(Values("true")) || f.remoteUpdate.Done?) && !f.statefulSetGet;
      && (CanAsk(k, e, f) ==> o.e.remotes == e.remotes[k := Remote(Some(Values("true")), e.remotes[k].ako)])
      && (!CanAsk(k, e, f) ==> o.e == e)
      && (o.finished <==> Reaches(k, e, f) && (e.remotes[k].dataValues.None? || (asked && EndState(e.remotes[k].ako))))
      && (o.err <==> !o.finished && !asked)
      && o.c.resourceCleanup == if o.finished then IsTrue else IsFalse
  {
  }

  datatype DeleteOut = DeleteOut(c: Cluster, e: Ext, res: Result, err: bool)

  function ReconcileDeleteSpec(k: Key, c: Cluster, e: Ext, f: Faults): (o: DeleteOut)
    ensures c.finalizer && !o.c.finalizer ==> o.c.resourceCleanup.IsTrue? && o.c.userCleanup.IsTrue?
    ensures !o.err && !o.res.requeue <==> !o.c.finalizer
    ensures o.c.finalizer ==> c.finalizer
  {
    if !c.finalizer then DeleteOut(c, e, ZERO, false)
    else
      var o := CleanupSpec(k, c, e, f);
      if o.err then DeleteOut(o.c, o.e, ZERO, true)
      else if o.finished && o.c.userCleanup.IsTrue? then DeleteOut(o.c.(finalizer := false), o.e, ZERO, false)
      else DeleteOut(o.c, o.e, REQUEUE_FOR_AKO, false)
  }

  /** Removes the finalizer once AKO and the AVI user are both cleaned up. */
  method ReconcileDelete(obj: ClusterObject, b: Backend, f: Faults) returns (res: Result, err: bool)
    modifies obj`resourceCleanup, obj`finalizer, b`remotes
    ensures DeleteOut(obj.Value(), b.Value(), res, err)
         == ReconcileDeleteSpec(obj.key, old(obj.Value()), old(b.Value()), f)
  {
    res, err := ZERO, false;
    if obj.finalizer {
      var finished: bool;
      finished, err := Cleanup(obj, b, f);
      if err {
        return res, err;
      }
      finished := finished && obj.userCleanup.IsTrue?;
      if finished {
        obj.finalizer := false;
      } else {
        return REQUEUE_FOR_AKO, false;
      }
    }
  }
}
