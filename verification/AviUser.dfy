/** The AVI user of a workload cluster and its secret in the management cluster
    (controllers/akodeploymentconfig/user/user_controller.go). */
module AviUser {
  import opened Objects
  import opened Store

  datatype UserOut = UserOut(e: Ext, err: bool)

  function Username(k: Key): string {
    k.name + "-" + k.ns + "-ako-user"
  }

  /** No other cluster of `ks` uses, or would create, the user of `k`. */
  ghost predicate NoClash(k: Key, e: Ext, ks: set<Key>) {
    k in e.secrets ==>
      var user := e.secrets[k].username;
      && user != ""
      && forall k' :: k' in ks && k' != k ==>
           && Username(k') != user
           && (k' in e.secrets && k'.ns != SYSTEM_NAMESPACE ==> e.secrets[k'].username != user)
  }

  // ---------------------------------------------------------------- normal pass

  function CreateOrUpdateSpec(user: string, password: string, e: Ext, f: Faults): UserOut {
    var written := e.(users := e.users[user := password]);
    if f.versionGet || f.userGet then UserOut(e, true)
    else if user !in e.users && (f.tenantGet || f.roleSync) then UserOut(e, true)
    else if user in e.users && f.roleSync then UserOut(e, true)
    else if user in e.users && f.passwordVisible && e.users[user] == password then UserOut(e, false)
    else UserOut(if f.userWrite.Applied() then written else e, f.userWrite.Failed())
  }

  method CreateOrUpdateAviUser(user: string, password: string, b: Backend, f: Faults) returns (err: bool)
    modifies b`users
    ensures UserOut(b.Value(), err) == CreateOrUpdateSpec(user, password, old(b.Value()), f)
  {
    if f.versionGet || f.userGet {
      return true;
    }
    if user !in b.users {
      if f.tenantGet {
        return true;
      }
      if f.roleSync {
        return true;
      }
      if f.userWrite.Applied() {
        b.users := b.users[user := password];
      }
      return f.userWrite.Failed();
    }
    if f.roleSync {
      return true;
    }
    if !f.passwordVisible || b.users[user] != password {
      if f.userWrite.Applied() {
        b.users := b.users[user := password];
      }
      return f.userWrite.Failed();
    }
    return false;
  }

  /** The secret this pass works with: the stored one with a fresh CA, or a new one. */
  function SecretFor(k: Key, e: Ext, f: Faults): Secret {
    if k in e.secrets then e.secrets[k].(ca := f.ca) else Secret(Username(k), f.newPassword, f.ca)
  }

  function ReconcileNormalSpec(k: Key, adc: Adc, e: Ext, f: Faults): UserOut {
    if f.caGet then UserOut(e, true)
    else if k.ns == SYSTEM_NAMESPACE then
      if f.adminGet then UserOut(e, true)
      else UserOut(if f.secretWrite.Applied() then e.(secrets := e.secrets[k := f.admin.(ca := f.ca)]) else e,
                   f.secretWrite.Failed())
    else if adc.customerCredentials then UserOut(e, f.customerGet)
    else if f.secretGet || f.secretWrite.Rejected? then UserOut(e, true)
    else
      var s := SecretFor(k, e, f);
      var e1 := e.(secrets := e.secrets[k := s]);
      if f.secretWrite.ReplyLost? then UserOut(e1, true)
      else CreateOrUpdateSpec(s.username, s.password, e1, f)
  }

  method ReconcileAviUserNormal(obj: ClusterObject, adc: Adc, b: Backend, f: Faults) returns (err: bool)
    modifies b`users, b`secrets
    ensures UserOut(b.Value(), err) == ReconcileNormalSpec(obj.key, adc, old(b.Value()), f)
  {
    var k := obj.key;
    if f.caGet {
      return true;
    }
    if k.ns == SYSTEM_NAMESPACE {
      if f.adminGet {
        return true;
      }
      if f.secretWrite.Applied() {
        b.secrets := b.secrets[k := f.admin.(ca := f.ca)];
      }
      return f.secretWrite.Failed();
    }
    if adc.customerCredentials {
      return f.customerGet;
    }
    if f.secretGet {
      return true;
    }
    var mcSecret: Secret;
    if k !in b.secrets {
      mcSecret := Secret(Username(k), f.newPassword, f.ca);
    } else {
      mcSecret := b.secrets[k].(ca := f.ca);
    }
    if f.secretWrite.Applied() {
      b.secrets := b.secrets[k := mcSecret];
    }
    if f.secretWrite.Failed() {
      return true;
    }
    err := CreateOrUpdateAviUser(mcSecret.username, mcSecret.password, b, f);
  }

  // ---------------------------------------------------------------- deletion

  datatype UserDeleteOut = UserDeleteOut(c: Cluster, e: Ext, err: bool)

  function DeleteCredentialsSpec(k: Key, c: Cluster, adc: Adc, e: Ext, f: Faults): UserDeleteOut {
    var done := c.(userCleanup := IsTrue);
    if k.ns == SYSTEM_NAMESPACE || c.userCleanup.IsTrue? || adc.customerCredentials then UserDeleteOut(done, e, false)
    else if f.secretGet then UserDeleteOut(c, e, true)
    else
      var user := if k in e.secrets then e.secrets[k].username else "";
      if user !in e.users || f.userDelete.Rejected? then UserDeleteOut(c, e, true)
      else
        var e1 := e.(users := e.users - {user});
        if f.userDelete.ReplyLost? || k !in e.secrets || f.secretDelete.Rejected? then UserDeleteOut(c, e1, true)
        else
          var e2 := e1.(secrets := e1.secrets - {k});
          if f.secretDelete.ReplyLost? then UserDeleteOut(c, e2, true) else UserDeleteOut(done, e2, false)
  }

  /** Deletes the user, then its secret. A secret already gone reads as an empty one, whose
      empty user name the controller does not know and whose deletion the API refuses. */
  method DeleteCredentials(obj: ClusterObject, adc: Adc, b: Backend, f: Faults) returns (err: bool)
    modifies obj`userCleanup, b`users, b`secrets
    ensures UserDeleteOut(obj.Value(), b.Value(), err)
         == DeleteCredentialsSpec(obj.key, old(obj.Value()), adc, old(b.Value()), f)
  {
    var k := obj.key;
    if k.ns == SYSTEM_NAMESPACE {
      obj.userCleanup := IsTrue;
      return false;
    }
    if obj.userCleanup.IsTrue? {
      return false;
    }
    if adc.customerCredentials {
      obj.userCleanup := IsTrue;
      return false;
    }
    if f.secretGet {
      return true;
    }
    var user := "";
    if k in b.secrets {
      user := b.secrets[k].username;
    }
    if user !in b.users {
      return true;
    }
    if f.userDelete.Applied() {
      b.users := b.users - {user};
    }
    if f.userDelete.Failed() {
      return true;
    }
    if k !in b.secrets {
      return true;
    }
    if f.secretDelete.Applied() {
      b.secrets := b.secrets - {k};
    }
    if f.secretDelete.Failed() {
      return true;
    }
    obj.userCleanup := IsTrue;
    return false;
  }

  function ReconcileUserDeleteSpec(k: Key, c: Cluster, adc: Adc, e: Ext, f: Faults): UserDeleteOut {
    if !c.deleting then UserDeleteOut(c, e, false)
    else
      var c1 := if c.userCleanup.Unset? then c.(userCleanup := IsFalse) else c;
      if c1.resourceCleanup.IsTrue? then DeleteCredentialsSpec(k, c1, adc, e, f)
      else UserDeleteOut(c1, e, true)
  }

  /** Waits, by returning an error, until the AVI resources are cleaned up. */
  method ReconcileAviUserDelete(obj: ClusterObject, adc: Adc, b: Backend, f: Faults) returns (err: bool)
    modifies obj`userCleanup, b`users, b`secrets
    ensures UserDeleteOut(obj.Value(), b.Value(), err)
         == ReconcileUserDeleteSpec(obj.key, old(obj.Value()), adc, old(b.Value()), f)
  {
    if !obj.deleting {
      return false;
    }
    if obj.userCleanup.Unset? {
      obj.userCleanup := IsFalse;
    }
    if obj.resourceCleanup.IsTrue? {
      err := DeleteCredentials(obj, adc, b, f);
      return err;
    }
    return true;
  }

  // ---------------------------------------------------------------- what the passes bring about

  /** Some call that bringing the AVI user to this password needs fails. */
  predicate UserCallFails(user: string, password: string, e: Ext, f: Faults) {
    || f.versionGet || f.userGet || f.roleSync || (user !in e.users && f.tenantGet)
    || (f.userWrite.Failed() && !(user in e.users && f.passwordVisible && e.users[user] == password))
  }

  /** On success the user has the password; nothing but this user ever changes, and its password
      only to the one wanted; the call fails exactly when something it needs does. */
  lemma CreateOrUpdateOutcome(user: string, password: string, e: Ext, f: Faults)
    ensures var o := CreateOrUpdateSpec(user, password, e, f);
      && (o.e.users == e.users || o.e.users == e.users[user := password])
      && o.e.(users := e.users) == e
      && (o.err <==> UserCallFails(user, password, e, f))
      && (!o.err ==> o.e.users == e.users[user := password])
  {
    if user in e.users && e.users[user] == password {
      assert e.users[user := password] == e.users;
    }
  }

  /** The management cluster gets the administrator's credentials and the controller's CA. With
      credentials of the customer nothing is written. */
  lemma OtherNormalPasses(k: Key, adc: Adc, e: Ext, f: Faults)
    requires k.ns == SYSTEM_NAMESPACE || adc.customerCredentials
    ensures var o := ReconcileNormalSpec(k, adc, e, f);
      && (k.ns == SYSTEM_NAMESPACE ==>
            && (o.err <==> f.caGet || f.adminGet || f.secretWrite.Failed())
            && (!o.err ==> o.e.secrets == e.secrets[k := Secret(f.admin.username, f.admin.password, f.ca)])
            && o.e.(secrets := e.secrets) == e)
      && (k.ns != SYSTEM_NAMESPACE ==> o == UserOut(e, f.caGet || f.customerGet))
  {
  }

  /** A workload cluster's pass succeeds exactly when every call it needs does. Then the stored
      secret keeps user name and password, or is new with the cluster's user name and the
      generated password; it carries the controller's CA; and the AVI user has its password.
      No other secret and no other user is touched. */
  lemma NormalPassOutcome(k: Key, adc: Adc, e: Ext, f: Faults)
    requires k.ns != SYSTEM_NAMESPACE && !adc.customerCredentials
    ensures var o := ReconcileNormalSpec(k, adc, e, f);
      var user := if k in e.secrets then e.secrets[k].username else Username(k);
      var password := if k in e.secrets then e.secrets[k].password else f.newPassword;
      && (o.err <==> f.caGet || f.secretGet || f.secretWrite.Failed() || UserCallFails(user, password, e, f))
      && (!o.err ==> && o.e.secrets == e.secrets[k := Secret(user, password, f.ca)]
                     && o.e.users == e.users[user := password])
      && o.e.secrets - {k} == e.secrets - {k} && o.e.users - {user} == e.users - {user}
  {
    var s := SecretFor(k, e, f);
    CreateOrUpdateOutcome(s.username, s.password, e.(secrets := e.secrets[k := s]), f);
  }

  /** The secret of `k` named an AVI user, and exactly these two are gone. */
  ghost predicate CredentialsGone(k: Key, before: Ext, after: Ext) {
    && k in before.secrets && before.secrets[k].username in before.users
    && after.secrets == before.secrets - {k}
    && after.users == before.users - {before.secrets[k].username}
  }

  /** The deletion of user and secret can run to its end. */
  predicate DeletionSucceeds(k: Key, e: Ext, f: Faults) {
    && !f.secretGet && k in e.secrets && e.secrets[k].username in e.users
    && f.userDelete.Done? && f.secretDelete.Done?
  }

  /** User clean-up of a workload cluster without credentials of the customer turns true exactly
      when the AVI resources are released and the AVI user and its secret are both deleted; until
      then the pass fails. */
  lemma UserDeletionOutcome(k: Key, c: Cluster, adc: Adc, e: Ext, f: Faults)
    requires c.deleting && !c.userCleanup.IsTrue?
    ensures var o := ReconcileUserDeleteSpec(k, c, adc, e, f);
      var nothing := k.ns == SYSTEM_NAMESPACE || adc.customerCredentials;
      && (o.c.userCleanup.IsTrue? <==> c.resourceCleanup.IsTrue? && (nothing || DeletionSucceeds(k, e, f)))
      && (o.err <==> !o.c.userCleanup.IsTrue?)
      && (o.err ==> o.c.userCleanup.IsFalse?)
      && (o.c.userCleanup.IsTrue? ==> if nothing then o.e == e else CredentialsGone(k, e, o.e))
      && o.c.(userCleanup := c.userCleanup) == c && o.e.remotes == e.remotes && o.e.addons == e.addons
  {
  }
}
