/** Crash safety of the AVI credentials: any mixture of normal and deletion passes over any
    clusters, with any call failing before or after it took effect, and the protocol runs they
    are part of. */
module Credentials {
  import opened Objects
  import opened AviUser
  import opened Phases
  import opened Selection
  import P = Protocol

  datatype UserPass =
    | Normal(k: Key, adc: Adc, f: Faults)
    | Delete(k: Key, c: Cluster, adc: Adc, f: Faults)

  function Apply(e: Ext, p: UserPass): Ext {
    match p
    case Normal(k, adc, f) => ReconcileNormalSpec(k, adc, e, f).e
    case Delete(k, c, adc, f) => ReconcileUserDeleteSpec(k, c, adc, e, f).e
  }

  ghost predicate UserRun(es: seq<Ext>, ps: seq<UserPass>) {
    && |es| == |ps| + 1
    && forall i :: 0 <= i < |ps| ==> es[i + 1] == Apply(es[i], ps[i])
  }

  /** Secret `k` of a workload cluster names `user`. */
  predicate Names(e: Ext, k: Key, user: string) {
    k in e.secrets && k.ns != SYSTEM_NAMESPACE && e.secrets[k].username == user
  }

  /** Every AVI user that is not somebody else's has its secret. */
  ghost predicate Backed(e: Ext, foreign: set<string>) {
    forall user :: user in e.users && user !in foreign ==> exists k :: Names(e, k, user)
  }

  lemma PassKeepsBacked(e: Ext, p: UserPass, foreign: set<string>)
    requires Backed(e, foreign)
    ensures Backed(Apply(e, p), foreign)
  {
    var e' := Apply(e, p);
    forall user | user in e'.users && user !in foreign ensures exists k :: Names(e', k, user) {
      if user in e.users {
        var k :| Names(e, k, user);
        if p.k != k || p.Normal? {
          assert Names(e', k, user);
        } else {
          assert e'.secrets == e.secrets;
          assert Names(e', k, user);
        }
      } else {
        assert Names(e', p.k, user);
      }
    }
  }

  lemma {:induction false} PassesKeepBacked(es: seq<Ext>, ps: seq<UserPass>, foreign: set<string>, i: nat)
    requires UserRun(es, ps) && Backed(es[0], foreign) && i < |es|
    ensures Backed(es[i], foreign)
  {
    if i > 0 {
      PassesKeepBacked(es, ps, foreign, i - 1);
      PassKeepsBacked(es[i - 1], ps[i - 1], foreign);
    }
  }

  lemma {:induction false} PassesKeepSecret(es: seq<Ext>, ps: seq<UserPass>, k: Key, i: nat)
    requires UserRun(es, ps) && i < |es| && k.ns != SYSTEM_NAMESPACE && k in es[0].secrets
    requires forall p <- ps :: !(p.Delete? && p.k == k)
    ensures k in es[i].secrets
    ensures es[i].secrets[k].username == es[0].secrets[k].username
    ensures es[i].secrets[k].password == es[0].secrets[k].password
  {
    if i > 0 {
      assert ps[i - 1] in ps;
      PassesKeepSecret(es, ps, k, i - 1);
    }
  }

  /** The AVI user of `k` exists with exactly the password its secret records. */
  ghost predicate InSync(e: Ext, k: Key) {
    && k in e.secrets && e.secrets[k].username in e.users
    && e.users[e.secrets[k].username] == e.secrets[k].password
  }

  /** A successful normal pass leaves user and secret in agreement, whatever was there before. */
  lemma SuccessfulPassSyncs(k: Key, adc: Adc, e: Ext, f: Faults)
    requires k.ns != SYSTEM_NAMESPACE && !adc.customerCredentials
    ensures var o := ReconcileNormalSpec(k, adc, e, f);
            && (!o.err ==> InSync(o.e, k))
            && (k in e.secrets ==> k in o.e.secrets && o.e.secrets[k].(ca := e.secrets[k].ca) == e.secrets[k])
            && (k !in e.secrets && k in o.e.secrets ==> o.e.secrets[k].username == Username(k))
  {
  }

  lemma PassKeepsSync(e: Ext, p: UserPass, k: Key, ks: set<Key>)
    requires k.ns != SYSTEM_NAMESPACE && InSync(e, k) && NoClash(k, e, ks) && p.k in ks
    requires !(p.Delete? && p.k == k)
    ensures InSync(Apply(e, p), k) && NoClash(k, Apply(e, p), ks)
  {
  }

  lemma {:induction false} PassesKeepSync(es: seq<Ext>, ps: seq<UserPass>, k: Key, ks: set<Key>, i: nat)
    requires UserRun(es, ps) && i < |es| && k.ns != SYSTEM_NAMESPACE && InSync(es[0], k) && NoClash(k, es[0], ks)
    requires forall p <- ps :: p.k in ks && !(p.Delete? && p.k == k)
    ensures InSync(es[i], k) && NoClash(k, es[i], ks)
  {
    if i > 0 {
      assert ps[i - 1] in ps;
      PassesKeepSync(es, ps, k, ks, i - 1);
      PassKeepsSync(es[i - 1], ps[i - 1], k, ks);
    }
  }

  // ---------------------------------------------------------------- runs of the protocol

  /** The part of the outside world that the passes above read and write. */
  function Accounts(e: Ext): Ext {
    Ext(e.secrets, e.users, map[], {})
  }

  lemma NormalOnAccounts(k: Key, adc: Adc, e: Ext, f: Faults)
    ensures Accounts(ReconcileNormalSpec(k, adc, e, f).e) == ReconcileNormalSpec(k, adc, Accounts(e), f).e
  {
  }

  lemma ApplyOnAccounts(e: Ext, p: UserPass)
    ensures Accounts(Apply(e, p)) == Apply(Accounts(e), p)
  {
    if p.Normal? {
      NormalOnAccounts(p.k, p.adc, e, p.f);
    }
  }

  /** `p` is what the visit `a` does to the accounts. */
  predicate PassOf(w: World, a: P.Action, p: UserPass) {
    && a.AdcVisit? && a.k in w.clusters && a.adc in w.adcs
    && p.k == a.k && p.adc == w.adcs[a.adc] && p.f == a.f
    && (p.Delete? <==> w.clusters[a.k].deleting)
  }

  /** Nobody else touches secrets and AVI users from state `i` to state `j`. */
  ghost predicate Undisturbed(ws: seq<World>, acts: seq<P.Action>, i: nat, j: nat) {
    && i <= j < |ws| && |ws| == |acts| + 1
    && forall t :: i <= t < j && acts[t].Outside? ==> Accounts(acts[t].e) == Accounts(ws[t].ext)
  }

  lemma ClusterStageKeepsAccounts(w: World, k: Key, adc: Adc, p0: ClusterPhase, p1: ClusterPhase, f: Faults)
    requires k in w.clusters
    requires (p0.AddClusterFinalizer? && p1.ReconcileAddonSecret?) || (p0.RemoveClusterFinalizer? && p1.ReconcileAddonSecretDelete?)
             || (p0.ReconcileAddonSecretDelete? && p1.ReconcileDelete?)
    ensures var s := Fold(ApplyLabel(w.clusters[k], adc.name), w.ext, ZERO, false);
            Accounts(RunPhases([p0, p1], k, adc, s, f).e) == Accounts(w.ext)
  {
    RunTwoPhases(p0, p1, k, adc, Fold(ApplyLabel(w.clusters[k], adc.name), w.ext, ZERO, false), f);
  }

  /** A visit does to the accounts what one user pass does, or nothing. */
  lemma VisitIsPass(w: World, a: P.Action) returns (p: Option<UserPass>)
    requires P.Enabled(w, a) && a.AdcVisit?
    ensures p.None? ==> Accounts(P.Do(w, a).ext) == Accounts(w.ext)
    ensures p.Some? ==> PassOf(w, a, p.value) && Accounts(P.Do(w, a).ext) == Apply(Accounts(w.ext), p.value)
  {
    var c, adc := w.clusters[a.k], w.adcs[a.adc];
    var s := Fold(ApplyLabel(c, adc.name), w.ext, ZERO, false);
    var ps := PhasesFor(a.stage, c);
    if !c.lb.Avi? || a.f.patchHelper {
      return None;
    }
    if a.stage == USERS || a.stage == USERS_DELETE {
      assert ps == [ps[0]];
      RunOnePhase(ps[0], a.k, adc, s, a.f);
      if c.deleting {
        p := Some(Delete(a.k, s.c, adc, a.f));
      } else if a.stage == USERS {
        p := Some(Normal(a.k, adc, a.f));
      } else {
        return None;
      }
      ApplyOnAccounts(w.ext, p.value);
    } else {
      assert ps == [ps[0], ps[1]];
      ClusterStageKeepsAccounts(w, a.k, adc, ps[0], ps[1], a.f);
      return None;
    }
  }

  lemma StepIsPass(w: World, a: P.Action) returns (p: Option<UserPass>)
    requires P.Enabled(w, a) && (a.Outside? ==> Accounts(a.e) == Accounts(w.ext))
    ensures p.None? ==> Accounts(P.Do(w, a).ext) == Accounts(w.ext)
    ensures p.Some? ==> PassOf(w, a, p.value) && Accounts(P.Do(w, a).ext) == Apply(Accounts(w.ext), p.value)
  {
    p := None;
    if a.AdcVisit? {
      p := VisitIsPass(w, a);
    }
  }

  /** Each of the passes is the work of a visit from `i` to `j`. */
  ghost predicate ByVisits(ps: seq<UserPass>, ws: seq<World>, acts: seq<P.Action>, i: nat, j: nat)
    requires j < |ws| == |acts| + 1
  {
    forall p <- ps :: exists t :: i <= t < j && PassOf(ws[t], acts[t], p)
  }

  lemma ExtendByVisit(ps: seq<UserPass>, p: UserPass, ws: seq<World>, acts: seq<P.Action>, i: nat, t: nat)
    requires i <= t && t + 1 < |ws| == |acts| + 1
    requires ByVisits(ps, ws, acts, i, t) && PassOf(ws[t], acts[t], p)
    ensures ByVisits(ps + [p], ws, acts, i, t + 1)
  {
    LaterVisits(ps, ws, acts, i, t);
  }

  lemma LaterVisits(ps: seq<UserPass>, ws: seq<World>, acts: seq<P.Action>, i: nat, t: nat)
    requires i <= t && t + 1 < |ws| == |acts| + 1 && ByVisits(ps, ws, acts, i, t)
    ensures ByVisits(ps, ws, acts, i, t + 1)
  {
    forall q | q in ps ensures exists t' :: i <= t' < t + 1 && PassOf(ws[t'], acts[t'], q) {
      var t' :| i <= t' < t && PassOf(ws[t'], acts[t'], q);
    }
  }

  lemma ExtendUserRun(es: seq<Ext>, ps: seq<UserPass>, p: UserPass)
    requires UserRun(es, ps)
    ensures UserRun(es + [Apply(es[|ps|], p)], ps + [p])
  {
  }

  /** Every undisturbed stretch of a protocol run is, on the accounts, a run of user passes, each
      of them the work of one of its visits. */
  lemma {:induction false} RunIsUserRun(ws: seq<World>, acts: seq<P.Action>, i: nat, j: nat)
    returns (es: seq<Ext>, ps: seq<UserPass>)
    requires P.Run(ws, acts) && Undisturbed(ws, acts, i, j)
    ensures UserRun(es, ps) && es[0] == Accounts(ws[i].ext) && es[|ps|] == Accounts(ws[j].ext)
    ensures ByVisits(ps, ws, acts, i, j)
    decreases j - i
  {
    if i == j {
      return [Accounts(ws[i].ext)], [];
    }
    var t := j - 1;
    es, ps := RunIsUserRun(ws, acts, i, t);
    assert ws[t + 1] == P.Do(ws[t], acts[t]);
    var p := StepIsPass(ws[t], acts[t]);
    if p.Some? {
      ExtendByVisit(ps, p.value, ws, acts, i, t);
      ExtendUserRun(es, ps, p.value);
      es, ps := es + [Apply(es[|ps|], p.value)], ps + [p.value];
    } else {
      LaterVisits(ps, ws, acts, i, t);
    }
  }

  /** In every run, an AVI user the operator created never exists without its secret. */
  lemma UsersAlwaysBacked(ws: seq<World>, acts: seq<P.Action>, foreign: set<string>, j: nat)
    requires P.Run(ws, acts) && Undisturbed(ws, acts, 0, j) && Backed(ws[0].ext, foreign)
    ensures Backed(ws[j].ext, foreign)
  {
    var es, ps := RunIsUserRun(ws, acts, 0, j);
    BackedOnAccounts(ws[0].ext, foreign);
    PassesKeepBacked(es, ps, foreign, |ps|);
    BackedOnAccounts(ws[j].ext, foreign);
  }

  lemma BackedOnAccounts(e: Ext, foreign: set<string>)
    ensures Backed(e, foreign) <==> Backed(Accounts(e), foreign)
  {
    forall k, user ensures Names(e, k, user) <==> Names(Accounts(e), k, user) {
    }
  }

  /** No visit from `i` to `j` finds cluster `k` being deleted. */
  ghost predicate NotDeleted(ws: seq<World>, acts: seq<P.Action>, k: Key, i: nat, j: nat)
    requires j < |ws| == |acts| + 1
  {
    forall t :: i <= t < j && acts[t].AdcVisit? && acts[t].k == k && k in ws[t].clusters ==> !ws[t].clusters[k].deleting
  }

  /** In every run, once a workload cluster's secret exists, its user name and password stay
      until the cluster itself is deleted. */
  lemma SecretIsStable(ws: seq<World>, acts: seq<P.Action>, k: Key, i: nat, j: nat)
    requires P.Run(ws, acts) && Undisturbed(ws, acts, i, j) && NotDeleted(ws, acts, k, i, j)
    requires k.ns != SYSTEM_NAMESPACE && k in ws[i].ext.secrets
    ensures k in ws[j].ext.secrets
    ensures ws[j].ext.secrets[k].username == ws[i].ext.secrets[k].username
    ensures ws[j].ext.secrets[k].password == ws[i].ext.secrets[k].password
  {
    var es, ps := RunIsUserRun(ws, acts, i, j);
    PassesKeepSecret(es, ps, k, |ps|);
  }

  /** The user phase of this visit runs on `k` and reports success. */
  ghost predicate Syncs(w: World, a: P.Action, k: Key) {
    && a.AdcVisit? && a.k == k && a.stage == USERS && k in w.clusters && a.adc in w.adcs
    && w.clusters[k].lb.Avi? && !w.clusters[k].deleting && !a.f.patchHelper && !w.adcs[a.adc].customerCredentials
    && !ReconcileNormalSpec(k, w.adcs[a.adc], w.ext, a.f).err
  }

  /** In every run, from a successful visit until the cluster's own deletion, the AVI user
      exists with exactly the recorded password, through every visit to every cluster, failing
      or not. */
  lemma CredentialsStayInSync(ws: seq<World>, acts: seq<P.Action>, k: Key, ks: set<Key>, i: nat, j: nat)
    requires P.Run(ws, acts) && i < j && Undisturbed(ws, acts, i + 1, j) && NotDeleted(ws, acts, k, i + 1, j)
    requires k.ns != SYSTEM_NAMESPACE && Syncs(ws[i], acts[i], k) && NoClash(k, ws[i + 1].ext, ks)
    requires forall t :: i < t < j && acts[t].AdcVisit? ==> acts[t].k in ks
    ensures InSync(ws[j].ext, k)
  {
    var c, adc := ws[i].clusters[k], ws[i].adcs[acts[i].adc];
    RunOnePhase(ReconcileAviUser, k, adc, Fold(ApplyLabel(c, adc.name), ws[i].ext, ZERO, false), acts[i].f);
    SuccessfulPassSyncs(k, adc, ws[i].ext, acts[i].f);
    assert ws[i + 1] == P.Do(ws[i], acts[i]);
    var es, ps := RunIsUserRun(ws, acts, i + 1, j);
    assert InSync(es[0], k) && NoClash(k, es[0], ks);
    PassesKeepSync(es, ps, k, ks, |ps|);
  }

  // ---------------------------------------------------------------- user names

  /** The dash-joined user names of two clusters can collide. */
  lemma UsernamesCanCollide()
    ensures Username(Key("b-c", "a")) == Username(Key("c", "a-b")) && Key("b-c", "a") != Key("c", "a-b")
  {
    calc {
      Username(Key("b-c", "a"));
      "a-b-c-ako-user";
      Username(Key("c", "a-b"));
    }
  }

  /** The longer name is the shorter one, a dash and `part`, and the shorter-named cluster's
      namespace is `part`, a dash and the other's namespace. */
  predicate Overlap(longer: Key, shorter: Key, part: string) {
    longer.name == shorter.name + "-" + part && shorter.ns == part + "-" + longer.ns
  }

  lemma OverlapCollides(longer: Key, shorter: Key, part: string)
    requires Overlap(longer, shorter, part)
    ensures Username(longer) == Username(shorter)
  {
    var s := shorter.name + "-" + part + "-" + longer.ns + "-ako-user";
    assert Username(longer) == s;
    assert Username(shorter) == s;
  }

  lemma CollisionOverlaps(longer: Key, shorter: Key) returns (part: string)
    requires Username(longer) == Username(shorter) && |longer.name| > |shorter.name|
    ensures Overlap(longer, shorter, part)
  {
    var s, m, n := Username(longer), |longer.name|, |shorter.name|;
    part := longer.name[n + 1..];
    assert longer.name == s[..m] && longer.ns == s[m + 1..|s| - 9] && s[m] == '-';
    assert shorter.name == Username(shorter)[..n] && shorter.ns == Username(shorter)[n + 1..|s| - 9];
    assert Username(shorter)[n] == '-';
    assert longer.name == s[..n] + [s[n]] + s[n + 1..m];
    assert s[n + 1..|s| - 9] == s[n + 1..m] + [s[m]] + s[m + 1..|s| - 9];
  }

  lemma SameLengthNames(k: Key, h: Key)
    requires Username(k) == Username(h) && |k.name| == |h.name|
    ensures k == h
  {
    var s, n := Username(k), |k.name|;
    assert k.name == s[..n] && h.name == Username(h)[..n];
    assert k.ns == s[n + 1..|s| - 9] && h.ns == Username(h)[n + 1..|s| - 9];
  }

  /** Two clusters share a user name exactly when a dash can be read as the end of either name. */
  lemma UsernamesCollideIff(k: Key, h: Key)
    requires k != h
    ensures Username(k) == Username(h) <==> exists part :: Overlap(k, h, part) || Overlap(h, k, part)
  {
    if Username(k) == Username(h) {
      if |k.name| == |h.name| {
        SameLengthNames(k, h);
      } else if |k.name| > |h.name| {
        var part := CollisionOverlaps(k, h);
      } else {
        var part := CollisionOverlaps(h, k);
      }
    }
    if part :| Overlap(k, h, part) || Overlap(h, k, part) {
      if Overlap(k, h, part) {
        OverlapCollides(k, h, part);
      } else {
        OverlapCollides(h, k, part);
      }
    }
  }

  /** They are distinct when cluster names hold no dash, and within one namespace. */
  lemma UsernamesDistinct(k: Key, h: Key)
    requires ('-' !in k.name && '-' !in h.name) || k.ns == h.ns
    requires k != h
    ensures Username(k) != Username(h)
  {
    UsernamesCollideIff(k, h);
    forall part ensures !Overlap(k, h, part) && !Overlap(h, k, part) {
      assert (h.name + "-" + part)[|h.name|] == '-' && (k.name + "-" + part)[|k.name|] == '-';
    }
  }
}
