/** The mutable objects the reconcilers work on, with their values. */
module Store {
  import opened Objects

  /** The in-memory copy of a Cluster that the phases of one iteration edit. */
  class ClusterObject {
    const key: Key
    const deleting: bool
    const ready: Condition
    const lb: LbProvider
    var labels: Labels
    var finalizer: bool
    var resourceCleanup: Condition
    var userCleanup: Condition

    constructor (k: Key, c: Cluster)
      ensures key == k && Value() == c
    {
      key, deleting, ready, lb := k, c.deleting, c.ready, c.lb;
      labels, finalizer := c.labels, c.finalizer;
      resourceCleanup, userCleanup := c.resourceCleanup, c.userCleanup;
    }

    function Value(): Cluster
      reads this
    {
      Cluster(labels, deleting, finalizer, ready, lb, resourceCleanup, userCleanup)
    }
  }

  /** Management secrets, AVI users, workload clusters and add-on secrets. */
  class Backend {
    var secrets: map<Key, Secret>
    var users: map<string, string>
    var remotes: map<Key, Remote>
    var addons: set<Key>

    constructor (e: Ext)
      ensures Value() == e
    {
      secrets, users, remotes, addons := e.secrets, e.users, e.remotes, e.addons;
    }

    function Value(): Ext
      reads this
    {
      Ext(secrets, users, remotes, addons)
    }
  }

  /** The management cluster's API server together with everything behind it. */
  class ApiServer {
    const bootstrap: bool
    const backend: Backend
    var clusters: map<Key, Cluster>
    var machines: map<Key, Machine>
    var adcs: map<string, Adc>

    constructor (w: World)
      ensures Value() == w && fresh(backend)
    {
      bootstrap, clusters, machines, adcs := w.bootstrap, w.clusters, w.machines, w.adcs;
      backend := new Backend(w.ext);
    }

    function Value(): World
      reads this, backend
    {
      World(bootstrap, clusters, machines, adcs, backend.Value())
    }
  }
}
