/** The control-plane endpoint of a cluster (pkg/ako-operator/lib.go and
    `updateClusterControlPlaneEndpoint` in pkg/haprovider/haprovider.go). `isIp` stands for
    `net.ParseIP` giving an address. */
module ControlPlane {
  import opened Objects

  type IpTest = string -> bool

  /** A topology variable's value as far as decoding it to a string or an integer goes. Anything
      else, malformed text included, is `Opaque`. */
  datatype Json = Text(text: string) | Number(number: int) | Null | Opaque

  datatype Variable = Variable(name: string, value: Json)

  /** The `control_plane_endpoint_port` environment variable. */
  datatype EnvPort = Unset | NotANumber | EnvNumber(number: int)

  const API_SERVER_ENDPOINT := "apiServerEndpoint"
  const API_SERVER_PORT := "apiServerPort"
  const DEFAULT_PORT := 6443

  datatype Spec = Spec(annotation: Option<string>, topology: Option<seq<Variable>>, host: string, port: int)

  class EndpointObject {
    const annotation: Option<string>
    var topology: Option<seq<Variable>>
    var host: string
    var port: int

    constructor (s: Spec)
      ensures Value() == s
    {
      annotation, topology, host, port := s.annotation, s.topology, s.host, s.port;
    }

    function Value(): Spec
      reads this
    {
      Spec(annotation, topology, host, port)
    }
  }

  // ---------------------------------------------------------------- reading

  /** The position of the first variable called `name`; past the end when there is none. */
  function VarIndex(vars: seq<Variable>, name: string): (i: nat)
    ensures i <= |vars| && (i < |vars| ==> vars[i].name == name)
    ensures forall j :: 0 <= j < i ==> vars[j].name != name
  {
    if vars == [] || vars[0].name == name then 0 else 1 + VarIndex(vars[1..], name)
  }

  function FindVar(s: Spec, name: string): Option<Json> {
    if s.topology.None? then None
    else
      var i := VarIndex(s.topology.value, name);
      if i < |s.topology.value| then Some(s.topology.value[i].value) else None
  }

  function Annotated(s: Spec): string {
    if s.annotation.None? then "" else s.annotation.value
  }

  /** `GetControlPlaneEndpoint`: the endpoint, and whether decoding the variable failed. */
  function Endpoint(s: Spec): (string, bool) {
    match FindVar(s, API_SERVER_ENDPOINT)
    case Some(Text(t)) => (t, false)
    case Some(Null) => (Annotated(s), false)
    case Some(_) => (Annotated(s), true)
    case None => (if Annotated(s) == "" then s.host else Annotated(s), false)
  }

  method GetControlPlaneEndpoint(c: EndpointObject) returns (endpoint: string, failed: bool)
    ensures (endpoint, failed) == Endpoint(c.Value())
  {
    endpoint := if c.annotation.Some? then c.annotation.value else "";
    if c.topology.Some? {
      var vars := c.topology.value;
      for i := 0 to |vars|
        invariant i <= VarIndex(vars, API_SERVER_ENDPOINT)
      {
        if vars[i].name == API_SERVER_ENDPOINT {
          match vars[i].value {
            case Text(t) => return t, false;
            case Null => return endpoint, false;
            case _ => return endpoint, true;
          }
        }
      }
    }
    if endpoint == "" {
      endpoint := c.host;
    }
    return endpoint, false;
  }

  predicate ValidPort(n: int) { 0 < n < 65536 }

  function CheckedPort(n: int): (int, bool) {
    if ValidPort(n) then (n, false) else (DEFAULT_PORT, true)
  }

  /** `GetControlPlaneEndpointPort`: the port, and whether it failed. */
  function Port(s: Spec, env: EnvPort): (r: (int, bool))
    ensures ValidPort(r.0) && (r.1 ==> r.0 == DEFAULT_PORT)
  {
    if s.topology.Some? then
      match FindVar(s, API_SERVER_PORT)
      case Some(Number(n)) => CheckedPort(n)
      case Some(Null) => (DEFAULT_PORT, false)
      case Some(_) => (DEFAULT_PORT, true)
      case None => (DEFAULT_PORT, false)
    else
      match env
      case Unset => (DEFAULT_PORT, false)
      case NotANumber => (DEFAULT_PORT, true)
      case EnvNumber(n) => CheckedPort(n)
  }

  method GetControlPlaneEndpointPort(c: EndpointObject, env: EnvPort) returns (port: int, failed: bool)
    ensures (port, failed) == Port(c.Value(), env)
  {
    port := DEFAULT_PORT;
    if c.topology.Some? {
      var vars := c.topology.value;
      for i := 0 to |vars|
        invariant port == DEFAULT_PORT && i <= VarIndex(vars, API_SERVER_PORT)
      {
        if vars[i].name == API_SERVER_PORT {
          match vars[i].value {
            case Number(n) => port := n;
            case Null =>
            case _ => return DEFAULT_PORT, true;
          }
          if !ValidPort(port) {
            return DEFAULT_PORT, true;
          }
          return port, false;
        }
      }
      return port, false;
    }
    match env {
      case Unset => return DEFAULT_PORT, false;
      case NotANumber => return DEFAULT_PORT, true;
      case EnvNumber(n) =>
        if !ValidPort(n) {
          return DEFAULT_PORT, true;
        }
        return n, false;
    }
  }

  /** `vars[i]` is the first variable with its name. */
  ghost predicate FirstNamed(s: Spec, i: nat, name: string) {
    && s.topology.Some? && i < |s.topology.value| && s.topology.value[i].name == name
    && forall j :: 0 <= j < i ==> s.topology.value[j].name != name
  }

  /** The configured port: the number in the first port variable or, without topology, in the
      environment, if it is a port at all; 6443 if nothing is configured. */
  lemma ConfiguredPort(s: Spec, env: EnvPort, i: nat, n: int)
    ensures FirstNamed(s, i, API_SERVER_PORT) && s.topology.value[i].value == Number(n) ==>
              if 1 <= n <= 65535 then Port(s, env) == (n, false) else Port(s, env) == (6443, true)
    ensures s.topology.None? && env == EnvNumber(n) ==>
              if 1 <= n <= 65535 then Port(s, env) == (n, false) else Port(s, env) == (6443, true)
    ensures s.topology.Some? && (forall v <- s.topology.value :: v.name != API_SERVER_PORT) ==> Port(s, env) == (6443, false)
    ensures s.topology.None? && env.Unset? ==> Port(s, env) == (6443, false)
  {
    if FirstNamed(s, i, API_SERVER_PORT) {
      assert VarIndex(s.topology.value, API_SERVER_PORT) == i;
    }
  }

  /** The first endpoint variable decides if it holds text. One that does not leaves the word to
      the annotation, with an error unless it is null. Without one, the annotation comes before
      the host. */
  lemma EndpointPrecedence(s: Spec, i: nat)
    ensures FirstNamed(s, i, API_SERVER_ENDPOINT) ==>
              var v := s.topology.value[i].value;
              if v.Text? then Endpoint(s) == (v.text, false) else Endpoint(s) == (Annotated(s), !v.Null?)
    ensures (s.topology.Some? ==> forall v <- s.topology.value :: v.name != API_SERVER_ENDPOINT) ==>
              Endpoint(s) == (if s.annotation in {None, Some("")} then s.host else s.annotation.value, false)
  {
    if FirstNamed(s, i, API_SERVER_ENDPOINT) {
      assert VarIndex(s.topology.value, API_SERVER_ENDPOINT) == i;
    }
  }

  // ---------------------------------------------------------------- writing

  function WithEndpoint(s: Spec, endpoint: string): Spec {
    if s.topology.None? then s
    else
      var vars := s.topology.value;
      var i := VarIndex(vars, API_SERVER_ENDPOINT);
      var v := Variable(API_SERVER_ENDPOINT, Text(endpoint));
      s.(topology := Some(if i < |vars| then vars[i := v] else vars + [v]))
  }

  method SetControlPlaneEndpoint(c: EndpointObject, endpoint: string)
    modifies c
    ensures c.Value() == WithEndpoint(old(c.Value()), endpoint)
  {
    if c.topology.Some? {
      var vars := c.topology.value;
      for i := 0 to |vars|
        invariant c.Value() == old(c.Value()) && i <= VarIndex(vars, API_SERVER_ENDPOINT)
      {
        if vars[i].name == API_SERVER_ENDPOINT {
          c.topology := Some(vars[i := vars[i].(value := Text(endpoint))]);
          return;
        }
      }
      c.topology := Some(vars + [Variable(API_SERVER_ENDPOINT, Text(endpoint))]);
    }
  }

  /** A name that has to be resolved. */
  predicate IsFqdn(isIp: IpTest, endpoint: string) {
    endpoint != "" && !isIp(endpoint)
  }

  predicate Ready(isIp: IpTest, ingress: seq<string>) {
    ingress != [] && isIp(ingress[0])
  }

  function Updated(isIp: IpTest, s: Spec, ingress: seq<string>, env: EnvPort): (Spec, bool) {
    if !Ready(isIp, ingress) then (s, true)
    else
      var endpoint := Endpoint(s).0;
      var s' := if IsFqdn(isIp, endpoint) then s.(host := endpoint)
                else WithEndpoint(s.(host := ingress[0]), ingress[0]);
      (s'.(port := Port(s', env).0), Port(s', env).1)
  }

  method UpdateClusterControlPlaneEndpoint(isIp: IpTest, c: EndpointObject, ingress: seq<string>, env: EnvPort)
    returns (failed: bool)
    modifies c
    ensures (c.Value(), failed) == Updated(isIp, old(c.Value()), ingress, env)
  {
    var endpoint, _ := GetControlPlaneEndpoint(c);
    if |ingress| > 0 && isIp(ingress[0]) {
      if endpoint != "" && !isIp(endpoint) {
        c.host := endpoint;
      } else {
        c.host := ingress[0];
        SetControlPlaneEndpoint(c, ingress[0]);
      }
      var port;
      port, failed := GetControlPlaneEndpointPort(c, env);
      c.port := port;
      return failed;
    }
    return true;
  }

  // ---------------------------------------------------------------- one update

  /** Setting the endpoint: reading it back gives it, and every other variable keeps its value
      and its position. */
  lemma SetThenGet(s: Spec, endpoint: string)
    ensures s.topology.Some? ==> Endpoint(WithEndpoint(s, endpoint)) == (endpoint, false)
    ensures SameButEndpoint(s, WithEndpoint(s, endpoint))
    ensures WithEndpoint(WithEndpoint(s, endpoint), endpoint) == WithEndpoint(s, endpoint)
  {
    if s.topology.Some? {
      var vars := s.topology.value;
      var vars' := WithEndpoint(s, endpoint).topology.value;
      var i := VarIndex(vars, API_SERVER_ENDPOINT);
      assert vars'[i].name == API_SERVER_ENDPOINT;
      assert VarIndex(vars', API_SERVER_ENDPOINT) == i;
      assert vars'[i := vars'[i]] == vars';
    }
  }

  /** The two differ at most in host, port and the first endpoint variable, which may have
      been appended. */
  ghost predicate SameButEndpoint(s: Spec, t: Spec) {
    && t.annotation == s.annotation
    && (t.topology.Some? <==> s.topology.Some?)
    && (s.topology.Some? ==>
          var vars, vars' := s.topology.value, t.topology.value;
          var i := VarIndex(vars, API_SERVER_ENDPOINT);
          && |vars| <= |vars'| <= (if i < |vars| then |vars| else |vars| + 1)
          && (forall j :: 0 <= j < |vars'| && j != i ==> j < |vars| && vars'[j] == vars[j])
          && (i < |vars'| ==> vars'[i].name == API_SERVER_ENDPOINT))
  }

  lemma SameButEndpointTransitive(s: Spec, t: Spec, u: Spec)
    requires SameButEndpoint(s, t) && SameButEndpoint(t, u)
    ensures SameButEndpoint(s, u)
  {
    if s.topology.Some? {
      SameEndpointIndex(s.topology.value, t.topology.value);
    }
  }

  lemma SameEndpointIndex(vars: seq<Variable>, vars': seq<Variable>)
    requires SameButEndpoint(Spec(None, Some(vars), "", 0), Spec(None, Some(vars'), "", 0))
    ensures VarIndex(vars', API_SERVER_ENDPOINT) == VarIndex(vars, API_SERVER_ENDPOINT)
  {
    var i := VarIndex(vars, API_SERVER_ENDPOINT);
    assert forall j :: 0 <= j < i ==> vars'[j].name != API_SERVER_ENDPOINT;
  }

  /** The port does not depend on the endpoint variable. */
  lemma PortIgnoresEndpoint(s: Spec, t: Spec, env: EnvPort)
    requires SameButEndpoint(s, t)
    ensures Port(t, env) == Port(s, env)
  {
    if s.topology.Some? {
      var vars, vars' := s.topology.value, t.topology.value;
      var i := VarIndex(vars, API_SERVER_ENDPOINT);
      var p := VarIndex(vars, API_SERVER_PORT);
      assert |API_SERVER_ENDPOINT| != |API_SERVER_PORT|;
      assert forall j :: 0 <= j < p && j < |vars'| ==> vars'[j].name != API_SERVER_PORT;
      if p < |vars| {
        assert vars'[p] == vars[p];
      }
    }
  }

  /** When reading the endpoint back gives the host: always for a topology-based cluster. A
      legacy cluster's annotation wins over the host, so there it must be empty, a name, or
      the ingress address. */
  predicate Agreeable(isIp: IpTest, s: Spec, ingress: string) {
    s.topology.Some? || Annotated(s) == "" || !isIp(Annotated(s)) || Annotated(s) == ingress
  }

  lemma UpdateSound(isIp: IpTest, s: Spec, ingress: seq<string>, env: EnvPort)
    ensures var (t, failed) := Updated(isIp, s, ingress, env);
      && SameButEndpoint(s, t)
      && (!Ready(isIp, ingress) ==> t == s && failed)
      && (Ready(isIp, ingress) ==>
            && ValidPort(t.port) && (t.port, failed) == Port(s, env)
            && t.host == (if IsFqdn(isIp, Endpoint(s).0) then Endpoint(s).0 else ingress[0])
            && (Endpoint(t).0 == t.host <==> Agreeable(isIp, s, ingress[0])))
  {
    if Ready(isIp, ingress) {
      var endpoint := Endpoint(s).0;
      if IsFqdn(isIp, endpoint) {
        var s' := s.(host := endpoint);
        PortIgnoresEndpoint(s, s', env);
        assert FindVar(s', API_SERVER_ENDPOINT) == FindVar(s, API_SERVER_ENDPOINT);
      } else {
        var s' := s.(host := ingress[0]);
        SetThenGet(s', ingress[0]);
        PortIgnoresEndpoint(s, WithEndpoint(s', ingress[0]), env);
        var t := Updated(isIp, s, ingress, env).0;
        assert FindVar(t, API_SERVER_ENDPOINT) == FindVar(WithEndpoint(s', ingress[0]), API_SERVER_ENDPOINT);
      }
    }
  }

  /** Repeating the update with the same service status changes nothing. */
  lemma UpdateIsIdempotent(isIp: IpTest, s: Spec, ingress: seq<string>, env: EnvPort)
    ensures var r := Updated(isIp, s, ingress, env); Updated(isIp, r.0, ingress, env) == r
  {
    var t := Updated(isIp, s, ingress, env).0;
    UpdateSound(isIp, s, ingress, env);
    UpdateSound(isIp, t, ingress, env);
    if Ready(isIp, ingress) {
      PortIgnoresEndpoint(s, t, env);
      if !IsFqdn(isIp, Endpoint(s).0) {
        SetThenGet(s.(host := ingress[0]), ingress[0]);
        SetThenGet(t.(host := ingress[0]), ingress[0]);
      }
    }
  }

  /** A legacy cluster whose annotation is another address than the service got. */
  lemma LegacyAnnotationWins(isIp: IpTest, env: EnvPort)
    requires isIp("10.0.0.1") && isIp("10.0.0.2")
    ensures var t := Updated(isIp, Spec(Some("10.0.0.1"), None, "", 0), ["10.0.0.2"], env).0;
      t.host == "10.0.0.2" && Endpoint(t).0 == "10.0.0.1"
  {
    var s := Spec(Some("10.0.0.1"), None, "", 0);
    UpdateSound(isIp, s, ["10.0.0.2"], env);
    assert "10.0.0.1"[7] != "10.0.0.2"[7];
  }

  // ---------------------------------------------------------------- every run

  /** Updates against a sequence of service statuses. */
  function Run(isIp: IpTest, s: Spec, statuses: seq<seq<string>>, env: EnvPort): Spec
    decreases statuses
  {
    if statuses == [] then s else Run(isIp, Updated(isIp, s, statuses[0], env).0, statuses[1..], env)
  }

  /** The last status with a valid ingress address decides; before the first one it is `host`. */
  function LastIngress(isIp: IpTest, host: string, statuses: seq<seq<string>>): string
    decreases statuses
  {
    if statuses == [] then host
    else LastIngress(isIp, if Ready(isIp, statuses[0]) then statuses[0][0] else host, statuses[1..])
  }

  /** A topology-based cluster over any run that saw a valid ingress: a name given as endpoint
      is kept for good, an address follows the service, reading the endpoint gives the host,
      the port is the configured one, and no other variable changed or moved. */
  lemma {:induction false} RunSound(isIp: IpTest, s: Spec, statuses: seq<seq<string>>, env: EnvPort)
    requires s.topology.Some? && exists i :: 0 <= i < |statuses| && Ready(isIp, statuses[i])
    ensures var t := Run(isIp, s, statuses, env);
      && Endpoint(t).0 == t.host
      && t.host == (if IsFqdn(isIp, Endpoint(s).0) then Endpoint(s).0 else LastIngress(isIp, s.host, statuses))
      && t.port == Port(s, env).0 && ValidPort(t.port)
      && SameButEndpoint(s, t)
    decreases statuses
  {
    var t := Updated(isIp, s, statuses[0], env).0;
    var rest := statuses[1..];
    UpdateSound(isIp, s, statuses[0], env);
    PortIgnoresEndpoint(s, t, env);
    if exists i :: 0 <= i < |rest| && Ready(isIp, rest[i]) {
      RunSound(isIp, t, rest, env);
      SameButEndpointTransitive(s, t, Run(isIp, t, rest, env));
      LastIngressIgnoresHost(isIp, if Ready(isIp, statuses[0]) then statuses[0][0] else s.host, t.host, rest);
    } else {
      forall j | 0 <= j < |rest| ensures !Ready(isIp, rest[j]) {
        assert !Ready(isIp, rest[j]);
      }
      NeverReady(isIp, t, rest, env);
    }
  }

  lemma {:induction false} LastIngressIgnoresHost(isIp: IpTest, a: string, b: string, statuses: seq<seq<string>>)
    requires exists i :: 0 <= i < |statuses| && Ready(isIp, statuses[i])
    ensures LastIngress(isIp, a, statuses) == LastIngress(isIp, b, statuses)
    decreases statuses
  {
    if !Ready(isIp, statuses[0]) {
      var i :| 0 <= i < |statuses| && Ready(isIp, statuses[i]);
      assert statuses[1..][i - 1] == statuses[i];
      LastIngressIgnoresHost(isIp, a, b, statuses[1..]);
    }
  }

  lemma {:induction false} NeverReady(isIp: IpTest, s: Spec, statuses: seq<seq<string>>, env: EnvPort)
    requires forall i :: 0 <= i < |statuses| ==> !Ready(isIp, statuses[i])
    ensures Run(isIp, s, statuses, env) == s
    ensures forall h :: LastIngress(isIp, h, statuses) == h
    decreases statuses
  {
    if statuses != [] {
      NeverReady(isIp, s, statuses[1..], env);
    }
  }
}
