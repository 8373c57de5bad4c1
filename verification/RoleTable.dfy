/** The permissions of the AKO role (controllers/akodeploymentconfig/user/ako_role.go): the
    map used to bring an existing role up to date and the list used to create a new one. */
module RoleTable {
  import opened Objects
  import opened Semver

  datatype Access = Write | Read | NoAccess

  /** The resources of the AKO role, without their PERMISSION_ prefix, and any other. */
  datatype Resource =
    | VIRTUALSERVICE | POOL | POOLGROUP | HTTPPOLICYSET | NETWORKSECURITYPOLICY | AUTOSCALE | DNSPOLICY |
    NETWORKPROFILE | APPLICATIONPROFILE | APPLICATIONPERSISTENCEPROFILE | HEALTHMONITOR | ANALYTICSPROFILE |
    IPAMDNSPROVIDERPROFILE | CUSTOMIPAMDNSPROFILE | TRAFFICCLONEPROFILE | VSDATASCRIPTSET | PKIPROFILE |
    SSLKEYANDCERTIFICATE | SERVICEENGINEGROUP | NETWORK | VRFCONTEXT | L4POLICYSET | IPADDRGROUP | STRINGGROUP |
    PROTOCOLPARSER | SSLPROFILE | AUTHPROFILE | PINGACCESSAGENT | CERTIFICATEMANAGEMENTPROFILE |
    HARDWARESECURITYMODULEGROUP | SSOPOLICY | WAFPROFILE | WAFPOLICY | CLOUD | SYSTEMCONFIGURATION |
    CONTROLLER | TENANT | NATPOLICY | WAFPOLICYPSMGROUP | ERRORPAGEPROFILE | ERRORPAGEBODY | ALERTCONFIG |
    ALERT | ACTIONGROUPCONFIG | ALERTSYSLOGCONFIG | ALERTEMAILCONFIG | SNMPTRAPPROFILE | TRAFFIC_CAPTURE |
    SERVICEENGINE | USER_CREDENTIAL | REBOOT | UPGRADE | TECHSUPPORT | INTERNAL | CONTROLLERSITE | IMAGE |
    USER | ROLE | GSLB | GSLBSERVICE | GSLBGEODBPROFILE | Other(name: string)

  datatype Permission = Permission(resource: Resource, access: Access)

  /** The right-hand sides of the map. */
  function DesiredAccess(r: Resource): Option<Access> {
    match r
    case VIRTUALSERVICE | POOL | POOLGROUP | HTTPPOLICYSET | NETWORKSECURITYPOLICY | AUTOSCALE | DNSPOLICY |
       NETWORKPROFILE | APPLICATIONPROFILE | APPLICATIONPERSISTENCEPROFILE | HEALTHMONITOR | ANALYTICSPROFILE |
       IPAMDNSPROVIDERPROFILE | CUSTOMIPAMDNSPROFILE | TRAFFICCLONEPROFILE | VSDATASCRIPTSET | PKIPROFILE |
       SSLKEYANDCERTIFICATE | SERVICEENGINEGROUP | NETWORK | VRFCONTEXT | L4POLICYSET =>
      Some(Write)
    case IPADDRGROUP | STRINGGROUP | PROTOCOLPARSER | SSLPROFILE | AUTHPROFILE | PINGACCESSAGENT |
       CERTIFICATEMANAGEMENTPROFILE | HARDWARESECURITYMODULEGROUP | SSOPOLICY | WAFPROFILE | WAFPOLICY | CLOUD |
       SYSTEMCONFIGURATION | CONTROLLER | TENANT =>
      Some(Read)
    case NATPOLICY | WAFPOLICYPSMGROUP | ERRORPAGEPROFILE | ERRORPAGEBODY | ALERTCONFIG | ALERT | ACTIONGROUPCONFIG |
       ALERTSYSLOGCONFIG | ALERTEMAILCONFIG | SNMPTRAPPROFILE | TRAFFIC_CAPTURE | SERVICEENGINE | USER_CREDENTIAL |
       REBOOT | UPGRADE | TECHSUPPORT | INTERNAL | CONTROLLERSITE | IMAGE | USER | ROLE | GSLB | GSLBSERVICE |
       GSLBGEODBPROFILE =>
      Some(NoAccess)
    case Other(_) => None
  }

  const MANAGED: set<Resource> := {
    VIRTUALSERVICE, POOL, POOLGROUP, HTTPPOLICYSET, NETWORKSECURITYPOLICY, AUTOSCALE, DNSPOLICY, NETWORKPROFILE,
    APPLICATIONPROFILE, APPLICATIONPERSISTENCEPROFILE, HEALTHMONITOR, ANALYTICSPROFILE, IPAMDNSPROVIDERPROFILE,
    CUSTOMIPAMDNSPROFILE, TRAFFICCLONEPROFILE, VSDATASCRIPTSET, PKIPROFILE, SSLKEYANDCERTIFICATE,
    SERVICEENGINEGROUP, NETWORK, VRFCONTEXT, L4POLICYSET, IPADDRGROUP, STRINGGROUP, PROTOCOLPARSER, SSLPROFILE,
    AUTHPROFILE, PINGACCESSAGENT, CERTIFICATEMANAGEMENTPROFILE, HARDWARESECURITYMODULEGROUP, SSOPOLICY,
    WAFPROFILE, WAFPOLICY, CLOUD, SYSTEMCONFIGURATION, CONTROLLER, TENANT, NATPOLICY, WAFPOLICYPSMGROUP,
    ERRORPAGEPROFILE, ERRORPAGEBODY, ALERTCONFIG, ALERT, ACTIONGROUPCONFIG, ALERTSYSLOGCONFIG, ALERTEMAILCONFIG,
    SNMPTRAPPROFILE, TRAFFIC_CAPTURE, SERVICEENGINE, USER_CREDENTIAL, REBOOT, UPGRADE, TECHSUPPORT, INTERNAL,
    CONTROLLERSITE, IMAGE, USER, ROLE, GSLB, GSLBSERVICE, GSLBGEODBPROFILE}

  const PERMISSION_MAP: map<Resource, Access> := map r | r in MANAGED && DesiredAccess(r).Some? :: DesiredAccess(r).value

  const DEPRECATED: map<Resource, Version> := map[PINGACCESSAGENT := Release(30, 2, 1)]

  // The list, in its own order, in pieces small enough to be compared with the map.
  const LIST_0 := [
    Permission(VIRTUALSERVICE, Write), Permission(POOL, Write), Permission(POOLGROUP, Write),
    Permission(HTTPPOLICYSET, Write)]
  const LIST_1 := [
    Permission(NETWORKSECURITYPOLICY, Write), Permission(AUTOSCALE, Write), Permission(DNSPOLICY, Write),
    Permission(NETWORKPROFILE, Write)]
  const LIST_2 := [
    Permission(APPLICATIONPROFILE, Write), Permission(APPLICATIONPERSISTENCEPROFILE, Write),
    Permission(HEALTHMONITOR, Write), Permission(ANALYTICSPROFILE, Write)]
  const LIST_3 := [
    Permission(IPAMDNSPROVIDERPROFILE, Write), Permission(CUSTOMIPAMDNSPROFILE, Write),
    Permission(TRAFFICCLONEPROFILE, Write), Permission(IPADDRGROUP, Read)]
  const LIST_4 := [
    Permission(STRINGGROUP, Read), Permission(VSDATASCRIPTSET, Write), Permission(PROTOCOLPARSER, Read),
    Permission(SSLPROFILE, Read)]
  const LIST_5 := [
    Permission(AUTHPROFILE, Read), Permission(PINGACCESSAGENT, Read), Permission(PKIPROFILE, Write),
    Permission(SSLKEYANDCERTIFICATE, Write)]
  const LIST_6 := [
    Permission(CERTIFICATEMANAGEMENTPROFILE, Read), Permission(HARDWARESECURITYMODULEGROUP, Read),
    Permission(SSOPOLICY, Read), Permission(NATPOLICY, NoAccess)]
  const LIST_7 := [
    Permission(WAFPROFILE, Read), Permission(WAFPOLICY, Read), Permission(WAFPOLICYPSMGROUP, NoAccess),
    Permission(ERRORPAGEPROFILE, NoAccess)]
  const LIST_8 := [
    Permission(ERRORPAGEBODY, NoAccess), Permission(ALERTCONFIG, NoAccess), Permission(ALERT, NoAccess),
    Permission(ACTIONGROUPCONFIG, NoAccess)]
  const LIST_9 := [
    Permission(ALERTSYSLOGCONFIG, NoAccess), Permission(ALERTEMAILCONFIG, NoAccess),
    Permission(SNMPTRAPPROFILE, NoAccess), Permission(TRAFFIC_CAPTURE, NoAccess)]
  const LIST_10 := [
    Permission(CLOUD, Read), Permission(SERVICEENGINE, NoAccess), Permission(SERVICEENGINEGROUP, Write),
    Permission(NETWORK, Write)]
  const LIST_11 := [
    Permission(VRFCONTEXT, Write), Permission(USER_CREDENTIAL, NoAccess), Permission(SYSTEMCONFIGURATION, Read),
    Permission(CONTROLLER, Read)]
  const LIST_12 := [
    Permission(REBOOT, NoAccess), Permission(UPGRADE, NoAccess), Permission(TECHSUPPORT, NoAccess),
    Permission(INTERNAL, NoAccess)]
  const LIST_13 := [
    Permission(CONTROLLERSITE, NoAccess), Permission(IMAGE, NoAccess), Permission(USER, NoAccess),
    Permission(ROLE, NoAccess)]
  const LIST_14 := [
    Permission(TENANT, Read), Permission(GSLB, NoAccess), Permission(GSLBSERVICE, NoAccess),
    Permission(GSLBGEODBPROFILE, NoAccess)]
  const LIST_15 := [
    Permission(L4POLICYSET, Write)]

  const PIECES := [
    LIST_0, LIST_1, LIST_2, LIST_3, LIST_4, LIST_5, LIST_6, LIST_7, LIST_8, LIST_9, LIST_10, LIST_11, LIST_12,
    LIST_13, LIST_14, LIST_15]

  const PERMISSION_LIST: seq<Permission> :=
    LIST_0 + LIST_1 + LIST_2 + LIST_3 + LIST_4 + LIST_5 + LIST_6 + LIST_7 + LIST_8 + LIST_9 + LIST_10 +
    LIST_11 + LIST_12 + LIST_13 + LIST_14 + LIST_15

  /** Every entry of the list asks for the access the map asks for. */
  ghost predicate Agrees(l: seq<Permission>) {
    forall i :: 0 <= i < |l| ==> DesiredAccess(l[i].resource) == Some(l[i].access)
  }

  lemma EarlyPlaceAgrees(i: nat, j: nat)
    requires i < 11 && j < |PIECES[i]|
    ensures DesiredAccess(PIECES[i][j].resource) == Some(PIECES[i][j].access)
  {
    if j == 0 {
    } else if j == 1 {
    } else if j == 2 {
    }
  }

  lemma LatePlaceAgrees(i: nat, j: nat)
    requires 11 <= i < |PIECES| && j < |PIECES[i]|
    ensures DesiredAccess(PIECES[i][j].resource) == Some(PIECES[i][j].access)
  {
    if j == 0 {
    } else if j == 1 {
    } else if j == 2 {
    }
  }

  lemma PieceAgrees(i: nat)
    requires i < |PIECES|
    ensures Agrees(PIECES[i])
  {
    forall j | 0 <= j < |PIECES[i]| ensures DesiredAccess(PIECES[i][j].resource) == Some(PIECES[i][j].access) {
      if i < 11 {
        EarlyPlaceAgrees(i, j);
      } else {
        LatePlaceAgrees(i, j);
      }
    }
  }

  lemma EntryAgrees(p: Permission)
    requires p in PERMISSION_LIST
    ensures DesiredAccess(p.resource) == Some(p.access)
  {
    forall i | 0 <= i < |PIECES| ensures p in PIECES[i] ==> DesiredAccess(p.resource) == Some(p.access) {
      PieceAgrees(i);
    }
    assert exists i :: 0 <= i < |PIECES| && p in PIECES[i] by {
      assert PIECES[0] == LIST_0 && PIECES[1] == LIST_1 && PIECES[2] == LIST_2 && PIECES[3] == LIST_3;
      assert PIECES[4] == LIST_4 && PIECES[5] == LIST_5 && PIECES[6] == LIST_6 && PIECES[7] == LIST_7;
      assert PIECES[8] == LIST_8 && PIECES[9] == LIST_9 && PIECES[10] == LIST_10 && PIECES[11] == LIST_11;
      assert PIECES[12] == LIST_12 && PIECES[13] == LIST_13 && PIECES[14] == LIST_14 && PIECES[15] == LIST_15;
    }
  }

  lemma MapKeys(r: Resource)
    ensures r in PERMISSION_MAP <==> DesiredAccess(r).Some?
    ensures r in PERMISSION_MAP ==> PERMISSION_MAP[r] == DesiredAccess(r).value
  {
  }

  lemma MapCovered(r: Resource)
    requires DesiredAccess(r).Some?
    ensures Permission(r, DesiredAccess(r).value) in PERMISSION_LIST
  {
  }

  /** A list and a map hold the same pairs. */
  ghost predicate SamePairs(list: seq<Permission>, desired: map<Resource, Access>) {
    forall p: Permission :: p in list <==> p.resource in desired && desired[p.resource] == p.access
  }

  lemma TablesAgree()
    ensures SamePairs(PERMISSION_LIST, PERMISSION_MAP)
  {
    forall p: Permission
      ensures p in PERMISSION_LIST <==> p.resource in PERMISSION_MAP && PERMISSION_MAP[p.resource] == p.access
    {
      MapKeys(p.resource);
      if p in PERMISSION_LIST {
        EntryAgrees(p);
      }
      if p.resource in PERMISSION_MAP {
        MapCovered(p.resource);
      }
    }
  }
}
