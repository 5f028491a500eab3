/** PhaseTable: which kinds of object belong to which well-known phase. */
module PhaseTable {
  datatype PhaseName =
    | Namespaces | Policies | Identity | Configuration | Storage | Crds | Roles | Bindings
    | Infrastructure | Deploy | Scaling | Publish | Admission

  datatype GroupKind = GroupKind(group: string, kind: string)

  /** phaseGKMap. */
  function PhaseGroupKinds(p: PhaseName): seq<GroupKind> {
    match p
    case Namespaces =>
      [GroupKind("", "Namespace")]
    case Policies =>
      [GroupKind("networking.k8s.io", "NetworkPolicy"),
       GroupKind("policy", "PodDisruptionBudget"),
       GroupKind("scheduling.k8s.io", "PriorityClass")]
    case Identity =>
      [GroupKind("", "ServiceAccount")]
    case Configuration =>
      [GroupKind("", "Secret"),
       GroupKind("", "ConfigMap")]
    case Storage =>
      [GroupKind("", "PersistentVolume"),
       GroupKind("", "PersistentVolumeClaim"),
       GroupKind("storage.k8s.io", "StorageClass")]
    case Crds =>
      [GroupKind("apiextensions.k8s.io", "CustomResourceDefinition")]
    case Roles =>
      [GroupKind("rbac.authorization.k8s.io", "ClusterRole"),
       GroupKind("rbac.authorization.k8s.io", "Role")]
    case Bindings =>
      [GroupKind("rbac.authorization.k8s.io", "ClusterRoleBinding"),
       GroupKind("rbac.authorization.k8s.io", "RoleBinding")]
    case Infrastructure =>
      [GroupKind("", "Service"),
       GroupKind("cert-manager.io", "Issuer")]
    case Deploy =>
      [GroupKind("cert-manager.io", "Certificate"),
       GroupKind("apps", "Deployment")]
    case Scaling =>
      [GroupKind("autoscaling.k8s.io", "VerticalPodAutoscaler")]
    case Publish =>
      [GroupKind("monitoring.coreos.com", "PrometheusRule"),
       GroupKind("monitoring.coreos.com", "ServiceMonitor"),
       GroupKind("monitoring.coreos.com", "PodMonitor"),
       GroupKind("networking.k8s.io", "Ingress"),
       GroupKind("route.openshift.io", "Route"),
       GroupKind("console.openshift.io", "ConsoleYAMLSample"),
       GroupKind("console.openshift.io", "ConsoleQuickStart"),
       GroupKind("console.openshift.io", "ConsoleCLIDownload"),
       GroupKind("console.openshift.io", "ConsoleLink"),
       GroupKind("console.openshift.io", "ConsolePlugin")]
    case Admission =>
      [GroupKind("admissionregistration.k8s.io", "ValidatingWebhookConfiguration"),
       GroupKind("admissionregistration.k8s.io", "MutatingWebhookConfiguration")]
  }

  /** determinePhase: the phase a kind is listed under, and deploy when it is listed nowhere. */
  function DeterminePhase(group: string, kind: string): PhaseName {
    match kind
    case "Namespace" => if group == "" then Namespaces else Deploy
    case "NetworkPolicy" => if group == "networking.k8s.io" then Policies else Deploy
    case "PodDisruptionBudget" => if group == "policy" then Policies else Deploy
    case "PriorityClass" => if group == "scheduling.k8s.io" then Policies else Deploy
    case "ServiceAccount" => if group == "" then Identity else Deploy
    case "Secret" => if group == "" then Configuration else Deploy
    case "ConfigMap" => if group == "" then Configuration else Deploy
    case "PersistentVolume" => if group == "" then Storage else Deploy
    case "PersistentVolumeClaim" => if group == "" then Storage else Deploy
    case "StorageClass" => if group == "storage.k8s.io" then Storage else Deploy
    case "CustomResourceDefinition" => if group == "apiextensions.k8s.io" then Crds else Deploy
    case "ClusterRole" => if group == "rbac.authorization.k8s.io" then Roles else Deploy
    case "Role" => if group == "rbac.authorization.k8s.io" then Roles else Deploy
    case "ClusterRoleBinding" => if group == "rbac.authorization.k8s.io" then Bindings else Deploy
    case "RoleBinding" => if group == "rbac.authorization.k8s.io" then Bindings else Deploy
    case "Service" => if group == "" then Infrastructure else Deploy
    case "Issuer" => if group == "cert-manager.io" then Infrastructure else Deploy
    case "VerticalPodAutoscaler" => if group == "autoscaling.k8s.io" then Scaling else Deploy
    case "PrometheusRule" => if group == "monitoring.coreos.com" then Publish else Deploy
    case "ServiceMonitor" => if group == "monitoring.coreos.com" then Publish else Deploy
    case "PodMonitor" => if group == "monitoring.coreos.com" then Publish else Deploy
    case "Ingress" => if group == "networking.k8s.io" then Publish else Deploy
    case "Route" => if group == "route.openshift.io" then Publish else Deploy
    case "ConsoleYAMLSample" => if group == "console.openshift.io" then Publish else Deploy
    case "ConsoleQuickStart" => if group == "console.openshift.io" then Publish else Deploy
    case "ConsoleCLIDownload" => if group == "console.openshift.io" then Publish else Deploy
    case "ConsoleLink" => if group == "console.openshift.io" then Publish else Deploy
    case "ConsolePlugin" => if group == "console.openshift.io" then Publish else Deploy
    case "ValidatingWebhookConfiguration" => if group == "admissionregistration.k8s.io" then Admission else Deploy
    case "MutatingWebhookConfiguration" => if group == "admissionregistration.k8s.io" then Admission else Deploy
    case _ => Deploy
  }

  /** A kind listed under p finds p. */
  ghost predicate Finds(p: PhaseName, i: int) {
    0 <= i < |PhaseGroupKinds(p)| ==> DeterminePhase(PhaseGroupKinds(p)[i].group, PhaseGroupKinds(p)[i].kind) == p
  }

  lemma EarlyListedOnce(p: PhaseName, i: int)
    requires p.Namespaces? || p.Policies? || p.Identity?
    ensures Finds(p, i)
  {
    assert DeterminePhase("", "Namespace") == Namespaces;
    assert DeterminePhase("networking.k8s.io", "NetworkPolicy") == Policies;
    assert DeterminePhase("policy", "PodDisruptionBudget") == Policies;
    assert DeterminePhase("scheduling.k8s.io", "PriorityClass") == Policies;
    assert DeterminePhase("", "ServiceAccount") == Identity;
  }

  lemma StoredListedOnce(p: PhaseName, i: int)
    requires p.Configuration? || p.Storage?
    ensures Finds(p, i)
  {
    assert DeterminePhase("", "Secret") == Configuration;
    assert DeterminePhase("", "ConfigMap") == Configuration;
    assert DeterminePhase("", "PersistentVolume") == Storage;
    assert DeterminePhase("", "PersistentVolumeClaim") == Storage;
    assert DeterminePhase("storage.k8s.io", "StorageClass") == Storage;
  }

  lemma AccessListedOnce(p: PhaseName, i: int)
    requires p.Crds? || p.Roles? || p.Bindings?
    ensures Finds(p, i)
  {
    assert DeterminePhase("apiextensions.k8s.io", "CustomResourceDefinition") == Crds;
    assert DeterminePhase("rbac.authorization.k8s.io", "ClusterRole") == Roles;
    assert DeterminePhase("rbac.authorization.k8s.io", "Role") == Roles;
    assert DeterminePhase("rbac.authorization.k8s.io", "ClusterRoleBinding") == Bindings;
    assert DeterminePhase("rbac.authorization.k8s.io", "RoleBinding") == Bindings;
  }

  lemma WorkloadListedOnce(p: PhaseName, i: int)
    requires p.Infrastructure? || p.Deploy?
    ensures Finds(p, i)
  {
    assert DeterminePhase("", "Service") == Infrastructure;
    assert DeterminePhase("cert-manager.io", "Issuer") == Infrastructure;
    assert DeterminePhase("cert-manager.io", "Certificate") == Deploy;
    assert DeterminePhase("apps", "Deployment") == Deploy;
  }

  lemma LateListedOnce(p: PhaseName, i: int)
    requires p.Scaling? || p.Admission?
    ensures Finds(p, i)
  {
    assert DeterminePhase("autoscaling.k8s.io", "VerticalPodAutoscaler") == Scaling;
    assert DeterminePhase("admissionregistration.k8s.io", "ValidatingWebhookConfiguration") == Admission;
    assert DeterminePhase("admissionregistration.k8s.io", "MutatingWebhookConfiguration") == Admission;
  }

  lemma MonitoredListedOnce(p: PhaseName, i: int)
    requires p.Publish? && i < 5
    ensures Finds(p, i)
  {
    assert DeterminePhase("monitoring.coreos.com", "PrometheusRule") == Publish;
    assert DeterminePhase("monitoring.coreos.com", "ServiceMonitor") == Publish;
    assert DeterminePhase("monitoring.coreos.com", "PodMonitor") == Publish;
    assert DeterminePhase("networking.k8s.io", "Ingress") == Publish;
    assert DeterminePhase("route.openshift.io", "Route") == Publish;
  }

  lemma ConsoleListedOnce(p: PhaseName, i: int)
    requires p.Publish? && i >= 5
    ensures Finds(p, i)
  {
    assert DeterminePhase("console.openshift.io", "ConsoleYAMLSample") == Publish;
    assert DeterminePhase("console.openshift.io", "ConsoleQuickStart") == Publish;
    assert DeterminePhase("console.openshift.io", "ConsoleCLIDownload") == Publish;
    assert DeterminePhase("console.openshift.io", "ConsoleLink") == Publish;
    assert DeterminePhase("console.openshift.io", "ConsolePlugin") == Publish;
  }

  /** No kind is listed under two phases: each finds the one it is listed under. */
  lemma ListedOnce(p: PhaseName, i: nat)
    requires i < |PhaseGroupKinds(p)|
    ensures DeterminePhase(PhaseGroupKinds(p)[i].group, PhaseGroupKinds(p)[i].kind) == p
  {
    if p.Publish? {
      if i < 5 { MonitoredListedOnce(p, i); } else { ConsoleListedOnce(p, i); }
    } else if p.Namespaces? || p.Policies? || p.Identity? {
      EarlyListedOnce(p, i);
    } else if p.Configuration? || p.Storage? {
      StoredListedOnce(p, i);
    } else if p.Crds? || p.Roles? || p.Bindings? {
      AccessListedOnce(p, i);
    } else if p.Infrastructure? || p.Deploy? {
      WorkloadListedOnce(p, i);
    } else {
      LateListedOnce(p, i);
    }
  }

  lemma OnlyListed(group: string, kind: string)
    ensures DeterminePhase(group, kind) != Deploy ==>
              GroupKind(group, kind) in PhaseGroupKinds(DeterminePhase(group, kind))
  {}

  const PHASES: set<PhaseName> :=
    {Namespaces, Policies, Identity, Configuration, Storage, Crds, Roles, Bindings,
     Infrastructure, Deploy, Scaling, Publish, Admission}

  /** Every kind entered so far has the phase it belongs to. */
  ghost predicate Agrees(m: map<GroupKind, PhaseName>, phaseOf: GroupKind -> PhaseName) {
    forall gk :: gk in m ==> m[gk] == phaseOf(gk)
  }

  method AddPhase(m: map<GroupKind, PhaseName>, gks: seq<GroupKind>, p: PhaseName,
                  ghost phaseOf: GroupKind -> PhaseName)
    returns (m': map<GroupKind, PhaseName>)
    requires Agrees(m, phaseOf) && forall i :: 0 <= i < |gks| ==> phaseOf(gks[i]) == p
    ensures Agrees(m', phaseOf) && forall gk :: gk in m' <==> gk in m || gk in gks
  {
    m' := m;
    for i := 0 to |gks|
      invariant Agrees(m', phaseOf) && forall gk :: gk in m' <==> gk in m || gk in gks[..i]
    {
      m' := m'[gks[i] := p];
    }
  }

  /** The init function: in whatever order the phases are visited, look-ups come out the same. */
  method InitGkPhaseMap() returns (m: map<GroupKind, PhaseName>)
    ensures forall gk :: (if gk in m then m[gk] else Deploy) == DeterminePhase(gk.group, gk.kind)
  {
    ghost var phaseOf := (gk: GroupKind) => DeterminePhase(gk.group, gk.kind);
    m := map[];
    var todo := PHASES;
    while todo != {}
      invariant Agrees(m, phaseOf) && todo <= PHASES
      invariant forall p, gk :: p in PHASES - todo && gk in PhaseGroupKinds(p) ==> gk in m
    {
      var p :| p in todo;
      forall i | 0 <= i < |PhaseGroupKinds(p)| ensures phaseOf(PhaseGroupKinds(p)[i]) == p {
        ListedOnce(p, i);
      }
      m := AddPhase(m, PhaseGroupKinds(p), p, phaseOf);
      todo := todo - {p};
    }
    forall gk | gk !in m ensures DeterminePhase(gk.group, gk.kind) == Deploy {
      OnlyListed(gk.group, gk.kind);
    }
  }
}
