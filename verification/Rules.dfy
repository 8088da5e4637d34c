/** The rule and pod objects of the API, as far as the controllers read them. */
module Rules {
  import opened Wrappers

  datatype CollectionRule = CollectionRule(
    uid: string,
    stdout: bool,
    path: seq<string>,
    fields: map<string, string>,
    rootConfigurations: map<string, string>,
    index: string,
    topic: string,
    tags: seq<string>,
    excludeFiles: seq<string>)

  datatype ContainerRule = ContainerRule(containers: seq<string>, rules: seq<CollectionRule>)

  datatype Collector = Collector(
    enable: bool,
    matchLabels: map<string, string>,
    containerRule: seq<ContainerRule>)

  type Spec = seq<Collector>

  datatype Volume = Volume(name: string, claimName: Option<string>)

  datatype VolumeMount = VolumeMount(name: string, mountPath: string)

  datatype Container = Container(name: string, volumeMounts: seq<VolumeMount>)

  datatype Owner = Owner(kind: string, name: string)

  datatype ContainerStatus = ContainerStatus(name: string, containerID: string, ready: bool, running: bool)

  datatype Pod = Pod(
    namespace: string,
    name: string,
    uid: string,
    nodeName: string,
    labels: map<string, string>,
    deleting: bool,
    owners: seq<Owner>,
    volumes: seq<Volume>,
    containers: seq<Container>,
    initStatuses: seq<ContainerStatus>,
    statuses: seq<ContainerStatus>)

  datatype ContainerRef = ContainerRef(name: string, containerID: string)

  /** What the generation of a configuration reads of a pod. */
  datatype PodView = PodView(
    namespace: string,
    name: string,
    uid: string,
    nodeName: string,
    owners: seq<Owner>,
    volumes: seq<Volume>,
    containers: seq<Container>,
    initRefs: seq<ContainerRef>,
    refs: seq<ContainerRef>)

  function Refs(statuses: seq<ContainerStatus>): (r: seq<ContainerRef>)
    ensures |r| == |statuses|
  {
    seq(|statuses|, i requires 0 <= i < |statuses| => ContainerRef(statuses[i].name, statuses[i].containerID))
  }

  function View(pod: Pod): PodView {
    PodView(pod.namespace, pod.name, pod.uid, pod.nodeName, pod.owners, pod.volumes, pod.containers,
            Refs(pod.initStatuses), Refs(pod.statuses))
  }

  datatype HostRule = HostRule(uid: string, path: seq<string>)

  /** What a configuration file is rendered from; Torn is what a failed write leaves behind. */
  datatype Content =
    | PodConfig(rules: seq<ContainerRule>, pod: PodView)
    | HostConfig(hostRules: seq<HostRule>, node: string)
    | Torn

  /** The selector built from a set of labels: every label must be present with its value. */
  predicate Selects(matchLabels: map<string, string>, labels: map<string, string>) {
    forall k | k in matchLabels :: k in labels && labels[k] == matchLabels[k]
  }

  /** A set of labels selects exactly the pods that have them all. */
  lemma {:induction false} SelectsExactly(matchLabels: map<string, string>, labels: map<string, string>)
    ensures Selects(matchLabels, labels) <==> matchLabels.Items <= labels.Items
  {
    if Selects(matchLabels, labels) {
      forall e | e in matchLabels.Items
        ensures e in labels.Items
      {
        assert e.0 in matchLabels && matchLabels[e.0] == e.1;
      }
    }
    if matchLabels.Items <= labels.Items {
      forall k | k in matchLabels
        ensures k in labels && labels[k] == matchLabels[k]
      {
        assert (k, matchLabels[k]) in matchLabels.Items;
      }
    }
  }

  /** What is read of a pod, one by one: of each container status only the name and the ID. */
  lemma {:induction false} ViewExactly(pod: Pod, i: int)
    ensures var v := View(pod);
            && v.namespace == pod.namespace && v.name == pod.name && v.uid == pod.uid && v.nodeName == pod.nodeName
            && v.owners == pod.owners && v.volumes == pod.volumes && v.containers == pod.containers
            && |v.refs| == |pod.statuses| && |v.initRefs| == |pod.initStatuses|
            && (0 <= i < |v.refs| ==>
                  v.refs[i].name == pod.statuses[i].name && v.refs[i].containerID == pod.statuses[i].containerID)
            && (0 <= i < |v.initRefs| ==>
                  && v.initRefs[i].name == pod.initStatuses[i].name
                  && v.initRefs[i].containerID == pod.initStatuses[i].containerID)
  {
  }
}
