/** Destination resolution from the Kubernetes pod inventory
    (`KubernetesDiscoverer.GetDestinationsForService`). The pod list that the
    cluster API returns is an input of the model. */
module Kubernetes {
  import opened Text

  /** Go's `int32`, the type of a container port number. */
  newtype Int32 = x: int | -0x8000_0000 <= x < 0x8000_0000

  /** `v1.PodRunning`. */
  const PodRunning: string := "Running"

  datatype ContainerPort = ContainerPort(name: string, protocol: string, containerPort: Int32)

  datatype Container = Container(ports: seq<ContainerPort>)

  datatype Pod = Pod(phase: string, podIP: string, containers: seq<Container>)

  /** The decimal string a selected port is recorded as. */
  function PortString(port: ContainerPort): string {
    Itoa(port.containerPort as int)
  }

  // ---------------------------------------------------------------------------
  // The scan, step by step (the loops of the source, one port at a time)
  // ---------------------------------------------------------------------------

  /** `forwardPort` after scanning `ports` of one container, starting from `forwardPort`. */
  function ScanPorts(ports: seq<ContainerPort>, isGrpc: bool, forwardPort: string): string {
    if ports == [] then forwardPort
    else
      var port := ports[0];
      if port.name == "grpc" then
        if isGrpc then PortString(port) else ScanPorts(ports[1..], isGrpc, forwardPort)
      else if port.name == "http" then PortString(port)
      else if port.protocol == "TCP" then ScanPorts(ports[1..], isGrpc, PortString(port))
      else ScanPorts(ports[1..], isGrpc, forwardPort)
  }

  /** `forwardPort` after scanning every container in turn. */
  function ScanContainers(containers: seq<Container>, isGrpc: bool, forwardPort: string): string {
    if containers == [] then forwardPort
    else ScanContainers(containers[1..], isGrpc, ScanPorts(containers[0].ports, isGrpc, forwardPort))
  }

  /** The port string selected for one pod; it starts empty for every pod. */
  function SelectPort(pod: Pod, isGrpc: bool): string {
    ScanContainers(pod.containers, isGrpc, "")
  }

  /** The endpoint a pod contributes, if any. */
  function Endpoint(pod: Pod, isGrpc: bool): Option<string> {
    if pod.phase != PodRunning then None
    else
      var forwardPort := SelectPort(pod, isGrpc);
      if forwardPort == "" || forwardPort == "0" then None
      else if pod.podIP == "" then None
      else Some(FormatEndpoint(pod.podIP, forwardPort, isGrpc))
  }

  function Emit(e: Option<string>): seq<string> {
    if e.Some? then [e.value] else []
  }

  /** The endpoints of `pods`, in pod order. */
  function Destinations(pods: seq<Pod>, isGrpc: bool): seq<string> {
    if pods == [] then []
    else Destinations(pods[..|pods| - 1], isGrpc) + Emit(Endpoint(pods[|pods| - 1], isGrpc))
  }

  // ---------------------------------------------------------------------------
  // The selection rule stated declaratively
  // ---------------------------------------------------------------------------

  /** A port that is taken and ends the scan of its container. */
  predicate Stops(port: ContainerPort, isGrpc: bool) {
    port.name == "http" || (isGrpc && port.name == "grpc")
  }

  /** A port that is taken without ending the scan: any other TCP port not named "grpc". */
  predicate Fallback(port: ContainerPort) {
    port.name != "grpc" && port.name != "http" && port.protocol == "TCP"
  }

  /** Index of the first port that ends the scan. */
  function FirstStop(ports: seq<ContainerPort>, isGrpc: bool): (r: Option<nat>)
    ensures r.Some? ==> r.value < |ports| && Stops(ports[r.value], isGrpc)
    ensures r.Some? ==> forall k :: 0 <= k < r.value ==> !Stops(ports[k], isGrpc)
    ensures r.None? ==> forall k :: 0 <= k < |ports| ==> !Stops(ports[k], isGrpc)
  {
    if ports == [] then None
    else if Stops(ports[0], isGrpc) then Some(0)
    else match FirstStop(ports[1..], isGrpc)
      case None => None
      case Some(k) => Some(k + 1)
  }

  /** Index of the last fallback port. */
  function LastFallback(ports: seq<ContainerPort>): (r: Option<nat>)
    ensures r.Some? ==> r.value < |ports| && Fallback(ports[r.value])
    ensures r.Some? ==> forall k :: r.value < k < |ports| ==> !Fallback(ports[k])
    ensures r.None? ==> forall k :: 0 <= k < |ports| ==> !Fallback(ports[k])
  {
    if ports == [] then None
    else match LastFallback(ports[1..])
      case Some(k) => Some(k + 1)
      case None => if Fallback(ports[0]) then Some(0) else None
  }

  /** The port a container settles on: the first stopping port if there is one,
      otherwise the last fallback port, otherwise none. */
  function ChosenPort(ports: seq<ContainerPort>, isGrpc: bool): Option<nat> {
    match FirstStop(ports, isGrpc)
    case Some(k) => Some(k)
    case None => LastFallback(ports)
  }

  /** The (container, port) pair a pod settles on: the choice of the last
      container that chooses a port at all. */
  function PodChoice(containers: seq<Container>, isGrpc: bool): (r: Option<(nat, nat)>)
    ensures r.Some? ==> r.value.0 < |containers|
    ensures r.Some? ==> ChosenPort(containers[r.value.0].ports, isGrpc) == Some(r.value.1)
    ensures r.Some? ==> forall c :: r.value.0 < c < |containers| ==> ChosenPort(containers[c].ports, isGrpc).None?
    ensures r.None? ==> forall c :: 0 <= c < |containers| ==> ChosenPort(containers[c].ports, isGrpc).None?
  {
    if containers == [] then None
    else match PodChoice(containers[1..], isGrpc)
      case Some(ck) => Some((ck.0 + 1, ck.1))
      case None =>
        match ChosenPort(containers[0].ports, isGrpc)
        case Some(k) => Some((0, k))
        case None => None
  }

  // ---------------------------------------------------------------------------
  // The scan agrees with the declarative rule
  // ---------------------------------------------------------------------------

  /** One container's scan ends on the chosen port, and leaves `forwardPort`
      as it was when the container has no port to choose. */
  lemma {:induction false} ScanPortsChoosesPort(ports: seq<ContainerPort>, isGrpc: bool, forwardPort: string)
    ensures ScanPorts(ports, isGrpc, forwardPort) ==
      match ChosenPort(ports, isGrpc)
      case Some(k) => PortString(ports[k])
      case None => forwardPort
  {
    if ports != [] {
      var port, rest := ports[0], ports[1..];
      if !Stops(port, isGrpc) {
        var next := if Fallback(port) then PortString(port) else forwardPort;
        ScanPortsChoosesPort(rest, isGrpc, next);
        assert ScanPorts(ports, isGrpc, forwardPort) == ScanPorts(rest, isGrpc, next);
        match ChosenPort(rest, isGrpc)
        case Some(k) => assert rest[k] == ports[k + 1];
        case None =>
      }
    }
  }

  /** A pod's scan over all its containers ends on the port of the last
      container that chooses one; an earlier container's choice is overwritten. */
  lemma {:induction false} ScanContainersChoosesPort(containers: seq<Container>, isGrpc: bool, forwardPort: string)
    ensures ScanContainers(containers, isGrpc, forwardPort) ==
      match PodChoice(containers, isGrpc)
      case Some(ck) => PortString(containers[ck.0].ports[ck.1])
      case None => forwardPort
  {
    if containers != [] {
      var rest := containers[1..];
      var next := ScanPorts(containers[0].ports, isGrpc, forwardPort);
      ScanPortsChoosesPort(containers[0].ports, isGrpc, forwardPort);
      ScanContainersChoosesPort(rest, isGrpc, next);
      match PodChoice(rest, isGrpc)
      case Some(ck) => assert rest[ck.0] == containers[ck.0 + 1];
      case None =>
    }
  }

  /** What a pod contributes, in terms of the declarative choice: nothing unless
      it is Running, has a chosen port whose number is not 0, and has an IP;
      otherwise exactly one endpoint built from that IP and port. */
  lemma EndpointByChoice(pod: Pod, isGrpc: bool)
    ensures Endpoint(pod, isGrpc) ==
      if pod.phase != PodRunning then None
      else match PodChoice(pod.containers, isGrpc)
        case None => None
        case Some(ck) =>
          var port := pod.containers[ck.0].ports[ck.1];
          if port.containerPort == 0 || pod.podIP == "" then None
          else Some(FormatEndpoint(pod.podIP, PortString(port), isGrpc))
  {
    ScanContainersChoosesPort(pod.containers, isGrpc, "");
  }

  /** Outside grpc mode a port named "grpc" is never chosen, whatever its protocol. */
  lemma GrpcPortIgnoredOutsideGrpcMode(ports: seq<ContainerPort>, k: nat)
    requires ChosenPort(ports, false) == Some(k)
    ensures ports[k].name != "grpc"
  {
  }

  /** In grpc mode an "http" port listed before every "grpc" port wins. */
  lemma HttpBeforeGrpcWins(ports: seq<ContainerPort>, i: nat, forwardPort: string)
    requires i < |ports| && ports[i].name == "http"
    requires forall k :: 0 <= k < i ==> ports[k].name != "grpc" && ports[k].name != "http"
    ensures ScanPorts(ports, true, forwardPort) == PortString(ports[i])
  {
    ScanPortsChoosesPort(ports, true, forwardPort);
    match FirstStop(ports, true)
    case None =>
    case Some(k) =>
  }

  // ---------------------------------------------------------------------------
  // Properties of the output list
  // ---------------------------------------------------------------------------

  /** Pods are handled one at a time, with nothing carried over: the output for
      a concatenation is the concatenation of the outputs, in the same order. */
  lemma {:induction false} DestinationsAppend(a: seq<Pod>, b: seq<Pod>, isGrpc: bool)
    ensures Destinations(a + b, isGrpc) == Destinations(a, isGrpc) + Destinations(b, isGrpc)
    decreases |b|
  {
    if b == [] {
      assert a + b == a;
    } else {
      var init := b[..|b| - 1];
      assert (a + b)[..|a + b| - 1] == a + init;
      DestinationsAppend(a, init, isGrpc);
    }
  }

  /** At most one endpoint per pod. */
  lemma {:induction false} DestinationsLength(pods: seq<Pod>, isGrpc: bool)
    ensures |Destinations(pods, isGrpc)| <= |pods|
  {
    if pods != [] {
      DestinationsLength(pods[..|pods| - 1], isGrpc);
    }
  }

  /** An endpoint is in the output exactly when some pod produces it. */
  lemma {:induction false} DestinationsMembership(pods: seq<Pod>, isGrpc: bool, e: string)
    ensures e in Destinations(pods, isGrpc) <==>
      exists i :: 0 <= i < |pods| && Endpoint(pods[i], isGrpc) == Some(e)
  {
    if pods != [] {
      var init := pods[..|pods| - 1];
      DestinationsMembership(init, isGrpc, e);
      if exists i :: 0 <= i < |init| && Endpoint(init[i], isGrpc) == Some(e) {
        var i :| 0 <= i < |init| && Endpoint(init[i], isGrpc) == Some(e);
        assert pods[i] == init[i];
      }
      if exists i :: 0 <= i < |pods| && Endpoint(pods[i], isGrpc) == Some(e) {
        var i :| 0 <= i < |pods| && Endpoint(pods[i], isGrpc) == Some(e);
        if i < |init| { assert init[i] == pods[i]; }
      }
    }
  }

  /** Every endpoint comes from a Running pod with an IP, and is that IP joined
      to the pod's selected port in the format of the mode. */
  lemma EndpointsComeFromRunningPods(pods: seq<Pod>, isGrpc: bool, e: string)
    requires e in Destinations(pods, isGrpc)
    ensures exists i :: (0 <= i < |pods| && pods[i].phase == PodRunning && pods[i].podIP != ""
                         && e == FormatEndpoint(pods[i].podIP, SelectPort(pods[i], isGrpc), isGrpc))
  {
    DestinationsMembership(pods, isGrpc, e);
  }

  // ---------------------------------------------------------------------------
  // The operation
  // ---------------------------------------------------------------------------

  /** `GetDestinationsForService`: `podList` is the result of listing the pods
      labelled app=veneur-global (or the error of that call). */
  method GetDestinationsForService(serviceName: string, podList: Result<seq<Pod>>)
    returns (ips: seq<string>, err: Option<Error>)
    ensures podList.Err? ==> ips == [] && err == Some(podList.error)
    ensures podList.Ok? ==> err == None && ips == Destinations(podList.value, IsGrpc(serviceName))
  {
    var isGrpc := IsGrpc(serviceName);
    if podList.Err? {
      return [], Some(podList.error);
    }
    var pods := podList.value;
    ips := [];
    err := None;
    for podIndex := 0 to |pods|
      invariant ips == Destinations(pods[..podIndex], isGrpc)
    {
      var pod := pods[podIndex];
      assert pods[..podIndex + 1][..podIndex] == pods[..podIndex];
      var forwardPort := "";

      if pod.phase != PodRunning {
        continue;
      }

      if |pod.containers| > 0 {
        for ci := 0 to |pod.containers|
          invariant SelectPort(pod, isGrpc) == ScanContainers(pod.containers[ci..], isGrpc, forwardPort)
        {
          var container := pod.containers[ci];
          assert pod.containers[ci..][1..] == pod.containers[ci + 1..];
          ghost var before := forwardPort;
          for pi := 0 to |container.ports|
            invariant ScanPorts(container.ports, isGrpc, before) == ScanPorts(container.ports[pi..], isGrpc, forwardPort)
          {
            var port := container.ports[pi];
            assert container.ports[pi..][1..] == container.ports[pi + 1..];
            if port.name == "grpc" {
              if isGrpc {
                forwardPort := Itoa(port.containerPort as int);
                break;
              }
              continue;
            }
            if port.name == "http" {
              forwardPort := Itoa(port.containerPort as int);
              break;
            }
            if port.protocol == "TCP" {
              forwardPort := Itoa(port.containerPort as int);
            }
          }
          assert forwardPort == ScanPorts(container.ports, isGrpc, before);
        }
      }

      if forwardPort == "" || forwardPort == "0" {
        continue;
      }

      if pod.podIP == "" {
        continue;
      }

      var podIP: string;
      if isGrpc {
        podIP := pod.podIP + ":" + forwardPort;
      } else {
        podIP := "http://" + pod.podIP + ":" + forwardPort;
      }

      ips := ips + [podIP];
    }
    assert pods[..|pods|] == pods;
  }
}
