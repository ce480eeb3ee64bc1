/** Destination resolution from the EC2 inventory
    (`Ec2Discoverer.GetDestinationsForService`). The two AWS query results
    (instances tagged with the service name, and their autoscaling records)
    are inputs of the model. */
module Ec2 {
  import opened Text
  import Sorting

  /** The ports fixed when a discoverer is constructed. */
  const HttpPort: string := "8127"
  const GrpcPort: string := "8128"

  /** The AWS `ec2.Instance` fields the discoverer reads. */
  datatype Instance = Instance(instanceId: string, privateIpAddress: string)

  /** The AWS `autoscaling.InstanceDetails` fields the discoverer reads. */
  datatype AutoScalingInstance = AutoScalingInstance(instanceId: string, lifecycleState: string)

  const InService: string := "InService"

  // ---------------------------------------------------------------------------
  // Specification functions
  // ---------------------------------------------------------------------------

  /** The instance ids, in query order. */
  function InstanceIds(instances: seq<Instance>): (ids: seq<string>)
    ensures |ids| == |instances|
    ensures forall i :: 0 <= i < |instances| ==> ids[i] == instances[i].instanceId
  {
    if instances == [] then []
    else InstanceIds(instances[..|instances| - 1]) + [instances[|instances| - 1].instanceId]
  }

  /** The id -> private IP map, filled in query order. */
  function InstanceIps(instances: seq<Instance>): map<string, string> {
    if instances == [] then map[]
    else
      var last := instances[|instances| - 1];
      InstanceIps(instances[..|instances| - 1])[last.instanceId := last.privateIpAddress]
  }

  /** Go's map index: the zero value "" for a missing key. */
  function IpOf(ips: map<string, string>, id: string): string {
    if id in ips then ips[id] else ""
  }

  /** The endpoint of one autoscaling record. */
  function Node(ips: map<string, string>, id: string, isGrpc: bool, grpcPort: string, httpPort: string): string {
    if isGrpc then FormatEndpoint(IpOf(ips, id), grpcPort, true)
    else FormatEndpoint(IpOf(ips, id), httpPort, false)
  }

  /** The autoscaling records whose lifecycle state is exactly "InService", in order. */
  function InServiceRecords(records: seq<AutoScalingInstance>): (r: seq<AutoScalingInstance>)
    ensures |r| <= |records|
    ensures forall k :: 0 <= k < |r| ==> r[k].lifecycleState == InService
    ensures forall x :: x in r <==> x in records && x.lifecycleState == InService
  {
    if records == [] then []
    else
      var last := records[|records| - 1];
      InServiceRecords(records[..|records| - 1]) + (if last.lifecycleState == InService then [last] else [])
  }

  /** The filter on a non-empty list: the filtered prefix, then the last record
      if it is InService. */
  lemma InServiceRecordsSnoc(s: seq<AutoScalingInstance>, x: AutoScalingInstance)
    ensures InServiceRecords(s + [x])
         == InServiceRecords(s) + (if x.lifecycleState == InService then [x] else [])
  {
    assert (s + [x])[..|s + [x]| - 1] == s;
  }

  /** The filter keeps every InService record as many times as it occurs, and
      no other record. */
  lemma {:induction false} InServiceRecordsMultiplicity(records: seq<AutoScalingInstance>)
    ensures forall x :: multiset(InServiceRecords(records))[x]
                     == (if x.lifecycleState == InService then multiset(records)[x] else 0)
    decreases |records|
  {
    if records != [] {
      var init, last := records[..|records| - 1], records[|records| - 1];
      assert records == init + [last];
      InServiceRecordsMultiplicity(init);
      InServiceRecordsSnoc(init, last);
    }
  }

  /** The filter keeps record order: filtering a concatenation concatenates the
      filtered parts. */
  lemma {:induction false} InServiceRecordsAppend(a: seq<AutoScalingInstance>, b: seq<AutoScalingInstance>)
    ensures InServiceRecords(a + b) == InServiceRecords(a) + InServiceRecords(b)
    decreases |b|
  {
    if b == [] {
      assert a + b == a;
    } else {
      var init, last := b[..|b| - 1], b[|b| - 1];
      assert b == init + [last];
      assert a + b == (a + init) + [last];
      var tail := if last.lifecycleState == InService then [last] else [];
      calc {
        InServiceRecords(a + b);
        { InServiceRecordsSnoc(a + init, last); }
        InServiceRecords(a + init) + tail;
        { InServiceRecordsAppend(a, init); }
        (InServiceRecords(a) + InServiceRecords(init)) + tail;
        InServiceRecords(a) + (InServiceRecords(init) + tail);
        { InServiceRecordsSnoc(init, last); }
        InServiceRecords(a) + InServiceRecords(b);
      }
    }
  }

  /** The unsorted output: one endpoint per InService record, in record order. */
  function Entries(records: seq<AutoScalingInstance>, ips: map<string, string>, isGrpc: bool,
                   grpcPort: string, httpPort: string): seq<string>
  {
    if records == [] then []
    else
      var last := records[|records| - 1];
      Entries(records[..|records| - 1], ips, isGrpc, grpcPort, httpPort)
        + (if last.lifecycleState == InService then [Node(ips, last.instanceId, isGrpc, grpcPort, httpPort)] else [])
  }

  // ---------------------------------------------------------------------------
  // Lemmas
  // ---------------------------------------------------------------------------

  /** The map holds exactly the ids of the instances. */
  lemma {:induction false} InstanceIpsKeys(instances: seq<Instance>)
    ensures InstanceIps(instances).Keys == set i | 0 <= i < |instances| :: instances[i].instanceId
  {
    if instances != [] {
      var init := instances[..|instances| - 1];
      InstanceIpsKeys(init);
      var n := |instances| - 1;
      assert (set i | 0 <= i < |instances| :: instances[i].instanceId)
          == (set i | 0 <= i < |init| :: init[i].instanceId) + {instances[n].instanceId} by {
        forall i | 0 <= i < |init| ensures init[i] == instances[i] { }
      }
    }
  }

  /** The IP recorded for an id is the one of its last instance: a later
      duplicate id overwrites an earlier one. */
  lemma {:induction false} InstanceIpsLastWins(instances: seq<Instance>, i: nat)
    requires i < |instances|
    requires forall j :: i < j < |instances| ==> instances[j].instanceId != instances[i].instanceId
    ensures IpOf(InstanceIps(instances), instances[i].instanceId) == instances[i].privateIpAddress
  {
    var n := |instances| - 1;
    if i < n {
      var init := instances[..n];
      assert init[i] == instances[i];
      InstanceIpsLastWins(init, i);
    }
  }

  /** An id that no instance has yields the empty IP. */
  lemma MissingIdHasEmptyIp(instances: seq<Instance>, id: string)
    requires forall i :: 0 <= i < |instances| ==> instances[i].instanceId != id
    ensures IpOf(InstanceIps(instances), id) == ""
  {
    InstanceIpsKeys(instances);
  }

  /** The unsorted output is the InService records, each formatted, in order. */
  lemma {:induction false} EntriesFormatInServiceRecords(records: seq<AutoScalingInstance>, ips: map<string, string>,
                                                         isGrpc: bool, grpcPort: string, httpPort: string)
    ensures |Entries(records, ips, isGrpc, grpcPort, httpPort)| == |InServiceRecords(records)|
    ensures forall k :: 0 <= k < |InServiceRecords(records)| ==>
      Entries(records, ips, isGrpc, grpcPort, httpPort)[k]
        == Node(ips, InServiceRecords(records)[k].instanceId, isGrpc, grpcPort, httpPort)
  {
    if records != [] {
      EntriesFormatInServiceRecords(records[..|records| - 1], ips, isGrpc, grpcPort, httpPort);
    }
  }

  /** Every entry built with the constructed discoverer's ports reads back as
      the IP of its InService record and port 8128 (grpc mode) or, after
      "http://", port 8127. */
  lemma EntriesUseFixedPorts(records: seq<AutoScalingInstance>, ips: map<string, string>, isGrpc: bool, k: nat)
    requires k < |Entries(records, ips, isGrpc, GrpcPort, HttpPort)|
    ensures k < |InServiceRecords(records)|
    ensures ParseEndpoint(Entries(records, ips, isGrpc, GrpcPort, HttpPort)[k], isGrpc)
              == Some((IpOf(ips, InServiceRecords(records)[k].instanceId), if isGrpc then "8128" else "8127"))
  {
    EntriesFormatInServiceRecords(records, ips, isGrpc, GrpcPort, HttpPort);
    var id := InServiceRecords(records)[k].instanceId;
    EndpointRoundTrip(IpOf(ips, id), if isGrpc then GrpcPort else HttpPort, isGrpc);
  }

  // ---------------------------------------------------------------------------
  // The discoverer
  // ---------------------------------------------------------------------------

  class Ec2Discoverer {
    const grpcPort: string
    const httpPort: string

    /** `NewEc2Discoverer` once its AWS session exists. */
    constructor ()
      ensures grpcPort == GrpcPort && httpPort == HttpPort
    {
      grpcPort := GrpcPort;
      httpPort := HttpPort;
    }

    /** `GetDestinationsForService`. `described` is the result of DescribeInstances
        filtered by the tag key `serviceName`; `describeAutoScaling(ids)` is the
        result of DescribeAutoScalingInstances for the id list `ids`, which is
        queried with the ids found only when there is at least one instance. */
    method GetDestinationsForService(serviceName: string, described: Result<seq<Instance>>,
                                     describeAutoScaling: seq<string> -> Result<seq<AutoScalingInstance>>)
      returns (out: seq<string>, err: Option<Error>)
      ensures described.Err? ==> out == [] && err == Some(described.error)
      ensures described.Ok? && described.value == [] ==> out == [] && err == None
      ensures (described.Ok? && described.value != [] &&
               describeAutoScaling(InstanceIds(described.value)).Err?) ==>
        out == [] && err == Some(describeAutoScaling(InstanceIds(described.value)).error)
      ensures (described.Ok? && described.value != [] &&
               describeAutoScaling(InstanceIds(described.value)).Ok?) ==>
        && err == None
        && Sorted(out)
        && multiset(out) == multiset(Entries(describeAutoScaling(InstanceIds(described.value)).value,
                                             InstanceIps(described.value),
                                             IsGrpc(serviceName), grpcPort, httpPort))
    {
      var isGrpc := IsGrpc(serviceName);
      var ids: seq<string> := [];
      var instancesIps: map<string, string> := map[];
      out := [];

      if described.Err? {
        return out, Some(described.error);
      }
      var instances := described.value;
      for i := 0 to |instances|
        invariant ids == InstanceIds(instances[..i])
        invariant instancesIps == InstanceIps(instances[..i])
      {
        assert instances[..i + 1][..i] == instances[..i];
        ids := ids + [instances[i].instanceId];
        instancesIps := instancesIps[instances[i].instanceId := instances[i].privateIpAddress];
      }
      assert instances[..|instances|] == instances;

      // If we can't find any instances then just return
      if |ids| == 0 {
        return out, None;
      }

      var autoscaling := describeAutoScaling(ids);
      if autoscaling.Err? {
        return out, Some(autoscaling.error);
      }
      var records := autoscaling.value;
      for i := 0 to |records|
        invariant out == Entries(records[..i], instancesIps, isGrpc, grpcPort, httpPort)
      {
        assert records[..i + 1][..i] == records[..i];
        var instance := records[i];
        if instance.lifecycleState == InService {
          var node: string;
          var ip := if instance.instanceId in instancesIps then instancesIps[instance.instanceId] else "";
          if isGrpc {
            node := ip + ":" + grpcPort;
          } else {
            node := "http://" + ip + ":" + httpPort;
          }
          out := out + [node];
        }
      }
      assert records[..|records|] == records;

      var buffer := new string[|out|](k requires 0 <= k < |out| => out[k]);
      assert buffer[..] == out;
      Sorting.SortStrings(buffer);
      out := buffer[..];

      return out, None;
    }
  }

  /** `NewEc2Discoverer`: fails with the session error, or yields a discoverer
      with the fixed ports. */
  method NewEc2Discoverer(sessionErr: Option<Error>) returns (d: Ec2Discoverer?, err: Option<Error>)
    ensures sessionErr.Some? ==> d == null && err == sessionErr
    ensures sessionErr.None? ==> d != null && fresh(d) && err == None
    ensures d != null ==> d.grpcPort == "8128" && d.httpPort == "8127"
  {
    if sessionErr.Some? {
      return null, sessionErr;
    }
    d := new Ec2Discoverer();
    err := None;
  }
}
