# Veneur destination discovery and load generator, modelled in Dafny

This project models three pieces of sequential logic from veneur:

- **Kubernetes destination resolution** (`KubernetesDiscoverer.GetDestinationsForService`).
  It takes the list of pods labelled `app=veneur-global` and turns each Running pod into one
  endpoint string. For each pod it scans every container's ports and keeps a `forwardPort`:
  - an `"http"` port is taken and ends that container's scan;
  - in grpc mode a `"grpc"` port is taken and ends the scan; outside grpc mode it is skipped;
  - any other TCP port is taken, and a later candidate can replace it.

  The pod is then dropped if the port is `""` or `"0"`, or if the pod has no IP. Otherwise
  it yields `ip:port` (grpc mode) or `http://ip:port`. Output keeps pod order.
- **EC2 destination resolution** (`Ec2Discoverer.GetDestinationsForService`). It builds an
  instance-id → private-IP map from the instances tagged with the service name. If there are
  no instances it returns at once. Otherwise it formats each autoscaling record in state
  `InService` with port 8128 (grpc mode) or 8127 (`http://`), then sorts the list.
- **Load-generator bookkeeping** (`cmd/veneur-load`):
  - the static connection pool: fail-fast construction, random-index selection, a no-op return;
  - the loader: its construction, and its runner loop that calls the unit of work and then
    adds one to the request counter;
  - the queries-per-second figure printed at shutdown.

Cluster, cloud, dial and limiter calls are inputs of the model, as values or as `Result`s:
- the pod list (or its error);
- the `DescribeInstances` result (or its error), and the `DescribeAutoScalingInstances` result
  for each possible id list (or its error);
- the outcome of each UDP dial;
- the outcome of each rate-limiter wait;
- the random draw.

Files:
- `text.dfy`: shared string logic (ASCII lower-casing, substring search, `strconv.Itoa`,
  endpoint formatting, Go's string order).
- `sorting.dfy`: `sort.Strings`.
- `kubernetes.dfy`, `ec2.dfy`, `load.dfy`: one module per core source file.

Where the source's comments or intent differ from its code, the model follows the code:
- The comment at kubernetes.go:36-38 describes grpc mode as finding a port named grpc. The
  code at kubernetes.go:65-78 does something else. In grpc mode an `"http"` port listed
  before the `"grpc"` port wins, because the scan ends at the first of either. A later
  container that chooses a port overwrites an earlier container's choice.
- Only the EC2 discoverer sorts its output (ec2_discoverer.go:91). The Kubernetes discoverer
  keeps pod order.
- The report at cmd/veneur-load/main.go:56 divides unsigned integers, so the rate is rounded
  down, not to the nearest whole number (`ReportAfterTwoSeconds`).
- `newSingleConnector` does not check its connection count: `nConns <= 0` gives an empty
  pool. `Conn` on an empty pool computes a remainder by zero (cmd/veneur-load/main.go:126) and
  panics, so `Conn` requires a non-empty pool.

## Model

| member | source | states |
|---|---|---|
| `Text.Contains` | kubernetes.go:39 | `strings.Contains` is true exactly when some position of the string starts a copy of the substring |
| `Text.Lower` | kubernetes.go:39 | lower-casing keeps the length and lower-cases every ASCII letter position by position |
| `Text.IsGrpcIff` | kubernetes.go:39 | grpc mode holds exactly when the service name has the letters g, r, p, c in a row, in any letter case (the same test is at ec2_discoverer.go:35) |
| `Text.Itoa` | kubernetes.go:67 | the port string is never empty, has no ':', and is "0" exactly when the port number is 0 |
| `Text.ItoaRoundTrip` | kubernetes.go:75 | reading back the decimal string of a port number gives the same number |
| `Text.EndpointRoundTrip` | kubernetes.go:108-113 | an endpoint `ip:port` / `http://ip:port` parses back into exactly that IP and port when the port has no ':' |
| `Text.StrLeqTotal` | ec2_discoverer.go:91 | any two strings are ordered one way or the other in Go's string order |
| `Text.StrLeqAntisymmetric` | ec2_discoverer.go:91 | strings ordered both ways are equal |
| `Text.StrLeqTransitive` | ec2_discoverer.go:91 | Go's string order is transitive |
| `Sorting.SortStrings` | ec2_discoverer.go:91 | after sorting in place the array is in ascending string order and is a permutation of what it held |
| `Sorting.SortedPermutationUnique` | ec2_discoverer.go:91 | two sorted arrangements of the same strings are equal, so the sorted output is fully determined |
| `Kubernetes.FirstStop` | kubernetes.go:65-78 | gives the first port that ends a container's scan ("http", or "grpc" in grpc mode), or says there is none |
| `Kubernetes.LastFallback` | kubernetes.go:81-84 | gives the last other TCP port not named "grpc"/"http", or says there is none |
| `Kubernetes.PodChoice` | kubernetes.go:57-86 | gives the container and port a pod settles on: the choice of the last container that chooses any port; every later container chooses none |
| `Kubernetes.ScanPortsChoosesPort` | kubernetes.go:59-85 | one container's scan ends on the first stopping port if there is one, else on the last fallback TCP port, else leaves `forwardPort` unchanged |
| `Kubernetes.ScanContainersChoosesPort` | kubernetes.go:57-86 | scanning all containers yields the port of the last container that chooses one; earlier choices are overwritten; with none, `forwardPort` is unchanged |
| `Kubernetes.EndpointByChoice` | kubernetes.go:50-113 | a pod yields nothing unless it is Running, has a chosen port whose number is not 0, and has an IP; otherwise it yields exactly its IP and that port in the mode's format |
| `Kubernetes.GrpcPortIgnoredOutsideGrpcMode` | kubernetes.go:65-72 | outside grpc mode a port named "grpc" is never chosen, whatever its protocol |
| `Kubernetes.HttpBeforeGrpcWins` | kubernetes.go:65-78 | in grpc mode an "http" port listed before any "grpc" port is the one selected |
| `Kubernetes.DestinationsAppend` | kubernetes.go:47-50 | the output for a concatenation of pod lists is the concatenation of their outputs: pod order is kept and nothing carries over between pods |
| `Kubernetes.DestinationsLength` | kubernetes.go:47 | the output has at most one endpoint per pod |
| `Kubernetes.DestinationsMembership` | kubernetes.go:48-116 | a string is in the output exactly when some pod yields it as its endpoint |
| `Kubernetes.EndpointsComeFromRunningPods` | kubernetes.go:52-113 | every endpoint comes from a Running pod with an IP, and is that IP joined to the pod's selected port in the mode's format |
| `Kubernetes.GetDestinationsForService` | kubernetes.go:33-118 | on a pod-list error returns no endpoints and that error; otherwise, with its nested loops, returns no error and the endpoints of the pods in pod order |
| `Ec2.InstanceIds` | ec2_discoverer.go:58-63 | the id list holds one id per instance, in query order |
| `Ec2.InstanceIpsKeys` | ec2_discoverer.go:58-63 | the id→IP map's keys are exactly the instance ids |
| `Ec2.InstanceIpsLastWins` | ec2_discoverer.go:61 | the IP recorded for an id is that of its last instance; a later duplicate id overwrites an earlier one |
| `Ec2.MissingIdHasEmptyIp` | ec2_discoverer.go:81 | an id with no instance yields the empty IP |
| `Ec2.InServiceRecords` | ec2_discoverer.go:78-79 | keeps only records whose lifecycle state is "InService", and a record is kept exactly when it is InService |
| `Ec2.InServiceRecordsMultiplicity` | ec2_discoverer.go:78-79 | every InService record is kept as many times as it occurs, and no other record is kept |
| `Ec2.InServiceRecordsAppend` | ec2_discoverer.go:78-79 | the filter keeps record order: filtering two lists one after the other gives the filtered first list followed by the filtered second |
| `Ec2.EntriesFormatInServiceRecords` | ec2_discoverer.go:78-89 | before sorting there is exactly one entry per InService record, in record order, each the record's IP in the mode's format |
| `Ec2.EntriesUseFixedPorts` | ec2_discoverer.go:82-86 | with the constructed discoverer every entry parses back to its record's IP and port 8128 (grpc mode) or 8127 (http) |
| `Ec2.Ec2Discoverer.constructor` | ec2_discoverer.go:26-30 | a new discoverer has grpc port "8128" and http port "8127" |
| `Ec2.NewEc2Discoverer` | ec2_discoverer.go:19-32 | a session error is returned with no discoverer; otherwise a fresh discoverer with the fixed ports |
| `Ec2.Ec2Discoverer.GetDestinationsForService` | ec2_discoverer.go:34-94 | an instance-query error, or an error from the autoscaling query made with the instance ids found, is returned with an empty list. No instances gives an empty list and no error, whatever the autoscaling query would say. Otherwise the list is sorted, is a permutation of the formatted InService entries, and comes with no error |
| `VeneurLoad.SingleConnector.Conn` | cmd/veneur-load/main.go:124-129 | for a non-empty pool and any non-negative draw, returns without error a connection of the pool |
| `VeneurLoad.EveryConnSelectable` | cmd/veneur-load/main.go:124-128 | every connection of the pool is selected by some draw |
| `VeneurLoad.ConnIgnoresHashAndReturn` | cmd/veneur-load/main.go:124-133 | the selection does not depend on the hash argument, and a Return does not change later selections |
| `VeneurLoad.SingleConnector.Return` | cmd/veneur-load/main.go:131-133 | returning a connection leaves the pool as it was |
| `VeneurLoad.NewSingleConnector` | cmd/veneur-load/main.go:109-122 | succeeds exactly when all `nConns` dials succeed, then holds exactly those connections in dial order; otherwise fails with the error of the first failed dial, with no partial pool |
| `VeneurLoad.Increment` | cmd/veneur-load/main.go:97 | the atomic add raises the counter by exactly one, except that 2^64 - 1 wraps to 0 |
| `VeneurLoad.Loader.constructor` | cmd/veneur-load/main.go:76-83 | a new loader stores `cb` and `parallelism` as given, builds the limiter with rate and burst `qps`, and starts with a zero counter and no completed calls |
| `VeneurLoad.Loader.Runner` | cmd/veneur-load/main.go:91-99 | each granted wait is followed by one callback and one increment, so the counter stays equal to the number of completed callbacks modulo 2^64; the first failed wait stops the loop with that error |
| `VeneurLoad.RoundedSeconds` | cmd/veneur-load/main.go:56 | the elapsed time in whole seconds is the nearest whole second, halves rounded up |
| `VeneurLoad.AchievedQps` | cmd/veneur-load/main.go:56 | the reported rate is the request count divided by the rounded seconds, rounded down; defined only when the divisor is not 0 |
| `VeneurLoad.PrematureInterruptDividesByZero` | cmd/veneur-load/main.go:56 | the divisor of the report is 0 exactly when the interrupt comes within the first half second |
| `VeneurLoad.Report` | cmd/veneur-load/main.go:52-57 | the guarded report keeps the count and elapsed time; it has no rate exactly when under half a second elapsed, and otherwise the rounded-down rate |
| `VeneurLoad.ReportAfterTwoSeconds` | cmd/veneur-load/main.go:56 | after exactly two seconds the reported rate is the count halved, rounded down |

## Findings

| source | as written | input that shows it | evidently intended | confidence | as-written member | corrected member |
|---|---|---|---|---|---|---|
| cmd/veneur-load/main.go:56 | the report divides the request count by `uint64(math.Round(dur.Seconds()))` with no guard | an interrupt 0.1 s after start: the divisor rounds to 0 and the integer division panics, so no report is printed | report the count and the elapsed time, with the rate marked undefined | high; not executed | `VeneurLoad.PrematureInterruptDividesByZero` | `VeneurLoad.Report` |

## Left out

- Creating the Kubernetes client and the AWS session is not modelled: `NewKubernetesDiscoverer`, `rest.InClusterConfig`, and the session built inside the EC2 `GetDestinationsForService`, whose error is ignored. The query results they produce are inputs instead.
- The EC2 instance result is modelled as one flat sequence of instances. Its grouping into reservations has no effect on the map or on the id list.
- Nil pointer dereferences are not modelled. These are the `*instance.InstanceId`, `*instance.PrivateIpAddress` and `*instance.LifecycleState` reads, which panic on a nil field.
- Go's distinction between a nil slice and an empty slice is not modelled; both are the empty sequence.
- `Text.Lower`: ASCII only. Go's `strings.ToLower` also lower-cases non-ASCII letters.
- `Sorting.SortStrings`: an insertion sort stands in for the library's `sort.Strings`, whose algorithm is not part of this model. Only its contract (sorted, a permutation) is claimed.
- Logging is not modelled (logrus and `log.Println`); it has no effect on results.
- `VeneurLoad.Loader.Runner`: runs one iteration per given limiter outcome instead of forever. A failed wait ends the loop with the error. In the source it ends the whole process through `log.Fatalf`.
- `log.Fatalf` process exits are not modelled as exits. A failed dial becomes an `Err` result of `NewSingleConnector`, and a failed wait becomes the error that `Runner` returns.
- The following are not modelled:
  - the goroutines and `Start`, concurrency and the atomics;
  - the `rate.Limiter` token bucket, whose source is not part of this model (it is kept only as its rate and burst);
  - `sync.Pool` and the random source;
- `VeneurLoad.SingleConnector.Conn`: requires a non-empty pool (`|conns| > 0`). On an empty pool the source computes a remainder by zero and panics (cmd/veneur-load/main.go:126); the model does not represent that panic. The draw is an arbitrary non-negative integer. Uniformity of `rand` is statistical and cannot be stated here.
- `Text.StrLeq` compares strings as sequences of Unicode code points. Go's `sort.Strings` compares bytes, and the two orders agree on valid UTF-8. Go strings that are not valid UTF-8 cannot be represented.
- The callback `cb` is opaque: calling it is only counted. The ingestion it performs (`veneurLoadGenerator.run`, `metricingester`) is not part of this model, and neither is its error, which the source ignores.
- The loader's `stopped` field is kept and set to false by the constructor; nothing reads or writes it afterwards, so no operation here involves it.
- Signal handling, the pprof HTTP server, flag parsing and `main`'s wiring are not modelled.
- `VeneurLoad.RoundedSeconds`: takes whole nanoseconds and computes `(ns + 500000000) / 1000000000` in integers. It stands in for `math.Round` on the float64 `dur.Seconds()`.
