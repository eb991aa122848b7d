# Verified models of the stateful parts of mk8s

mk8s is mostly glue around Kubernetes and Google Cloud clients. This project models the five parts of it
whose correctness is a statement about whole runs, arbitrary interleavings or arbitrary text:

- **The pod/IP index** (`PodIndex.dfy`, `K8SDataHandlers.dfy`, with `EventTraces.dfy`): the informer handlers that keep
  an IP-to-pod map, a name-to-pod map and counters, against the map of live pods they stand for.
- **The CSR signing controller** (`CsrProtocol.dfy`, `CsrSafety.dfy`, `CsrController.dfy`): any number of signer
  replicas, their informer caches, and an API server that accepts a status write only for the version it holds;
  its invariant, what follows for every run, and the handlers.
- **The cluster registry** (`ClusterNames.dfy`, `Clusters.dfy`, `Registry.dfy`, `K8SSet.dfy`, `Gke.dfy`): names
  printed by one file and parsed by another, four loaders with different overwrite rules, the tiered search
  for a default cluster, and the precedence of defaults at start-up.
- **The licence-header checker** (`HeaderLines.dfy`, `HeaderText.dfy`, `HeaderCheck.dfy`, `HeaderFiles.dfy`):
  stripping, splitting and substituting over unbounded text, and which files of each kind pass.
- **The bearer-token cache** (`TokenCache.dfy`): freshness and fetch rate under a clock that does not go back.

Objects whose methods update their fields are classes; each method is tied to a function on values, and the
properties of runs are lemmas about those functions. Informer objects, clusters on the heap, and caches are
updated in place as in the source. Maps that Go iterates in unspecified order are iterated in any order here.
What a foreign call returns (listings, clocks, decoded requests, issued certificates, files) is a parameter.

## What the code does, where its comments say otherwise

- The informer contract quoted at `pkg/ip/ipdata.go:14-30` allows runs after which the index is wrong. On any trace
  at all, it is exact if and only if each event that assigns an address is the last on the address exactly when it
  is the last about its pod (`IndexExactIff`). If no event comes with an address another pod is live at, which the
  contract does not promise, only two things can go wrong: `OnDelete` ignores DeletedFinalStateUnknown, and
  `OnUpdate` leaves the old address of a pod in place. The index is then exact if and only if each address
  abandoned that way was touched again (`UnsharedExactIff`). `TombstoneLeavesDeadPod` and
  `ChangedAddressLeavesOldPod` are runs where it was not.
- `pkg/csrctrl/csr_controller.go:64-66` logs that an unapproved request is ignored, and goes on to sign it
  (`UnapprovedIsSigned`). Only approved requests get certificates if and only if every object a handler is about
  to sign is approved at that moment, which the branch that logs could have tested (`OnlyApprovedIff`). A denial
  recorded after an object was delivered is not seen by its handler, but is never overwritten by the status
  write that follows (`NothingOverwritten`).
- `pkg/csrctrl/csr_controller.go:60-63` is what keeps a request from being signed twice, but it looks at the
  cached object. A re-list that delivers the same unsigned version again makes the replica issue a second
  certificate for it (`RelistIssuesTwice`), although the server stores one at most (`OneSuccessfulWrite`); a
  replica issues no more certificates for a request than distinct unsigned versions of it, whatever handlers
  run later, if and only if no such version was delivered twice or it would sign none (`IssuanceBoundIff`).
- `pkg/csrctrl/csr_controller.go:75-80` puts the certificate into the cached object before it writes, and gives up
  when the write fails. The object then counts as signed for good (`SpentForGood`), and the request stays without
  a certificate until another object of it is delivered (`FailedWriteIsFinal`, with a run in `LostWriteIsFinal`).
- `tools/boilerplate/boilerplate.py:103` speaks of content at the top of files; the patterns are multi-line, so
  the first match is removed wherever it starts, also between two lines of the header (`StripIff`, and the
  parameter `m` of `FileComplete`). What is left are the last lines of the file if and only if the first match
  starts at the first line, apart from empty lines that the match repeats at its end (`OnlyTopIff`).
- `kube_cluster.go:104-107` indexes four parts before it looks at their number, so a name that starts with
  `gke_` must have four; `Parses` is a precondition where names come from a kubeconfig, and is proved for
  printed names. Once the location is cached, the third result of `GcpInfo` is the full name instead of the
  short one (`kube_cluster.go:99` against `:109`): a second call repeats the first if and only if the name is not
  one of GKE or its location is empty (`InfoRepeatsIff`, `GkeInfoAfterCalls`). The labels are stable.
- `kube_cluster.go:122` returns the third part of a hub name, which is always `global`, where the membership is the
  fourth (`HubNameIsParsed`).
- `kube.go:89-91` renames a default cluster without a name. That breaks the rule that each key of the registry
  holds the cluster of that name exactly when the current context has the empty name (`InitWellKeyedIff`).
- The bound on the rate of token fetches is strict if and only if there were two fetches or time has passed; a run
  with one fetch can take no time at all.
- `pkg/ip/ipdata.go:132` stores the empty address like any other, and nothing ever removes it; statements that the
  index is exact are about non-empty addresses. All interleavings of the same pod streams agree at an address if
  and only if one pod touches it or every pod alone leaves it free (`OrderIrrelevantIff`), at the empty address if
  and only if at most one pod is ever updated without an address (`EmptyAddressIff`; `EmptyAddressDependsOnOrder`
  is a run with two).

## Model

| member | source | states |
|---|---|---|
| K8SDataHandlers.K8SData.OnAdd | pkg/ip/ipdata.go:91-122 | a pod is stored under its name, a dot and its namespace and under its address if it has one, and counted; a slice is counted with its endpoints; so the fields stay the outcome of the trace handled so far |
| K8SDataHandlers.K8SData.OnUpdate | pkg/ip/ipdata.go:124-140 | the same for an Update: the new object is stored under its address, an empty one included, and PodInfo is left alone |
| K8SDataHandlers.K8SData.OnDelete | pkg/ip/ipdata.go:144-159 | the same for a Delete: tombstones change nothing, PodInfo keeps the pod |
| K8SDataHandlers.K8SData.IndexIsLiveIff | pkg/ip/ipdata.go:74-89 | the fields the handlers left after any trace index exactly the live pods, if and only if the last events on addresses and about pods are in step; with unshared addresses, if and only if no address was left stranded |
| PodIndex.LastTouchReplay | pkg/ip/ipdata.go:107-153 | on every trace, an address maps to a pod if and only if the last event touching the address stored that pod |
| PodIndex.StoredUnderOwnIP | pkg/ip/ipdata.go:107-132 | every stored pod has the address it is filed under |
| PodIndex.PodInfoReplay | pkg/ip/ipdata.go:103-103 | PodInfo holds exactly the pods ever added, each with the object of its last Add |
| PodIndex.PodInfoIff | pkg/ip/ipdata.go:103-103 | over every trace with dot-free namespaces, name, dot and namespace lead to a pod if and only if the last Add of the pod with that name and namespace delivered it |
| PodIndex.InfoKeyInjective | pkg/ip/ipdata.go:103-103 | pods in namespaces without a dot share a PodInfo key only if they have the same name and namespace |
| PodIndex.CountersAreSums | pkg/ip/ipdata.go:85-105 | each counter is the exact sum over the trace, reduced to an int32, although every step truncates |
| PodIndex.SlicesAreAdded | pkg/ip/ipdata.go:93-94 | Slices is the number of EndpointSlices ever added, reduced to an int32 |
| PodIndex.LiveReplay | pkg/ip/ipdata.go:18-30 | on every trace, a pod is live with some state if and only if the last event about it, tombstones included, delivered that state |
| PodIndex.IndexExactIff | pkg/ip/ipdata.go:91-159 | on every trace, with address changes, shared addresses and missed deletions, the index is the inverse of the live-pod map with last delivered objects, if and only if each event assigning an address is the last on it exactly when it is the last about its pod |
| PodIndex.UnsharedExactIff | pkg/ip/ipdata.go:14-30 | if no event comes with an address another pod is live at, the index is exact if and only if each address abandoned by a missed deletion or a changed address was touched again |
| PodIndex.IndexExact | pkg/ip/ipdata.go:91-159 | if moreover no event abandons an address, the index is exact after every step |
| PodIndex.TombstoneLeavesDeadPod | pkg/ip/ipdata.go:27-30 | a run the contract allows, with one missed deletion, ends with no live pod and one in the index |
| PodIndex.ChangedAddressLeavesOldPod | pkg/ip/ipdata.go:131-132 | a run the contract allows, with one changed address, ends with the pod under its old address |
| PodIndex.RelistIsIdle | pkg/ip/ipdata.go:21-26 | with unshared addresses, a re-list update of an unchanged live pod is allowed and changes nothing but, for a pod without address, the empty key |
| PodIndex.PodsConserved | pkg/ip/ipdata.go:105-147 | on every run the contract allows, whatever its addresses, Pods is the number of live pods plus that of missed deletions, modulo 2^32 |
| PodIndex.Confluence | pkg/ip/ipdata.go:91-159 | traces that interleave the same pod streams and slice Adds end in the same PodInfo, counters and index on non-empty addresses, if pods do not share addresses |
| PodIndex.OrderIrrelevantIff | pkg/ip/ipdata.go:91-159 | for every trace and address, all interleavings of its streams agree there if and only if one pod touches the address or each pod alone leaves it free |
| PodIndex.EmptyAddressIff | pkg/ip/ipdata.go:131-132 | all interleavings agree at the empty address if and only if at most one pod is ever updated without an address |
| PodIndex.EmptyAddressDependsOnOrder | pkg/ip/ipdata.go:131-132 | two interleavings of the same streams that differ at the empty address |
| CsrController.ApiServer.UpdateStatus | pkg/csrctrl/csr_controller.go:77-80 | the assumed server: a status write takes effect only for the version it holds, and may take effect although the reply is lost |
| CsrController.K8SSigner.OnUpdate | pkg/csrctrl/csr_controller.go:43-83 | the cached object gets the certificate if and only if its request parses, it names the signer, it has none and signing succeeded; only then the server sees a status write, accepted for its own version only |
| CsrController.K8SSigner.OnAdd | pkg/csrctrl/csr_controller.go:39-41 | an Add is handled like an update |
| CsrController.GetCertApprovalCondition | pkg/csrctrl/csr_controller.go:108-118 | the loop reports exactly whether an Approved and whether a Denied condition occurs |
| CsrController.IsCertificateRequestApproved | pkg/csrctrl/csr_controller.go:101-106 | approved means an Approved condition and no Denied one |
| CsrController.HandlerIsTwoSteps | pkg/csrctrl/csr_controller.go:75-77 | a handler call changes cache and server as the protocol's signing step followed by its write or drop |
| CsrProtocol.NextKeeps | pkg/csrctrl/csr_controller.go:57-80 | every step of replicas, informers, server and other clients keeps the invariant |
| CsrSafety.CertificateNeverReplaced | pkg/csrctrl/csr_controller.go:60-63 | over every run, no version of a request replaces the certificate of an earlier version |
| CsrSafety.StoredCertificateStays | pkg/csrctrl/csr_controller.go:60-63 | a certificate stored at some moment is the one stored later, as long as the request lives |
| CsrSafety.WritesOwnRequestsAsSeen | pkg/csrctrl/csr_controller.go:45-80 | over every run, what a signer wrote has a request that parses, names that signer, and differs from the unsigned object it was shown in certificate and version only |
| CsrSafety.SignsOwnRequestsOnly | pkg/csrctrl/csr_controller.go:45-77 | over every run, whatever was issued or is on its way to the server, accepted or not, has a request that parses, names the signer of its replica and is as it was delivered but for the certificate |
| CsrSafety.NothingOverwritten | pkg/csrctrl/csr_controller.go:75-80 | over every run, no version of the request lies between the one a signer read and the one it wrote |
| CsrSafety.OnlyApprovedIff | pkg/csrctrl/csr_controller.go:64-66 | over every run, certificates are issued for approved requests only, if and only if each handler step that signs finds its object approved |
| CsrSafety.UnapprovedIsSigned | pkg/csrctrl/csr_controller.go:64-75 | a run that ends with a certificate stored for a request nobody approved |
| CsrSafety.OneSuccessfulWrite | pkg/csrctrl/csr_controller.go:75-80 | over all replicas, at most one status write of a signer succeeds per request |
| CsrSafety.ObjectSignedOnce | pkg/csrctrl/csr_controller.go:60-80 | a cached object is signed at most once, over any number of redeliveries and failed writes |
| CsrSafety.IssuanceBound | pkg/csrctrl/csr_controller.go:60-80 | certificates issued by a replica for a request are no more than the unsigned objects of that request delivered to it, and than its distinct unsigned versions if none of these was delivered twice |
| CsrSafety.IssuanceBoundIff | pkg/csrctrl/csr_controller.go:52-80 | for every run, replica and request, the bound on versions holds whatever is handled next, if and only if none of its unsigned versions was delivered twice or the replica would sign none of them |
| CsrSafety.RelistIssuesTwice | pkg/csrctrl/csr_controller.go:60-75 | a run that issues two certificates for one unsigned version, delivered twice |
| CsrSafety.SpentForGood | pkg/csrctrl/csr_controller.go:75-80 | once an object carries a certificate and its write is over, accepted or not, no later step signs or writes it |
| CsrSafety.FailedWriteIsFinal | pkg/csrctrl/csr_controller.go:60-80 | once the writes of all objects given of a request are over and the server has no certificate, it gets none until another object is delivered or another client sets one |
| CsrSafety.LostWriteIsFinal | pkg/csrctrl/csr_controller.go:75-80 | a run that gets there by one lost write, with a certificate issued and none stored |
| ClusterNames.GkeRoundTripIff | kube_cluster.go:97-111 | a printed GKE name parses back to its project, location and name if and only if none of them contains the separator |
| ClusterNames.HubRoundTripIff | kube_cluster.go:112-123 | of a printed hub name the project is recovered, and the location stays empty, if and only if the project has no separator |
| ClusterNames.GkeNameIsParsed | kube_cluster.go:102-111 | the text gke_p_l_n with plain parts gives project p, location l and name n, as fields, labels and results |
| ClusterNames.HubNameIsParsed | kube_cluster.go:112-123 | the text connectgateway_p_global_m gives project p and, as the name, always "global" |
| ClusterNames.GkeLabelsStable | kube_cluster.go:77-95 | under any sequence of calls the cached fields are empty or the triple, and asking again gives the triple |
| ClusterNames.HubLabelsStable | kube_cluster.go:77-95 | the same for hub names, with the project alone |
| ClusterNames.InfoRepeatsIff | kube_cluster.go:97-125 | for every name that parses, asking again for the parts gives the same, if and only if the name is not one of GKE or has an empty location |
| ClusterNames.GkeInfoAfterCalls | kube_cluster.go:97-111 | after any sequence of calls the parts of a printed GKE name are its project, location and name, with the whole name instead of the last once a location is cached |
| ClusterNames.GkeNameParses | gcp/gke.go:660-660 | every printed GKE name has the four parts that parsing indexes |
| ClusterNames.GkeNameInjective | gcp/gke.go:660-660 | equal GKE names come from equal triples |
| ClusterNames.NamesDisjoint | gcp/gke.go:583-583 | no GKE name is a hub name |
| Clusters.K8SCluster.GcpInfo | kube_cluster.go:97-125 | fills the cached fields and returns the parts, as the functions on names say; a printed GKE name gives its project, location and, if it was not asked before, its name |
| Clusters.K8SCluster.Location | kube_cluster.go:90-95 | fills the cache if there is no location, and returns the location, that in a printed GKE name |
| Clusters.K8SCluster.Label | kube_cluster.go:77-88 | fills the cache for the three known keys and returns that field, of a printed GKE name its location, project or name; the empty string for other keys |
| Registry.OrderIsIrrelevant | kubeconfig.go:75-110 | loading the contexts in any order ends in the same registry and default: valid contexts over what was there, rate limits overridden when positive |
| Registry.FirstWinsIff | gcp/gke.go:670-672 | after a GKE load a key holds what it held, or else the first listed cluster of that name |
| Registry.LastWinsIff | gcp/gke.go:594-594 | after a hub load a key holds the last listed cluster of that name, or else what it held |
| Registry.MembershipIsLastPart | gcp/gke.go:580-581 | the membership is what follows the last slash of the resource name |
| Registry.GkeAndHubCommute | gcp/gke.go:580-594 | GKE and hub loads can be exchanged |
| Registry.HubLeavesGkeNames | gcp/gke.go:583-594 | a hub load never displaces a GKE-discovered cluster |
| Registry.LoadsKeepKeys | gcp/gke.go:656-673 | over every run of loads each key holds the cluster of that name, and no key is removed |
| Registry.GkeLoadKeepsValues | gcp/gke.go:670-672 | a GKE load never changes the value at an existing key |
| Registry.InitWellKeyedIff | kube.go:83-109 | after init each key holds the cluster of that name if and only if the current context, if valid, has a name |
| K8SSet.K8S.LoadKubeConfig | kubeconfig.go:35-113 | whatever the iteration order, each valid context is a new cluster of its name, namespace and source, with positive limits overridden, all else is untouched, and a missing default becomes the current context's cluster |
| K8SSet.K8S.LoadContext | kubeconfig.go:75-110 | one turn of the loop: invalid contexts are skipped, a valid one is registered with its overrides |
| K8SSet.K8S.LoadInCluster | kube.go:134-181 | the pod's own cluster replaces the entry of its name and becomes a missing default |
| K8SSet.K8S.FixDefault | kube.go:84-93 | only the default cluster is changed, and only an empty name or namespace of it, to "default" |
| K8SSet.K8S.Init | kube.go:83-109 | a preset default is kept; else the current context's cluster, else the pod's own, with the registry as loaded |
| Gke.GKE.LoadGKEClusters | gcp/gke.go:629-675 | the registry becomes the first-wins merge of the list, existing entries stay the same objects, and the clusters are returned in order, under keys of the registry, each with the listed project, location and name as its labels |
| Gke.GKE.LoadHubClusters | gcp/gke.go:514-598 | the registry becomes the last-wins merge of what was listed, also when an error ends the list early; each returned cluster has the name and gateway address of its membership |
| Gke.GKE.Register | gcp/gke.go:586-594 | a discovered cluster is a new object, put under its name or kept out by an existing entry |
| Gke.GKE.Fits | gcp/autodetect.go:57-64 | one turn of a scan decides by region and name, and fills at most the cluster's own cache |
| Gke.GKE.Scan | gcp/autodetect.go:57-66 | one scan over the map in any order stops at a cluster that fits, and at none only if none fits |
| Gke.GKE.FindCluster | gcp/autodetect.go:51-98 | the result is nil if and only if there are no clusters, else a member of the best tier: with the name if any has it, and at a location that begins with the region if one with the name, or without such any, is there; only caches were filled, and names have to parse only if a region is given |
| Gke.GKE.SetDefault | gcp/autodetect.go:32-41 | a default is written only if there is none, and is then a best cluster |
| Gke.GKE.LoadAll | gcp/autodetect.go:14-23 | the registry is merged in order, as far as the loads got, and every entry is an old object or a new one with a name that parses |
| Gke.GKE.Autodetect | gcp/autodetect.go:12-43 | when both loads succeed, the default is nil if and only if it was and there are no clusters; when one fails, the default is kept and what was loaded stays |
| Gke.AddressForms | gcp/gke.go:300-329 | gke addresses and those at container.googleapis.com with a path select one cluster, cluster addresses give the name to look for, which is istio otherwise |
| Gke.GKE.InitGke | gcp/gke.go:286-333 | an explicit path decides alone; otherwise discovery looks for the configured name |
| Gke.GKE.New | gcp/gke.go:187-279 | a default that is set is never replaced; without one, an emulated metadata server is refused |
| Gke.StartUp | gcp/gke.go:113-126 | the whole precedence: current context, in-cluster, then refusal if the metadata server is emulated, explicit address, best discovered cluster |
| HeaderLines.YearsOfThePattern | tools/boilerplate/boilerplate.py:218-220 | the date pattern matches exactly the decimal years from 2014 to now |
| HeaderLines.FillAfterSub | tools/boilerplate/boilerplate.py:134-140 | substituting the years of a line without YEAR loses nothing: refilling them gives the line back |
| HeaderLines.SubAfterFill | tools/boilerplate/boilerplate.py:134-140 | a clean template line filled with supported years substitutes back to itself and shows no YEAR |
| HeaderLines.FillFirstSlot | tools/boilerplate/boilerplate.py:225-229 | filling puts the first year for the first YEAR and goes on behind it |
| HeaderLines.LineIff | tools/boilerplate/boilerplate.py:123-140 | the lines a clean template line accepts are exactly its fillings with supported years |
| HeaderText.MatchLengthIff | tools/boilerplate/boilerplate.py:230-236 | a build-constraint block or shebang is found exactly where the pattern matches, with its only possible length |
| HeaderText.SplitLinesIs | tools/boilerplate/boilerplate.py:111-111 | text is split at the nine line boundaries left by text mode and nowhere else |
| HeaderText.StripIff | tools/boilerplate/boilerplate.py:103-109 | for any text, stripping removes the lines of the first match, wherever it starts, and nothing if there is none |
| HeaderText.OnlyTopIff | tools/boilerplate/boilerplate.py:103-109 | what is left are the last lines of the text, if and only if the first match starts at the top, but for empty lines it repeats |
| HeaderText.StripRemoves | tools/boilerplate/boilerplate.py:103-109 | in terms of text: a match with no earlier match is removed, and what stands before and behind it is kept |
| HeaderCheck.CheckGenerated | tools/boilerplate/boilerplate.py:68-74 | generated means DO NOT EDIT in the text and neither of the two skipped paths in the name |
| HeaderCheck.SubstituteFirstDated | tools/boilerplate/boilerplate.py:134-140 | exactly the first line with a supported year is substituted |
| HeaderCheck.FilePasses | tools/boilerplate/boilerplate.py:77-153 | the verdict, for every way to fail, is that of the declarative check |
| HeaderCheck.HeaderSound | tools/boilerplate/boilerplate.py:123-153 | an accepted header is the template, or the template with supported years in the slots of one line |
| HeaderCheck.TwoYearLinesNeverPass | tools/boilerplate/boilerplate.py:123-151 | no file, generated or not, passes a template with YEAR on two lines |
| HeaderCheck.HeaderIff | tools/boilerplate/boilerplate.py:123-153 | the headers a template accepts are exactly the ways to fill it |
| HeaderCheck.FileSound | tools/boilerplate/boilerplate.py:77-153 | a passing hand-written file begins, without the lines of its first match if it has one, with the template or a way to fill one of its lines, and shows no YEAR there |
| HeaderCheck.FileIff | tools/boilerplate/boilerplate.py:77-153 | hand-written files pass a template if and only if they begin with a way to fill it once their first match, if any, is removed |
| HeaderCheck.FileComplete | tools/boilerplate/boilerplate.py:77-153 | a filled-in template with any tail on new lines, and one strippable block before, between or after the header lines, passes |
| HeaderFiles.GoIsStripped | tools/boilerplate/boilerplate.py:104-106 | from a Go file, lines that begin with //go:build or // +build and the empty line behind them are removed, the first such block wherever it stands |
| HeaderFiles.ScriptIsStripped | tools/boilerplate/boilerplate.py:107-109 | from a sh or py file, the first line that begins with #! and the empty lines behind it are removed |
| HeaderFiles.NothingIsStripped | tools/boilerplate/boilerplate.py:103-109 | nothing is removed from any other file, from a Go file without a closed block of constraints, and from a script without a #! line |
| HeaderFiles.GoHeaderPasses | tools/boilerplate/boilerplate.py:104-153 | a Go file passes with a filled header behind build constraints and an empty line |
| HeaderFiles.ScriptHeaderPasses | tools/boilerplate/boilerplate.py:107-153 | a script passes with a filled header behind a #! line and empty lines |
| HeaderFiles.OtherFileIff | tools/boilerplate/boilerplate.py:77-153 | a hand-written file with nothing to strip passes if and only if it begins with a filled header itself |
| HeaderFiles.GeneratedFileIff | tools/boilerplate/boilerplate.py:87-151 | a generated file passes if and only if it begins, after stripping, with its own template word for word, and that shows no YEAR |
| HeaderFiles.YearFieldFails | tools/boilerplate/boilerplate.py:123-132 | a file with YEAR in one of its header lines does not pass |
| TokenCache.AuthRoundTripper.RoundTrip | gcp/k8s_auth_provider.go:70-82 | token and expiry change as the step function says, and a forwarded request gets one more header with the current token |
| TokenCache.CacheHoldsLastRefresh | gcp/k8s_auth_provider.go:72-78 | the expiry is that of the last successful fetch, and the token its token unless the clock already rules the cache out |
| TokenCache.TokenIsFresh | gcp/k8s_auth_provider.go:70-82 | every forwarded request carries the token of the most recent successful fetch, recorded at most 30 minutes before the check |
| TokenCache.FailureIsRetried | gcp/k8s_auth_provider.go:73-76 | a request after a failed fetch fetches again |
| TokenCache.FetchRateBound | gcp/k8s_auth_provider.go:72-78 | k successful fetches take at least (k-1) times 30 minutes, and more if and only if there are two of them or time has passed |

## Left out

- Network and cloud calls, file and environment reads, logging, tracing spans: their results are parameters.
- pkg/csrctrl/authority.go: the outcome of signing is any certificate or none; decoding of requests likewise.
- Other clients of the server may change any status but keep a certificate that is set; a client that erased one would break write-once, whatever the signers do.
- pkg/ip/shared_informer.go: only the kinds of events are taken from it; which handler object receives them is not modelled.
- Concurrent handler calls on one index, and concurrent calls of the round tripper: the maps are atomic per operation and calls are taken one after the other.
- The part of a pod, a rest configuration or a mesh module that the modelled code does not read is one opaque value; KSA and the client cache of a cluster are not modelled.
- Gke.StartUp: composes two constructors that the mesh runtime calls one after the other; the runtime itself is not modelled.
- HeaderCheck.FilePasses: takes base name, extension and decoded text as inputs; path handling, `normalize_files`, `get_files`, reading of templates and the unified diff are not modelled.
- HeaderLines.YearsOfThePattern: clocks before 2014, for which the pattern is empty and matches everywhere, are not modelled.
- RegionFromMetadata (gcp/gke.go:340-350): the region is any string.
- GKE.GetToken, Token, project numbers and credentials selection (gcp/gke.go:202-262): no effect on registry or default.
- gcp/telemetry.go, kine/, apiserver/ and generated code: wrappers with constant or foreign behaviour.
