# Readiness checks of the ODH end-to-end suite, in Dafny

This project models the decision logic of the Open Data Hub end-to-end suite (a Java
test suite that drives an operator on a Kubernetes/OpenShift cluster). It covers the
checks a test hands to a polling wait to decide whether a cluster object or a remote
job is ready, not yet ready, or has failed for good. It also covers the values those
waits are built from.

- `PipelineServer` (pipeline_server.dfy) covers the pipeline-server test:
  - `EndpointsCheck`: the endpoints check of `waitForEndpoints`.
  - `RunVerdict`: how one poll of a pipeline run is classified.
  - `WaitForPipelineRun`: the run wait. Every poll that gets past the 200 check and parses a non-null detail overwrites the stored run; the wait returns the stored run once a poll returns true.
  - `RunPipelineRequest`: the body `runPipeline` submits.
- `Distributed` (distributed.dfy) covers the distributed-workload tests:
  - `CrdEstablished`: the check that a CustomResourceDefinition is established.
  - `MakeTokens`: the OAuth private/public token pair.
  - `DashboardUrl`: the Ray dashboard URL.
- `TestConstants` (test_constants.dfy) holds the poll intervals, the timeout, the stability time and the approval modes, with the `Duration` conversions that produce them.
- `JavaFormat` (java_format.dfy) holds Java's `"%d"` rendering of an `int` and its parse-back. The random OAuth token is built with it.
- `Readiness` (readiness.dfy) holds the tri-state answer `Ready | NotYet | Fatal(reason)`.
- `Optional` (optional.dfy) holds `Option` (Java's nullable reference) and `Result` (a value or a thrown exception).

A Java `null` is `None`. An exception is a `Fatal` reason or an `Err` value. String
concatenation with a null String gives the text `"null"`, as in Java.

The polling loop behind the waits is not part of this model. The run wait is given the
replies its polls would see before the deadline, as a sequence. The model assumes the
loop stops at the first poll that returns true or throws, and lets the exception
escape; if no poll does, it times out (see "Left out").

Where the code and the usual description of these checks disagree, the model follows the code:

- An Endpoints object is usually called populated when some subset has an address.
  The check loops over the subsets but returns during the first iteration, so only the first subset is looked at.
  `EndpointsReadyIsPopulated` proves the check never says ready wrongly.
  `EndpointsIgnoresLaterSubsets` gives an input it misses: an empty first subset followed by one with an address.
- Transient retrieval errors are usually absorbed as "not yet".
  The run check instead throws on an I/O error, an interrupt, a reply other than 200 and a JSON error; only the endpoints check absorbs an error, and only a 404.
  Whether a thrown error ends the wait at once depends on the polling loop, which the model assumes lets it escape.

## Model

| member | source | states |
|---|---|---|
| `PipelineServer.EndpointsCheck` | src/test/java/io/odh/test/e2e/standard/PipelineServerST.java:202-224 | the check throws (is fatal) exactly when the fetch threw a client error whose code is not 404 |
| `PipelineServer.EndpointsAbsentNotReady` | src/test/java/io/odh/test/e2e/standard/PipelineServerST.java:205-208 | a null Endpoints object is "not yet" |
| `PipelineServer.EndpointsNoSubsetsNotReady` | src/test/java/io/odh/test/e2e/standard/PipelineServerST.java:209-212 | an empty subset list is "not yet" (and is not populated) |
| `PipelineServer.EndpointsFirstSubsetDecides` | src/test/java/io/odh/test/e2e/standard/PipelineServerST.java:213-215 | with at least one subset the answer is "ready" iff the first subset has an address, whatever the later subsets are |
| `PipelineServer.EndpointsClientErrors` | src/test/java/io/odh/test/e2e/standard/PipelineServerST.java:216-221 | a 404 client error is absorbed as "not yet"; any other code is rethrown carrying that same code |
| `PipelineServer.EndpointsReadyIsPopulated` | src/test/java/io/odh/test/e2e/standard/PipelineServerST.java:205-215 | "ready" iff an object was fetched, it is populated (some subset has an address) and its first subset has an address |
| `PipelineServer.EndpointsIgnoresLaterSubsets` | src/test/java/io/odh/test/e2e/standard/PipelineServerST.java:213-215 | a populated object whose address sits only in the second subset is reported "not yet" |
| `PipelineServer.RunAfterPoll` | src/test/java/io/odh/test/e2e/standard/PipelineServerST.java:319-321 | a poll that parses a non-null detail from a 200 reply overwrites the stored run with the parsed run, null included; a poll that throws before that leaves it unchanged |
| `PipelineServer.RunVerdict` | src/test/java/io/odh/test/e2e/standard/PipelineServerST.java:317-334 | "ready" only for a parsed 200 reply whose run has status "Succeeded"; "not yet" only for a parsed 200 reply whose run has a non-null status; everything else is fatal |
| `PipelineServer.RunStatusClassification` | src/test/java/io/odh/test/e2e/standard/PipelineServerST.java:322-327 | status "Failed" is fatal with the message "Pipeline run failed: Failed" followed by the run's error text; "Succeeded" is ready; every other status is "not yet" |
| `PipelineServer.NonOkReplyIsFatal` | src/test/java/io/odh/test/e2e/standard/PipelineServerST.java:319-320 | a reply other than 200 is fatal with its status code, whatever the body, and is never retried |
| `PipelineServer.ExceptionsAreFatal` | src/test/java/io/odh/test/e2e/standard/PipelineServerST.java:319-334 | I/O and interrupt failures of the send, an unparsable body, a `null` body and a null run are fatal |
| `PipelineServer.RunWaitOutcome` | src/test/java/io/odh/test/e2e/standard/PipelineServerST.java:315-337 | a run the wait returns is non-null and has status "Succeeded"; with no poll before the deadline the wait times out |
| `PipelineServer.WaitForPipelineRun` | src/test/java/io/odh/test/e2e/standard/PipelineServerST.java:308-338 | the loop that overwrites the stored run on every poll that parses a run detail ends exactly as `RunWaitOutcome` says, starting from a null stored run |
| `PipelineServer.RunWaitFirstDecisive` | src/test/java/io/odh/test/e2e/standard/PipelineServerST.java:315-337 | the first poll that is not "not yet" decides the wait: "ready" returns that poll's run, a fatal poll raises its own reason |
| `PipelineServer.RunWaitTimesOut` | src/test/java/io/odh/test/e2e/standard/PipelineServerST.java:316-335 | the wait times out iff every poll before the deadline said "not yet" |
| `PipelineServer.RunWaitReturnsSucceededRun` | src/test/java/io/odh/test/e2e/standard/PipelineServerST.java:315-337 | a returned run is non-null, has status "Succeeded", and is the run parsed by the deciding poll, all earlier polls being "not yet" |
| `PipelineServer.RunWaitTiming` | src/test/java/io/odh/test/e2e/standard/PipelineServerST.java:316 | the run wait's 5000 ms interval and 600000 ms timeout equal the suite's short interval and global timeout used by the endpoints wait: 120 polls |
| `PipelineServer.RunPipelineRequest` | src/test/java/io/odh/test/e2e/standard/PipelineServerST.java:276-282 | any mode other than "Immediate" is rejected; otherwise the run's name is the basename and its pipeline_spec.pipeline_id is the id |
| `PipelineServer.RunRequestLeavesServerFieldsNull` | src/test/java/io/odh/test/e2e/standard/PipelineServerST.java:279-282 | the submitted run sets no id, times, status, error or pipeline name |
| `Distributed.CrdEstablished` | src/test/java/io/odh/test/e2e/standard/DistributedST.java:83-86 | true iff the CRD, its status and its condition list are all non-null and some condition has type "Established" and status "True" |
| `Distributed.AnyEstablished` | src/test/java/io/odh/test/e2e/standard/DistributedST.java:85-86 | the in-order, short-circuit match over the conditions is true iff some condition has type "Established" and status "True" |
| `Distributed.CrdMissingPartsNotEstablished` | src/test/java/io/odh/test/e2e/standard/DistributedST.java:83-84 | a null CRD, null status, null condition list or empty condition list is not established |
| `Distributed.CrdConditionMustBeExact` | src/test/java/io/odh/test/e2e/standard/DistributedST.java:86 | a condition matches iff its type is exactly "Established" and its status exactly "True"; "False" and "Unknown" do not |
| `Distributed.CrdEstablishedIgnoresOrder` | src/test/java/io/odh/test/e2e/standard/DistributedST.java:85-86 | any reordering of the condition list gives the same answer |
| `Distributed.CrdEstablishedIgnoresNonMatching` | src/test/java/io/odh/test/e2e/standard/DistributedST.java:85-86 | inserting or removing a non-matching condition anywhere leaves the answer unchanged |
| `Distributed.RandomToken` | src/test/java/io/odh/test/e2e/standard/DistributedST.java:197 | the random token is ASCII, starts with "nottoorandom", is at most 23 characters, and its tail reads back as the drawn int |
| `Distributed.RandomTokenInjective` | src/test/java/io/odh/test/e2e/standard/DistributedST.java:197 | different drawn ints give different random tokens |
| `Distributed.StripSha256Prefix` | src/test/java/io/odh/test/e2e/standard/DistributedST.java:196 | it succeeds iff the text starts with "sha256~", and the prefix followed by the result gives back the text |
| `Distributed.MakeTokens` | src/test/java/io/odh/test/e2e/standard/DistributedST.java:195-200 | the private token is "sha256~" followed by the random token; the public token is "sha256~" followed by the encoded digest of the random token's bytes, so it depends on nothing else |
| `Distributed.AsciiBytes` | src/test/java/io/odh/test/e2e/standard/DistributedST.java:198 | UTF-8 encoding of an ASCII token gives one byte per character, each byte the character's code |
| `Distributed.PrivateTokenIsNotPublic` | src/test/java/io/odh/test/e2e/standard/DistributedST.java:196-200 | with a 32-byte digest and unpadded base64url, the public token is 50 characters long, the private one at most 30, so they differ |
| `Distributed.RayClientGetsPrivateToken` | src/test/java/io/odh/test/e2e/standard/DistributedST.java:217-230 | the access-token object is named with the public token; the OAuth step returns the private token, and the Ray client (line 326) sends it; that token is not the object's name and carries the random token |
| `Distributed.AppWrapperRayClientSendsNoToken` | src/test/java/io/odh/test/e2e/standard/DistributedST.java:165 | the AppWrapper test's Ray client sends no token (null), unlike the Kueue test's, which sends one |
| `Distributed.DashboardUrl` | src/test/java/io/odh/test/e2e/standard/DistributedST.java:150-151 | a null route or status, or an empty ingress list, is an error; otherwise the URL is the scheme followed by the first ingress host ("null" when the host is null) |
| `Distributed.DashboardUrlsShareHost` | src/test/java/io/odh/test/e2e/standard/DistributedST.java:311-312 | the AppWrapper test uses "http://" and the Kueue test "https://" before the same first host; later ingresses never matter; the two URLs differ |
| `JavaFormat.Digits` | src/test/java/io/odh/test/e2e/standard/DistributedST.java:197 | the decimal digits of a natural number are non-empty, have no leading zero and read back as the number |
| `JavaFormat.FormatInt` | src/test/java/io/odh/test/e2e/standard/DistributedST.java:197 | `%d` output is non-empty and starts with '-' iff the int is negative |
| `JavaFormat.ParseInt` | src/test/java/io/odh/test/e2e/standard/DistributedST.java:197 | whatever it reads back formats to the same text |
| `JavaFormat.ParseFormatRoundTrip` | src/test/java/io/odh/test/e2e/standard/DistributedST.java:197 | formatting an int and parsing it back gives the int |
| `JavaFormat.FormatIntInjective` | src/test/java/io/odh/test/e2e/standard/DistributedST.java:197 | different ints format differently |
| `JavaFormat.DigitsLength` | src/test/java/io/odh/test/e2e/standard/DistributedST.java:197 | a number below 10^k has at most k digits |
| `JavaFormat.FormatIntLength` | src/test/java/io/odh/test/e2e/standard/DistributedST.java:197 | a Java int formats to at most 11 characters, at most 10 when non-negative |
| `JavaFormat.FormatIntIsAscii` | src/test/java/io/odh/test/e2e/standard/DistributedST.java:197 | a formatted int is ASCII |
| `TestConstants.SecondsToMillis` | src/main/java/io/odh/test/TestConstants.java:22-25 | seconds become a whole number of milliseconds that converts back to the same seconds |
| `TestConstants.MillisToSeconds` | src/main/java/io/odh/test/TestConstants.java:22-25 | milliseconds become the whole seconds they contain, the remainder dropped |
| `TestConstants.MinutesToSeconds` | src/main/java/io/odh/test/TestConstants.java:27 | minutes become a whole number of minutes' worth of seconds |
| `TestConstants.MinutesToMillis` | src/main/java/io/odh/test/TestConstants.java:26 | minutes to milliseconds is minutes to seconds, then seconds to milliseconds |
| `TestConstants.PollsWithin` | src/main/java/io/odh/test/TestConstants.java:22-26 | the number of whole poll intervals that fit in a timeout |
| `TestConstants.PollIntervalValues` | src/main/java/io/odh/test/TestConstants.java:22-25 | the poll intervals are 15000, 10000, 5000 and 1000 ms, strictly decreasing from LONG to 1_SEC |
| `TestConstants.TimeoutIsWholePolls` | src/main/java/io/odh/test/TestConstants.java:22-26 | GLOBAL_TIMEOUT is 600000 ms and an exact multiple of every poll interval: 120 SHORT polls |
| `TestConstants.StabilityTimeInSeconds` | src/main/java/io/odh/test/TestConstants.java:26-27 | GLOBAL_STABILITY_TIME is 60 and counts seconds: 60000 ms, below GLOBAL_TIMEOUT, while read as milliseconds it would be shorter than a one-second poll |
| `TestConstants.ApprovalModesDistinct` | src/main/java/io/odh/test/TestConstants.java:16-17 | the approval modes "Automatic" and "Manual" are different strings |

## Left out

- The polling loop (`TestUtils.waitFor`) and fabric8's `waitUntilCondition` are not part of this model. Only the checks they are given are modelled. The run wait's loop takes the replies seen before the deadline as a sequence; the clock, sleeps and deadline arithmetic are not modelled.
- `KubeUtils.waitForEndpoints`, used by the distributed tests, and `TestUtils.waitForServiceNotUnavailable` are not part of this model.
- The HTTP transport of the pipeline client is not modelled: `importPipeline`, `listPipelines`, `getPipelineRunStatus`, the reply of `runPipeline`, the multipart upload, Jackson JSON mapping and port forwarding. A reply appears only as a status code and a parsed or unparsable body. `deletePipelineRun`, `deletePipeline` and `deletePipelineServer` have empty bodies.
- The resource fixtures (Namespace, Secret, DataSciencePipelinesApplication, OAuthClient, OAuthAccessToken fields other than its name, ResourceFlavor, ClusterQueue, LocalQueue, RayCluster, AppWrapper) are declarative data with no behaviour.
- Resource creation with or without a wait, the teardown registry, rollout snapshots, pod stability and the upgrade sequence are not part of this model. Their implementation is not modelled here; OlmUpgradeST.java and UpgradeUtils.java only call into it.
- SHA-256, base64url encoding, TLS and the Ray client are library calls. The digest and the encoder are function parameters. Only their output lengths are assumed, and only where a lemma needs them.
- `Random.nextInt()` is the parameter `n`, constrained to the Java `int` range.
- `MakeTokens`: the `%d` rendering is modelled with ASCII digits. A default locale whose digits differ is not modelled.
- `AnyEstablished`: a null type, or a null status on an "Established" condition, met before any match throws a NullPointerException. Conditions are modelled with non-null strings, so this case is not modelled.
- `WaitForPipelineRun`, `RunWaitOutcome`, `EndpointsCheck`, `EndpointsClientErrors`: these assume the polling loop lets an exception thrown by the check escape at once, so that `Fatal` ends the wait. That loop (`TestUtils.waitFor`) is not modelled. If it caught `Exception` and polled again, only the two `AssertionError` paths (a reply other than 200, and status "Failed") would end the wait; I/O, interrupt, JSON and null-dereference failures would be retried. A rethrown client error other than 404 in the endpoints wait would likewise be retried. `RunWaitFirstDecisive` and `RunWaitTimesOut` hold under the assumption only.
- `DashboardUrl`: a null ingress list or a null first ingress (a NullPointerException) is not modelled. The client library returns empty lists, and the first ingress is non-null; later entries are never read.
- `EndpointsCheck`: a null subset list or a null address list is not modelled. The client library returns empty lists.
- Java `long` overflow is not modelled. Every constant is far below the limit, so integers are unbounded here.
- The other TestConstants values (namespace, catalog, channel and file names, the log label, the timestamp format) are plain data. No modelled check uses them.
- Allure steps, logging and documentation annotations only report.
