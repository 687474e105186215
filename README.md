# watcher — a Dafny model of its runtime observation core

watcher reports which language runtimes and servers (Java, Python, Node.js,
Go, Docker, MySQL/MariaDB, Redis, nginx) are installed on a machine and in
which version. A gRPC server (`wsctl`) runs the detectors on its host and
answers `ObserveRuntimes`; a client (`wctl`) asks one or more servers and
prints what they run, or compares versions across hosts. Calls are
authenticated by an API key that is carried in the `x-api-key` metadata
header and checked against a key store on the server.

This project models that core in Dafny and proves what it promises:

- **Detectors** (`detector_*.dfy`, `registry.dfy`): each `Detect` is a
  function of the search path (a map from executable name to path) and of
  the command runner (a function from invocation to exit status and
  output). Each version parser is a scanner written for its one pattern:
  `version "…"` for Java, `Python d.d.d`, `version d.d.d` for Docker,
  `Ver d.d.d`, `v=d.d.d`, `nginx/d.d.d`, the third field for Go, and a
  trim for Node. `version_scan.dfy` gives these scanners the semantics of
  Go's regular expressions: the leftmost match wins, `\d+` is greedy, and
  `.+?` takes the shortest capture that does not cross a line break.
  `text.dfy` gives Go's `TrimSpace`, `TrimPrefix` and `Fields`.
- **Server** (`grpc_server.dfy`): detector filtering by name, and the
  collection of found runtimes. Runtimes whose detection failed are
  skipped.
- **Client** (`grpc_client.dfy`): the key is injected only when set. The
  client keeps found entries, looks a runtime up by name, and closes the
  connection. The `wctl get runtimes` and `wctl get runtime` commands are
  modelled in `wctl_get_runtimes.dfy` and `wctl_get_runtime.dfy`.
- **Authentication** (`auth.dfy`, `interceptor.dfy`, `keystore.dfy`):
  - extracting and injecting the header;
  - the unary and stream gates;
  - the `Store` class, whose key map is changed in place by `Add`,
    `Remove` and `Clear`.
- **Comparison**: `compare.dfy` is the five-status `compare runtimes`, and
  `wctl_compare.dfy` is the three-status `wctl compare runtimes`. Both
  build on the per-host fetch and the comparison matrix in `fleet.dfy`.
- **Small utilities**:
  - the API key precedence of `wctl` (`wctl_root.dfy`);
  - the two identical key-masking functions (`wsctl_common.dfy`,
    `serve_key.dfy`).

Wherever Go iterates over a map (the rows of a comparison, `List`,
`Validate`), the model picks elements in an arbitrary order. Its contracts
hold for every such order.

Where the code behaves unexpectedly or disagrees with its own tests, the
model follows the code:

- **The registry.** `GetAllDetectors` lists only Java, Python and Node
  (internal/detector/registry.go:4-10). The test of the registry expects
  all eight detectors in order (internal/detector/detector_test.go:195-209).
  The model keeps three, and `Registry.RegistryShortOfExpected` states the
  gap.
- **The three-status comparison.** It uses the empty string to mean "no
  baseline yet". An empty version before the baseline is therefore passed
  over, and one after it is a mismatch: `["", "1"]` is MATCH, and
  `["1", ""]` is MISMATCH (`WctlCompare.EmptyVersionBeforeAndAfter`).
- **The five-status comparison.** `compare runtimes` compares only the hosts
  that answered. Its host labels therefore never carry `(ERR)`, and an
  ERROR row appears only when a server itself reports the version string
  `ERROR` (`Compare.NoFailuresShown`).
- **The server test.** The server's tests replace a `detectorsProvider`
  variable that `internal/grpcserver/server.go` does not declare: the server
  calls `GetAllDetectors` directly. The model takes the detector list as a
  parameter, which covers both.

## Model

| member | source | states |
|---|---|---|
| Runtimes.Absent | internal/detector/java.go:19-22 | the runtime a detector reports when nothing is found: not found, with empty version and path |
| Runtimes.Locate | internal/detector/python.go:21-31 | the first candidate executable on the search path, with all earlier ones absent; none exactly when no candidate is there |
| Text.TrimSpace | internal/detector/nodejs.go:41 | the part of the text between its first and last non-space characters; all that is cut off is white space; empty exactly for all-white-space input |
| Text.TrimPrefix | internal/detector/golang.go:43 | one leading copy of the prefix is removed when present, otherwise the text is unchanged |
| Text.UpToFirst | internal/detector/java.go:63-64 | the longest prefix without the separator; the separator follows it when the text is longer |
| Text.Fields | internal/detector/golang.go:41 | a list of non-empty words without white space, empty exactly when the text is all white space |
| Text.FieldsOfSpaces | internal/detector/golang.go:41 | leading white space of any length does not change the words |
| Text.FieldsOfInterleave | internal/detector/golang.go:41 | round trip: words separated by any non-empty runs of white space, with any white space before and after, are read back exactly |
| Text.FieldsOfJoin | internal/detector/golang.go:41 | round trip: splitting words joined by single spaces gives the words back |
| VersionScan.TripleAt | internal/detector/python.go:48 | a capture of `\d+\.\d+\.\d+` at a position is a version triple starting there, with both digit runs maximal |
| VersionScan.TripleAtComplete | internal/detector/python.go:48 | completeness: a version triple not followed by a digit is captured |
| VersionScan.QuotedAt | internal/detector/java.go:56-57 | the capture of `(.+?)"` is the shortest text of at least one character up to a quote, without a line break; none when no such quote exists |
| VersionScan.FirstMatch | internal/detector/java.go:57-58 | the capture is taken at the leftmost position where the pattern matches; none exactly when it matches nowhere |
| VersionScan.FirstMatchOfLeftmost | internal/detector/python.go:48-49 | any leftmost match is the one the scan returns |
| VersionScan.NoMatchWithout | internal/detector/python.go:51-55 | text lacking a character of the literal prefix never matches |
| VersionScan.TripleAfterIn | internal/detector/python.go:48-52 | a triple right after the first occurrence of the prefix is the capture |
| VersionScan.QuotedAfterIn | internal/detector/java.go:56-60 | a quoted text right after the first occurrence of `version "` is the capture |
| JavaDetector.Normalize | internal/detector/java.go:62-68 | a capture starting with `1.` becomes its second dot-separated part plus `.x`; any other capture is kept unchanged |
| JavaDetector.ParseVersion | internal/detector/java.go:49-72 | "unknown" when the pattern matches nowhere, and otherwise the normalized leftmost capture; the result never spans a line break |
| JavaDetector.ParseVersionLeftmost | internal/detector/java.go:56-68 | the version is read from the leftmost occurrence of the pattern |
| JavaDetector.ParseVersionModern | internal/detector/detector_test.go:12-16 | `openjdk version "17.0.8" …` gives 17.0.8 |
| JavaDetector.ParseVersionLegacy | internal/detector/detector_test.go:17-21 | `java version "1.8.0_372"` gives 8.x |
| JavaDetector.ParseVersionInvalid | internal/detector/detector_test.go:22-26 | output without the pattern gives "unknown" |
| JavaDetector.Detect | internal/detector/java.go:18-46 | absent without error when java is not on the search path; otherwise found at its path, with an error exactly when `java -version` fails, and the parsed version otherwise |
| PythonDetector.ParseVersion | internal/detector/python.go:46-56 | "unknown" exactly when no triple follows `Python `; otherwise a version triple |
| PythonDetector.ParseVersionRelease | internal/detector/detector_test.go:47 | `Python 3.10.12` gives 3.10.12 |
| PythonDetector.ParseVersionInvalid | internal/detector/detector_test.go:48 | text without `Python ` gives "unknown" |
| PythonDetector.Detect | internal/detector/python.go:15-44 | python3 is preferred to python; the name stays "python"; absent without error when neither exists; the bare command is run and its failure is an error |
| NodeDetector.ParseVersion | internal/detector/nodejs.go:39-44 | the trimmed output without one leading `v`, for every input (no "unknown" case) |
| NodeDetector.ParseVersionOfPadded | internal/detector/nodejs.go:41-43 | white space around `v` and a version is dropped, and so is the `v` |
| NodeDetector.ParseVersionWithoutPrefix | internal/detector/nodejs.go:41-42 | trimmed output without a leading `v` is returned as it is |
| NodeDetector.ParseVersionRelease | internal/detector/detector_test.go:69 | `v20.18.0`, with or without a newline, gives 20.18.0 |
| NodeDetector.ParseVersionBare | internal/detector/detector_test.go:70 | `18.12.1` gives 18.12.1 |
| NodeDetector.Detect | internal/detector/nodejs.go:15-37 | absent without error without node; otherwise found at its path, with an error exactly when `node --version` fails |
| GoDetector.ParseVersion | internal/detector/golang.go:39-47 | "unknown" for fewer than three fields; otherwise the third field without one leading `go`, kept as it is when there is none |
| GoDetector.ParseVersionOfWords | internal/detector/golang.go:41-44 | output of single-space-separated words yields its third word without `go` |
| GoDetector.ParseVersionOfSpaced | internal/detector/golang.go:41-44 | output of words separated by any white space, padded or not, yields its third word without `go` |
| GoDetector.ParseVersionOfLine | internal/detector/golang.go:39-47 | `go version go1.21.5 linux/amd64` followed by a line break gives 1.21.5 |
| GoDetector.ParseVersionRelease | internal/detector/detector_test.go:91 | `go version go1.21.5 linux/amd64` gives 1.21.5 |
| GoDetector.ParseVersionInvalid | internal/detector/detector_test.go:92 | a two-word output gives "unknown" |
| GoDetector.Detect | internal/detector/golang.go:15-37 | absent without error without go; otherwise found at its path, with an error exactly when `go version` fails |
| DockerDetector.ParseVersion | internal/detector/docker.go:39-49 | "unknown" exactly when no triple follows `version `; otherwise a version triple |
| DockerDetector.ParseVersionRelease | internal/detector/detector_test.go:113 | `Docker version 24.0.5, build ced0996` gives 24.0.5 |
| DockerDetector.ParseVersionInvalid | internal/detector/detector_test.go:114 | `Docker build unknown` gives "unknown" |
| DockerDetector.Detect | internal/detector/docker.go:15-37 | absent without error without docker; otherwise found at its path, with an error exactly when `docker --version` fails |
| MySqlDetector.ParseVersion | internal/detector/mysql.go:44-55 | "unknown" exactly when no triple follows `Ver `; otherwise a version triple |
| MySqlDetector.ParseVersionRelease | internal/detector/detector_test.go:135 | the MySQL banner gives 8.0.34 |
| MySqlDetector.ParseVersionMariaDb | internal/detector/detector_test.go:136 | the MariaDB server banner gives 10.11.4 |
| MySqlDetector.ParseVersionInvalid | internal/detector/detector_test.go:137 | `mysql Distrib foo` gives "unknown" |
| MySqlDetector.ParseVersionMariaDbClient | internal/detector/mysql.go:45-54 | the client banner `Ver 15.1 Distrib 10.11.4-MariaDB` gives "unknown": the later triple does not follow `Ver ` |
| MySqlDetector.Detect | internal/detector/mysql.go:15-42 | mysql is preferred to mariadb; the runtime is named after the executable found; the located path itself is run; absent as "mysql" without error when neither exists |
| RedisDetector.ParseVersion | internal/detector/redis.go:43-53 | "unknown" exactly when no triple follows `v=`; otherwise a version triple |
| RedisDetector.ParseVersionRelease | internal/detector/detector_test.go:158 | the Redis banner gives 7.0.12 |
| RedisDetector.ParseVersionInvalid | internal/detector/detector_test.go:159 | text without `v=` gives "unknown" |
| RedisDetector.Detect | internal/detector/redis.go:15-41 | redis-server is preferred to redis-cli; the name stays "redis"; the located path is run; its failure is an error with the path set |
| NginxDetector.ParseVersion | internal/detector/nginx.go:42-52 | "unknown" exactly when no triple follows `nginx/`; otherwise a version triple |
| NginxDetector.ParseVersionRelease | internal/detector/detector_test.go:180 | `nginx version: nginx/1.24.0` gives 1.24.0 |
| NginxDetector.ParseVersionInvalid | internal/detector/detector_test.go:181 | `nginx something` gives "unknown" |
| NginxDetector.Detect | internal/detector/nginx.go:15-40 | a failure of `nginx -v` is an error only when it printed nothing; otherwise its output is parsed whether or not it failed |
| NginxDetector.FailureWithBannerIsTolerated | internal/detector/nginx.go:31-36 | a failed run that printed its banner still reports the version without error |
| Registry.DetectShape | internal/detector/detector.go:4-9 | absent means no error and empty fields; an error only for a found tool, with no version; a found tool's path comes from the search path; the runtime carries the detector's name, or "mariadb" for the MySQL fallback |
| Registry.AllKinds | internal/detector/registry.go:4-10 | exactly java, python and node, with distinct names |
| Registry.AllDetectors | internal/detector/registry.go:4-10 | one detector per listed kind, in order |
| Registry.RegistryShortOfExpected | internal/detector/detector_test.go:195-209 | the list has 3 entries where the test expects 8; the three agree with the first three expected names |
| Registry.FoundRuntimes | internal/grpcserver/server.go:34-48 | only found runtimes, never more than there are detectors |
| Registry.FoundRuntimesMember | internal/grpcserver/server.go:34-48 | a runtime is collected exactly when some detector without error reported it as found |
| Registry.FoundRuntimesAppend | internal/grpcserver/server.go:34-48 | collection keeps detector order: it distributes over concatenation |
| GrpcServer.KeepNamed | internal/grpcserver/server.go:68-81 | only detectors whose name was requested |
| GrpcServer.KeepNamedAppend | internal/grpcserver/server.go:75-79 | filtering keeps the original relative order |
| GrpcServer.KeepNamedCounts | internal/grpcserver/server.go:69-79 | each requested detector is kept as often as it occurs, never duplicated by repeated filter names; others are dropped |
| GrpcServer.KeepNamedAll | internal/grpcserver/server.go:68-81 | a filter naming every detector keeps the list unchanged |
| GrpcServer.FilterDetectors | internal/grpcserver/server.go:68-81 | the loop's result is exactly the detectors whose name is in the filter set |
| GrpcServer.Kernel | internal/grpcserver/server.go:87-93 | "unknown" when `uname -r` fails, and otherwise exactly its output with the surrounding white space trimmed |
| GrpcServer.ObserveRuntimes | internal/grpcserver/server.go:23-66 | never an error; the runtimes found by the selected detectors in order (all of them when the filter is empty); host, OS, kernel and time passed through |
| GrpcServer.MariaDbFilterMissesMySql | internal/grpcserver/server.go:76 | the filter "mariadb" never selects the MySQL detector |
| GrpcServer.FilterOfRegistry | internal/grpcserver/server.go:68-81 | a requested registry detector is selected exactly once |
| GrpcServer.FoundOnly | internal/grpcserver/server_test.go:37-73 | of a found java and a missing detector only java is returned |
| GrpcClient.Close | internal/grpcclient/client.go:43-48 | no connection means no error; otherwise the connection's own close error |
| GrpcClient.CallContext | internal/grpcclient/client.go:52-54 | the key is injected only when non-empty |
| GrpcClient.ClientSendsKey | internal/grpcclient/client.go:52-54 | the server reads back exactly the client's key; without a key nothing is sent |
| GrpcClient.KeepFound | internal/grpcclient/client.go:65-75 | only found entries |
| GrpcClient.KeepFoundMember | internal/grpcclient/client.go:65-75 | an entry is kept exactly when it is in the response and found |
| GrpcClient.KeepFoundAppend | internal/grpcclient/client.go:65-75 | response order is kept |
| GrpcClient.KeepFoundOfServer | internal/grpcclient/client.go:65-75 | on what a server sends, the client's filter changes nothing |
| GrpcClient.ObserveRuntimes | internal/grpcclient/client.go:51-78 | one call with an empty filter; a transport error is wrapped and gives no runtimes; otherwise the found entries in order |
| GrpcClient.NotFound | internal/grpcclient/client.go:93-96 | the record for an unreported runtime carries the name and is not found |
| GrpcClient.FirstNamed | internal/grpcclient/client.go:87-91 | the first position with the requested name; none exactly when no entry has it |
| GrpcClient.Lookup | internal/grpcclient/client.go:87-96 | the first runtime with the requested name when there is one, and otherwise the not-found record for that name |
| GrpcClient.ObserveRuntime | internal/grpcclient/client.go:81-97 | errors are passed on unchanged; otherwise the first runtime with the name or a not-found record, without error |
| GrpcClient.SameNameSameRuntime | internal/grpcclient/client.go:87-91 | in a response with distinct names, a name picks out one runtime |
| GrpcClient.LookupReported | internal/grpcclient/client.go:87-91 | a found runtime the server reported is the one returned |
| GrpcClient.LookupUnreported | internal/grpcclient/client.go:93-96 | a name not reported as found comes back as not found |
| Auth.Get | internal/auth/auth.go:26 | a missing header has no values |
| Auth.ExtractAPIKey | internal/auth/auth.go:20-32 | an error without incoming metadata, an error without a header value, and otherwise the first value, even when it is empty |
| Auth.Outgoing | internal/auth/auth.go:36-41 | the existing outgoing metadata, or a new empty one |
| Auth.InjectAPIKey | internal/auth/auth.go:35-46 | the header holds exactly the key; every other entry is kept; the incoming side is untouched |
| Auth.Received | internal/auth/auth.go:35-46 | what the server sees is the client's outgoing metadata |
| Auth.ExtractOfInjected | internal/auth/auth.go:20-46 | round trip: the injected key is the extracted key |
| Auth.InjectReplaces | internal/auth/auth.go:43 | a second injection replaces the first |
| Interceptor.Gate | internal/auth/interceptor.go:19-26 | "missing API key" when extraction fails, "invalid API key" when the validator refuses, and no rejection exactly when a key is present and accepted |
| Interceptor.Unary | internal/auth/interceptor.go:12-30 | a rejected call never reaches the handler; an accepted one returns the handler's result for the unchanged context and request |
| Interceptor.Stream | internal/auth/interceptor.go:33-51 | the same gate on the stream's context before the stream handler |
| Interceptor.MissingKeyIgnoresValidator | internal/auth/interceptor.go:19-24 | without a key the validator does not matter: the call is rejected as unauthenticated |
| Interceptor.StreamAgreesWithUnary | internal/auth/interceptor.go:40-49 | the stream and unary interceptors reject the same calls with the same status |
| Interceptor.EmptyStoreDenies | internal/auth/interceptor.go:24-26 | with an empty key store, every call that carries a key is denied |
| Interceptor.InjectedKeyPasses | internal/auth/interceptor.go:19-28 | a call carrying an injected key reaches the handler exactly when the store holds that key |
| KeyStore.Indexed | internal/keystore/keystore.go:135-137 | a loaded record is found under its own key, and every key comes from some record |
| KeyStore.IndexedSnoc | internal/keystore/keystore.go:135-137 | a later record with the same key replaces an earlier one |
| KeyStore.EmptyRejectsAll | internal/keystore/keystore.go:80-82 | an empty store accepts no key, not even the empty one |
| KeyStore.AcceptsStoredKeys | internal/keystore/keystore.go:84-90 | a non-empty store accepts exactly the stored keys |
| KeyStore.SaveResult | internal/keystore/keystore.go:142-162 | no path means no error; otherwise an error exactly when writing fails |
| KeyStore.LoadOfListing | internal/keystore/keystore.go:124-162 | loading what was listed gives back the store |
| KeyStore.Store.constructor | internal/keystore/keystore.go:28-31 | an empty store with the given path |
| KeyStore.Store.NewStore | internal/keystore/keystore.go:27-40 | a missing file or an empty path gives an empty store; a read or parse failure fails creation; otherwise the file's records keyed by key |
| KeyStore.Store.Load | internal/keystore/keystore.go:124-139 | the store gains every record of the file under its key |
| KeyStore.Store.Add | internal/keystore/keystore.go:43-58 | a duplicate key is refused and nothing changes; otherwise exactly one record is inserted and saved, and the insertion stands when saving fails |
| KeyStore.Store.Remove | internal/keystore/keystore.go:61-72 | an absent key is refused and nothing changes; otherwise exactly that key is deleted and saved |
| KeyStore.Store.Clear | internal/keystore/keystore.go:107-114 | the store is empty afterwards and is saved |
| KeyStore.Store.Validate | internal/keystore/keystore.go:75-91 | accepts exactly when the store is non-empty and holds the candidate |
| KeyStore.Store.List | internal/keystore/keystore.go:94-104 | every stored record exactly once, in any order |
| KeyStore.Store.IsEmpty | internal/keystore/keystore.go:117-122 | true exactly when no key is stored |
| WctlGetRuntimes.ObserveLocalRuntimes | pkg/cmd/wctl/get/runtimes.go:80-104 | exactly the found runtimes, in detector order; failed detectors are skipped |
| WctlGetRuntimes.LocalMatchesServer | pkg/cmd/wctl/get/runtimes.go:86-101 | local observation agrees with an unfiltered server observation |
| WctlGetRuntimes.ObserveRemoteRuntimes | pkg/cmd/wctl/get/runtimes.go:106-124 | a connection error is returned without any call; otherwise the client's answer is returned unchanged, and close follows the call in both outcomes |
| WctlGetRuntimes.RemoteRuntimesAreFound | pkg/cmd/wctl/get/runtimes.go:118-123 | what the client returns is found and was in the response |
| WctlGetRuntime.SelectDetector | pkg/cmd/wctl/get/runtime.go:80-110 | eleven names are supported; any other is the error "unsupported runtime: name" |
| WctlGetRuntime.SelectsByName | pkg/cmd/wctl/get/runtime.go:80-96 | each detector is selected by its own name |
| WctlGetRuntime.SelectsByAlias | pkg/cmd/wctl/get/runtime.go:85-92 | nodejs, golang and mariadb select node, go and mysql |
| WctlGetRuntime.SelectedNames | pkg/cmd/wctl/get/runtime.go:80-110 | the only names selecting a detector are its own name and its alias |
| WctlGetRuntime.ObserveLocalRuntime | pkg/cmd/wctl/get/runtime.go:73-119 | an unsupported name runs nothing; a detection error replaces the runtime |
| WctlGetRuntime.Conclude | pkg/cmd/wctl/get/runtime.go:48-53 | only a found runtime is shown; an error stops; missing or not found is "not installed" |
| WctlGetRuntime.LocalConclusion | pkg/cmd/wctl/get/runtime.go:42-53 | locally an absent runtime is "not installed" and a failed detection is never shown |
| WctlGetRuntime.ObserveRemoteRuntime | pkg/cmd/wctl/get/runtime.go:121-139 | a connection error is returned; otherwise the raw name is looked up without alias mapping |
| WctlGetRuntime.RemoteNodejsNotFound | pkg/cmd/wctl/get/runtime.go:133 | remotely "nodejs" is never found, while locally it selects the node detector |
| WctlRoot.Resolve | pkg/cmd/wctl/root.go:40-72 | under the key command the flag is kept; a set flag wins; then a non-empty environment value; then the stored key file, or empty |
| WctlRoot.ResolveSource | pkg/cmd/wctl/root.go:45-70 | the key is the flag, the environment value, the stored key or empty |
| WctlRoot.FlagWins | pkg/cmd/wctl/root.go:45-47 | with the flag set, the environment and the file are not consulted |
| WctlRoot.EmptyEnvIsUnset | pkg/cmd/wctl/root.go:49-52 | an empty environment value falls through to the file |
| WctlRoot.Settings.constructor | pkg/cmd/wctl/root.go:40-43 | the key starts as the flag's value |
| WctlRoot.Settings.LoadAPIKey | pkg/cmd/wctl/root.go:40-72 | the key becomes the resolved one, and resolution never fails |
| WsctlCommon.MaskKey | pkg/cmd/wsctl/common/common.go:26-31 | up to 14 bytes unchanged; longer keys become their first 10 bytes, `...` and their last 4, 17 bytes in all |
| WsctlCommon.MaskHidesMiddle | pkg/cmd/wsctl/common/common.go:30 | keys of one length that differ only in the middle mask alike |
| WsctlCommon.MaskIdempotent | pkg/cmd/wsctl/common/common.go:26-31 | masking a masked key changes nothing |
| ServeKey.MaskKey | pkg/cmd/serve/key.go:172-177 | up to 14 bytes unchanged; longer keys keep the first 10 and last 4 bytes, 17 bytes in all |
| ServeKey.AgreesWithCommon | pkg/cmd/serve/key.go:172-177 | it agrees with the other masking function on every key |
| Fleet.ByName | pkg/cmd/compare/runtimes.go:125-128 | every reported runtime is found under its name, and nothing else is |
| Fleet.ByNameOfDistinct | pkg/cmd/compare/runtimes.go:125-128 | with distinct names, each runtime is kept as reported |
| Fleet.FetchServer | pkg/cmd/wctl/compare/runtimes.go:119-153 | a failed fetch keeps the host and the error; a successful one the runtimes by name |
| Fleet.FetchedAll | pkg/cmd/wctl/compare/runtimes.go:113-159 | one result per host, slot i fetched from host i |
| Fleet.FetchAllServers | pkg/cmd/wctl/compare/runtimes.go:113-159 | each fetch writes only its own slot, so result i carries host i |
| Fleet.Successful | pkg/cmd/compare/runtimes.go:57-66 | exactly the error-free results |
| Fleet.KeepSuccessful | pkg/cmd/compare/runtimes.go:57-66 | the loop keeps exactly the error-free results, in order |
| Fleet.Names | pkg/cmd/compare/runtimes.go:143-150 | the runtime names of error-free servers, and no others |
| Fleet.CollectNames | pkg/cmd/compare/runtimes.go:143-150 | the loop's set is exactly those names |
| Fleet.HostLabel | pkg/cmd/compare/runtimes.go:174-182 | the host before its first colon, with " (ERR)" added exactly for a failed server |
| Fleet.LabelHosts | pkg/cmd/compare/runtimes.go:174-182 | one label per server, in server order |
| Fleet.Slot | pkg/cmd/compare/runtimes.go:154-162 | "ERROR" for a failed server, the version when reported, and the absent marker otherwise |
| Fleet.VersionRow | pkg/cmd/compare/runtimes.go:154-163 | one cell per server, cell i from server i |
| Fleet.FillRow | pkg/cmd/compare/runtimes.go:154-163 | the loop fills exactly those cells |
| Compare.CountAll | pkg/cmd/compare/runtimes.go:213 | a value occurs as often as the row is long exactly when every cell holds it |
| Compare.DetermineStatus | pkg/cmd/compare/runtimes.go:190-226 | the counting loop yields the classification: UNKNOWN when empty, ERROR on any failure, MISSING, PARTIAL, SAME or DIFF |
| Compare.ErrorDominates | pkg/cmd/compare/runtimes.go:199-211 | any ERROR cell makes the row ERROR |
| Compare.SameIffAgree | pkg/cmd/compare/runtimes.go:221-225 | without ERROR and "-", SAME exactly when all cells agree, and DIFF otherwise |
| Compare.OrderIrrelevant | pkg/cmd/compare/runtimes.go:195-225 | the status does not depend on the order of the servers |
| Compare.Row | pkg/cmd/compare/runtimes.go:154-171 | a row has one cell per server |
| Compare.BuildRow | pkg/cmd/compare/runtimes.go:154-171 | a row's cells and status are those of its runtime |
| Compare.BuildRows | pkg/cmd/compare/runtimes.go:153-172 | one row per name, each once, in any order |
| Compare.RowsForSnoc | pkg/cmd/compare/runtimes.go:153-172 | adding a row for a new name extends the rows built so far |
| Compare.BuildComparison | pkg/cmd/compare/runtimes.go:142-188 | labels aligned with the servers, and rows for exactly the reported names, each once |
| Compare.FailedServerPoisonsRows | pkg/cmd/compare/runtimes.go:159-161 | a failed server makes every row ERROR |
| Compare.RunCompareRuntimes | pkg/cmd/compare/runtimes.go:38-94 | nothing without hosts; nothing when every host failed; otherwise the comparison of the answering hosts only |
| Compare.NoFailuresShown | pkg/cmd/compare/runtimes.go:57-77 | in what is shown, no label says (ERR), and a row is ERROR only when a server reported the version "ERROR" |
| WctlCompare.FirstOther | pkg/cmd/wctl/compare/runtimes.go:215-225 | the first cell from a position on that is not skipped |
| WctlCompare.DetermineStatus | pkg/cmd/wctl/compare/runtimes.go:209-236 | the left-to-right scan yields the baseline classification |
| WctlCompare.NothingToCompare | pkg/cmd/wctl/compare/runtimes.go:231-233 | an all-"x" row is UNKNOWN |
| WctlCompare.AgreementMatches | pkg/cmd/wctl/compare/runtimes.go:219-235 | a row whose present cells all agree is MATCH, even with some "x" |
| WctlCompare.ErrorOrderMatters | pkg/cmd/wctl/compare/runtimes.go:216-228 | ["1","2","ERROR"] is MISMATCH but ["ERROR","1","2"] is UNKNOWN |
| WctlCompare.EmptyVersionBeforeAndAfter | pkg/cmd/wctl/compare/runtimes.go:222-228 | an empty version before the baseline is passed over and after it is a mismatch |
| WctlCompare.Row | pkg/cmd/wctl/compare/runtimes.go:173-190 | a row has one cell per server |
| WctlCompare.RowCells | pkg/cmd/wctl/compare/runtimes.go:173-182 | cell i is "ERROR" for a failed server, the version when reported, and "x" otherwise |
| WctlCompare.BuildRow | pkg/cmd/wctl/compare/runtimes.go:173-190 | a row's cells and status are those of its runtime |
| WctlCompare.BuildRows | pkg/cmd/wctl/compare/runtimes.go:172-191 | one row per name, each once, in any order |
| WctlCompare.RowsForSnoc | pkg/cmd/wctl/compare/runtimes.go:172-191 | adding a row for a new name extends the rows built so far |
| WctlCompare.BuildComparison | pkg/cmd/wctl/compare/runtimes.go:161-207 | labels aligned with the servers, and rows for exactly the reported names, each once |
| WctlCompare.CountStatus | pkg/cmd/wctl/compare/runtimes.go:245-252 | a count never exceeds the number of rows |
| WctlCompare.CountsAddUp | pkg/cmd/wctl/compare/runtimes.go:241-257 | the three counts add up to the total, so "matching" is exactly the MATCH rows |
| WctlCompare.PrintSummary | pkg/cmd/wctl/compare/runtimes.go:238-257 | the total, mismatched, unknown and matching counts, with matching computed as total minus the other two |
| WctlCompare.TrimHosts | pkg/cmd/wctl/compare/runtimes.go:55-57 | each host is trimmed in place |
| WctlCompare.RunCompareRuntimes | pkg/cmd/wctl/compare/runtimes.go:53-111 | hosts are trimmed first; nothing without hosts or when all fail; otherwise the comparison of the answering hosts |

## Left out

- Goroutines and the `sync.WaitGroup` of both `fetchAllServers`: the fetches run one after another, and each host's answer is an input given by host index.
- gRPC dialing, connection options, the 10-second timeout and the generated client stub: the call is an input function from context and request to a response or a transport error, and connection errors are abstract strings.
- `exec.LookPath`, `exec.Command` and `CombinedOutput`, `os.Hostname`, `runtime.GOOS`, `uname -r` and `time.Now`: these are parameters. They are the search path, the command runner, the host, the OS, the `uname` output and the clock value.
- Error texts that wrap an operating-system or library error keep only the wrapping prefix and carry the cause as an abstract string.
- The key store's JSON encoding, the keys file itself and the `sync.RWMutex`: what reading the file yields and whether writing it succeeds are inputs. Locking is not modelled because the model is sequential. The encoding error of `json.MarshalIndent` is not modelled.
- `KeyStore.Store.Validate`: `subtle.ConstantTimeCompare` is modelled as string equality; its timing behaviour is not modelled.
- `Registry.AllDetectors`: returns the same list value on every call; that each call allocates fresh detector objects is not modelled.
- `internal/keymanager/client.go` and the key-generating commands are not part of this model: the key read from the `default` key file is an input to `WctlRoot.Resolve`, and a failure to read it is modelled as no key.
- Metadata key normalization (gRPC lower-cases header names) is not modelled: the header name is already lower-case.
- All rendering and printing: tables, JSON, YAML and colours. The five-status command's `printSummary` only counts and prints, so it is left out; the three-status summary's counts are modelled.
- Cobra command wiring, flags, shell completion and server start-up (including the start-up message about authentication).
- The legacy `pkg/cmd/get` commands and `pkg/cmd/root.go`: they duplicate the `wctl` commands and no longer build against the current client constructor.
- Go's general regular-expression engine: each pattern is a scanner dedicated to it, with the same leftmost and greedy or lazy behaviour.
