# Apache Beam subprocess servers and the DICOM I/O integration checks

This project is a Dafny model of two parts of the Apache Beam Python SDK.

**Subprocess servers** (`apache_beam/utils/subprocess_server.py`). Expansion services, job
servers and other helper processes are started as subprocesses and shared through
`_SharedCache`. This is a reference-counted cache: callers `register` an owner id, `get`
objects by key, and `purge` their id when done. An object is built once per key and destroyed
when the last owner holding it leaves. The model covers:

- `SubprocessServer.start_process` and `stop_process`, which trade owner ids with that cache;
- `JavaJarServer`, which either runs `java -jar` on a jar or points at an already running
  `host:port` service;
- the string helpers `JavaJarServer` uses to find its jars: `jar_name`, `path_to_maven_jar`,
  `parse_gradle_target`, the version branch of `path_to_beam_jar`, and `is_service_endpoint`.

**DICOM integration checks**
(`apache_beam/io/gcp/healthcare/dicomio_integration_test.py`). The integration test of the
Healthcare DICOM connector names a temporary store after the current time and a random suffix.
It then decides three checks:

- each search returns one result container equal to the expected one, after normalisation;
- uploading the test files yields eighteen successes;
- the uploaded store's records equal the expected metadata up to order, after normalisation.

Normalisation drops the volatile tag `00081190`, the retrieve URL, because that URL embeds the
store name.

## How the model is built

Modules:

- `Wrappers`: `Option`, `Result` and `Outcome`.
- `Strings`: the Python string operations used, such as `join`, `replace`, `strip`, `rsplit`
  and `split`.
- `SharedCache`: the cache.
- `Servers`: the two server classes.
- `JarPaths`: the jar and endpoint string helpers.
- `DicomNormalize` and `DicomChecks`: the DICOM side.

How the cache is modelled:

- The cache state is a value, `SharedCache.State`.
- Each cache operation is a function on that value (`RegisterSpec`, `GetSpec`, `PurgeSpec`),
  and lemmas are proved about those functions.
- The class `SharedCache.Cache` holds the same state in fields. Each of its methods is proved
  to make exactly the step of the matching function. `Purge` does so with the loop over the
  key snapshot that the Python code runs.
- The Python dict is an insertion-ordered key list plus a map, because the order in which
  destructors run follows the dict's iteration order.
- The constructor and destructor callbacks are not run. What the constructor would do is a
  parameter `made`: the object it returns, or `None` when it raises. Every callback call is
  appended to a ghost log of events.

How the servers are modelled:

- The server classes hold the cache, the command, the port and the held owner id.
- Their methods are proved equal to `StartSpec`/`StopSpec` and to `JavaStartSpec`/`JavaStopSpec`.

## Model

| member | source | states |
|---|---|---|
| SharedCache.RegisterSpec | sdks/python/apache_beam/utils/subprocess_server.py:79-87 | `register` as a step on the cache state: the returned id is above the old counter and is the new counter |
| SharedCache.Inv | sdks/python/apache_beam/utils/subprocess_server.py:58-77 | the cache invariant the other rows rely on: the key order lists each cached key once, every live id has been issued, and every cached entry has at least one owner, all of them live |
| SharedCache.GetSpec | sdks/python/apache_beam/utils/subprocess_server.py:105-113 | `get` as a step on the cache state: counter and live owners are kept, and it succeeds iff an owner is live and the key is cached or the constructor returns |
| SharedCache.PurgeSpec | sdks/python/apache_beam/utils/subprocess_server.py:89-103 | `purge` as a step on the cache state: it succeeds iff the id is live, keeps the counter and removes the id from the live set |
| SharedCache.Kept | sdks/python/apache_beam/utils/subprocess_server.py:95-98 | the keys, in dict order, that keep an owner after the purge (characterised by `KeptMembers`) |
| SharedCache.Evicted | sdks/python/apache_beam/utils/subprocess_server.py:98-100 | the keys, in dict order, left with no owner; each is cached (characterised by `EvictedMembers`) |
| SharedCache.Swept | sdks/python/apache_beam/utils/subprocess_server.py:95-100 | the dict after the loop has visited a prefix of the key snapshot (characterised by `SweptAt`) |
| SharedCache.Apply | sdks/python/apache_beam/utils/subprocess_server.py:79-113 | one register, get or purge call on the state; it never lowers the id counter |
| SharedCache.Run | sdks/python/apache_beam/utils/subprocess_server.py:79-113 | a sequence of calls in order; its invariants are `RunKeepsInv` and `RunCounterGrows` |
| SharedCache.Empty | sdks/python/apache_beam/utils/subprocess_server.py:71-77 | a new cache (counter 0, no owners, no entries) satisfies the cache invariant |
| SharedCache.RegisterIssuesFreshId | sdks/python/apache_beam/utils/subprocess_server.py:79-87 | `register` keeps the invariant. The id it returns is the next counter value, was not live and is larger than every live id. It is added to the live set, and the entries and callbacks are untouched |
| SharedCache.LaterRegisterIsLarger | sdks/python/apache_beam/utils/subprocess_server.py:79-87 | after any sequence of calls, a later `register` returns a larger id than an earlier one |
| SharedCache.RunCounterGrows | sdks/python/apache_beam/utils/subprocess_server.py:79-82 | the id counter never decreases over any sequence of register/get/purge calls |
| SharedCache.GetWithoutOwnerFails | sdks/python/apache_beam/utils/subprocess_server.py:105-107 | `get` with no live owner fails with the no-owner error and changes nothing |
| SharedCache.GetHoldsEveryLiveOwner | sdks/python/apache_beam/utils/subprocess_server.py:105-113 | `get` with a live owner keeps the invariant. The constructor runs exactly once when the key was absent, and not at all otherwise. It succeeds iff the key was cached or the constructor returned; it then returns the key's object, and every live owner holds the entry. When the constructor raises, the error passes on and no entry or key is added. Other keys are unchanged |
| SharedCache.GetIsMemoised | sdks/python/apache_beam/utils/subprocess_server.py:108-113 | if a key stays cached across any calls, a later `get` returns the same object and calls no constructor |
| SharedCache.CachedObjStable | sdks/python/apache_beam/utils/subprocess_server.py:108-113 | while a key stays cached across a sequence of calls, its object never changes |
| SharedCache.ApplyKeepsHeld | sdks/python/apache_beam/utils/subprocess_server.py:79-113 | any one call other than purging `o` keeps a key cached, keeps `o` among its owners, and keeps its object |
| SharedCache.KeptAliveUntilPurged | sdks/python/apache_beam/utils/subprocess_server.py:58-64 | an object cached for owner `o` stays cached, held by `o` and unchanged across any sequence of calls that does not purge `o` |
| SharedCache.GetMemoisedUntilPurged | sdks/python/apache_beam/utils/subprocess_server.py:58-64 | after a `get(key)` made while `o` is live succeeds, a later `get(key)` returns the same object and calls no constructor, whatever calls came in between, as long as none purged `o` |
| SharedCache.ApplyKeepsObj | sdks/python/apache_beam/utils/subprocess_server.py:95-113 | no single call replaces the object of a key cached before and after it |
| SharedCache.PurgeNotLiveFails | sdks/python/apache_beam/utils/subprocess_server.py:89-91 | purging an id that is not live raises and leaves the cache unchanged |
| SharedCache.PurgeKeepsInv | sdks/python/apache_beam/utils/subprocess_server.py:92-100 | purging a live id keeps the cache invariant |
| SharedCache.PurgeReleasesOwner | sdks/python/apache_beam/utils/subprocess_server.py:92-100 | purging a live id succeeds. The id leaves the live set and every entry. An entry is kept iff it has another owner, and kept entries keep their objects |
| SharedCache.Survives | sdks/python/apache_beam/utils/subprocess_server.py:96-98 | an entry still has an owner after `owner` is removed from it, so `del` is not reached |
| SharedCache.Release | sdks/python/apache_beam/utils/subprocess_server.py:96-97 | the entry with `owner` removed from its owners, its object unchanged |
| SharedCache.PurgeDestroysEvicted | sdks/python/apache_beam/utils/subprocess_server.py:92-103 | the evicted keys are exactly the entries owned only by the purged id, each listed once. One destructor call per evicted object is appended, in key order. Kept plus evicted keys are a permutation of the old keys |
| SharedCache.KeptMembers | sdks/python/apache_beam/utils/subprocess_server.py:95-98 | a key is kept iff it is listed, cached, and still has an owner after the purge |
| SharedCache.EvictedMembers | sdks/python/apache_beam/utils/subprocess_server.py:98-100 | a key is evicted iff it is listed, cached, and has no owner left after the purge |
| SharedCache.KeptDistinct | sdks/python/apache_beam/utils/subprocess_server.py:95-100 | the kept keys of a duplicate-free key list are duplicate-free |
| SharedCache.EvictedDistinct | sdks/python/apache_beam/utils/subprocess_server.py:98-100 | the evicted keys of a duplicate-free key list are duplicate-free |
| SharedCache.KeptEvictedPartition | sdks/python/apache_beam/utils/subprocess_server.py:95-100 | each cached key is either kept or evicted, never both (multiset partition) |
| SharedCache.PartitionStep | sdks/python/apache_beam/utils/subprocess_server.py:95-100 | one more visited key lands in exactly one of the kept and evicted lists |
| SharedCache.SweptAt | sdks/python/apache_beam/utils/subprocess_server.py:95-100 | a key survives the loop iff it was cached and, if visited, kept an owner. A visited survivor has lost the purged owner, and an unvisited one is untouched |
| SharedCache.SweepSnoc | sdks/python/apache_beam/utils/subprocess_server.py:95-100 | visiting one more key extends the kept list, the evicted list and the dict by that key's outcome |
| SharedCache.SweepIsPurge | sdks/python/apache_beam/utils/subprocess_server.py:95-100 | looping over the snapshot of every key leaves the dict that `PurgeSpec` describes |
| SharedCache.ApplyKeepsInv | sdks/python/apache_beam/utils/subprocess_server.py:79-113 | every register/get/purge call, including one that raises, keeps the invariant |
| SharedCache.RunKeepsInv | sdks/python/apache_beam/utils/subprocess_server.py:79-113 | any sequence of register/get/purge calls keeps the cache invariant |
| SharedCache.Objs | sdks/python/apache_beam/utils/subprocess_server.py:99 | the objects collected for deletion are those of the evicted keys, in their order |
| SharedCache.Destroys | sdks/python/apache_beam/utils/subprocess_server.py:102-103 | one destructor event per collected object, in order |
| SharedCache.Cache.constructor | sdks/python/apache_beam/utils/subprocess_server.py:71-77 | the new cache is valid and equals the empty state |
| SharedCache.Cache.NextId | sdks/python/apache_beam/utils/subprocess_server.py:79-82 | the counter goes up by one and the new value is returned |
| SharedCache.Cache.Register | sdks/python/apache_beam/utils/subprocess_server.py:84-87 | the cache stays valid and makes exactly the `RegisterSpec` step |
| SharedCache.Cache.Get | sdks/python/apache_beam/utils/subprocess_server.py:105-113 | the cache stays valid and makes exactly the `GetSpec` step, including the error path |
| SharedCache.Cache.Sweep | sdks/python/apache_beam/utils/subprocess_server.py:93-100 | the loop over the key snapshot leaves the swept dict. It returns the kept keys and the evicted objects in key order |
| SharedCache.Cache.RunDestructors | sdks/python/apache_beam/utils/subprocess_server.py:102-103 | one destructor call per collected object, appended in order |
| SharedCache.Cache.Purge | sdks/python/apache_beam/utils/subprocess_server.py:89-103 | the cache stays valid and makes exactly the `PurgeSpec` step, including the not-live error |
| Servers.StartSpec | sdks/python/apache_beam/utils/subprocess_server.py:202-206 | `start_process` as a step on cache and held id: the server always ends up holding an id, and after a success that id is the next counter value |
| Servers.StopSpec | sdks/python/apache_beam/utils/subprocess_server.py:234-237 | `stop_process` as a step: it succeeds iff the server ends up holding no id |
| Servers.JavaStartSpec | sdks/python/apache_beam/utils/subprocess_server.py:298-313 | `JavaJarServer.start_process` as a step: a missing-java error leaves the cache and held id untouched |
| Servers.JavaStopSpec | sdks/python/apache_beam/utils/subprocess_server.py:315-319 | `JavaJarServer.stop_process` as a step: a successful stop leaves no held id, except for an existing service, where nothing changes |
| Servers.StartHoldsOneFreshOwner | sdks/python/apache_beam/utils/subprocess_server.py:202-206 | `start_process` keeps the invariant. The server then holds one live id, the next counter value, larger than every live id before. The old id is no longer live, and the live set is the old one minus the old id plus the new one. The start succeeds iff the command is cached afterwards; then the new id holds that entry and its object is returned. It fails only when the process had to be started and that raised; the new id is then kept with no entry. A process another live owner still holds is reused |
| Servers.StartWithStaleOwnerFails | sdks/python/apache_beam/utils/subprocess_server.py:202-204 | starting while holding an id that is no longer live raises the cache's error and changes nothing |
| Servers.StopReleasesOnce | sdks/python/apache_beam/utils/subprocess_server.py:234-237 | `stop_process` gives back the held id and forgets it, or changes nothing when none is held. A second stop then changes nothing |
| Servers.StartThenStopRestoresOwners | sdks/python/apache_beam/utils/subprocess_server.py:202-206 | a start followed by a stop leaves the live owners as before, minus the id held before the start |
| Servers.JavaCommand | sdks/python/apache_beam/utils/subprocess_server.py:292-294 | the command is `java -jar <jar>` followed by the java arguments, in order |
| Servers.ExistingService | sdks/python/apache_beam/utils/subprocess_server.py:295-296 | there is an existing service iff the jar path has the `host:port` shape, and it is then that path |
| Servers.ExistingServiceBypassesCache | sdks/python/apache_beam/utils/subprocess_server.py:298-300 | for a `host:port` path, start returns that endpoint with no process and stop changes nothing, whatever the state of java or of the cache |
| Servers.MissingJavaFails | sdks/python/apache_beam/utils/subprocess_server.py:302-312 | without java, start fails before touching the cache. The error names JAVA_HOME iff it is set and non-empty |
| Servers.JarServerStartsLikeSubprocess | sdks/python/apache_beam/utils/subprocess_server.py:313-319 | with java present and a real jar path, start and stop are exactly those of a plain subprocess server |
| Servers.SubprocessServer.constructor | sdks/python/apache_beam/utils/subprocess_server.py:135-151 | the server keeps the cache, the command and the port, and holds no owner id |
| Servers.SubprocessServer.StartProcess | sdks/python/apache_beam/utils/subprocess_server.py:202-206 | the cache stays valid. The new cache, held id and result are exactly those of `StartSpec` |
| Servers.SubprocessServer.StopProcess | sdks/python/apache_beam/utils/subprocess_server.py:234-237 | the cache stays valid. The new cache, held id and result are exactly those of `StopSpec` |
| Servers.JavaJarServer.constructor | sdks/python/apache_beam/utils/subprocess_server.py:280-296 | the server's command is the `java -jar` command on the shared cache with no port. The existing service is recognised from the jar path |
| Servers.JavaJarServer.StartProcess | sdks/python/apache_beam/utils/subprocess_server.py:298-313 | the cache stays valid and the step is exactly `JavaStartSpec` (bypass, missing-java errors, or a plain start) |
| Servers.JavaJarServer.StopProcess | sdks/python/apache_beam/utils/subprocess_server.py:315-319 | the cache stays valid and the step is exactly `JavaStopSpec` (nothing for an existing service, else a plain stop) |
| JarPaths.JarName | sdks/python/apache_beam/utils/subprocess_server.py:321-324 | every jar name ends in `.jar` |
| JarPaths.FilterParts | sdks/python/apache_beam/utils/subprocess_server.py:323-324 | `filter(None, ...)` over the four name parts keeps exactly the non-empty ones, in order |
| JarPaths.JarNamePlain | sdks/python/apache_beam/utils/subprocess_server.py:321-324 | with no classifier and no appendix the name is `artifact-version.jar` |
| JarPaths.JarNameClassified | sdks/python/apache_beam/utils/subprocess_server.py:321-324 | a classifier comes after the version: `artifact-version-classifier.jar` |
| JarPaths.JarNameAppended | sdks/python/apache_beam/utils/subprocess_server.py:321-324 | an appendix comes between artifact and version: `artifact-appendix-version.jar` |
| JarPaths.JarNameFull | sdks/python/apache_beam/utils/subprocess_server.py:321-324 | with all four parts the name is `artifact-appendix-version-classifier.jar` |
| JarPaths.JarNameEmptyIsAbsent | sdks/python/apache_beam/utils/subprocess_server.py:323-324 | an empty classifier or appendix is dropped like a missing one |
| JarPaths.PathToMavenJar | sdks/python/apache_beam/utils/subprocess_server.py:326-341 | the path is repository, group (dots as slashes), artifact, version and jar name, separated by single slashes |
| JarPaths.MavenGroupPathHasNoDots | sdks/python/apache_beam/utils/subprocess_server.py:337 | the group segment keeps its length and has no dots left |
| JarPaths.GradlePackage | sdks/python/apache_beam/utils/subprocess_server.py:345 | the package is a prefix of the colon-stripped target. It is cut at the target's last colon, with no colon after the cut, or it is the whole stripped target when there is no colon |
| JarPaths.ParseGradleTarget | sdks/python/apache_beam/utils/subprocess_server.py:343-348 | returns the Gradle package, and the given artifact id when it is non-empty. Otherwise the id is `beam-` plus the package with colons as dashes, and it contains no colon |
| JarPaths.PathToBeamJar | sdks/python/apache_beam/utils/subprocess_server.py:372-405 | a registered replacement wins, then an existing local jar. The lookup fails iff there is neither and the version has `.dev` but no `rc` |
| JarPaths.BeforeFirstLacks | sdks/python/apache_beam/utils/subprocess_server.py:394 | `version.split('rc')[0]` holds no `rc` |
| JarPaths.BeamJarReleaseCandidate | sdks/python/apache_beam/utils/subprocess_server.py:391-395 | a release candidate is fetched from the staging repository under the version cut before its first `rc`. The cut version is a prefix followed by `rc` and holds no `rc` |
| JarPaths.BeamJarRelease | sdks/python/apache_beam/utils/subprocess_server.py:391-405 | a version with neither `rc` nor `.dev` is fetched from Maven Central under that version |
| JarPaths.HostSpan | sdks/python/apache_beam/utils/subprocess_server.py:495 | the greedy run of `[a-zA-Z0-9.-]` characters: all host characters, and maximal |
| JarPaths.DigitSpan | sdks/python/apache_beam/utils/subprocess_server.py:495 | the greedy run of digits: all digits, and maximal |
| JarPaths.IsServiceEndpoint | sdks/python/apache_beam/utils/subprocess_server.py:493-495 | an accepted path matches the pattern at its greedy host/port split |
| JarPaths.ServiceEndpointIffShape | sdks/python/apache_beam/utils/subprocess_server.py:495 | the matcher accepts a path iff some split of it matches `^[a-zA-Z0-9.-]+:\d+$` |
| JarPaths.LocalhostIsEndpoint | sdks/python/apache_beam/utils/subprocess_server.py:495 | `localhost:8099` is an endpoint, and so is `localhost:8099` with a final newline, which `$` lets through |
| JarPaths.NonEndpoints | sdks/python/apache_beam/utils/subprocess_server.py:495 | a jar path, a host without port and a port without host are not endpoints |
| JarPaths.Present | sdks/python/apache_beam/utils/subprocess_server.py:323-324 | how `filter(None, ...)` sees an optional part: `None` and the empty string are both dropped |
| JarPaths.EndpointShape | sdks/python/apache_beam/utils/subprocess_server.py:495 | the regular-expression reading of `^[a-zA-Z0-9.-]+:\d+$`: some split of the path into host, colon, digits and end matches |
| JarPaths.HostChar | sdks/python/apache_beam/utils/subprocess_server.py:495 | the character class `[a-zA-Z0-9.-]` |
| JarPaths.Digit | sdks/python/apache_beam/utils/subprocess_server.py:495 | `\d`, read as the ASCII digits |
| JarPaths.AtEnd | sdks/python/apache_beam/utils/subprocess_server.py:495 | what `$` accepts after the port: the end, or one newline that ends the string |
| JarPaths.MatchesAt | sdks/python/apache_beam/utils/subprocess_server.py:495 | the pattern matches with the host before position i, the colon at i and the port digits up to j, followed by the end |
| Strings.Join | sdks/python/apache_beam/utils/subprocess_server.py:323-324 | `sep.join(parts)`; `JoinCons`, `JoinSnoc` and `JoinFive` give its shape |
| Strings.JoinSnoc | sdks/python/apache_beam/utils/subprocess_server.py:323-324 | joining one more part appends the separator and that part |
| Strings.JoinCons | sdks/python/apache_beam/utils/subprocess_server.py:323-324 | joining a part in front of others puts that part and the separator in front |
| Strings.JoinFive | sdks/python/apache_beam/utils/subprocess_server.py:335-341 | joining five parts puts the separator between each neighbouring pair |
| Strings.NonEmpty | sdks/python/apache_beam/utils/subprocess_server.py:323-324 | `filter(None, parts)` keeps exactly the non-empty parts, and never more parts than given |
| Strings.NonEmptyCons | sdks/python/apache_beam/utils/subprocess_server.py:323-324 | filtering keeps or drops the first part, then filters the rest |
| Strings.ReplaceChar | sdks/python/apache_beam/utils/subprocess_server.py:337 | `s.replace(from, to)` on one character: same length, every `from` becomes `to`, every other character stays, and no `from` is left |
| Strings.StripLeft | sdks/python/apache_beam/utils/subprocess_server.py:345 | `lstrip(c)`: a suffix of the string, everything removed is `c`, and it does not start with `c` |
| Strings.StripRight | sdks/python/apache_beam/utils/subprocess_server.py:345 | `rstrip(c)`: a prefix of the string, everything removed is `c`, and it does not end with `c` |
| Strings.Strip | sdks/python/apache_beam/utils/subprocess_server.py:345 | `strip(c)`: a middle slice of the string with only `c`s removed on either side, and neither end is `c` |
| Strings.LastIndexOf | sdks/python/apache_beam/utils/subprocess_server.py:345 | `rfind(c)`: -1 iff `c` does not occur, else the index of a `c` with none after it |
| Strings.BeforeLast | sdks/python/apache_beam/utils/subprocess_server.py:345 | `rsplit(c, 1)[0]`: the whole string when there is no `c`, else the prefix before the last `c` |
| Strings.IndexFrom | sdks/python/apache_beam/utils/subprocess_server.py:392-394 | `find(sub, from)`: the first occurrence at or after `from`, or -1 when there is none |
| Strings.IndexOf | sdks/python/apache_beam/utils/subprocess_server.py:392-394 | `find(sub)`: the first occurrence of `sub`, or -1 when there is none |
| Strings.Contains | sdks/python/apache_beam/utils/subprocess_server.py:392-396 | `sub in s`: `find` found an occurrence |
| Strings.BeforeFirst | sdks/python/apache_beam/utils/subprocess_server.py:394 | `split(sub)[0]`: the prefix before the first occurrence of `sub`, or the whole string when it does not occur |
| DicomNormalize.NormalizeInstance | sdks/python/apache_beam/io/gcp/healthcare/dicomio_integration_test.py:77-78 | the record keeps exactly its non-volatile tags, each with its value |
| DicomNormalize.NormalizeInstanceIdempotent | sdks/python/apache_beam/io/gcp/healthcare/dicomio_integration_test.py:77-78 | normalising twice equals normalising once |
| DicomNormalize.NormalizeInstanceFixesClean | sdks/python/apache_beam/io/gcp/healthcare/dicomio_integration_test.py:68-78 | a record is unchanged iff it has no volatile tag |
| DicomNormalize.NormalizeInstanceIgnoresVolatile | sdks/python/apache_beam/io/gcp/healthcare/dicomio_integration_test.py:67-78 | records that agree outside the volatile tags normalise to the same record |
| DicomNormalize.NormalizedEqualIff | sdks/python/apache_beam/io/gcp/healthcare/dicomio_integration_test.py:67-78 | normalised records are equal iff the records have the same non-volatile tags with the same values |
| DicomNormalize.NormalizeRecords | sdks/python/apache_beam/io/gcp/healthcare/dicomio_integration_test.py:73 | the comprehension succeeds iff every element is a JSON object. It then keeps the length, and element i is record i normalised |
| DicomNormalize.ResultElements | sdks/python/apache_beam/io/gcp/healthcare/dicomio_integration_test.py:73 | iterating succeeds iff the value is a list, the empty string or the empty object. A list yields its elements and the empty string or object none. A non-empty string or object yields no records, and null, a boolean or a number is not iterable |
| DicomNormalize.NormalizeOuter | sdks/python/apache_beam/io/gcp/healthcare/dicomio_integration_test.py:71-74 | the copy keeps every key, adds `result`, and leaves every other field unchanged. A container without `result` gains an empty one |
| DicomNormalize.NormalizeOuterResultList | sdks/python/apache_beam/io/gcp/healthcare/dicomio_integration_test.py:73 | a list `result` is normalised iff all its elements are records. It then keeps its length, and element i is record i normalised |
| DicomNormalize.NormalizeOuterIdempotent | sdks/python/apache_beam/io/gcp/healthcare/dicomio_integration_test.py:71-78 | normalising a normalised container changes nothing |
| DicomNormalize.NormalizeOuterRejects | sdks/python/apache_beam/io/gcp/healthcare/dicomio_integration_test.py:73 | a null, boolean or number `result` is not iterable. A non-empty string or object `result` holds no records. An empty string or object `result` becomes the empty list |
| DicomChecks.Run | sdks/python/apache_beam/io/gcp/healthcare/dicomio_integration_test.py:82 | n consecutive characters from `first` |
| DicomChecks.AlphabetIndex | sdks/python/apache_beam/io/gcp/healthcare/dicomio_integration_test.py:82 | every ASCII letter or digit stands in the 62-character alphabet at the returned index |
| DicomChecks.AlphabetAt | sdks/python/apache_beam/io/gcp/healthcare/dicomio_integration_test.py:82 | index i of the alphabet is the i-th lower-case letter, then the upper-case letters, then the digits |
| DicomChecks.AlphabetIsAlnum | sdks/python/apache_beam/io/gcp/healthcare/dicomio_integration_test.py:82 | `ascii_letters + digits` has 62 characters, all letters or digits, pairwise distinct |
| DicomChecks.RandomString | sdks/python/apache_beam/io/gcp/healthcare/dicomio_integration_test.py:81-84 | the string has the requested length. Character i is the alphabet letter drawn i-th, so it is a letter or digit |
| DicomChecks.RandomStringInjective | sdks/python/apache_beam/io/gcp/healthcare/dicomio_integration_test.py:81-84 | two draws give the same string iff they picked the same indices |
| DicomChecks.RandomStringSurjective | sdks/python/apache_beam/io/gcp/healthcare/dicomio_integration_test.py:81-84 | every alphanumeric string can be drawn |
| DicomChecks.Pad | sdks/python/apache_beam/io/gcp/healthcare/dicomio_integration_test.py:144-145 | a zero-padded field has exactly its width, all digits |
| DicomChecks.PadRoundTrip | sdks/python/apache_beam/io/gcp/healthcare/dicomio_integration_test.py:144-145 | a padded number that fits its width reads back as that number |
| DicomChecks.DatePart | sdks/python/apache_beam/io/gcp/healthcare/dicomio_integration_test.py:144-145 | `%Y-%m-%d` is 10 characters |
| DicomChecks.ClockPart | sdks/python/apache_beam/io/gcp/healthcare/dicomio_integration_test.py:144-145 | `%H%M%S` is 6 characters |
| DicomChecks.Timestamp | sdks/python/apache_beam/io/gcp/healthcare/dicomio_integration_test.py:144-145 | `%Y-%m-%d_%H%M%S.%f_` is 25 characters |
| DicomChecks.ReadTimestamp | sdks/python/apache_beam/io/gcp/healthcare/dicomio_integration_test.py:144-145 | only a 25-character string reads as a timestamp |
| DicomChecks.DateRoundTrip | sdks/python/apache_beam/io/gcp/healthcare/dicomio_integration_test.py:144-145 | the date part of a valid moment reads back as its year, month and day |
| DicomChecks.ClockRoundTrip | sdks/python/apache_beam/io/gcp/healthcare/dicomio_integration_test.py:144-145 | the clock part of a valid moment reads back as its hour, minute and second |
| DicomChecks.TimestampRoundTrip | sdks/python/apache_beam/io/gcp/healthcare/dicomio_integration_test.py:144-145 | the timestamp of a valid moment reads back as that moment, so distinct moments give distinct timestamps |
| DicomChecks.TempStoreName | sdks/python/apache_beam/io/gcp/healthcare/dicomio_integration_test.py:144-145 | the name is 52 characters: `DICOM_store_`, the timestamp, then 15 random characters |
| DicomChecks.TempStoreNameLayout | sdks/python/apache_beam/io/gcp/healthcare/dicomio_integration_test.py:144-145 | the name holds only letters, digits, `_`, `-` and `.`. Its character 36 is the underscore before the suffix, and its timestamp reads back as the moment it was taken |
| DicomChecks.SameElements | sdks/python/apache_beam/io/gcp/healthcare/dicomio_integration_test.py:200-205 | `equal_to` and `assertCountEqual`: the same elements, each as often, in any order |
| DicomChecks.SearchBranchPasses | sdks/python/apache_beam/io/gcp/healthcare/dicomio_integration_test.py:185-205 | a search branch passes; characterised by `SearchBranchPassesIff` |
| DicomChecks.IngestPasses | sdks/python/apache_beam/io/gcp/healthcare/dicomio_integration_test.py:217-228 | the upload check passes; characterised by `IngestPassesIff` |
| DicomChecks.PostIngestPasses | sdks/python/apache_beam/io/gcp/healthcare/dicomio_integration_test.py:237-245 | the post-ingest check passes: status 200 and the normalised records equal up to order |
| DicomChecks.SameAsSingleton | sdks/python/apache_beam/io/gcp/healthcare/dicomio_integration_test.py:200-205 | `equal_to([e])` holds iff the output is exactly `[e]` |
| DicomChecks.NormalizeOuterAll | sdks/python/apache_beam/io/gcp/healthcare/dicomio_integration_test.py:186-198 | mapping `normalize_outer` succeeds iff it succeeds on every output. It then keeps the length, and element i is output i normalised |
| DicomChecks.SearchBranchPassesIff | sdks/python/apache_beam/io/gcp/healthcare/dicomio_integration_test.py:185-205 | a search branch passes iff it produced exactly one output, and that output normalises to what the expected container normalises to |
| DicomChecks.SearchInput | sdks/python/apache_beam/io/gcp/healthcare/dicomio_integration_test.py:156-171 | the request names the project and searches instances. It carries `params` iff it is the refined one |
| DicomChecks.ExpectedContainer | sdks/python/apache_beam/io/gcp/healthcare/dicomio_integration_test.py:173-183 | the expected container has exactly result, status, input and success |
| DicomChecks.ExpectedContainerNormalized | sdks/python/apache_beam/io/gcp/healthcare/dicomio_integration_test.py:173-205 | a passing branch has one output, which reports status 200, success, and the very request that was sent |
| DicomChecks.AllTrue | sdks/python/apache_beam/io/gcp/healthcare/dicomio_integration_test.py:217 | `[True] * n` has n elements, all true |
| DicomChecks.SameAsAllTrue | sdks/python/apache_beam/io/gcp/healthcare/dicomio_integration_test.py:226-228 | flags equal up to order to `[True] * n` are n flags, all true |
| DicomChecks.OnlyAllTrue | sdks/python/apache_beam/io/gcp/healthcare/dicomio_integration_test.py:217 | n true flags are `[True] * n` |
| DicomChecks.IngestPassesIff | sdks/python/apache_beam/io/gcp/healthcare/dicomio_integration_test.py:217-228 | the upload check passes iff there are exactly 18 flags and all are true |
| DicomChecks.IngestRejects | sdks/python/apache_beam/io/gcp/healthcare/dicomio_integration_test.py:217-228 | no uploads, or any failed upload, fails the check |
| DicomChecks.NormalizeAll | sdks/python/apache_beam/io/gcp/healthcare/dicomio_integration_test.py:239-242 | the list keeps its length, and element i is record i normalised |
| DicomChecks.NormalizeAllAppend | sdks/python/apache_beam/io/gcp/healthcare/dicomio_integration_test.py:239-242 | normalising a concatenation concatenates the normalised parts |
| DicomChecks.NormalizeAllRemove | sdks/python/apache_beam/io/gcp/healthcare/dicomio_integration_test.py:239-245 | removing one record removes its normalisation from the multiset |
| DicomChecks.RemoveMatched | sdks/python/apache_beam/io/gcp/healthcare/dicomio_integration_test.py:244-245 | removing matched elements from two permutations leaves permutations |
| DicomChecks.NormalizeAllPermutes | sdks/python/apache_beam/io/gcp/healthcare/dicomio_integration_test.py:239-245 | permutations of records normalise to permutations |
| DicomChecks.PostIngestPermutationInvariant | sdks/python/apache_beam/io/gcp/healthcare/dicomio_integration_test.py:237-245 | reordering the store's records or the expected metadata does not change the verdict |
| DicomChecks.PostIngestCountsDuplicates | sdks/python/apache_beam/io/gcp/healthcare/dicomio_integration_test.py:244-245 | the comparison counts duplicates, so a record seen twice against once fails |
| DicomChecks.PostIngestNeedsOk | sdks/python/apache_beam/io/gcp/healthcare/dicomio_integration_test.py:237 | any status other than 200 fails |
| DicomChecks.PostIngestIgnoresVolatile | sdks/python/apache_beam/io/gcp/healthcare/dicomio_integration_test.py:239-245 | records that differ from the metadata only in volatile tags pass |

## Constants and types

These are not functions, so they have no contract; each stands for one name in the source.

| name | source | stands for |
|---|---|---|
| JarPaths.MavenCentralRepository | sdks/python/apache_beam/utils/subprocess_server.py:271 | `MAVEN_CENTRAL_REPOSITORY` |
| JarPaths.MavenStagingRepository | sdks/python/apache_beam/utils/subprocess_server.py:272 | `MAVEN_STAGING_REPOSITORY` |
| JarPaths.BeamGroupId | sdks/python/apache_beam/utils/subprocess_server.py:273 | `BEAM_GROUP_ID` |
| DicomNormalize.VolatileTags | sdks/python/apache_beam/io/gcp/healthcare/dicomio_integration_test.py:68 | `VOLATILE_TAGS`, the retrieve-URL tag |
| DicomChecks.NumInstance | sdks/python/apache_beam/io/gcp/healthcare/dicomio_integration_test.py:63 | `NUM_INSTANCE`, the number of uploaded files |
| DicomChecks.RandLen | sdks/python/apache_beam/io/gcp/healthcare/dicomio_integration_test.py:64 | `RAND_LEN`, the length of the random store-name suffix |
| DicomChecks.StatusOk | sdks/python/apache_beam/io/gcp/healthcare/dicomio_integration_test.py:175 | the HTTP status 200 expected at lines 175, 181 and 237 |
| DicomChecks.Alphabet | sdks/python/apache_beam/io/gcp/healthcare/dicomio_integration_test.py:82 | `string.ascii_letters + string.digits` |
| DicomChecks.Pick | sdks/python/apache_beam/io/gcp/healthcare/dicomio_integration_test.py:83 | an index `random.choice` may draw from that alphabet |
| DicomChecks.Region | sdks/python/apache_beam/io/gcp/healthcare/dicomio_integration_test.py:52 | `REGION` |
| DicomChecks.DataSetId | sdks/python/apache_beam/io/gcp/healthcare/dicomio_integration_test.py:53 | `DATA_SET_ID` |
| DicomChecks.PersistentStore | sdks/python/apache_beam/io/gcp/healthcare/dicomio_integration_test.py:56 | `PERSISTENT_DICOM_STORE_NAME` |

## Left out

**Processes, threads and the environment**

- Process management is not modelled: `_really_start_process`, `_really_stop_process`, the
  `{{PORT}}` substitution, and `start()` with its gRPC channel and back-off. They spawn and kill
  operating-system processes. What the constructor makes of a start is the `made` input: the
  started process and its endpoint, or `None` when starting raised.
- The gRPC channel is not modelled. So `stop_process` does not close `_grpc_channel`
  (subprocess_server.py lines 238-246), and the model does not show that `JavaJarServer.stop_process`
  skips that close for an existing service.
- `_SharedCache` takes a lock and `_BEAM_SERVICES` is thread-local. Each call is modelled as one
  atomic step, so concurrency is out.
- The constructor and destructor callbacks are not run. Each call is recorded as a log event.
  The constructor's outcome, an object or a raise, is a parameter.
- `pick_port`, `local_jar`, `make_classpath_jar` are left out, and so are the `classpath` and
  `cache_dir` arguments of the `JavaJarServer` constructor. These download files, open sockets or
  write jars.
- `path_to_dev_beam_jar`, `os.path.exists` and the project root are left out of
  `JarPaths.PathToBeamJar`. The local path and whether it exists are inputs, because they depend
  on the checkout and the file system. The error message is not modelled, only the local path and the Gradle
  target it names; the project root it also prints is left out.
- `JavaHelper.get_java`, `shutil.which` and `os.environ.get('JAVA_HOME')` are not modelled. The java
  path, whether it is found, and JAVA_HOME are inputs.
- `beam_version` is left out: the version is always passed explicitly.

**The DICOM test**

- The DICOM HTTP client, GCS downloads, credentials, `create_dicom_store`/`delete_dicom_store`,
  the pipelines (`DicomSearch`, `UploadToDicomStore`, `fileio`) and `setUp`/`tearDown` are not
  modelled. They call remote services. Their results (outputs, flags, status, records) are
  inputs to the checks.
- `datetime.now()` and `random.choice` are left out. The moment and the drawn indices are
  inputs.
- JSON floats are not modelled, and Python's `True == 1` equality between a boolean and an
  integer is not modelled either.
- `equal_to` and `assertCountEqual` are both modelled as multiset equality. Beam's testing
  utilities are not part of this model.

**Deliberately weaker or narrower contracts**

- JarPaths.IsServiceEndpoint: `\d` is read as the ASCII digits only. Python's `re` also accepts
  other Unicode decimal digits.
- JarPaths.Digit: the same ASCII reading of `\d` as `IsServiceEndpoint`.
- JarPaths.DigitSpan: the same ASCII reading of `\d` as `IsServiceEndpoint`.
- JarPaths.EndpointShape: the same ASCII reading of `\d` as `IsServiceEndpoint`.
- JarPaths.ServiceEndpointIffShape: the same ASCII reading of `\d` as `IsServiceEndpoint`.
- DicomChecks.DatePart: `%Y` is modelled as four zero-padded digits. That is what Python
  documents for years 1 to 9999, but some C libraries print fewer digits for years before 1000.
- SharedCache.PurgeDestroysEvicted: every destructor is assumed to return. In the source, a
  destructor that raises skips the destructors after it, and the dict is already updated by then.
- SharedCache.Cache.RunDestructors: every destructor is assumed to return, as in
  `PurgeDestroysEvicted`.
- SharedCache.PurgeSpec: every destructor is assumed to return, as in `PurgeDestroysEvicted`; so a purge of a live id always succeeds.
- SharedCache.Cache.Purge: every destructor is assumed to return, as in `PurgeDestroysEvicted`; so it always returns what `PurgeSpec` gives.
- Servers.StopSpec: every destructor is assumed to return, as in `PurgeDestroysEvicted`; so a stop that held a live id always succeeds; in the source a raising destructor makes the purge at line 236 raise before `self._owner_id = None` (line 237) runs.
- Servers.StopReleasesOnce: every destructor is assumed to return, as in `PurgeDestroysEvicted`; so the stop returns `Pass`, as for `StopSpec`.
- Servers.StartHoldsOneFreshOwner: every destructor is assumed to return, as in `PurgeDestroysEvicted`; so purging the old id never raises, and the start goes on to register.
