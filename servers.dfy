/**
  The owner bookkeeping of a subprocess server on top of the shared cache: a server holds at most
  one owner id, gives the previous one back before it registers a new one, and gives it back and
  forgets it when it stops. A `JavaJarServer` pointed at a running service never touches the cache.

  As for the cache, each operation is first a function on values (`StartSpec`, `StopSpec`, and the
  Java variants), then a method of a class proved to make that step.
*/
module Servers {
  import opened Wrappers
  import opened SharedCache
  import opened JarPaths

  /** The cache key of a server: its command line and its fixed port, if any. */
  datatype CacheKey = CacheKey(cmd: seq<string>, port: Option<nat>)

  /**
    What the constructor callback returns: the started process (an opaque handle; absent for an
    already running service) and the endpoint it serves at. The callback is handed in as an
    `Option<Started>`, `None` standing for a start that raised (the executable is missing,
    no free port could be picked).
  */
  datatype Started = Started(process: Option<nat>, endpoint: string)

  type ServiceCache = State<CacheKey, Started>

  datatype ServerError =
    | CacheFailed(cause: CacheError)           // the error the shared cache raised
    | JavaNotInJavaHome(javaHome: string)      // no java executable although JAVA_HOME is set
    | JavaNotInstalled                         // no java executable and no JAVA_HOME

  // ---------------------------------------------------------------- SubprocessServer

  /**
    `start_process`: give back the owner id held so far, register a new one, and fetch (or start)
    the process for this key. Returns the new cache, the id now held and the result.
  */
  function StartSpec(c: ServiceCache, ownerId: Option<Owner>, key: CacheKey, made: Option<Started>)
    : (r: (ServiceCache, Option<Owner>, Result<Started, ServerError>))
    ensures r.1.Some?
    ensures r.2.Success? ==> r.1 == Some(c.counter + 1)
  {
    var (c1, released) := if ownerId.Some? then PurgeSpec(c, ownerId.value) else (c, Pass);
    if released.Fail? then (c1, ownerId, Failure(CacheFailed(released.error)))
    else
      var (c2, id) := RegisterSpec(c1);
      var (c3, got) := GetSpec(c2, key, made);
      (c3, Some(id), if got.Success? then Success(got.value) else Failure(CacheFailed(got.error)))
  }

  /** `stop_process`: give back the held owner id, if any, and forget it. */
  function StopSpec(c: ServiceCache, ownerId: Option<Owner>): (r: (ServiceCache, Option<Owner>, Outcome<ServerError>))
    ensures r.2.Pass? <==> r.1 == None
  {
    if ownerId.None? then (c, None, Pass)
    else
      var (c1, released) := PurgeSpec(c, ownerId.value);
      if released.Fail? then (c1, ownerId, Fail(CacheFailed(released.error)))
      else (c1, None, Pass)
  }

  /**
    After a start the server holds exactly one owner id: the freshly registered one, the next
    value of the counter, which is live and larger than every id issued before; the id held
    before is no longer live. The start succeeds exactly when the key is cached afterwards, the
    new id then holding the entry whose object is returned; it fails only when the process had to
    be started and that raised, and then the new id is kept with no entry for the key. A process
    another live owner still holds is reused.
  */
  lemma StartHoldsOneFreshOwner(c: ServiceCache, ownerId: Option<Owner>, key: CacheKey, made: Option<Started>)
    requires Inv(c)
    requires ownerId.Some? ==> ownerId.value in c.live
    ensures var (t, held, r) := StartSpec(c, ownerId, key, made);
      var gave := if ownerId.Some? then {ownerId.value} else {};
      && Inv(t)
      && held == Some(c.counter + 1)
      && held.value in t.live
      && (forall o :: o in c.live ==> o < held.value)
      && (ownerId.Some? ==> ownerId.value !in t.live)
      && t.live == c.live - gave + {held.value}
      && (r.Success? <==> key in t.entries)
      && (r.Success? ==> held.value in t.entries[key].owners && t.entries[key].obj == r.value)
      && (r.Failure? ==> made.None? && r.error == CacheFailed(ConstructorFailed))
      && (made.Some? ==> r.Success?)
      && (key in c.entries && c.entries[key].owners - gave != {} ==> r == Success(c.entries[key].obj))
  {
    var c1 := if ownerId.Some? then PurgeSpec(c, ownerId.value).0 else c;
    if ownerId.Some? {
      PurgeKeepsInv(c, ownerId.value);
      PurgeReleasesOwner(c, ownerId.value);
    }
    RegisterIssuesFreshId(c1);
    var (c2, id) := RegisterSpec(c1);
    GetHoldsEveryLiveOwner(c2, key, made);
  }

  /** Starting while the held id is no longer live fails with the cache's error and changes nothing. */
  lemma StartWithStaleOwnerFails(c: ServiceCache, ownerId: Owner, key: CacheKey, made: Option<Started>)
    requires ownerId !in c.live
    ensures StartSpec(c, Some(ownerId), key, made) == (c, Some(ownerId), Failure(CacheFailed(NotLive(ownerId))))
  {
    PurgeNotLiveFails(c, ownerId);
  }

  /** A stop gives the held id back and forgets it; a second stop then changes nothing. */
  lemma StopReleasesOnce(c: ServiceCache, ownerId: Option<Owner>)
    requires Inv(c)
    requires ownerId.Some? ==> ownerId.value in c.live
    ensures var (t, held, r) := StopSpec(c, ownerId);
      && Inv(t) && r == Pass && held == None
      && (ownerId.Some? ==> ownerId.value !in t.live && t.live == c.live - {ownerId.value})
      && (ownerId.None? ==> t == c)
      && StopSpec(t, held) == (t, None, Pass)
  {
    if ownerId.Some? {
      PurgeKeepsInv(c, ownerId.value);
      PurgeReleasesOwner(c, ownerId.value);
    }
  }

  /**
    A server that starts and then stops leaves the live owners as they were, less the id it held
    before the start.
  */
  lemma StartThenStopRestoresOwners(c: ServiceCache, ownerId: Option<Owner>, key: CacheKey, made: Option<Started>)
    requires Inv(c)
    requires ownerId.Some? ==> ownerId.value in c.live
    ensures var (t, held, _) := StartSpec(c, ownerId, key, made);
      var (u, after, _) := StopSpec(t, held);
      && after == None
      && u.live == c.live - (if ownerId.Some? then {ownerId.value} else {})
  {
    StartHoldsOneFreshOwner(c, ownerId, key, made);
    var (t, held, _) := StartSpec(c, ownerId, key, made);
    StopReleasesOnce(t, held);
  }

  // ---------------------------------------------------------------- JavaJarServer

  /** The command line of a `JavaJarServer`: `java -jar <jar> <arguments>`. */
  function JavaCommand(javaPath: string, pathToJar: string, javaArguments: seq<string>): (cmd: seq<string>)
    ensures |cmd| == 3 + |javaArguments| && cmd[..3] == [javaPath, "-jar", pathToJar] && cmd[3..] == javaArguments
  {
    [javaPath, "-jar", pathToJar] + javaArguments
  }

  /** The running service a jar path names, when it is a `host:port` endpoint rather than a jar. */
  function ExistingService(pathToJar: string): (s: Option<string>)
    ensures s.Some? <==> EndpointShape(pathToJar)
    ensures s.Some? ==> s.value == pathToJar
  {
    ServiceEndpointIffShape(pathToJar);
    if IsServiceEndpoint(pathToJar) then Some(pathToJar) else None
  }

  /**
    `JavaJarServer.start_process`: an existing service is returned as is, with no process; otherwise
    a missing java executable is an error (naming JAVA_HOME when it is set), and else the server
    starts as any other. Whether java is on the path and the JAVA_HOME variable are inputs.
  */
  function JavaStartSpec(
    existing: Option<string>, javaFound: bool, javaHome: Option<string>,
    c: ServiceCache, ownerId: Option<Owner>, key: CacheKey, made: Option<Started>)
    : (r: (ServiceCache, Option<Owner>, Result<Started, ServerError>))
    ensures r.2.Failure? && !r.2.error.CacheFailed? ==> !javaFound && r.0 == c && r.1 == ownerId
  {
    if existing.Some? && existing.value != "" then (c, ownerId, Success(Started(None, existing.value)))
    else if !javaFound then
      (c, ownerId, Failure(if Present(javaHome) != "" then JavaNotInJavaHome(javaHome.value) else JavaNotInstalled))
    else StartSpec(c, ownerId, key, made)
  }

  /** `JavaJarServer.stop_process`: nothing to give back for an existing service. */
  function JavaStopSpec(existing: Option<string>, c: ServiceCache, ownerId: Option<Owner>)
    : (r: (ServiceCache, Option<Owner>, Outcome<ServerError>))
    ensures r.2.Pass? ==> r.1 == None || (existing.Some? && r.0 == c && r.1 == ownerId)
  {
    if existing.Some? && existing.value != "" then (c, ownerId, Pass) else StopSpec(c, ownerId)
  }

  /**
    A server built on a `host:port` path skips the cache entirely: starting returns that endpoint
    with no process and stopping changes nothing, whatever the state of java.
  */
  lemma ExistingServiceBypassesCache(
    pathToJar: string, javaFound: bool, javaHome: Option<string>,
    c: ServiceCache, ownerId: Option<Owner>, key: CacheKey, made: Option<Started>)
    requires IsServiceEndpoint(pathToJar)
    ensures JavaStartSpec(ExistingService(pathToJar), javaFound, javaHome, c, ownerId, key, made)
         == (c, ownerId, Success(Started(None, pathToJar)))
    ensures JavaStopSpec(ExistingService(pathToJar), c, ownerId) == (c, ownerId, Pass)
  {
  }

  /** Without java the start fails before the cache is touched, naming JAVA_HOME only when it is set. */
  lemma MissingJavaFails(
    pathToJar: string, javaHome: Option<string>,
    c: ServiceCache, ownerId: Option<Owner>, key: CacheKey, made: Option<Started>)
    requires !IsServiceEndpoint(pathToJar)
    ensures var (t, held, r) := JavaStartSpec(ExistingService(pathToJar), false, javaHome, c, ownerId, key, made);
      && t == c && held == ownerId && r.Failure?
      && (r.error == JavaNotInstalled <==> Present(javaHome) == "")
  {
  }

  /** A jar server with java present, not pointed at a service, behaves as a plain server. */
  lemma JarServerStartsLikeSubprocess(
    pathToJar: string, javaHome: Option<string>,
    c: ServiceCache, ownerId: Option<Owner>, key: CacheKey, made: Option<Started>)
    requires !IsServiceEndpoint(pathToJar)
    ensures JavaStartSpec(ExistingService(pathToJar), true, javaHome, c, ownerId, key, made)
         == StartSpec(c, ownerId, key, made)
    ensures JavaStopSpec(ExistingService(pathToJar), c, ownerId) == StopSpec(c, ownerId)
  {
  }

  // ---------------------------------------------------------------- the classes

  /** A server sharing the process cache with every other server. */
  class SubprocessServer {
    const cache: Cache<CacheKey, Started>
    const cmd: seq<string>
    const port: Option<nat>
    var ownerId: Option<Owner>

    constructor (cache: Cache<CacheKey, Started>, cmd: seq<string>, port: Option<nat>)
      ensures this.cache == cache && this.cmd == cmd && this.port == port && ownerId == None
    {
      this.cache := cache;
      this.cmd := cmd;
      this.port := port;
      ownerId := None;
    }

    method StartProcess(made: Option<Started>) returns (r: Result<Started, ServerError>)
      requires cache.Valid()
      modifies this, cache
      ensures cache.Valid()
      ensures (cache.Abs(), ownerId, r) == StartSpec(old(cache.Abs()), old(ownerId), CacheKey(cmd, port), made)
    {
      if ownerId.Some? {
        var released := cache.Purge(ownerId.value);
        if released.Fail? {
          return Failure(CacheFailed(released.error));
        }
      }
      var id := cache.Register();
      ownerId := Some(id);
      var got := cache.Get(CacheKey(cmd, port), made);
      r := if got.Success? then Success(got.value) else Failure(CacheFailed(got.error));
    }

    method StopProcess() returns (r: Outcome<ServerError>)
      requires cache.Valid()
      modifies this, cache
      ensures cache.Valid()
      ensures (cache.Abs(), ownerId, r) == StopSpec(old(cache.Abs()), old(ownerId))
    {
      r := Pass;
      if ownerId.Some? {
        var released := cache.Purge(ownerId.value);
        if released.Fail? {
          return Fail(CacheFailed(released.error));
        }
        ownerId := None;
      }
    }
  }

  /** A server that runs `java -jar` on a jar, unless the jar path names an already running service. */
  class JavaJarServer {
    const server: SubprocessServer
    const existingService: Option<string>

    constructor (cache: Cache<CacheKey, Started>, javaPath: string, pathToJar: string, javaArguments: seq<string>)
      ensures server.cache == cache && server.cmd == JavaCommand(javaPath, pathToJar, javaArguments)
      ensures server.port == None && server.ownerId == None
      ensures existingService == ExistingService(pathToJar)
      ensures fresh(server)
    {
      server := new SubprocessServer(cache, JavaCommand(javaPath, pathToJar, javaArguments), None);
      existingService := ExistingService(pathToJar);
    }

    method StartProcess(javaFound: bool, javaHome: Option<string>, made: Option<Started>) returns (r: Result<Started, ServerError>)
      requires server.cache.Valid()
      modifies server, server.cache
      ensures server.cache.Valid()
      ensures (server.cache.Abs(), server.ownerId, r)
           == JavaStartSpec(existingService, javaFound, javaHome, old(server.cache.Abs()), old(server.ownerId),
                            CacheKey(server.cmd, server.port), made)
    {
      if existingService.Some? && existingService.value != "" {
        return Success(Started(None, existingService.value));
      }
      if !javaFound {
        if javaHome.Some? && javaHome.value != "" {
          return Failure(JavaNotInJavaHome(javaHome.value));
        }
        return Failure(JavaNotInstalled);
      }
      r := server.StartProcess(made);
    }

    method StopProcess() returns (r: Outcome<ServerError>)
      requires server.cache.Valid()
      modifies server, server.cache
      ensures server.cache.Valid()
      ensures (server.cache.Abs(), server.ownerId, r)
           == JavaStopSpec(existingService, old(server.cache.Abs()), old(server.ownerId))
    {
      if existingService.Some? && existingService.value != "" {
        return Pass;
      }
      r := server.StopProcess();
    }
  }
}
