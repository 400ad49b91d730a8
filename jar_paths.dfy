/**
  The string helpers of `JavaJarServer`: Maven jar names and repository paths, the Gradle target
  parser, the release/snapshot branch of the Beam jar lookup, and the `host:port` recogniser
  that tells a running service apart from a jar path.
*/
module JarPaths {
  import opened Wrappers
  import opened Strings

  const MavenCentralRepository := "https://repo.maven.apache.org/maven2"
  const MavenStagingRepository := "https://repository.apache.org/content/groups/staging"
  const BeamGroupId := "org.apache.beam"

  /** An optional string argument as `filter(None, ...)` sees it: `None` and `""` are both dropped. */
  function Present(o: Option<string>): string {
    if o.Some? then o.value else ""
  }

  // ---------------------------------------------------------------- jar_name

  /** `jar_name`: the non-empty parts of artifact, appendix, version, classifier joined by `-`, plus `.jar`. */
  function JarName(artifactId: string, version: string, classifier: Option<string>, appendix: Option<string>): (r: string)
    ensures |r| >= 4 && r[|r| - 4..] == ".jar"
  {
    Join("-", NonEmpty([artifactId, Present(appendix), version, Present(classifier)])) + ".jar"
  }

  /** `filter(None, ...)` on the four name parts, one part at a time. */
  lemma FilterParts(a: string, b: string, c: string, d: string)
    ensures NonEmpty([a, b, c, d])
         == (if a == "" then [] else [a]) + (if b == "" then [] else [b])
          + (if c == "" then [] else [c]) + (if d == "" then [] else [d])
  {
    assert [a, b, c, d] == [a] + [b, c, d];
    assert [b, c, d] == [b] + [c, d];
    assert [c, d] == [c] + [d];
    assert [d] == [d] + [];
    NonEmptyCons(a, [b, c, d]);
    NonEmptyCons(b, [c, d]);
    NonEmptyCons(c, [d]);
    NonEmptyCons(d, []);
  }

  /** With neither classifier nor appendix the name is `artifact-version.jar`. */
  lemma JarNamePlain(artifactId: string, version: string)
    requires artifactId != "" && version != ""
    ensures JarName(artifactId, version, None, None) == artifactId + "-" + version + ".jar"
  {
    FilterParts(artifactId, "", version, "");
    assert NonEmpty([artifactId, "", version, ""]) == [artifactId, version];
    JoinCons("-", artifactId, [version]);
  }

  /** A classifier goes after the version: `artifact-version-classifier.jar`. */
  lemma JarNameClassified(artifactId: string, version: string, classifier: string)
    requires artifactId != "" && version != "" && classifier != ""
    ensures JarName(artifactId, version, Some(classifier), None)
         == artifactId + "-" + version + "-" + classifier + ".jar"
  {
    FilterParts(artifactId, "", version, classifier);
    assert NonEmpty([artifactId, "", version, classifier]) == [artifactId, version, classifier];
    JoinCons("-", artifactId, [version, classifier]);
    JoinCons("-", version, [classifier]);
  }

  /** An appendix goes between artifact and version: `artifact-appendix-version.jar`. */
  lemma JarNameAppended(artifactId: string, version: string, appendix: string)
    requires artifactId != "" && version != "" && appendix != ""
    ensures JarName(artifactId, version, None, Some(appendix))
         == artifactId + "-" + appendix + "-" + version + ".jar"
  {
    FilterParts(artifactId, appendix, version, "");
    assert NonEmpty([artifactId, appendix, version, ""]) == [artifactId, appendix, version];
    JoinCons("-", artifactId, [appendix, version]);
    JoinCons("-", appendix, [version]);
  }

  /** All four parts present: `artifact-appendix-version-classifier.jar`. */
  lemma JarNameFull(artifactId: string, version: string, classifier: string, appendix: string)
    requires artifactId != "" && version != "" && classifier != "" && appendix != ""
    ensures JarName(artifactId, version, Some(classifier), Some(appendix))
         == artifactId + "-" + appendix + "-" + version + "-" + classifier + ".jar"
  {
    FilterParts(artifactId, appendix, version, classifier);
    assert NonEmpty([artifactId, appendix, version, classifier]) == [artifactId, appendix, version, classifier];
    JoinCons("-", artifactId, [appendix, version, classifier]);
    JoinCons("-", appendix, [version, classifier]);
    JoinCons("-", version, [classifier]);
  }

  /** An empty optional part is dropped just like a missing one. */
  lemma JarNameEmptyIsAbsent(artifactId: string, version: string)
    ensures JarName(artifactId, version, Some(""), Some("")) == JarName(artifactId, version, None, None)
  {
  }

  // ---------------------------------------------------------------- path_to_maven_jar

  /** `path_to_maven_jar`: `repository/group-as-path/artifact/version/jar_name`. */
  function PathToMavenJar(
    artifactId: string, groupId: string, version: string,
    repository: string, classifier: Option<string>, appendix: Option<string>): (r: string)
    ensures r == repository + "/" + ReplaceChar(groupId, '.', '/') + "/" + artifactId + "/" + version
               + "/" + JarName(artifactId, version, classifier, appendix)
  {
    var group := ReplaceChar(groupId, '.', '/');
    var jar := JarName(artifactId, version, classifier, appendix);
    JoinFive("/", repository, group, artifactId, version, jar);
    Join("/", [repository, group, artifactId, version, jar])
  }

  /** The group segment of a Maven path holds no dots: every one became a directory separator. */
  lemma MavenGroupPathHasNoDots(groupId: string)
    ensures '.' !in ReplaceChar(groupId, '.', '/')
    ensures |ReplaceChar(groupId, '.', '/')| == |groupId|
  {
  }

  // ---------------------------------------------------------------- parse_gradle_target

  /**
    The Gradle project of a target, as `parse_gradle_target` computes it: the target without
    surrounding colons and without its last `:task` segment.
  */
  function GradlePackage(gradleTarget: string): (pkg: string)
    ensures var stripped := Strip(gradleTarget, ':');
      && |pkg| <= |stripped| && pkg == stripped[..|pkg|]
      && (':' in stripped ==> |pkg| < |stripped| && stripped[|pkg|] == ':' && ':' !in stripped[|pkg| + 1..])
      && (':' !in stripped ==> pkg == stripped)
  {
    BeforeLast(Strip(gradleTarget, ':'), ':')
  }

  /**
    `parse_gradle_target`: the Gradle project of the target and the artifact id, which is the one
    given or else `beam-` followed by the project path with colons turned into dashes.
  */
  function ParseGradleTarget(gradleTarget: string, artifactId: Option<string>): (r: (string, string))
    ensures r.0 == GradlePackage(gradleTarget)
    ensures Present(artifactId) != "" ==> r.1 == artifactId.value
    ensures Present(artifactId) == "" ==> r.1 == "beam-" + ReplaceChar(r.0, ':', '-') && ':' !in r.1
  {
    var gradlePackage := GradlePackage(gradleTarget);
    var dashed := ReplaceChar(gradlePackage, ':', '-');
    assert ':' !in "beam-";
    assert ':' !in "beam-" + dashed;
    (gradlePackage, if Present(artifactId) != "" then artifactId.value else "beam-" + dashed)
  }

  // ---------------------------------------------------------------- path_to_beam_jar

  datatype JarError =
    /** A development version whose locally built jar is missing (RuntimeError asking to build it). */
    | DevJarMissing(localPath: string, gradleTarget: string)

  /**
    The lookup order of `path_to_beam_jar`: a registered replacement, then the locally built jar
    (whose path and existence, which depend on the checkout and the file system, are inputs),
    then Maven: a release candidate from the staging repository under its version cut at `rc`,
    a development version an error, any other version from Maven Central.
  */
  function PathToBeamJar(
    gradleTarget: string, appendix: Option<string>, version: string, artifactId: Option<string>,
    replacements: map<string, string>, localPath: string, localExists: bool): (r: Result<string, JarError>)
    ensures gradleTarget in replacements ==> r == Success(replacements[gradleTarget])
    ensures gradleTarget !in replacements && localExists ==> r == Success(localPath)
    ensures r.Failure? <==> gradleTarget !in replacements && !localExists
                            && !Contains(version, "rc") && Contains(version, ".dev")
  {
    if gradleTarget in replacements then Success(replacements[gradleTarget])
    else
      var artifact := ParseGradleTarget(gradleTarget, artifactId).1;
      if localExists then Success(localPath)
      else if Contains(version, "rc") then
        Success(PathToMavenJar(artifact, BeamGroupId, BeforeFirst(version, "rc"), MavenStagingRepository, None, appendix))
      else if Contains(version, ".dev") then
        Failure(DevJarMissing(localPath, gradleTarget))
      else
        Success(PathToMavenJar(artifact, BeamGroupId, version, MavenCentralRepository, None, appendix))
  }

  /** A prefix cut before the first `sub` holds no `sub` of its own. */
  lemma BeforeFirstLacks(s: string, sub: string)
    requires sub != []
    ensures !Contains(BeforeFirst(s, sub), sub)
  {
    var r := BeforeFirst(s, sub);
    if Contains(r, sub) {
      var j := IndexOf(r, sub);
      assert r[j..j + |sub|] == s[j..j + |sub|];
      if Contains(s, sub) {
        assert !OccursAt(s, sub, j);
      }
      assert OccursAt(s, sub, j);
      assert false;
    }
  }

  /**
    A release candidate is fetched from the staging repository under its version without the
    `rc` suffix, and that version holds no `rc` any more.
  */
  lemma BeamJarReleaseCandidate(
    gradleTarget: string, appendix: Option<string>, version: string, artifactId: Option<string>,
    replacements: map<string, string>, localPath: string)
    requires gradleTarget !in replacements && Contains(version, "rc")
    ensures var v := BeforeFirst(version, "rc");
      && !Contains(v, "rc") && version[..|v|] == v && OccursAt(version, "rc", |v|)
      && PathToBeamJar(gradleTarget, appendix, version, artifactId, replacements, localPath, false)
         == Success(PathToMavenJar(ParseGradleTarget(gradleTarget, artifactId).1, BeamGroupId, v,
                                   MavenStagingRepository, None, appendix))
  {
    BeforeFirstLacks(version, "rc");
  }

  /** A final release is fetched from Maven Central under its own version. */
  lemma BeamJarRelease(
    gradleTarget: string, appendix: Option<string>, version: string, artifactId: Option<string>,
    replacements: map<string, string>, localPath: string)
    requires gradleTarget !in replacements && !Contains(version, "rc") && !Contains(version, ".dev")
    ensures PathToBeamJar(gradleTarget, appendix, version, artifactId, replacements, localPath, false)
         == Success(PathToMavenJar(ParseGradleTarget(gradleTarget, artifactId).1, BeamGroupId, version,
                                   MavenCentralRepository, None, appendix))
  {
  }

  // ---------------------------------------------------------------- is_service_endpoint

  /** The character class `[a-zA-Z0-9.-]`. */
  predicate HostChar(c: char) {
    ('a' <= c <= 'z') || ('A' <= c <= 'Z') || ('0' <= c <= '9') || c == '.' || c == '-'
  }

  /** `\d`, read as the ASCII digits. */
  predicate Digit(c: char) {
    '0' <= c <= '9'
  }

  /** What `$` accepts after the port: the end of the string, or one newline that ends it. */
  predicate AtEnd(tail: string) {
    tail == "" || tail == "\n"
  }

  /**
    The pattern `^[a-zA-Z0-9.-]+:\d+$` matches `p` with the host ending at `i` (where the colon
    stands) and the port digits ending at `j`.
  */
  predicate MatchesAt(p: string, i: int, j: int) {
    && 0 < i && i + 1 < j <= |p|
    && (forall x :: 0 <= x < i ==> HostChar(p[x]))
    && p[i] == ':'
    && (forall x :: i + 1 <= x < j ==> Digit(p[x]))
    && AtEnd(p[j..])
  }

  /** The regular-expression reading of the pattern: some split of `p` matches it. */
  ghost predicate EndpointShape(p: string) {
    exists i, j :: MatchesAt(p, i, j)
  }

  /** The end of the run of host characters starting at `k`. */
  function HostSpan(p: string, k: nat): (r: nat)
    requires k <= |p|
    ensures k <= r <= |p|
    ensures forall x :: k <= x < r ==> HostChar(p[x])
    ensures r == |p| || !HostChar(p[r])
    decreases |p| - k
  {
    if k < |p| && HostChar(p[k]) then HostSpan(p, k + 1) else k
  }

  /** The end of the run of digits starting at `k`. */
  function DigitSpan(p: string, k: nat): (r: nat)
    requires k <= |p|
    ensures k <= r <= |p|
    ensures forall x :: k <= x < r ==> Digit(p[x])
    ensures r == |p| || !Digit(p[r])
    decreases |p| - k
  {
    if k < |p| && Digit(p[k]) then DigitSpan(p, k + 1) else k
  }

  /**
    `is_service_endpoint`, as the matcher runs it: a non-empty greedy run of host characters,
    a colon, a non-empty greedy run of digits, then the end (or a final newline).
  */
  function IsServiceEndpoint(p: string): (b: bool)
    ensures b ==> HostSpan(p, 0) < |p| && MatchesAt(p, HostSpan(p, 0), DigitSpan(p, HostSpan(p, 0) + 1))
  {
    var i := HostSpan(p, 0);
    0 < i < |p| && p[i] == ':' && DigitSpan(p, i + 1) > i + 1 && AtEnd(p[DigitSpan(p, i + 1)..])
  }

  /** The matcher accepts exactly the strings of the pattern's shape. */
  lemma ServiceEndpointIffShape(p: string)
    ensures IsServiceEndpoint(p) <==> EndpointShape(p)
  {
    if EndpointShape(p) {
      var i, j :| MatchesAt(p, i, j);
      assert HostSpan(p, 0) == i by {
        assert !HostChar(p[i]);
      }
      assert DigitSpan(p, i + 1) == j by {
        if j < |p| { assert p[j] == '\n' && !Digit(p[j]); }
      }
    }
  }

  /** A host and port are recognised, also with the trailing newline `$` lets through. */
  lemma LocalhostIsEndpoint()
    ensures IsServiceEndpoint("localhost:8099")
    ensures IsServiceEndpoint("localhost:8099\n")
  {
    assert MatchesAt("localhost:8099", 9, 14);
    assert MatchesAt("localhost:8099\n", 9, 14);
    ServiceEndpointIffShape("localhost:8099");
    ServiceEndpointIffShape("localhost:8099\n");
  }

  /** A jar path, a host without a port and a port without a host are not endpoints. */
  lemma NonEndpoints()
    ensures !IsServiceEndpoint("/tmp/beam.jar")
    ensures !IsServiceEndpoint("localhost:")
    ensures !IsServiceEndpoint(":8099")
  {
    assert HostSpan("/tmp/beam.jar", 0) == 0;
    assert HostSpan(":8099", 0) == 0;
  }
}
