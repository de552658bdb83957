/**
 * The names and the flow of the topic dump: the dump and metadata files in
 * the work directory, the tar and encrypted archive names, the upload URL,
 * and `main` wiring them together. The consumer, the tar and openssl
 * processes, the HTTP upload, the clock and the environment variables are
 * parameters or are not modelled.
 */
module DumpArtifacts {
  import opened Wrappers
  import Text
  import opened PosixPath
  import DumpConsumer
  import DumpDrain

  const DumpSuffix: string := ".jsonl"
  const MetadataName: string := "metadata.json"
  const RepoRoot: string := "kafka-dump"

  /** `os.path.join(out_dir, f"{topic}.jsonl")`. */
  function DumpFile(outDir: string, topic: string): string {
    Join(outDir, topic + DumpSuffix)
  }

  /** `os.path.join(out_dir, "metadata.json")`. */
  function MetadataFile(outDir: string): string {
    Join(outDir, MetadataName)
  }

  /** The dump file is named after the topic, and it never collides with the
      metadata file, whatever the directory and the topic. */
  lemma DumpFileNames(outDir: string, topic: string)
    ensures NoSlash(topic) ==> Basename(DumpFile(outDir, topic)) == topic + DumpSuffix
    ensures Basename(MetadataFile(outDir)) == MetadataName
    ensures DumpFile(outDir, topic) != MetadataFile(outDir)
  {
    DumpFileBasename(outDir, topic);
    MetadataFileBasename(outDir);
    DumpFileDistinct(outDir, topic);
  }

  lemma DumpFileBasename(outDir: string, topic: string)
    ensures NoSlash(topic) ==> Basename(DumpFile(outDir, topic)) == topic + DumpSuffix
  {
    if NoSlash(topic) {
      FixedNamesNoSlash();
      NoSlashAppend(topic, DumpSuffix);
      BasenameJoinName(outDir, topic + DumpSuffix);
    }
  }

  lemma MetadataFileBasename(outDir: string)
    ensures Basename(MetadataFile(outDir)) == MetadataName
  {
    FixedNamesNoSlash();
    BasenameJoinName(outDir, MetadataName);
  }

  lemma FixedNamesNoSlash()
    ensures NoSlash(MetadataName) && NoSlash(DumpSuffix)
  {
  }

  lemma DumpFileDistinct(outDir: string, topic: string)
    ensures DumpFile(outDir, topic) != MetadataFile(outDir)
  {
    var b := topic + DumpSuffix;
    assert b[|b| - 1] == 'l';
    JoinLast(outDir, b);
    JoinLast(outDir, MetadataName);
  }

  lemma NoSlashAppend(x: string, y: string)
    requires NoSlash(x) && NoSlash(y)
    ensures NoSlash(x + y)
  {
    forall k | 0 <= k < |x + y| ensures (x + y)[k] != '/' {
      if k >= |x| {
        assert (x + y)[k] == y[k - |x|];
      }
    }
  }

  /** A join ends with the last character of its last component. */
  lemma JoinLast(a: string, b: string)
    requires |b| > 0
    ensures var r := Join(a, b); |r| > 0 && r[|r| - 1] == b[|b| - 1]
  {
  }

  /** The command-line arguments. */
  datatype Args = Args(
    incChg: string, requestId: string, cluster: string, env: string,
    topic: string, otp: string, requestor: string)

  /** The contents of `metadata.json`. */
  datatype Metadata = Metadata(
    requestId: string, incChg: string, cluster: string, env: string, topic: string,
    createdAt: string, createdBy: string, messageCount: nat)

  /** `create_metadata`: `now` stands for `datetime.utcnow().isoformat()`. */
  function MetadataOf(args: Args, now: string, count: nat): Metadata {
    Metadata(args.requestId, args.incChg, args.cluster, args.env, args.topic,
      now + "Z", args.requestor, count)
  }

  function TarName(requestId: string): string {
    requestId + ".tar"
  }

  function EncName(requestId: string): string {
    requestId + ".tar.enc"
  }

  /** The archive and its encrypted copy carry the request id, the encrypted
      name is the archive name plus ".enc", and the two never coincide. */
  lemma ArtifactNames(requestId: string)
    ensures TarName(requestId)[..|requestId|] == requestId
    ensures EncName(requestId) == TarName(requestId) + ".enc"
    ensures TarName(requestId) != EncName(requestId)
    ensures NoSlash(requestId) ==> Basename(EncName(requestId)) == EncName(requestId)
  {
    assert |TarName(requestId)| != |EncName(requestId)|;
    if NoSlash(requestId) {
      BasenameOfName(EncName(requestId));
    }
  }

  /** `os.path.abspath(enc_name)` for a relative name, without `..` folding. */
  function EncPath(cwd: string, requestId: string): string {
    Join(cwd, EncName(requestId))
  }

  /** `kafka-dump/{env.lower()}/{topic}/{request_id}/{basename(enc_file)}`. */
  function RepoPath(env: string, topic: string, requestId: string, encFile: string): string {
    JoinAll([RepoRoot, Text.Lower(env), topic, requestId, Basename(encFile)])
  }

  /** `f"{base_url.rstrip('/')}/{repo_path}"`. */
  function UploadUrl(baseUrl: string, env: string, topic: string, requestId: string, encFile: string): string {
    Text.RStrip(baseUrl, '/') + "/" + RepoPath(env, topic, requestId, encFile)
  }

  /** The URL is the base without its trailing slashes, one '/', then the
      repository path; so the base and the path meet at a single slash. */
  lemma UploadUrlShape(baseUrl: string, env: string, topic: string, requestId: string, encFile: string)
    ensures var u := UploadUrl(baseUrl, env, topic, requestId, encFile);
      var b := Text.RStrip(baseUrl, '/');
      && |u| > |b| && u[..|b|] == b && u[|b|] == '/'
      && u[|b| + 1..] == RepoPath(env, topic, requestId, encFile)
      && baseUrl[..|b|] == b
      && (|b| > 0 ==> u[|b| - 1] != '/')
      && forall k :: |b| <= k < |baseUrl| ==> baseUrl[k] == '/'
  {
    SlashJoined(Text.RStrip(baseUrl, '/'), RepoPath(env, topic, requestId, encFile));
  }

  lemma SlashJoined(b: string, rest: string)
    ensures var u := b + "/" + rest;
      && |u| > |b| && u[..|b|] == b && u[|b|] == '/' && u[|b| + 1..] == rest
      && (|b| > 0 ==> u[|b| - 1] == b[|b| - 1])
  {
  }

  /** Trailing slashes on the base URL make no difference. */
  lemma UploadUrlTrailingSlashes(baseUrl: string, n: nat, env: string, topic: string, requestId: string, encFile: string)
    ensures UploadUrl(baseUrl + seq(n, _ => '/'), env, topic, requestId, encFile)
         == UploadUrl(baseUrl, env, topic, requestId, encFile)
  {
    Text.RStripAbsorbs(baseUrl, '/', n);
  }

  /** The environment's case makes no difference. */
  lemma UploadUrlEnvCase(baseUrl: string, env: string, topic: string, requestId: string, encFile: string)
    ensures UploadUrl(baseUrl, Text.Lower(env), topic, requestId, encFile)
         == UploadUrl(baseUrl, env, topic, requestId, encFile)
  {
    Text.LowerNormalises(env);
  }

  /** Lower-casing keeps '/' where it was and adds none. */
  lemma LowerNoSlash(s: string)
    requires NoSlash(s)
    ensures NoSlash(Text.Lower(s))
  {
  }

  /** Read back, the repository path splits into its five segments: the
      fixed root, the lower-cased environment, the topic, the request id and
      the encrypted file's name. */
  lemma RepoPathSegments(env: string, topic: string, requestId: string, encFile: string)
    requires NoSlash(env) && NoSlash(topic) && NoSlash(requestId)
    ensures Split(RepoPath(env, topic, requestId, encFile))
         == [RepoRoot, Text.Lower(env), topic, requestId, Basename(encFile)]
  {
    LowerNoSlash(env);
    RootNoSlash();
    SplitJoinFive(RepoRoot, Text.Lower(env), topic, requestId, Basename(encFile));
  }

  lemma SplitJoinFive(a: string, b: string, c: string, d: string, e: string)
    requires NoSlash(a) && NoSlash(b) && NoSlash(c) && NoSlash(d) && NoSlash(e)
    ensures Split(JoinAll([a, b, c, d, e])) == [a, b, c, d, e]
  {
    var parts := [a, b, c, d, e];
    assert forall i :: 0 <= i < |parts| ==> NoSlash(parts[i]);
    SplitJoinAll(parts);
  }

  lemma RootNoSlash()
    ensures NoSlash(RepoRoot)
  {
  }

  /** The URL's last segment is the last segment of the encrypted archive's
      name, and that name itself when the request id has no slash. */
  lemma UploadUrlLastSegment(baseUrl: string, env: string, topic: string, requestId: string, cwd: string)
    ensures Basename(UploadUrl(baseUrl, env, topic, requestId, EncPath(cwd, requestId))) == Basename(EncName(requestId))
    ensures NoSlash(requestId) ==>
      Basename(UploadUrl(baseUrl, env, topic, requestId, EncPath(cwd, requestId))) == EncName(requestId)
  {
    var enc := EncPath(cwd, requestId);
    var parts := [RepoRoot, Text.Lower(env), topic, requestId, Basename(enc)];
    BasenameAfterSlash(Text.RStrip(baseUrl, '/'), JoinAll(parts));
    BasenameJoinAll(parts);
    BasenameJoin(cwd, EncName(requestId));
    BasenameOfName(Basename(EncName(requestId)));
    if NoSlash(requestId) {
      EncNameNoSlash(requestId);
      BasenameOfName(EncName(requestId));
    }
  }

  lemma EncNameNoSlash(requestId: string)
    requires NoSlash(requestId)
    ensures NoSlash(EncName(requestId))
  {
    assert NoSlash(".tar.enc");
    NoSlashAppend(requestId, ".tar.enc");
  }

  /** What a successful run produces. */
  datatype Outcome = Outcome(
    consumer: DumpConsumer.ConsumerConfig,
    dumpFile: string, lines: seq<DumpDrain.Record>,
    metadataFile: string, metadata: Metadata,
    tarName: string, encFile: string, url: string)

  /** Why a run stops before uploading: the cluster has no bootstrap
      servers, or a drained key or value is not UTF-8. */
  datatype RunError =
    | ConsumerFailed(consumerError: DumpConsumer.ConsumerError)
    | DrainFailed(drainError: DumpDrain.DrainError)

  /** `main` past argument parsing. `workdir` is the temporary directory,
      `cwd` the current directory, `polls` what the consumer delivers, `now`
      the clock and `baseUrl` the `ARTIFACTORY_BASE_URL` variable. */
  method RunDump(args: Args, workdir: string, cwd: string, polls: seq<DumpDrain.Poll>, now: string, baseUrl: string)
    returns (r: Result<Outcome, RunError>)
    ensures var ms := DumpDrain.MessagesOf(DumpDrain.UntilNothing(polls));
      var k := DumpDrain.FirstUnreadable(ms);
      && (r.Failure? <==> DumpConsumer.Bootstrap(args.cluster, args.env).None? || k < |ms|)
      && (r.Failure? && DumpConsumer.Bootstrap(args.cluster, args.env).None? ==>
          r.error == ConsumerFailed(DumpConsumer.UnknownCluster(args.cluster, args.env)))
      && (r.Failure? && DumpConsumer.Bootstrap(args.cluster, args.env).Some? ==>
          r.error == DrainFailed(DumpDrain.NotUtf8Payload(ms[k])))
    ensures r.Success? ==>
      var o := r.value;
      var ms := DumpDrain.MessagesOf(DumpDrain.UntilNothing(polls));
      && o.consumer == DumpConsumer.BuildConsumer(args.cluster, args.env, args.topic).value
      && |o.lines| == |ms|
      && (forall i :: 0 <= i < |ms| ==> DumpDrain.Readable(ms[i]) && o.lines[i] == DumpDrain.RecordOf(ms[i]))
      && o.metadata == MetadataOf(args, now, |ms|)
      && o.dumpFile == DumpFile(workdir, args.topic)
      && o.metadataFile == MetadataFile(workdir)
      && o.tarName == TarName(args.requestId)
      && o.encFile == EncPath(cwd, args.requestId)
      && o.url == UploadUrl(baseUrl, args.env, args.topic, args.requestId, o.encFile)
  {
    var consumer := DumpConsumer.BuildConsumer(args.cluster, args.env, args.topic);
    if consumer.Failure? {
      return Failure(ConsumerFailed(consumer.error));
    }
    var drained, lines, _ := DumpDrain.DumpMessages(polls, None);
    DumpDrain.DrainedBounds(polls, None);
    if drained.Failure? {
      return Failure(DrainFailed(drained.error));
    }
    DumpDrain.WrittenFields(polls, None);
    var metadata := MetadataOf(args, now, drained.value);
    var encFile := EncPath(cwd, args.requestId);
    var url := UploadUrl(baseUrl, args.env, args.topic, args.requestId, encFile);
    return Success(Outcome(consumer.value, DumpFile(workdir, args.topic), lines,
      MetadataFile(workdir), metadata, TarName(args.requestId), encFile, url));
  }
}
