/**
  The client side (src/Mayconbordin/LaravelHttpDeployer/LaravelHttpDeployer.php):
  runs the before-scripts in the local directory, bumps the version file,
  packs the directory with `tar`, adds the extra files to the archive and sends
  it to the server.

  The shell, the archive and the server are injected as Tools. What the
  deployer does to the outside world is recorded, in order, as a trace of
  Effects; the local directory is a map from file name to contents, of which
  only the version file is read or written here.
 */
module HttpDeployer {
  import opened Wrappers
  import opened PhpStrings
  import opened AgentDisk
  import AgentRequest
  import DeployAgent

  // ---------------------------------------------------------------------------
  // Values
  // ---------------------------------------------------------------------------

  /** A PHP array key: a position, as explode() gives it, or a name. */
  datatype Key = Index(n: nat) | Name(name: string)

  /** A key used as a file path: an integer key is written in decimal. */
  function KeyPath(k: Key): string {
    match k
    case Index(n) => NatToString(n)
    case Name(s) => s
  }

  /** A setting given either as one newline-separated string or as a list. */
  datatype Setting<T> = Text(text: string) | List(items: seq<T>)

  /** What the deployer does to the outside world. */
  datatype Effect =
    | Ran(command: string)
    | Added(archive: string, from: string, to: string)
    | Uploaded(package: string)

  /** Either a value or a thrown HttpDeployerException with its message. */
  datatype Result<T> = Ok(value: T) | Err(message: string) {
    /** The same exception, rethrown from an operation with another result type. */
    function Forward<U>(): Result<U>
      requires Err?
    {
      Err(message)
    }
  }

  /** The decoded answer of the server to an upload. */
  type ServerAnswer = map<string, string>

  /**
    exec() (the exit status of a shell command), `new PharData($package)` (whether
    the archive opens), PharData::addFile() (whether adding `from` as `to`
    succeeds) and the server's deploy($packageFile).
   */
  datatype Tools = Tools(
    shell: string -> int,
    openArchive: string -> bool,
    addFile: (string, string, string) -> bool,
    upload: string -> ServerAnswer)

  const ScriptsFailed: string := "An error ocurred while executing the before scipts: Array"
  const PackFailed: string := "An error ocurred while packaging."
  const AddFailed: string := "An error ocurred while adding the extra files to the package."

  // ---------------------------------------------------------------------------
  // getIgnoreMasksTar()
  // ---------------------------------------------------------------------------

  /** explode(PHP_EOL, …) of the string form; the list form as it is. */
  function Masks(s: Setting<string>): seq<string> {
    match s
    case Text(t) => Split(t)
    case List(items) => items
  }

  /** The masks that are not blank once trimmed, in order and as they were written. */
  function NonBlank(masks: seq<string>): (r: seq<string>)
    ensures |r| <= |masks|
    ensures forall m <- r :: m in masks && Trim(m) != ""
    ensures forall m <- masks :: Trim(m) != "" ==> m in r
  {
    if masks == [] then []
    else if Trim(masks[0]) != "" then [masks[0]] + NonBlank(masks[1..])
    else NonBlank(masks[1..])
  }

  /** Filtering keeps the order and the repetitions of the kept masks: it distributes over concatenation. */
  lemma {:induction false} NonBlankAppend(a: seq<string>, b: seq<string>)
    ensures NonBlank(a + b) == NonBlank(a) + NonBlank(b)
  {
    if a != [] {
      var m, rest := a[0], a[1..];
      assert a + b == [m] + (rest + b);
      assert a == [m] + rest;
      NonBlankCons(m, rest + b);
      NonBlankCons(m, rest);
      NonBlankAppend(rest, b);
      if Trim(m) != "" {
        ConsAppend(m, NonBlank(rest), NonBlank(b));
      }
    } else {
      assert a + b == b;
    }
  }

  lemma ConsAppend<T>(x: T, xs: seq<T>, ys: seq<T>)
    ensures [x] + xs + ys == [x] + (xs + ys)
  {
  }

  /** Filtering twice is filtering once: the list stored back gives the same arguments next time. */
  lemma {:induction false} NonBlankIdempotent(masks: seq<string>)
    ensures NonBlank(NonBlank(masks)) == NonBlank(masks)
  {
    if masks != [] {
      NonBlankIdempotent(masks[1..]);
      if Trim(masks[0]) != "" {
        assert ([masks[0]] + NonBlank(masks[1..]))[1..] == NonBlank(masks[1..]);
      }
    }
  }

  /** The tar argument that leaves out one mask. */
  function Exclude(mask: string): string {
    "--exclude='" + Trim(mask) + "'"
  }

  /** One exclusion per mask, in order. */
  function Excludes(masks: seq<string>): (r: seq<string>)
    ensures |r| == |masks|
    ensures forall p <- r :: p != ""
  {
    if masks == [] then [] else [Exclude(masks[0])] + Excludes(masks[1..])
  }

  /** The tar arguments: one exclusion per non-blank mask, separated by single spaces. */
  function ExcludeArgs(masks: seq<string>): string {
    Join(Excludes(NonBlank(masks)), " ")
  }

  /** No tar argument at all exactly when every mask is blank. */
  lemma ExcludeArgsEmptyIff(masks: seq<string>)
    ensures ExcludeArgs(masks) == "" <==> forall m <- masks :: Trim(m) == ""
  {
    var kept := NonBlank(masks);
    var parts := Excludes(kept);
    JoinEmptyIff(parts, " ");
    if kept != [] {
      assert kept[0] in kept;
    }
  }

  /**
    Mask by mask: a blank mask adds nothing; a non-blank one adds its own
    `--exclude='…'` in front of the arguments of the masks after it, separated
    from them by a single space when there are any.
   */
  lemma ExcludeArgsCons(m: string, rest: seq<string>)
    ensures Trim(m) == "" ==> ExcludeArgs([m] + rest) == ExcludeArgs(rest)
    ensures Trim(m) != "" ==>
      ExcludeArgs([m] + rest) == if ExcludeArgs(rest) == "" then Exclude(m) else Exclude(m) + " " + ExcludeArgs(rest)
  {
    NonBlankCons(m, rest);
    if Trim(m) != "" {
      var kept := NonBlank(rest);
      ExcludesCons(m, kept);
      JoinCons(Exclude(m), Excludes(kept), " ");
      assert ExcludeArgs(rest) == "" <==> Excludes(kept) == [] by {
        ExcludeArgsEmptyIff(rest);
        if kept != [] {
          assert kept[0] in kept;
        }
      }
    }
  }

  lemma NonBlankCons(m: string, rest: seq<string>)
    ensures NonBlank([m] + rest) == if Trim(m) != "" then [m] + NonBlank(rest) else NonBlank(rest)
  {
    assert ([m] + rest)[1..] == rest;
  }

  lemma ExcludesCons(m: string, kept: seq<string>)
    ensures Excludes([m] + kept) == [Exclude(m)] + Excludes(kept)
  {
    assert ([m] + kept)[1..] == kept;
  }

  /** The arguments are the same whether computed from the masks or from the list stored back. */
  lemma ExcludeArgsStable(masks: seq<string>)
    ensures ExcludeArgs(NonBlank(masks)) == ExcludeArgs(masks)
  {
    NonBlankIdempotent(masks);
  }

  // ---------------------------------------------------------------------------
  // getExtraFiles()
  // ---------------------------------------------------------------------------

  /** explode(PHP_EOL, …) of the string form, keyed 0, 1, …; the list form as it is. */
  function Entries(s: Setting<(Key, string)>): (e: seq<(Key, string)>)
    ensures s.Text? ==> |e| == |Split(s.text)| && forall i :: 0 <= i < |e| ==> e[i] == (Index(i), Split(s.text)[i])
    ensures s.List? ==> e == s.items
  {
    match s
    case Text(t) =>
      var parts := Split(t);
      seq(|parts|, i requires 0 <= i < |parts| => (Index(i), parts[i]))
    case List(items) => items
  }

  /** Every value trimmed, the empty ones dropped, the keys kept. */
  function Filled(entries: seq<(Key, string)>): (r: seq<(Key, string)>)
    ensures |r| <= |entries|
    ensures forall p <- r :: p.1 != "" && exists q <- entries :: q.0 == p.0 && Trim(q.1) == p.1
    ensures forall q <- entries :: Trim(q.1) != "" ==> (q.0, Trim(q.1)) in r
  {
    if entries == [] then []
    else
      var rest := Filled(entries[1..]);
      assert forall q <- entries[1..] :: q in entries;
      assert entries[0] in entries;
      var t := Trim(entries[0].1);
      if t != "" then [(entries[0].0, t)] + rest else rest
  }

  /** Normalising keeps the order and the repetitions of the kept entries: it distributes over concatenation. */
  lemma {:induction false} FilledAppend(a: seq<(Key, string)>, b: seq<(Key, string)>)
    ensures Filled(a + b) == Filled(a) + Filled(b)
  {
    if a != [] {
      var q, rest := a[0], a[1..];
      assert a + b == [q] + (rest + b);
      assert a == [q] + rest;
      FilledCons(q, rest + b);
      FilledCons(q, rest);
      FilledAppend(rest, b);
      if Trim(q.1) != "" {
        ConsAppend((q.0, Trim(q.1)), Filled(rest), Filled(b));
      }
    } else {
      assert a + b == b;
    }
  }

  lemma FilledCons(q: (Key, string), rest: seq<(Key, string)>)
    ensures Filled([q] + rest) == if Trim(q.1) != "" then [(q.0, Trim(q.1))] + Filled(rest) else Filled(rest)
  {
    assert ([q] + rest)[1..] == rest;
  }

  /** Normalising a normalised list changes nothing. */
  lemma {:induction false} FilledIdempotent(entries: seq<(Key, string)>)
    ensures Filled(Filled(entries)) == Filled(entries)
  {
    if entries != [] {
      FilledIdempotent(entries[1..]);
      var t := Trim(entries[0].1);
      if t != "" {
        TrimIdempotent(entries[0].1);
        var r := [(entries[0].0, t)] + Filled(entries[1..]);
        assert r[1..] == Filled(entries[1..]);
      }
    }
  }

  /** getExtraFiles() called a second time, on the list the first call stored back, returns the same list. */
  lemma ExtraFilesStable(s: Setting<(Key, string)>)
    ensures Filled(Entries(List(Filled(Entries(s))))) == Filled(Entries(s))
  {
    FilledIdempotent(Entries(s));
  }

  // ---------------------------------------------------------------------------
  // incrementVersion() and the package name
  // ---------------------------------------------------------------------------

  /** The version after incrementVersion(): the file's contents read as an integer, or 0 without a file, plus one. */
  function NextVersion(files: Tree, versionFileName: string): int {
    (if versionFileName in files then ToInt(files[versionFileName]) else 0) + 1
  }

  /** The first deployment from a directory without a version file is version 1. */
  lemma FirstVersion(files: Tree, versionFileName: string)
    requires versionFileName !in files
    ensures NextVersion(files, versionFileName) == 1
  {
  }

  /** After writing version v, the next increment gives v + 1: consecutive deployments count up by one. */
  lemma NextVersionAfterWrite(files: Tree, versionFileName: string, v: int)
    ensures NextVersion(files[versionFileName := IntToString(v)], versionFileName) == v + 1
  {
    ToIntOfIntToString(v);
  }

  /**
    The package file: `<tempDir>/<packageName>-<version>.tar.gz`; a version that
    was never set is interpolated as the empty string.
   */
  function PackagePath(tempDir: string, packageName: string, version: Option<int>): string {
    tempDir + "/" + packageName + "-" + (if version.Some? then IntToString(version.value) else "") + ".tar.gz"
  }

  /** Different versions are packed into different files. */
  lemma PackagePathInjective(tempDir: string, packageName: string, v: Option<int>, w: Option<int>)
    requires PackagePath(tempDir, packageName, v) == PackagePath(tempDir, packageName, w)
    ensures v == w
  {
    var prefix := tempDir + "/" + packageName + "-";
    var a := if v.Some? then IntToString(v.value) else "";
    var b := if w.Some? then IntToString(w.value) else "";
    var p := PackagePath(tempDir, packageName, v);
    assert p == prefix + a + ".tar.gz";
    assert p == prefix + b + ".tar.gz";
    assert |a| == |b|;
    assert a == p[|prefix|..|prefix| + |a|];
    assert b == p[|prefix|..|prefix| + |b|];
    if v.Some? && w.Some? {
      IntToStringInjective(v.value, w.value);
    }
  }

  // ---------------------------------------------------------------------------
  // Commands and their logs
  // ---------------------------------------------------------------------------

  /** A before-script runs from the local directory. */
  function ScriptCommand(local: string, script: string): string {
    "cd " + local + " && " + script
  }

  /** The archiver run: every file of the local directory but the excluded ones, gzipped into `package`. */
  function PackCommand(local: string, package: string, excludeArgs: string): string {
    "cd " + local + " && tar -zc -f " + package + " * " + excludeArgs
  }

  /** What running a list of before-scripts did: whether all succeeded, and the commands run. */
  datatype ScriptsLog = ScriptsLog(ok: bool, ran: seq<string>)

  /**
    The before-scripts run in list order, each from the local directory, until
    one exits non-zero (RunScriptsStopsAt and RunScriptsAllPass below say which
    are run); only a complete run is a success.
   */
  function RunScripts(local: string, scripts: seq<string>, shell: string -> int): (log: ScriptsLog)
    ensures |log.ran| <= |scripts|
    ensures log.ok ==> |log.ran| == |scripts|
    ensures !log.ok ==> |log.ran| > 0
  {
    if scripts == [] then ScriptsLog(true, [])
    else
      var command := ScriptCommand(local, scripts[0]);
      if shell(command) != 0 then ScriptsLog(false, [command])
      else
        var rest := RunScripts(local, scripts[1..], shell);
        ScriptsLog(rest.ok, [command] + rest.ran)
  }

  /** The command of every script, in order. */
  function Commands(local: string, scripts: seq<string>): (r: seq<string>)
    ensures |r| == |scripts| && forall j :: 0 <= j < |scripts| ==> r[j] == ScriptCommand(local, scripts[j])
  {
    seq(|scripts|, j requires 0 <= j < |scripts| => ScriptCommand(local, scripts[j]))
  }

  /** When the scripts before `i` pass and script `i` fails, the scripts up to `i` are exactly the ones run. */
  lemma {:induction false} RunScriptsStopsAt(local: string, scripts: seq<string>, shell: string -> int, i: nat)
    requires i < |scripts| && shell(ScriptCommand(local, scripts[i])) != 0
    requires forall j :: 0 <= j < i ==> shell(ScriptCommand(local, scripts[j])) == 0
    ensures RunScripts(local, scripts, shell) == ScriptsLog(false, Commands(local, scripts[..i + 1]))
  {
    if i > 0 {
      RunScriptsStopsAt(local, scripts[1..], shell, i - 1);
      assert [ScriptCommand(local, scripts[0])] + Commands(local, scripts[1..][..i]) == Commands(local, scripts[..i + 1]);
    }
  }

  /** When every script passes, all of them are run. */
  lemma {:induction false} RunScriptsAllPass(local: string, scripts: seq<string>, shell: string -> int)
    requires forall j :: 0 <= j < |scripts| ==> shell(ScriptCommand(local, scripts[j])) == 0
    ensures RunScripts(local, scripts, shell) == ScriptsLog(true, Commands(local, scripts))
  {
    if scripts != [] {
      RunScriptsAllPass(local, scripts[1..], shell);
      assert [ScriptCommand(local, scripts[0])] + Commands(local, scripts[1..]) == Commands(local, scripts);
    }
  }

  function RanAll(commands: seq<string>): (r: seq<Effect>)
    ensures |r| == |commands| && forall j :: 0 <= j < |commands| ==> r[j] == Ran(commands[j])
  {
    seq(|commands|, j requires 0 <= j < |commands| => Ran(commands[j]))
  }

  /** What adding the extra files did: whether all were added, and the ones that were. */
  datatype AddLog = AddLog(ok: bool, added: seq<(Key, string)>)

  /** The extra files are added in order; the first one refused stops the rest. */
  function AddFiles(archive: string, files: seq<(Key, string)>, addFile: (string, string, string) -> bool): (log: AddLog)
    ensures |log.added| <= |files| && log.added == files[..|log.added|]
    ensures log.ok <==> |log.added| == |files|
    ensures forall j :: 0 <= j < |log.added| ==> addFile(archive, KeyPath(files[j].0), files[j].1)
    ensures !log.ok ==> !addFile(archive, KeyPath(files[|log.added|].0), files[|log.added|].1)
  {
    if files == [] then AddLog(true, [])
    else if !addFile(archive, KeyPath(files[0].0), files[0].1) then AddLog(false, [])
    else
      var rest := AddFiles(archive, files[1..], addFile);
      AddLog(rest.ok, [files[0]] + rest.added)
  }

  function AddedAll(archive: string, files: seq<(Key, string)>): (r: seq<Effect>)
    ensures |r| == |files| && forall j :: 0 <= j < |files| ==> r[j] == Added(archive, KeyPath(files[j].0), files[j].1)
  {
    seq(|files|, j requires 0 <= j < |files| => Added(archive, KeyPath(files[j].0), files[j].1))
  }

  /** `after` is `before` followed by effects none of which is an upload. */
  predicate ExtendsWithoutUpload(before: seq<Effect>, after: seq<Effect>) {
    && |before| <= |after| && after[..|before|] == before
    && forall e <- after[|before|..] :: !e.Uploaded?
  }

  lemma ExtendsWithoutUploadTrans(a: seq<Effect>, b: seq<Effect>, c: seq<Effect>)
    requires ExtendsWithoutUpload(a, b) && ExtendsWithoutUpload(b, c)
    ensures ExtendsWithoutUpload(a, c)
  {
    assert c[..|a|] == c[..|b|][..|a|];
    assert c[|a|..] == b[|a|..] + c[|b|..];
  }

  // ---------------------------------------------------------------------------
  // The operations as functions of the deployer's state
  // ---------------------------------------------------------------------------

  /** The deployer's fields, with the local directory's files and the effects so far. */
  datatype Client = Client(
    ignoreMasks: Setting<string>,
    extraFiles: Setting<(Key, string)>,
    beforeScripts: seq<string>,
    tempDir: string,
    packageName: string,
    versionFileName: string,
    local: string,
    version: Option<int>,
    package: Option<string>,
    localFiles: Tree,
    trace: seq<Effect>)

  datatype Run<T> = Run(result: Result<T>, client: Client)

  /** applyBeforeScripts(). */
  function ScriptsStep(c: Client, tools: Tools): (s: Run<()>)
    ensures s.client == c.(trace := s.client.trace)
    ensures ExtendsWithoutUpload(c.trace, s.client.trace)
  {
    var log := RunScripts(c.local, c.beforeScripts, tools.shell);
    Run(if log.ok then Ok(()) else Err(ScriptsFailed), c.(trace := c.trace + RanAll(log.ran)))
  }

  /** incrementVersion(): the new version is stored and written to the version file. */
  function VersionStep(c: Client): (d: Client)
    ensures d.version == Some(NextVersion(c.localFiles, c.versionFileName))
    ensures d.localFiles == c.localFiles[c.versionFileName := IntToString(d.version.value)]
    ensures d == c.(version := d.version, localFiles := d.localFiles)
  {
    var v := NextVersion(c.localFiles, c.versionFileName);
    c.(version := Some(v), localFiles := c.localFiles[c.versionFileName := IntToString(v)])
  }

  /** The version the client stamps into its release is the one the agent reads back from it. */
  lemma AgentReadsStampedVersion(c: Client)
    ensures DeployAgent.GetVersion(Some(VersionStep(c).localFiles), c.versionFileName)
            == AgentRequest.Done(VersionStep(c).version.value)
  {
    var d := VersionStep(c);
    DeployAgent.GetVersionReadsBack(d.localFiles, c.versionFileName, d.version.value);
  }

  /** createPackage(): names the package, stores the filtered masks back and runs the archiver. */
  function PackStep(c: Client, tools: Tools): (s: Run<()>)
    ensures var path := PackagePath(c.tempDir, c.packageName, c.version);
            var command := PackCommand(c.local, path, ExcludeArgs(Masks(c.ignoreMasks)));
      && s.client == c.(package := Some(path), ignoreMasks := List(NonBlank(Masks(c.ignoreMasks))),
                        trace := c.trace + [Ran(command)])
      && (s.result.Err? <==> tools.shell(command) != 0)
      && (s.result.Err? ==> s.result.message == PackFailed)
    ensures s.client.version == c.version && s.client.localFiles == c.localFiles
    ensures ExtendsWithoutUpload(c.trace, s.client.trace)
  {
    var path := PackagePath(c.tempDir, c.packageName, c.version);
    var masks := Masks(c.ignoreMasks);
    var command := PackCommand(c.local, path, ExcludeArgs(masks));
    var d := c.(package := Some(path), ignoreMasks := List(NonBlank(masks)), trace := c.trace + [Ran(command)]);
    Run(if tools.shell(command) == 0 then Ok(()) else Err(PackFailed), d)
  }

  /**
    addExtraFiles(): opens the archive, then (and only then) normalises the
    extra files, storing them back, and adds them one by one.
   */
  function AddStep(c: Client, tools: Tools): (s: Run<()>)
    requires c.package.Some?
    ensures s.client.package == c.package && s.client.version == c.version && s.client.localFiles == c.localFiles
    ensures ExtendsWithoutUpload(c.trace, s.client.trace)
  {
    var archive := c.package.value;
    if !tools.openArchive(archive) then Run(Err(AddFailed), c)
    else
      var files := Filled(Entries(c.extraFiles));
      var log := AddFiles(archive, files, tools.addFile);
      var d := c.(extraFiles := List(files), trace := c.trace + AddedAll(archive, log.added));
      Run(if log.ok then Ok(()) else Err(AddFailed), d)
  }

  /**
    addExtraFiles() fails, always with the same message, exactly when the
    archive cannot be opened or one of the normalised extra files is refused;
    an archive that does not open changes nothing, and a success has added
    every normalised extra file, in order.
   */
  lemma AddStepOutcome(c: Client, tools: Tools)
    requires c.package.Some?
    ensures var s := AddStep(c, tools);
            var archive := c.package.value;
            var files := Filled(Entries(c.extraFiles));
      && (s.result.Err? <==>
            !tools.openArchive(archive) ||
            exists j :: 0 <= j < |files| && !tools.addFile(archive, KeyPath(files[j].0), files[j].1))
      && (s.result.Err? ==> s.result.message == AddFailed)
      && (!tools.openArchive(archive) ==> s.client == c)
      && (tools.openArchive(archive) ==> s.client.extraFiles == List(files))
      && (s.result.Ok? ==> s.client.trace == c.trace + AddedAll(archive, files))
  {
    var archive := c.package.value;
    if tools.openArchive(archive) {
      var files := Filled(Entries(c.extraFiles));
      var log := AddFiles(archive, files, tools.addFile);
      var d := c.(extraFiles := List(files), trace := c.trace + AddedAll(archive, log.added));
      assert AddStep(c, tools) == Run(if log.ok then Ok(()) else Err(AddFailed), d);
      AddFilesRefused(archive, files, tools.addFile);
    }
  }

  /** The extra files are all added exactly when none of them is refused. */
  lemma AddFilesRefused(archive: string, files: seq<(Key, string)>, addFile: (string, string, string) -> bool)
    ensures var log := AddFiles(archive, files, addFile);
      && (!log.ok <==> exists j :: 0 <= j < |files| && !addFile(archive, KeyPath(files[j].0), files[j].1))
      && (log.ok ==> log.added == files)
  {
    var log := AddFiles(archive, files, addFile);
    if !log.ok {
      var j := |log.added|;
      assert 0 <= j < |files| && !addFile(archive, KeyPath(files[j].0), files[j].1);
    } else {
      assert log.added == files[..|files|] == files;
    }
  }

  /** deploy(): scripts, version, package, extra files, upload; the server's answer is returned as it is. */
  function DeployStep(c: Client, tools: Tools): Run<ServerAnswer> {
    var scripts := ScriptsStep(c, tools);
    if scripts.result.Err? then Run(scripts.result.Forward(), scripts.client)
    else
      var packed := PackStep(VersionStep(scripts.client), tools);
      if packed.result.Err? then Run(packed.result.Forward(), packed.client)
      else
        var added := AddStep(packed.client, tools);
        if added.result.Err? then Run(added.result.Forward(), added.client)
        else
          var path := added.client.package.value;
          Run(Ok(tools.upload(path)), added.client.(trace := added.client.trace + [Uploaded(path)]))
  }

  /** packageOnly(): scripts, package, extra files; the path of the package is returned. */
  function PackageOnlyStep(c: Client, tools: Tools): Run<string> {
    var scripts := ScriptsStep(c, tools);
    if scripts.result.Err? then Run(scripts.result.Forward(), scripts.client)
    else
      var packed := PackStep(scripts.client, tools);
      if packed.result.Err? then Run(packed.result.Forward(), packed.client)
      else
        var added := AddStep(packed.client, tools);
        if added.result.Err? then Run(added.result.Forward(), added.client)
        else Run(Ok(added.client.package.value), added.client)
  }

  // ---------------------------------------------------------------------------
  // What the operations promise
  // ---------------------------------------------------------------------------

  /**
    A deployment that goes through does everything in this order: all the
    before-scripts, the archiver run on the package named after the new
    version, every extra file, and one upload of that package, whose answer it
    returns unchanged. The version file then holds the new version.
   */
  lemma DeploySequence(c: Client, tools: Tools)
    requires DeployStep(c, tools).result.Ok?
    ensures var v := NextVersion(c.localFiles, c.versionFileName);
            var path := PackagePath(c.tempDir, c.packageName, Some(v));
            var s := DeployStep(c, tools);
      && s.result == Ok(tools.upload(path))
      && s.client.version == Some(v) && s.client.package == Some(path)
      && s.client.localFiles == c.localFiles[c.versionFileName := IntToString(v)]
      && s.client.trace ==
           c.trace + RanAll(RunScripts(c.local, c.beforeScripts, tools.shell).ran)
           + [Ran(PackCommand(c.local, path, ExcludeArgs(Masks(c.ignoreMasks))))]
           + AddedAll(path, Filled(Entries(c.extraFiles)))
           + [Uploaded(path)]
      && |RunScripts(c.local, c.beforeScripts, tools.shell).ran| == |c.beforeScripts|
  {
    var scripts := ScriptsStep(c, tools);
    var bumped := VersionStep(scripts.client);
    var packed := PackStep(bumped, tools);
    var added := AddStep(packed.client, tools);
    var path := PackagePath(c.tempDir, c.packageName, bumped.version);
    var files := Filled(Entries(c.extraFiles));
    assert packed.client.extraFiles == c.extraFiles;
    var log := AddFiles(path, files, tools.addFile);
    assert log.added == files;
  }

  /**
    A failing before-script stops the deployment: no version bump, no package,
    no upload; the commands run are the scripts up to the failing one.
   */
  lemma ScriptFailureStopsDeploy(c: Client, tools: Tools)
    requires !RunScripts(c.local, c.beforeScripts, tools.shell).ok
    ensures var s := DeployStep(c, tools);
      && s.result == Err(ScriptsFailed)
      && s.client == c.(trace := c.trace + RanAll(RunScripts(c.local, c.beforeScripts, tools.shell).ran))
  {
  }

  /** Nothing is uploaded unless the deployment succeeds, and then exactly once, as the last effect. */
  lemma UploadOnlyOnSuccess(c: Client, tools: Tools)
    ensures var s := DeployStep(c, tools);
      && (s.result.Err? ==> ExtendsWithoutUpload(c.trace, s.client.trace))
      && (s.result.Ok? ==> |s.client.trace| > 0 && s.client.trace[|s.client.trace| - 1] == Uploaded(s.client.package.value)
                           && ExtendsWithoutUpload(c.trace, s.client.trace[..|s.client.trace| - 1]))
  {
    var scripts := ScriptsStep(c, tools);
    if scripts.result.Ok? {
      var bumped := VersionStep(scripts.client);
      var packed := PackStep(bumped, tools);
      ExtendsWithoutUploadTrans(c.trace, scripts.client.trace, packed.client.trace);
      if packed.result.Ok? {
        var added := AddStep(packed.client, tools);
        ExtendsWithoutUploadTrans(c.trace, packed.client.trace, added.client.trace);
        var t := added.client.trace + [Uploaded(added.client.package.value)];
        assert t[..|t| - 1] == added.client.trace;
      }
    }
  }

  /**
    packageOnly() never touches the version or the version file and never
    uploads; it returns the path named after whatever version the deployer holds.
   */
  lemma PackageOnlyKeepsVersion(c: Client, tools: Tools)
    ensures var s := PackageOnlyStep(c, tools);
      && s.client.version == c.version && s.client.localFiles == c.localFiles
      && (s.result.Ok? ==> s.result.value == PackagePath(c.tempDir, c.packageName, c.version))
      && ExtendsWithoutUpload(c.trace, s.client.trace)
  {
    var scripts := ScriptsStep(c, tools);
    if scripts.result.Ok? {
      var packed := PackStep(scripts.client, tools);
      ExtendsWithoutUploadTrans(c.trace, scripts.client.trace, packed.client.trace);
      if packed.result.Ok? {
        var added := AddStep(packed.client, tools);
        ExtendsWithoutUploadTrans(c.trace, packed.client.trace, added.client.trace);
      }
    }
  }

  // ---------------------------------------------------------------------------
  // The deployer object
  // ---------------------------------------------------------------------------

  class LaravelHttpDeployer {
    /** Masks of files left out of the package. */
    var ignoreMasks: Setting<string>
    /** Extra files: path on disk as key, path inside the package as value. */
    var extraFiles: Setting<(Key, string)>
    /** Scripts run before packaging. */
    var beforeScripts: seq<string>
    var tempDir: string
    var packageName: string
    var versionFileName: string
    /** The local directory being deployed. */
    const local: string
    /** The shell, the archive and the server. */
    const tools: Tools
    /** $this->version, null until incrementVersion(). */
    var version: Option<int>
    /** $this->package, the path of the last package. */
    var package: Option<string>
    /** The files of the local directory. */
    var localFiles: Tree
    /** Everything done to the outside world so far. */
    var trace: seq<Effect>

    /** The current state as a value. */
    function Snap(): Client
      reads this
    {
      Client(ignoreMasks, extraFiles, beforeScripts, tempDir, packageName, versionFileName, local,
             version, package, localFiles, trace)
    }

    /** A deployer for `local` with the class's defaults: no masks, no extra files, no scripts. */
    constructor (local: string, tools: Tools, localFiles: Tree)
      ensures Snap() == Client(List([]), List([]), [], "/tmp", "package", "version", local, None, None, localFiles, [])
      ensures this.tools == tools
    {
      this.local, this.tools, this.localFiles := local, tools, localFiles;
      ignoreMasks, extraFiles, beforeScripts := List([]), List([]), [];
      tempDir, packageName, versionFileName := "/tmp", "package", "version";
      version, package, trace := None, None, [];
    }

    /** The loop of applyBeforeScripts(): each script in turn, stopping at the first that fails. */
    method RunAll(scripts: seq<string>) returns (ok: bool)
      modifies this`trace
      ensures ok == RunScripts(local, scripts, tools.shell).ok
      ensures trace == old(trace) + RanAll(RunScripts(local, scripts, tools.shell).ran)
    {
      var i := 0;
      while i < |scripts|
        invariant 0 <= i <= |scripts|
        invariant forall j :: 0 <= j < i ==> tools.shell(ScriptCommand(local, scripts[j])) == 0
        invariant trace == old(trace) + RanAll(Commands(local, scripts[..i]))
      {
        var command := ScriptCommand(local, scripts[i]);
        var exit := tools.shell(command);
        trace := trace + [Ran(command)];
        assert Commands(local, scripts[..i + 1]) == Commands(local, scripts[..i]) + [command];
        if exit != 0 {
          RunScriptsStopsAt(local, scripts, tools.shell, i);
          return false;
        }
        i := i + 1;
      }
      assert scripts[..i] == scripts;
      RunScriptsAllPass(local, scripts, tools.shell);
      ok := true;
    }

    /** applyBeforeScripts(). */
    method ApplyBeforeScripts() returns (r: Result<()>)
      modifies this`trace
      ensures Run(r, Snap()) == ScriptsStep(old(Snap()), tools)
    {
      var ok := RunAll(beforeScripts);
      r := if ok then Ok(()) else Err(ScriptsFailed);
    }

    /** incrementVersion(). */
    method IncrementVersion()
      modifies this`version, this`localFiles
      ensures Snap() == VersionStep(old(Snap()))
    {
      var v := 0;
      if versionFileName in localFiles {
        v := ToInt(localFiles[versionFileName]);
      }
      v := v + 1;
      version := Some(v);
      localFiles := localFiles[versionFileName := IntToString(v)];
    }

    /** getIgnoreMasksTar(): the tar arguments; the filtered masks are stored back. */
    method IgnoreMasksTar() returns (args: string)
      modifies this`ignoreMasks
      ensures args == ExcludeArgs(Masks(old(ignoreMasks)))
      ensures ignoreMasks == List(NonBlank(Masks(old(ignoreMasks))))
    {
      var masks := NonBlank(Masks(ignoreMasks));
      ignoreMasks := List(masks);
      args := Join(Excludes(masks), " ");
    }

    /** createPackage(). */
    method CreatePackage() returns (r: Result<()>)
      modifies this`package, this`ignoreMasks, this`trace
      ensures Run(r, Snap()) == PackStep(old(Snap()), tools)
    {
      package := Some(PackagePath(tempDir, packageName, version));
      var args := IgnoreMasksTar();
      var command := PackCommand(local, package.value, args);
      var exit := tools.shell(command);
      trace := trace + [Ran(command)];
      if exit != 0 {
        return Err(PackFailed);
      }
      r := Ok(());
    }

    /** getExtraFiles(): the normalised extra files; the list is stored back. */
    method ExtraFiles() returns (files: seq<(Key, string)>)
      modifies this`extraFiles
      ensures files == Filled(Entries(old(extraFiles))) && extraFiles == List(files)
    {
      files := Filled(Entries(extraFiles));
      extraFiles := List(files);
    }

    /** The loop of addExtraFiles(): each file in turn, stopping at the first one refused. */
    method AddAll(archive: string, files: seq<(Key, string)>) returns (ok: bool)
      modifies this`trace
      ensures ok == AddFiles(archive, files, tools.addFile).ok
      ensures trace == old(trace) + AddedAll(archive, AddFiles(archive, files, tools.addFile).added)
    {
      ghost var log := AddFiles(archive, files, tools.addFile);
      var i := 0;
      while i < |files|
        invariant 0 <= i <= |files|
        invariant i <= |log.added|
        invariant trace == old(trace) + AddedAll(archive, files[..i])
      {
        var (from, to) := files[i];
        if !tools.addFile(archive, KeyPath(from), to) {
          assert |log.added| == i;
          return false;
        }
        assert |log.added| != i;
        trace := trace + [Added(archive, KeyPath(from), to)];
        assert AddedAll(archive, files[..i + 1]) == AddedAll(archive, files[..i]) + [Added(archive, KeyPath(from), to)];
        i := i + 1;
      }
      assert files[..i] == log.added;
      ok := true;
    }

    /** addExtraFiles(). */
    method AddExtraFiles() returns (r: Result<()>)
      requires package.Some?
      modifies this`extraFiles, this`trace
      ensures Run(r, Snap()) == AddStep(old(Snap()), tools)
    {
      var archive := package.value;
      if !tools.openArchive(archive) {
        return Err(AddFailed);
      }
      ghost var before := Snap();
      var files := ExtraFiles();
      assert Snap() == before.(extraFiles := List(files));
      var ok := AddAll(archive, files);
      r := if ok then Ok(()) else Err(AddFailed);
      assert Snap() == before.(extraFiles := List(files),
                               trace := before.trace + AddedAll(archive, AddFiles(archive, files, tools.addFile).added));
    }

    /** deploy(). */
    method Deploy() returns (r: Result<ServerAnswer>)
      modifies this
      ensures Run(r, Snap()) == DeployStep(old(Snap()), tools)
    {
      var scripts := ApplyBeforeScripts();
      if scripts.Err? {
        return scripts.Forward();
      }
      IncrementVersion();
      var packed := CreatePackage();
      if packed.Err? {
        return packed.Forward();
      }
      var added := AddExtraFiles();
      if added.Err? {
        return added.Forward();
      }
      r := Ok(tools.upload(package.value));
      trace := trace + [Uploaded(package.value)];
    }

    /** packageOnly(). */
    method PackageOnly() returns (r: Result<string>)
      modifies this
      ensures Run(r, Snap()) == PackageOnlyStep(old(Snap()), tools)
    {
      var scripts := ApplyBeforeScripts();
      if scripts.Err? {
        return scripts.Forward();
      }
      var packed := CreatePackage();
      if packed.Err? {
        return packed.Forward();
      }
      var added := AddExtraFiles();
      if added.Err? {
        return added.Forward();
      }
      r := Ok(package.value);
    }
  }
}
