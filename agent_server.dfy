/**
  The deployment agent's DeploymentServer (src/server/deploy.php): one request,
  authenticated, dispatched on `cmd` to deploy, rollback or status, with every
  exception turned into a JSON error answer at the top level.

  What the agent cannot see is injected: the shared secret read from its INI
  file, the name of the version file inside a release, the JSON decoder of the
  `config` field, md5_file() and the external `tar` run.
 */
module DeployAgent {
  import opened Wrappers
  import opened PhpStrings
  import opened AgentRequest
  import opened AgentDisk

  /** $_FILES['package']: the declared content type, the upload error code and the bytes. */
  datatype Upload = Upload(mimeType: string, error: int, content: Bytes)

  /** One run of `tar -C <dir> -xf <gzip>`: exit status, output lines and the files it extracts. */
  datatype TarRun = TarRun(exitCode: int, output: seq<string>, files: Tree)

  /**
    What the agent reads from outside the request: auth_key from its INI file
    (if set), the name of the version file inside every release, json_decode()
    of the `config` field, md5_file() of the stored upload and the external
    `tar` run on it.
   */
  datatype Host = Host(
    authKey: Option<string>,
    versionFilename: string,
    decodeJson: string -> map<string, string>,
    md5: Bytes -> string,
    untar: Bytes -> TarRun)

  /** One HTTP request: headers (as getallheaders() gives them), $_GET, $_POST and the upload. */
  datatype Request = Request(
    headers: map<string, string>,
    query: map<string, string>,
    post: map<string, string>,
    upload: Option<Upload>)

  /** The only content type accepted for a package. */
  const ValidTypes: seq<string> := ["application/gzip"]

  // ---------------------------------------------------------------------------
  // Pure steps
  // ---------------------------------------------------------------------------

  /**
    getPackage(): the upload must be present, declared as application/gzip and
    free of upload errors, checked in that order.
   */
  function GetPackage(upload: Option<Upload>): (r: Outcome<Upload>)
    ensures r.Done? <==> upload.Some? && upload.value.mimeType == "application/gzip" && upload.value.error == 0
    ensures r.Done? ==> r.value == upload.value
    ensures upload.None? ==> r == Fail("Package for deployment missing.")
    ensures upload.Some? && upload.value.mimeType != "application/gzip" ==>
      r == Fail("Package for deployment has not a valid type: " + upload.value.mimeType)
    ensures upload.Some? && upload.value.mimeType == "application/gzip" && upload.value.error != 0 ==>
      r == Fail("An error occurred while uploading the deployment package.")
  {
    if upload.None? then Fail("Package for deployment missing.")
    else if upload.value.mimeType !in ValidTypes then
      Fail("Package for deployment has not a valid type: " + upload.value.mimeType)
    else if upload.value.error != 0 then Fail("An error occurred while uploading the deployment package.")
    else Done(upload.value)
  }

  /**
    getVersion(): the trimmed contents of the version file, read as an integer;
    a missing directory or version file is an error.
   */
  function GetVersion(dir: Option<Tree>, versionFilename: string): (r: Outcome<int>)
    ensures r.Threw? <==> dir.None? || versionFilename !in dir.value
    ensures r.Threw? ==> r == Fail("Version file not found.")
    ensures r.Done? ==> r.value == ToInt(Trim(dir.value[versionFilename]))
  {
    if dir.None? || versionFilename !in dir.value then Fail("Version file not found.")
    else Done(ToInt(Trim(dir.value[versionFilename])))
  }

  /** A release whose version file holds the decimal rendering of v is read back as version v. */
  lemma GetVersionReadsBack(files: Tree, versionFilename: string, v: int)
    requires versionFilename in files && files[versionFilename] == IntToString(v)
    ensures GetVersion(Some(files), versionFilename) == Done(v)
  {
    ToIntOfTrimmedIntToString(v);
  }

  /** sort($history, SORT_NUMERIC): ascending by the integer each name reads as. */
  ghost predicate SortedByNumber(s: seq<string>) {
    forall i, j :: 0 <= i < j < |s| ==> ToInt(s[i]) <= ToInt(s[j])
  }

  /** `versions` is the history listing as getHistory() returns it: every entry once, ascending. */
  ghost predicate ListsHistory(versions: seq<string>, history: map<string, Tree>) {
    && SortedByNumber(versions)
    && multiset(versions) == multiset(history.Keys)
    && forall v <- versions :: v in history
  }

  /** A name no greater than every name of a sorted list can go in front of it. */
  lemma SortedCons(h: string, t: seq<string>)
    requires SortedByNumber(t)
    requires forall y <- t :: ToInt(h) <= ToInt(y)
    ensures SortedByNumber([h] + t)
  {
    var s := [h] + t;
    forall i, j | 0 <= i < j < |s| ensures ToInt(s[i]) <= ToInt(s[j]) {
      if i == 0 {
        assert s[j] == t[j - 1];
        assert s[j] in t;
      } else {
        assert s[i] == t[i - 1] && s[j] == t[j - 1];
      }
    }
  }

  /** The head of a sorted list stays below everything once a greater name is put into its tail. */
  lemma HeadBelowInserted(s: seq<string>, x: string, tail: seq<string>)
    requires SortedByNumber(s) && s != [] && ToInt(s[0]) < ToInt(x)
    requires multiset(tail) == multiset(s[1..]) + multiset{x}
    ensures forall y <- tail :: ToInt(s[0]) <= ToInt(y)
  {
    forall y <- tail ensures ToInt(s[0]) <= ToInt(y) {
      assert y in multiset(tail);
      if y != x {
        assert y in multiset(s[1..]);
        var k :| 0 <= k < |s[1..]| && s[1..][k] == y;
        assert s[k + 1] == y;
      }
    }
  }

  /** One step of sorting: puts `x` into an already sorted list. */
  function InsertByNumber(s: seq<string>, x: string): (r: seq<string>)
    requires SortedByNumber(s)
    ensures SortedByNumber(r)
    ensures multiset(r) == multiset(s) + multiset{x}
  {
    if s == [] || ToInt(x) <= ToInt(s[0]) then
      SortedCons(x, s);
      [x] + s
    else
      var tail := InsertByNumber(s[1..], x);
      assert s == [s[0]] + s[1..];
      HeadBelowInserted(s, x, tail);
      SortedCons(s[0], tail);
      [s[0]] + tail
  }

  /** Which history entry a rollback brings back, or why it brings back none. */
  datatype Choice = NothingToRollback | NotAvailable(requested: string) | RollTo(name: string)

  /**
    The selection in rollback() over the ascending history listing. With no
    requested version (absent or "", which PHP takes for null) it keeps the
    entries below the current version, keys and all, and takes the one at key
    0 -- the first, hence the OLDEST, of the listing. A requested version is
    only looked up in the listing; it is not compared with the current one.
   */
  function SelectRollback(versions: seq<string>, current: int, requested: Option<string>): (c: Choice)
    requires SortedByNumber(versions)
    ensures requested.None? || requested == Some("") ==>
      (c == NothingToRollback <==> forall v <- versions :: ToInt(v) >= current)
    ensures (requested.None? || requested == Some("")) && (exists v <- versions :: ToInt(v) < current) ==>
      c == RollTo(versions[0])
    ensures (requested.None? || requested == Some("")) && c.RollTo? ==>
      && ToInt(c.name) < current
      && forall v <- versions :: ToInt(v) < current ==> ToInt(c.name) <= ToInt(v)
    ensures requested.Some? && requested.value != "" ==>
      c == if requested.value in versions then RollTo(requested.value) else NotAvailable(requested.value)
    ensures c.RollTo? ==> c.name in versions
    ensures !c.NotAvailable?  ==> requested.None? || requested == Some("") || requested.value in versions
  {
    if requested.None? || requested == Some("") then
      var below := map i | 0 <= i < |versions| && ToInt(versions[i]) < current :: versions[i];
      if |below| == 0 then
        assert forall v <- versions :: ToInt(v) >= current by {
          forall i | 0 <= i < |versions| ensures ToInt(versions[i]) >= current {
            assert ToInt(versions[i]) < current ==> i in below;
          }
        }
        NothingToRollback
      else
        var k :| k in below;
        assert 0 in below by {
          assert ToInt(versions[0]) <= ToInt(versions[k]);
        }
        RollTo(below[0])
    else if requested.value !in versions then NotAvailable(requested.value)
    else RollTo(requested.value)
  }

  /** The answer rollback() gives for a choice; only RollTo changes anything. */
  function RollbackMessage(c: Choice, current: int): string {
    match c
    case NothingToRollback => "Nothing to rollback"
    case NotAvailable(v) => "Version " + v + " is not available for rollback"
    case RollTo(name) => "Rolled back from version " + IntToString(current) + " to version " + name
  }

  /**
    The rollback swap keeps the number of history entries: the chosen entry
    leaves, the current release comes in under a name not taken before.
   */
  lemma {:induction false} SwapKeepsHistorySize(history: map<string, Tree>, chosen: string, retired: string, release: Tree)
    requires chosen in history && retired !in history
    ensures |(history - {chosen})[retired := release]| == |history|
    ensures ((history - {chosen})[retired := release]).Keys == history.Keys - {chosen} + {retired}
  {
    var h := (history - {chosen})[retired := release];
    assert h.Keys == history.Keys - {chosen} + {retired};
    assert |history.Keys - {chosen}| == |history.Keys| - 1;
    assert retired !in history.Keys - {chosen};
  }

  /** Adding one name and then removing another is the same as doing it the other way round. */
  lemma RemoveAfterAdd(m: map<string, Tree>, added: string, removed: string, v: Tree)
    requires added != removed
    ensures m[added := v] - {removed} == (m - {removed})[added := v]
  {
    var l, r := m[added := v] - {removed}, (m - {removed})[added := v];
    assert l.Keys == r.Keys;
    forall k | k in l ensures l[k] == r[k] {
    }
  }

  /** Removing a name just added to a map that did not hold it gives the map back. */
  lemma RemoveAdded(m: map<string, Tree>, added: string, v: Tree)
    requires added !in m
    ensures m[added := v] - {added} == m
  {
    var l := m[added := v] - {added};
    assert l.Keys == m.Keys;
    forall k | k in l ensures l[k] == m[k] {
    }
  }

  /**
    The agent's test of the version order in replaceOldVersion(): the integers
    read from the live and the unpacked release are compared as integers, and
    `old >= new` throws, so a deploy goes ahead only over a strictly older release.
   */
  predicate Supersedes(oldVersion: int, newVersion: int) {
    oldVersion < newVersion
  }


  // ---------------------------------------------------------------------------
  // The operations as functions of the filesystem
  // ---------------------------------------------------------------------------

  /** The state of the filesystem after an operation, with what the operation answered or threw. */
  datatype Step<T> = Step(result: Outcome<T>, fs: Fs)

  /** The digest check of extractPackage(): `package_md5` must be given and equal md5_file() of the upload. */
  predicate DigestMatches(host: Host, config: map<string, string>, upload: Upload) {
    "package_md5" in config && host.md5(upload.content) == config["package_md5"]
  }

  /** The extraction directory after a successful `tar` run: whatever was there, with the archive's files over it. */
  function Unpacked(host: Host, fs: Fs, upload: Upload): Tree {
    fs.extracted.GetOr(map[]) + host.untar(upload.content).files
  }

  /** The message replaceOldVersion() refuses a release with that is not newer than the live one. */
  function NotNewerMessage(oldVersion: int, newVersion: int): string {
    "Old version (" + IntToString(oldVersion) + ") is actually newer or equal to new version ("
    + IntToString(newVersion) + ")"
  }

  /**
    extractPackage(): the upload is stored as the gzip artifact; a digest that
    is missing or different stops here and leaves the gzip in place; otherwise
    the extraction directory is created if needed and the archive unpacked into it.
   */
  function ExtractStep(host: Host, config: map<string, string>, fs: Fs, upload: Upload): (s: Step<()>)
    ensures s.fs.gzip == Some(upload.content)
    ensures s.fs.target == fs.target && s.fs.historyDir == fs.historyDir && s.fs.history == fs.history
    ensures s.fs.tar == fs.tar
    ensures s.result.Done? <==> DigestMatches(host, config, upload) && host.untar(upload.content).exitCode == 0
    ensures s.result.Done? ==> s.fs.extracted == Some(Unpacked(host, fs, upload))
    ensures !DigestMatches(host, config, upload) ==>
      s.result == Fail("Deployment package is corrupted") && s.fs.extracted == fs.extracted
    ensures s.result.Threw? ==> s.result.thrown.ServerException? && s.result.thrown.code == 400
  {
    var stored := fs.(gzip := Some(upload.content));
    if !DigestMatches(host, config, upload) then Step(Fail("Deployment package is corrupted"), stored)
    else
      var dir := stored.(extracted := Some(fs.extracted.GetOr(map[])));
      var run := host.untar(upload.content);
      if run.exitCode != 0 then
        Step(Fail("Unable to extract deployment package: " + Join(run.output, "\n")), dir)
      else Step(Done(()), dir.(extracted := Some(dir.extracted.value + run.files)))
  }

  /**
    replaceOldVersion(): with the history directory in place, reads the live
    and the unpacked version; unless the unpacked one is strictly newer it
    cleans up and refuses. Otherwise the live release is renamed into history
    under its version and the unpacked release is renamed into its place.
   */
  function ReplaceStep(fs: Fs, versionFilename: string): (s: Step<()>)
    ensures s.fs.historyDir
    ensures fs.Valid() ==> s.fs.Valid()
    ensures s.result.Threw? ==> s.fs.target == fs.target && s.fs.history == fs.history
    ensures s.result.Threw? ==> s.result.thrown.ServerException? && s.result.thrown.code == 400
    ensures s.result.Done? <==>
      var oldV := GetVersion(fs.target, versionFilename);
      var newV := GetVersion(fs.extracted, versionFilename);
      oldV.Done? && newV.Done? && Supersedes(oldV.value, newV.value)
  {
    var withHistory := fs.(historyDir := true);
    var oldV := GetVersion(fs.target, versionFilename);
    if oldV.Threw? then Step(oldV.PropagateThrown(), withHistory)
    else
      var newV := GetVersion(fs.extracted, versionFilename);
      if newV.Threw? then Step(newV.PropagateThrown(), withHistory)
      else if !Supersedes(oldV.value, newV.value) then
        Step(Fail(NotNewerMessage(oldV.value, newV.value)), withHistory.Cleaned())
      else Step(Done(()), withHistory.Retire(IntToString(oldV.value)).Activate())
  }

  /** deploy(): validate the upload, store and check it, unpack it, swap it in, clean up. */
  function DeployStep(host: Host, config: map<string, string>, fs: Fs, upload: Option<Upload>): (s: Step<Reply>)
    ensures s.result.Done? ==> s.result.value == Reply(200, Success("Deployment finished"))
    ensures s.result.Threw? ==> s.result.thrown.ServerException? && s.result.thrown.code == 400
    ensures fs.Valid() ==> s.fs.Valid()
  {
    var pkg := GetPackage(upload);
    if pkg.Threw? then Step(pkg.PropagateThrown(), fs)
    else
      var extracted := ExtractStep(host, config, fs, pkg.value);
      if extracted.result.Threw? then Step(extracted.result.PropagateThrown(), extracted.fs)
      else
        var replaced := ReplaceStep(extracted.fs, host.versionFilename);
        if replaced.result.Threw? then Step(replaced.result.PropagateThrown(), replaced.fs)
        else Step(Done(Reply(200, Success("Deployment finished"))), replaced.fs.Cleaned())
  }

  /**
    rollback(): reads the live version, lists the history (`listing`, which
    getHistory() returns), selects the release to bring back and swaps it with
    the live one by two renames. Only a RollTo choice moves anything.
   */
  function RollbackStep(host: Host, fs: Fs, requested: Option<string>, listing: seq<string>): (s: Step<Reply>)
    requires SortedByNumber(listing)
    ensures s.result.Done? ==> s.result.value.code == 200 && s.result.value.body.Success?
    ensures s.result.Threw? ==> s.result.thrown.ServerException? && s.result.thrown.code == 400
    ensures s.result.Threw? <==> GetVersion(fs.target, host.versionFilename).Threw?
    ensures fs.Valid() ==> s.fs.Valid()
    ensures s.fs.gzip == fs.gzip && s.fs.tar == fs.tar && s.fs.extracted == fs.extracted
  {
    var current := GetVersion(fs.target, host.versionFilename);
    if current.Threw? then Step(current.PropagateThrown(), fs)
    else
      var withHistory := fs.(historyDir := true);
      var choice := SelectRollback(listing, current.value, requested);
      var swapped := if choice.RollTo? then withHistory.Retire(IntToString(current.value)).Restore(choice.name)
                     else withHistory;
      Step(Done(Reply(200, Success(RollbackMessage(choice, current.value)))), swapped)
  }

  /** status(): the live version and the history listing; only the history directory may be created. */
  function StatusStep(host: Host, fs: Fs, listing: seq<string>): (s: Step<Reply>)
    ensures s.fs == fs || s.fs == fs.(historyDir := true)
    ensures s.result.Threw? <==> GetVersion(fs.target, host.versionFilename).Threw?
    ensures s.result.Threw? ==> s.result.thrown.ServerException? && s.result.thrown.code == 400
    ensures s.result.Done? ==>
      s.result.value == Reply(200, StatusReport(GetVersion(fs.target, host.versionFilename).value, listing))
  {
    var current := GetVersion(fs.target, host.versionFilename);
    if current.Threw? then Step(current.PropagateThrown(), fs)
    else Step(Done(Reply(200, StatusReport(current.value, listing))), fs.(historyDir := true))
  }

  /** getPostParameter('version'): the requested version, if the request names one. */
  function RequestedVersion(post: map<string, string>): Option<string> {
    if "version" in post then Some(post["version"]) else None
  }

  /**
    The command serve() dispatches on, once the request got that far: it must
    authenticate and carry both `config` and `cmd`; the command is trimmed.
   */
  function Command(host: Host, req: Request): (c: Option<string>)
    ensures c.Some? <==> Authenticate(req.headers, host.authKey) && "config" in req.post && "cmd" in req.query
    ensures c.Some? ==> c.value == Trim(req.query["cmd"])
  {
    if Authenticate(req.headers, host.authKey) && "config" in req.post && "cmd" in req.query then
      Some(Trim(req.query["cmd"]))
    else None
  }

  /**
    serve(): authenticate before anything else, then load the configuration,
    then read the command and dispatch on it. `listing` is the history listing
    a rollback or a status reads.
   */
  function ServeStep(host: Host, fs: Fs, req: Request, listing: seq<string>): (s: Step<Reply>)
    requires SortedByNumber(listing)
    ensures !Authenticate(req.headers, host.authKey) ==> s == Step(Threw(ServerException("Unauthorized", 401)), fs)
    ensures Authenticate(req.headers, host.authKey) && "config" !in req.post ==>
      s == Step(Fail("Configuration for deployment missing."), fs)
    ensures Authenticate(req.headers, host.authKey) && "config" in req.post && "cmd" !in req.query ==>
      s == Step(Threw(PlainException("You should provide a command to be executed.")), fs)
    ensures Command(host, req).Some? && Command(host, req).value !in {"deploy", "rollback", "status"} ==>
      s == Step(Done(Reply(400, Failure("The command provided is not valid"))), fs)
  {
    if !Authenticate(req.headers, host.authKey) then Step(Threw(ServerException("Unauthorized", 401)), fs)
    else if "config" !in req.post then Step(Fail("Configuration for deployment missing."), fs)
    else if "cmd" !in req.query then Step(Threw(PlainException("You should provide a command to be executed.")), fs)
    else
      var config := MergeConfig(host.decodeJson(req.post["config"]));
      var command := Trim(req.query["cmd"]);
      if command == "deploy" then DeployStep(host, config, fs, req.upload)
      else if command == "rollback" then RollbackStep(host, fs, RequestedVersion(req.post), listing)
      else if command == "status" then StatusStep(host, fs, listing)
      else Step(Done(Reply(400, Failure("The command provided is not valid"))), fs)
  }

  /** The answer the script writes: serve()'s own answer, or the one the top-level catch makes of what it threw. */
  function Answer(o: Outcome<Reply>): (reply: Reply)
    ensures o.Done? ==> reply == o.value
    ensures o.Threw? ==> reply == CatchAll(o.thrown)
  {
    match o
    case Done(a) => a
    case Threw(t) => CatchAll(t)
  }

  // ---------------------------------------------------------------------------
  // What the operations promise
  // ---------------------------------------------------------------------------

  /** A deployment that fails, at whatever step, leaves the live release and the history as they were. */
  lemma DeployFailureKeepsRelease(host: Host, config: map<string, string>, fs: Fs, upload: Option<Upload>)
    ensures var s := DeployStep(host, config, fs, upload);
      s.result.Threw? ==> s.fs.target == fs.target && s.fs.history == fs.history
  {
    if GetPackage(upload).Done? {
      var e := ExtractStep(host, config, fs, upload.value);
      if e.result.Done? {
        var rp := ReplaceStep(e.fs, host.versionFilename);
        assert rp.result.Threw? ==> rp.fs.target == fs.target && rp.fs.history == fs.history;
      }
    }
  }

  /**
    A deployment succeeds exactly when the upload is valid, its digest matches,
    it unpacks, both releases carry a version file and the unpacked version is
    strictly greater than the live one.
   */
  lemma DeploySucceedsIff(host: Host, config: map<string, string>, fs: Fs, upload: Option<Upload>)
    ensures DeployStep(host, config, fs, upload).result.Done? <==>
      && GetPackage(upload).Done?
      && DigestMatches(host, config, upload.value)
      && host.untar(upload.value.content).exitCode == 0
      && var oldV := GetVersion(fs.target, host.versionFilename);
         var newV := GetVersion(Some(Unpacked(host, fs, upload.value)), host.versionFilename);
         oldV.Done? && newV.Done? && Supersedes(oldV.value, newV.value)
  {
    if GetPackage(upload).Done? {
      var e := ExtractStep(host, config, fs, upload.value);
      if e.result.Done? {
        assert e.fs.extracted == Some(Unpacked(host, fs, upload.value));
      }
    }
  }

  /**
    When replaceOldVersion() goes ahead, the unpacked release is strictly newer
    and goes live, the previous one moving into history under its version --
    unless that name is taken, and then neither rename does anything.
   */
  lemma ReplaceInstalls(fs: Fs, versionFilename: string)
    requires ReplaceStep(fs, versionFilename).result.Done?
    ensures GetVersion(fs.target, versionFilename).Done? && GetVersion(fs.extracted, versionFilename).Done?
    ensures Supersedes(GetVersion(fs.target, versionFilename).value, GetVersion(fs.extracted, versionFilename).value)
    ensures var s := ReplaceStep(fs, versionFilename).fs;
            var key := IntToString(GetVersion(fs.target, versionFilename).value);
      && s.historyDir && s.gzip == fs.gzip && s.tar == fs.tar
      && (key !in fs.history ==> s.target == fs.extracted && s.history == fs.history[key := fs.target.value])
      && (key in fs.history ==> s.target == fs.target && s.history == fs.history)
  {
    var key := IntToString(GetVersion(fs.target, versionFilename).value);
    var withHistory := fs.(historyDir := true);
    assert ReplaceStep(fs, versionFilename).fs == withHistory.Retire(key).Activate();
    if key !in fs.history {
      assert key != "." && key != ".." by {
        assert IsDigit(key[|key| - 1]);
      }
      assert withHistory.CanRetire(key);
    }
  }

  /**
    After a successful deployment no temporary artifact is left and the
    unpacked release is live, the previous one kept in history under its
    version -- unless that history name was already taken, in which case both
    renames fail, nothing moves, and the answer is still success.
   */
  lemma DeployInstallsRelease(host: Host, config: map<string, string>, fs: Fs, upload: Upload)
    requires DeployStep(host, config, fs, Some(upload)).result.Done?
    ensures GetVersion(fs.target, host.versionFilename).Done?
    ensures GetVersion(Some(Unpacked(host, fs, upload)), host.versionFilename).Done?
    ensures Supersedes(GetVersion(fs.target, host.versionFilename).value,
                       GetVersion(Some(Unpacked(host, fs, upload)), host.versionFilename).value)
    ensures var s := DeployStep(host, config, fs, Some(upload));
            var key := IntToString(GetVersion(fs.target, host.versionFilename).value);
      && s.fs.TempCleared() && s.fs.historyDir
      && (key !in fs.history ==>
            s.fs.target == Some(Unpacked(host, fs, upload)) && s.fs.history == fs.history[key := fs.target.value])
      && (key in fs.history ==> s.fs.target == fs.target && s.fs.history == fs.history)
  {
    assert GetPackage(Some(upload)) == Done(upload);
    var e := ExtractStep(host, config, fs, upload);
    assert e.result.Done?;
    var rp := ReplaceStep(e.fs, host.versionFilename);
    assert DeployStep(host, config, fs, Some(upload)) == Step(Done(Reply(200, Success("Deployment finished"))), rp.fs.Cleaned());
    ReplaceInstalls(e.fs, host.versionFilename);
  }

  /** A release that is not strictly newer than the live one is refused, and every temporary artifact is removed. */
  lemma DeployRefusesNotNewer(host: Host, config: map<string, string>, fs: Fs, upload: Upload)
    requires GetPackage(Some(upload)).Done? && DigestMatches(host, config, upload)
    requires host.untar(upload.content).exitCode == 0
    requires GetVersion(fs.target, host.versionFilename).Done?
    requires GetVersion(Some(Unpacked(host, fs, upload)), host.versionFilename).Done?
    ensures var oldV := GetVersion(fs.target, host.versionFilename).value;
            var newV := GetVersion(Some(Unpacked(host, fs, upload)), host.versionFilename).value;
            var s := DeployStep(host, config, fs, Some(upload));
      newV <= oldV ==> s.result == Fail(NotNewerMessage(oldV, newV)) && s.fs.TempCleared()
  {
    var e := ExtractStep(host, config, fs, upload);
    assert e.fs.extracted == Some(Unpacked(host, fs, upload));
  }

  /** A corrupted upload is refused and its gzip artifact stays behind; nothing is unpacked. */
  lemma DeployKeepsCorruptedGzip(host: Host, config: map<string, string>, fs: Fs, upload: Upload)
    requires GetPackage(Some(upload)).Done? && !DigestMatches(host, config, upload)
    ensures var s := DeployStep(host, config, fs, Some(upload));
      && s.result == Fail("Deployment package is corrupted")
      && s.fs == fs.(gzip := Some(upload.content))
  {
  }

  /**
    The rollback swap: when a history entry is chosen and the live release's
    version is a free history name, the chosen entry goes live and the live
    release takes its place in history, so the history keeps its size.
   */
  lemma RollbackSwaps(host: Host, fs: Fs, requested: Option<string>, listing: seq<string>)
    requires fs.Valid() && ListsHistory(listing, fs.history)
    requires GetVersion(fs.target, host.versionFilename).Done?
    ensures var current := GetVersion(fs.target, host.versionFilename).value;
            var c := SelectRollback(listing, current, requested);
            var retired := IntToString(current);
            var s := RollbackStep(host, fs, requested, listing);
      && s.result == Done(Reply(200, Success(RollbackMessage(c, current))))
      && (c.RollTo? && retired !in fs.history ==>
            && c.name in fs.history
            && s.fs.target == Some(fs.history[c.name])
            && s.fs.history == (fs.history - {c.name})[retired := fs.target.value]
            && |s.fs.history| == |fs.history|)
      && (!c.RollTo? || retired in fs.history ==> s.fs.target == fs.target && s.fs.history == fs.history)
  {
    var current := GetVersion(fs.target, host.versionFilename).value;
    var c := SelectRollback(listing, current, requested);
    var retired := IntToString(current);
    var withHistory := fs.(historyDir := true);
    var s := RollbackStep(host, fs, requested, listing);
    if c.RollTo? {
      assert s.fs == withHistory.Retire(retired).Restore(c.name);
      if retired !in fs.history {
        assert c.name in fs.history;
        assert retired != "." && retired != ".." by {
          assert IsDigit(retired[|retired| - 1]);
        }
        assert withHistory.CanRetire(retired);
        SwapKeepsHistorySize(fs.history, c.name, retired, fs.target.value);
        RemoveAfterAdd(fs.history, retired, c.name, fs.target.value);
      }
    } else {
      assert s.fs == withHistory;
    }
  }

  /**
    Asking for a history entry by name, while the live release's version is a
    free history name, swaps exactly those two.
   */
  lemma RollbackToNamed(host: Host, fs: Fs, name: string, current: int, listing: seq<string>)
    requires fs.Valid() && ListsHistory(listing, fs.history)
    requires GetVersion(fs.target, host.versionFilename) == Done(current)
    requires name in fs.history && name != "" && IntToString(current) !in fs.history
    ensures var back := RollbackStep(host, fs, Some(name), listing).fs;
      && back.target == Some(fs.history[name])
      && back.history == (fs.history - {name})[IntToString(current) := fs.target.value]
  {
    assert name in multiset(listing);
    assert SelectRollback(listing, current, Some(name)) == RollTo(name);
    RollbackSwaps(host, fs, Some(name), listing);
  }

  /**
    Rolling back to the version a deployment just retired brings the previous
    release back live; the deployed release is kept in history under its own
    version. (The listing is the one getHistory() returns after the deploy.)
   */
  lemma RollbackUndoesDeploy(host: Host, config: map<string, string>, fs: Fs, upload: Upload, listing: seq<string>)
    requires fs.Valid()
    requires DeployStep(host, config, fs, Some(upload)).result.Done?
    requires ListsHistory(listing, DeployStep(host, config, fs, Some(upload)).fs.history)
    ensures GetVersion(fs.target, host.versionFilename).Done?
    ensures GetVersion(Some(Unpacked(host, fs, upload)), host.versionFilename).Done?
    ensures var oldKey := IntToString(GetVersion(fs.target, host.versionFilename).value);
            var newKey := IntToString(GetVersion(Some(Unpacked(host, fs, upload)), host.versionFilename).value);
            var deployed := DeployStep(host, config, fs, Some(upload)).fs;
            var back := RollbackStep(host, deployed, Some(oldKey), listing).fs;
      oldKey !in fs.history && newKey !in fs.history ==>
        && back.target == fs.target
        && back.history == fs.history[newKey := Unpacked(host, fs, upload)]
  {
    DeployInstallsRelease(host, config, fs, upload);
    var oldV := GetVersion(fs.target, host.versionFilename).value;
    var newV := GetVersion(Some(Unpacked(host, fs, upload)), host.versionFilename).value;
    var oldKey, newKey := IntToString(oldV), IntToString(newV);
    var deployed := DeployStep(host, config, fs, Some(upload)).fs;
    if oldKey !in fs.history && newKey !in fs.history {
      assert oldKey != newKey by {
        if oldKey == newKey {
          IntToStringInjective(oldV, newV);
        }
      }
      assert deployed.history == fs.history[oldKey := fs.target.value];
      assert newKey !in deployed.history;
      RollbackToNamed(host, deployed, oldKey, newV, listing);
      RemoveAdded(fs.history, oldKey, fs.target.value);
    }
  }

  /**
    Every request gets an answer: 401 exactly when authentication fails (and
    then nothing on disk is touched), otherwise 200 with a success or status
    body, or 400 with an error body.
   */
  lemma AnswerCodes(host: Host, fs: Fs, req: Request, listing: seq<string>)
    requires SortedByNumber(listing)
    ensures var s := ServeStep(host, fs, req, listing);
            var reply := Answer(s.result);
      && (reply.code == 401 <==> !Authenticate(req.headers, host.authKey))
      && (reply.code == 401 ==> reply.body == Failure("Unauthorized") && s.fs == fs)
      && reply.code in {200, 400, 401}
      && (reply.code == 200 ==> reply.body.Success? || reply.body.StatusReport?)
      && (reply.code != 200 ==> reply.body.Failure?)
  {
    var s := ServeStep(host, fs, req, listing);
    if Command(host, req).Some? {
      var command := Command(host, req).value;
      var config := MergeConfig(host.decodeJson(req.post["config"]));
      if command == "deploy" {
        assert s == DeployStep(host, config, fs, req.upload);
      } else if command == "rollback" {
        assert s == RollbackStep(host, fs, RequestedVersion(req.post), listing);
      } else if command == "status" {
        assert s == StatusStep(host, fs, listing);
      }
    }
  }

  /** status, an unknown command and every request refused before dispatch leave the releases and the temporary files alone. */
  lemma ReadOnlyRequests(host: Host, fs: Fs, req: Request, listing: seq<string>)
    requires SortedByNumber(listing)
    requires Command(host, req) != Some("deploy") && Command(host, req) != Some("rollback")
    ensures var s := ServeStep(host, fs, req, listing);
      s.fs == fs || s.fs == fs.(historyDir := true)
  {
    if Command(host, req) == Some("status") {
      assert ServeStep(host, fs, req, listing) == StatusStep(host, fs, listing);
    }
  }

  /**
    getCommand() and the switch of serve(), for a request that authenticates
    and carries its configuration: without `cmd` the plain exception is
    answered with 400; the trimmed command selects deploy, rollback or status
    on the merged configuration; any other command is answered with 400 and
    leaves the disk alone.
   */
  lemma CommandDispatch(host: Host, fs: Fs, req: Request, listing: seq<string>)
    requires SortedByNumber(listing)
    requires Authenticate(req.headers, host.authKey) && "config" in req.post
    ensures var s := ServeStep(host, fs, req, listing);
      "cmd" !in req.query ==>
        Answer(s.result) == Reply(400, Failure("You should provide a command to be executed.")) && s.fs == fs
    ensures var s := ServeStep(host, fs, req, listing);
            var config := MergeConfig(host.decodeJson(req.post["config"]));
      "cmd" in req.query ==>
        var command := Trim(req.query["cmd"]);
        && (command == "deploy" ==> s == DeployStep(host, config, fs, req.upload))
        && (command == "rollback" ==> s == RollbackStep(host, fs, RequestedVersion(req.post), listing))
        && (command == "status" ==> s == StatusStep(host, fs, listing))
        && (command != "deploy" && command != "rollback" && command != "status" ==>
              Answer(s.result) == Reply(400, Failure("The command provided is not valid")) && s.fs == fs)
  {
  }

  // ---------------------------------------------------------------------------
  // The server object
  // ---------------------------------------------------------------------------

  class DeploymentServer {
    /** What the agent reads from outside the request. */
    const host: Host
    /** The filesystem at this request's paths. */
    const disk: Disk

    /** $this->config, set by loadConfig(). */
    var config: map<string, string>
    /** $this->package, set by extractPackage(). */
    var package: Option<PackagePaths>

    constructor (host: Host, disk: Disk)
      ensures this.host == host && this.disk == disk
      ensures config == map[] && package == None
    {
      this.host, this.disk := host, disk;
      config, package := map[], None;
    }

    /** The configuration after loadConfig(): at least the defaulted keys. */
    ghost predicate ConfigLoaded()
      reads this
    {
      DefaultConfig.Keys <= config.Keys
    }

    /** loadConfig(): the decoded `config` field merged over the defaults; an error when it is absent. */
    method LoadConfig(post: map<string, string>) returns (r: Outcome<()>)
      modifies this`config
      ensures "config" !in post ==> r == Fail("Configuration for deployment missing.") && config == old(config)
      ensures "config" in post ==> r == Done(()) && config == MergeConfig(host.decodeJson(post["config"]))
      ensures r.Done? ==> ConfigLoaded()
    {
      if "config" !in post {
        return Fail("Configuration for deployment missing.");
      }
      config := MergeConfig(host.decodeJson(post["config"]));
      r := Done(());
    }

    /** extractPackage(): records the artifact paths, then stores, checks and unpacks the upload. */
    method ExtractPackage(upload: Upload) returns (r: Outcome<()>)
      requires ConfigLoaded()
      modifies this`package, disk`gzip, disk`extracted
      ensures package == Some(ArtifactPaths(config))
      ensures Step(r, disk.Snap()) == ExtractStep(host, config, old(disk.Snap()), upload)
    {
      package := Some(ArtifactPaths(config));
      disk.StoreUpload(upload.content);
      if !DigestMatches(host, config, upload) {
        return Fail("Deployment package is corrupted");
      }
      disk.MakeExtractionDir();
      var run := host.untar(upload.content);
      if run.exitCode != 0 {
        return Fail("Unable to extract deployment package: " + Join(run.output, "\n"));
      }
      disk.Unpack(run.files);
      r := Done(());
    }

    /** cleanAll(): removes whichever of the three temporary artifacts exist. */
    method CleanAll()
      modifies disk`gzip, disk`tar, disk`extracted
      ensures disk.Snap() == old(disk.Snap()).Cleaned()
    {
      if disk.gzip.Some? {
        disk.RemoveGzip();
      }
      if disk.tar {
        disk.RemoveTar();
      }
      if disk.extracted.Some? {
        disk.RemoveExtractionDir();
      }
    }

    /** replaceOldVersion(). */
    method ReplaceOldVersion() returns (r: Outcome<()>)
      modifies disk
      ensures Step(r, disk.Snap()) == ReplaceStep(old(disk.Snap()), host.versionFilename)
    {
      if !disk.historyDir {
        disk.MakeHistoryDir();
      }
      var oldV := GetVersion(disk.target, host.versionFilename);
      if oldV.Threw? {
        return oldV.PropagateThrown();
      }
      var newV := GetVersion(disk.extracted, host.versionFilename);
      if newV.Threw? {
        return newV.PropagateThrown();
      }
      if !Supersedes(oldV.value, newV.value) {
        CleanAll();
        return Fail(NotNewerMessage(oldV.value, newV.value));
      }
      disk.RetireTarget(IntToString(oldV.value));
      disk.ActivateExtracted();
      r := Done(());
    }

    /**
      getHistory(): creates the history directory if needed, lists it, drops
      "." and "..", and sorts the names by the integer they read as. Names that
      are not numbers are kept.
     */
    method GetHistory() returns (versions: seq<string>)
      requires disk.Snap().Valid()
      modifies disk`historyDir
      ensures disk.Snap() == old(disk.Snap()).(historyDir := true)
      ensures ListsHistory(versions, disk.history)
    {
      if !disk.historyDir {
        disk.MakeHistoryDir();
      }
      var listing := disk.ScanHistory();
      var names := set n | n in listing && n != "." && n != "..";
      assert names == disk.history.Keys;
      versions := [];
      while names != {}
        invariant names <= disk.history.Keys
        invariant SortedByNumber(versions)
        invariant multiset(versions) + multiset(names) == multiset(disk.history.Keys)
        decreases |names|
      {
        var n :| n in names;
        versions := InsertByNumber(versions, n);
        assert multiset(names) == multiset(names - {n}) + multiset{n};
        names := names - {n};
      }
      forall v <- versions ensures v in disk.history {
        assert v in multiset(versions);
        assert v in multiset(disk.history.Keys);
      }
    }

    /** deploy(). */
    method Deploy(upload: Option<Upload>) returns (r: Outcome<Reply>)
      requires ConfigLoaded()
      modifies this`package, disk
      ensures package == if GetPackage(upload).Done? then Some(ArtifactPaths(config)) else old(package)
      ensures Step(r, disk.Snap()) == DeployStep(host, config, old(disk.Snap()), upload)
    {
      var pkg := GetPackage(upload);
      if pkg.Threw? {
        return pkg.PropagateThrown();
      }
      var extracted := ExtractPackage(pkg.value);
      if extracted.Threw? {
        return extracted.PropagateThrown();
      }
      var replaced := ReplaceOldVersion();
      if replaced.Threw? {
        return replaced.PropagateThrown();
      }
      CleanAll();
      r := Done(Reply(200, Success("Deployment finished")));
    }

    /** rollback(); `listing` is what getHistory() returned, when it was reached. */
    method Rollback(requested: Option<string>) returns (r: Outcome<Reply>, ghost listing: seq<string>)
      requires disk.Snap().Valid()
      modifies disk`historyDir, disk`target, disk`history
      ensures SortedByNumber(listing)
      ensures GetVersion(old(disk.target), host.versionFilename).Done? ==> ListsHistory(listing, old(disk.history))
      ensures Step(r, disk.Snap()) == RollbackStep(host, old(disk.Snap()), requested, listing)
    {
      listing := [];
      var current := GetVersion(disk.target, host.versionFilename);
      if current.Threw? {
        return current.PropagateThrown(), listing;
      }
      var versions := GetHistory();
      listing := versions;
      var choice := SelectRollback(versions, current.value, requested);
      if choice.RollTo? {
        disk.RetireTarget(IntToString(current.value));
        disk.RestoreFromHistory(choice.name);
      }
      r := Done(Reply(200, Success(RollbackMessage(choice, current.value))));
    }

    /** status(). */
    method Status() returns (r: Outcome<Reply>, ghost listing: seq<string>)
      requires disk.Snap().Valid()
      modifies disk`historyDir
      ensures SortedByNumber(listing)
      ensures GetVersion(old(disk.target), host.versionFilename).Done? ==> ListsHistory(listing, old(disk.history))
      ensures Step(r, disk.Snap()) == StatusStep(host, old(disk.Snap()), listing)
    {
      listing := [];
      var current := GetVersion(disk.target, host.versionFilename);
      if current.Threw? {
        return current.PropagateThrown(), listing;
      }
      var versions := GetHistory();
      listing := versions;
      r := Done(Reply(200, StatusReport(current.value, versions)));
    }

    /** serve(); `listing` is the history listing a rollback or a status read. */
    method Serve(req: Request) returns (r: Outcome<Reply>, ghost listing: seq<string>)
      requires disk.Snap().Valid()
      modifies this, disk
      ensures SortedByNumber(listing)
      ensures (Command(host, req) in {Some("rollback"), Some("status")} &&
               GetVersion(old(disk.target), host.versionFilename).Done?) ==> ListsHistory(listing, old(disk.history))
      ensures Step(r, disk.Snap()) == ServeStep(host, old(disk.Snap()), req, listing)
      ensures config == if Authenticate(req.headers, host.authKey) && "config" in req.post
                        then MergeConfig(host.decodeJson(req.post["config"])) else old(config)
      ensures package == if Command(host, req) == Some("deploy") && GetPackage(req.upload).Done?
                         then Some(ArtifactPaths(config)) else old(package)
    {
      listing := [];
      if !Authenticate(req.headers, host.authKey) {
        return Threw(ServerException("Unauthorized", 401)), listing;
      }
      var loaded := LoadConfig(req.post);
      if loaded.Threw? {
        return loaded.PropagateThrown(), listing;
      }
      if "cmd" !in req.query {
        return Threw(PlainException("You should provide a command to be executed.")), listing;
      }
      var command := Trim(req.query["cmd"]);
      if command == "deploy" {
        r := Deploy(req.upload);
      } else if command == "rollback" {
        r, listing := Rollback(RequestedVersion(req.post));
      } else if command == "status" {
        r, listing := Status();
      } else {
        r := Done(Reply(400, Failure("The command provided is not valid")));
      }
    }

    /** The script's top level: serve() inside a try/catch that turns every exception into an answer. */
    method Handle(req: Request) returns (reply: Reply, ghost listing: seq<string>)
      requires disk.Snap().Valid()
      modifies this, disk
      ensures SortedByNumber(listing)
      ensures (Command(host, req) in {Some("rollback"), Some("status")} &&
               GetVersion(old(disk.target), host.versionFilename).Done?) ==> ListsHistory(listing, old(disk.history))
      ensures reply == Answer(ServeStep(host, old(disk.Snap()), req, listing).result)
      ensures disk.Snap() == ServeStep(host, old(disk.Snap()), req, listing).fs
    {
      var r;
      r, listing := Serve(req);
      match r
      case Done(answer) => reply := answer;
      case Threw(t) => reply := CatchAll(t);
    }
  }
}
