# Laravel HTTP deployer: a Dafny model

This project models the two halves of a small release protocol and proves
properties of them.

- **The client** is `LaravelHttpDeployer`, in
  `src/Mayconbordin/LaravelHttpDeployer/LaravelHttpDeployer.php`. It runs the
  before-scripts in the local directory and bumps the local version file. It
  packs the directory with `tar`, minus the ignore masks, and adds the extra
  files to the archive. Then it uploads the package to the agent.
- **The agent** is `DeploymentServer`, in `src/server/deploy.php`. It
  authenticates a request with a shared secret and merges the request's
  configuration over its defaults. It then serves one of three commands:
  - `deploy` checks, unpacks and version-checks the upload, moves the live
    release into the history directory and puts the new release in its place;
  - `rollback` swaps the live release with a history entry;
  - `status` reports the live version and the history.

  Every exception becomes a JSON error answer.

Modules:

- `Wrappers` holds `Option`.
- `PhpStrings` holds the PHP builtins both halves lean on: `trim()`,
  `explode("\n")`, `implode()`, the `(int)` cast of a string and integer
  interpolation. Their round trips are proved there.
- `AgentRequest` holds the `getallheaders()` polyfill, `authenticate()`, the
  configuration merge, the temporary artifact paths and the top-level catch.
- `AgentDisk` is the agent's filesystem at one request's paths.
  - `Fs` is a value: the live release `target`, the history directory and its
    entries, the gzip and tar artifacts and the extraction directory.
  - The class `Disk` changes that state one PHP call at a time (`mkdir`,
    `rename`, `unlink`, `removeDir`).
- `DeployAgent` holds the agent's operations as functions from an `Fs` to a
  `Step`, which pairs what the operation answered or threw with the new `Fs`.
  Each method of the class `DeploymentServer` is proved to produce exactly its
  step. The properties are lemmas about the steps.
- `HttpDeployer` follows the same pattern on the client. `Client` is the
  deployer's fields, plus the local directory's files and a trace of what the
  deployer did outside: commands run, files added to the archive and uploads.
  The class `LaravelHttpDeployer` is proved to produce exactly the `…Step`
  functions; its before-script and extra-file loops are proved against
  recursive logs.

Where the agent's inputs come from outside the request, they are a `Host`
value:
- the shared secret from the INI file;
- the name of the version file;
- the JSON decoder;
- `md5_file()`;
- the `tar` run.

The client's shell, archive and server are a `Tools` value.

How the model reads the code:

- **Rename.** `rename()` moves a directory only when the source exists, the
  destination's directory exists and the destination name is free. Otherwise
  it does nothing. The agent never looks at the result, so a deploy or
  rollback whose history slot is taken still answers success while nothing
  moves (`DeployInstallsRelease`, `RollbackSwaps`).
- **Comparisons.** The `Auth` header, the MD5 digest, `in_array` and the
  command switch are compared as exact strings.
- **The `(int)` cast.** It skips leading blanks, takes an optional sign and
  reads the leading decimal digits.

Where the code's behaviour is surprising, the model follows the code:

- **Rollback selection.** Rollback without a version picks the *oldest*
  history entry below the live version, not the nearest. `array_filter` keeps
  the keys, the listing is ascending, and the code takes key 0. With history
  {1, 2, 4} and live version 5, the code rolls back to 1.
- **Explicit rollback version.** It comes from the POST field `version` and is
  only looked up in the listing. It may be newer than the live version.
- **History names.** The listing drops only `.` and `..`; non-numeric names
  stay.
- **First deployment.** It needs a live release that already has a version
  file. Deploying into an empty target throws "Version file not found.".
- **Version file name.** The agent reads it from `version_filename` in the
  request configuration, which neither the defaults nor the client provide.
  Here it is a `Host` parameter.
- **Before-script error.** The message does not carry the command's output.
  PHP renders the output array as `Array`.
- **Extra files given as text.** Each line becomes a value keyed 0, 1, …, and
  `addFile()` receives the key as the source path.

## Model

| member | source | states |
|---|---|---|
| PhpStrings.TrimIdempotent | src/Mayconbordin/LaravelHttpDeployer/LaravelHttpDeployer.php:201-205 | trim() is idempotent, and a trimmed string neither starts nor ends with a blank |
| PhpStrings.TrimEmptyIff | src/Mayconbordin/LaravelHttpDeployer/LaravelHttpDeployer.php:220-222 | a mask trims to "" exactly when it consists of trim characters only |
| PhpStrings.JoinSplit | src/Mayconbordin/LaravelHttpDeployer/LaravelHttpDeployer.php:198 | explode on newlines loses nothing: imploding the pieces again gives the text back |
| PhpStrings.JoinEmptyIff | src/Mayconbordin/LaravelHttpDeployer/LaravelHttpDeployer.php:224-226 | implode of non-empty pieces is "" only for no pieces |
| PhpStrings.ToIntOfIntToString | src/Mayconbordin/LaravelHttpDeployer/LaravelHttpDeployer.php:163-169 | an integer written into the version file is read back by the (int) cast as the same integer |
| PhpStrings.ToIntOfTrimmedIntToString | src/server/deploy.php:171-172 | the same through trim() first, as getVersion() reads it |
| PhpStrings.IntToStringInjective | src/server/deploy.php:190 | different versions give different history names |
| AgentRequest.CatchAll | src/server/deploy.php:312-318 | a DeploymentServerException is answered with its own code, any other exception with 400; the body carries the message |
| AgentRequest.HeaderNameAt | src/server/deploy.php:10 | character by character: `_` and space become `-`, the first character of each word is capitalised, the rest lower-cased |
| AgentRequest.GetAllHeaders | src/server/deploy.php:3-15 | every `HTTP_` variable's header is present, holding the value of the last variable that maps to that name |
| AgentRequest.EmptyKeyRejectsAll | src/server/deploy.php:75-79 | an unset or empty agent key rejects every request |
| AgentRequest.AuthThroughPolyfill | src/server/deploy.php:75-79 | a client sending `Auth: k` is let in iff k is the agent's key and non-empty, wherever HTTP_AUTH stands among the server variables, provided no later variable also becomes `Auth` |
| AgentRequest.MergeConfig | src/server/deploy.php:100-108 | every request key overrides the default of the same name; a default survives only where the request is silent |
| AgentRequest.MergedFallbacks | src/server/deploy.php:47-51 | package_name, temp_dir and history_dir fall back to package, ../tmp and ../tmp/old_deployments |
| AgentRequest.ArtifactPaths | src/server/deploy.php:117-122 | the directory is temp_dir/package_name and the gzip and tar sit beside it with `.tar.gz` and `.tar` |
| AgentRequest.ArtifactPathsDistinct | src/server/deploy.php:117-122 | the three artifact paths are pairwise different |
| AgentDisk.Fs.Retire | src/server/deploy.php:190 | the live release moves into history under the key iff the history directory exists and the key is free; all else is unchanged |
| AgentDisk.Fs.Activate | src/server/deploy.php:193 | the unpacked release goes live iff it exists and the target is free |
| AgentDisk.Fs.Restore | src/server/deploy.php:258 | a history entry goes live iff it exists and the target is free, and it leaves history |
| AgentDisk.Fs.Cleaned | src/server/deploy.php:148-161 | no temporary artifact remains and the releases and history are untouched |
| AgentDisk.Disk.MakeHistoryDir | src/server/deploy.php:177-179 | only the history directory comes into existence |
| AgentDisk.Disk.ScanHistory | src/server/deploy.php:211 | the listing is the history entries together with `.` and `..` |
| AgentDisk.Disk.RetireTarget | src/server/deploy.php:190 | the state becomes `Retire(key)` of the old state |
| AgentDisk.Disk.ActivateExtracted | src/server/deploy.php:193 | the state becomes `Activate()` of the old state |
| AgentDisk.Disk.RestoreFromHistory | src/server/deploy.php:258 | the state becomes `Restore(key)` of the old state |
| AgentDisk.Disk.StoreUpload | src/server/deploy.php:125 | the upload becomes the gzip artifact and nothing else changes |
| AgentDisk.Disk.MakeExtractionDir | src/server/deploy.php:132-134 | the extraction directory exists afterwards, its contents kept if it existed |
| AgentDisk.Disk.Unpack | src/server/deploy.php:139-145 | the archive's files are written over the extraction directory |
| AgentDisk.Disk.RemoveGzip | src/server/deploy.php:150-152 | only the gzip artifact disappears |
| AgentDisk.Disk.RemoveTar | src/server/deploy.php:154-156 | only the tar artifact disappears |
| AgentDisk.Disk.RemoveExtractionDir | src/server/deploy.php:17-29 | the loop removes the entries one by one; afterwards the directory is gone and nothing else changed |
| DeployAgent.GetPackage | src/server/deploy.php:81-98 | the upload passes iff present, of type application/gzip and without upload error; each failure throws its own message, checked in that order |
| DeployAgent.GetVersion | src/server/deploy.php:163-173 | throws "Version file not found." iff the directory or its version file is missing; otherwise the trimmed contents read as an integer |
| DeployAgent.GetVersionReadsBack | src/server/deploy.php:163-173 | a version file holding the rendering of v reads back as v |
| DeployAgent.InsertByNumber | src/server/deploy.php:217 | insertion keeps the listing ascending by numeric value and adds exactly the one name |
| DeployAgent.SelectRollback | src/server/deploy.php:239-255 | without a version: nothing iff no entry is below the live version, else exactly the first listed entry, which is the smallest such entry; with one: that entry iff listed, else "not available" |
| DeployAgent.SwapKeepsHistorySize | src/server/deploy.php:257-258 | swapping one entry out and the live release in keeps the history's size |
| DeployAgent.ExtractStep | src/server/deploy.php:115-146 | the gzip is always stored; success iff the digest matches and tar exits 0; a bad digest leaves the extraction directory alone; failures are 400 |
| DeployAgent.ReplaceStep | src/server/deploy.php:175-194 | the history directory exists afterwards; success iff both versions read and the new is strictly greater; a throw leaves target and history alone |
| DeployAgent.DeployStep | src/server/deploy.php:222-231 | success answers 200 "Deployment finished", failures are 400 DeploymentServerExceptions, and a well-formed filesystem stays well-formed |
| DeployAgent.RollbackStep | src/server/deploy.php:233-261 | throws iff the live version cannot be read; otherwise 200 with a success body; temporary files untouched; well-formedness kept |
| DeployAgent.StatusStep | src/server/deploy.php:263-272 | at most the history directory is created; answers the live version and the listing, or throws iff the live version is unreadable |
| DeployAgent.ServeStep | src/server/deploy.php:274-299 | authentication is checked first (401), then config, then cmd; an unknown command answers 400 "The command provided is not valid"; none of these touches the disk |
| DeployAgent.DeployFailureKeepsRelease | src/server/deploy.php:222-231 | a failed deployment, at any step, leaves the live release and the history as they were |
| DeployAgent.DeploySucceedsIff | src/server/deploy.php:222-231 | a deployment succeeds iff the upload is valid, the digest matches, tar succeeds, both versions read and the new one is strictly greater |
| DeployAgent.ReplaceInstalls | src/server/deploy.php:189-193 | when the replacement goes ahead, the unpacked release goes live and the old one moves to history under its version, unless that name is taken |
| DeployAgent.DeployInstallsRelease | src/server/deploy.php:222-230 | after a successful deploy the new release is live, the old one is in history under its version and every other entry is unchanged; no temporary artifact is left |
| DeployAgent.DeployRefusesNotNewer | src/server/deploy.php:184-187 | a release not strictly newer is refused with the version-ordering message and the temporary artifacts are cleaned |
| DeployAgent.DeployKeepsCorruptedGzip | src/server/deploy.php:127-130 | a digest mismatch is refused as corrupted, and only the stored gzip is left behind |
| DeployAgent.RollbackSwaps | src/server/deploy.php:257-258 | a chosen entry goes live and the live release takes its place in history with the size unchanged; without a choice, or with the slot taken, nothing moves |
| DeployAgent.RollbackToNamed | src/server/deploy.php:250-258 | rolling back to a named entry swaps exactly that entry with the live release |
| DeployAgent.RollbackUndoesDeploy | src/server/deploy.php:233-261 | rolling back to the version a deploy retired restores the previous live release and keeps the deployed one in history under its version |
| DeployAgent.AnswerCodes | src/server/deploy.php:274-299 | 401 "Unauthorized" iff authentication fails, with the disk untouched; every code is 200, 400 or 401; 200 carries success or status, the others an error |
| DeployAgent.ReadOnlyRequests | src/server/deploy.php:263-272 | status, unknown commands and refused requests change nothing but perhaps create the history directory |
| DeployAgent.CommandDispatch | src/server/deploy.php:196-299 | for an authenticated request with its configuration: a missing cmd is answered 400 "You should provide a command to be executed."; the trimmed command runs deploy, rollback or status on the merged configuration; any other command is answered 400 "The command provided is not valid"; neither failure touches the disk |
| DeployAgent.DeploymentServer.constructor | src/server/deploy.php:53-56 | the agent starts with no configuration and no package |
| DeployAgent.DeploymentServer.LoadConfig | src/server/deploy.php:100-108 | fails without `config`; otherwise the configuration is the decoded field merged over the defaults |
| DeployAgent.DeploymentServer.ExtractPackage | src/server/deploy.php:115-146 | records the artifact paths and changes the disk exactly as ExtractStep says |
| DeployAgent.DeploymentServer.CleanAll | src/server/deploy.php:148-161 | the disk becomes `Cleaned()` of the old disk |
| DeployAgent.DeploymentServer.ReplaceOldVersion | src/server/deploy.php:175-194 | answers and changes the disk exactly as ReplaceStep says |
| DeployAgent.DeploymentServer.GetHistory | src/server/deploy.php:205-220 | creates the history directory if needed and returns every entry once, ascending by numeric value |
| DeployAgent.DeploymentServer.Deploy | src/server/deploy.php:222-231 | answers and changes the disk exactly as DeployStep says |
| DeployAgent.DeploymentServer.Rollback | src/server/deploy.php:233-261 | answers and changes the disk exactly as RollbackStep says, over the listing getHistory() returned |
| DeployAgent.DeploymentServer.Status | src/server/deploy.php:263-272 | answers and changes the disk exactly as StatusStep says |
| DeployAgent.DeploymentServer.Serve | src/server/deploy.php:274-299 | answers and changes the disk exactly as ServeStep says; config is loaded iff the request authenticates and carries it |
| DeployAgent.DeploymentServer.Handle | src/server/deploy.php:310-318 | the written answer is serve()'s own or the one the catch makes of what it threw; the disk changes as ServeStep says; a status or rollback answer lists exactly the history entries, ascending |
| HttpDeployer.NonBlank | src/Mayconbordin/LaravelHttpDeployer/LaravelHttpDeployer.php:220-222 | keeps exactly the masks that are not blank after trimming, as written (order and repetitions: NonBlankAppend) |
| HttpDeployer.NonBlankAppend | src/Mayconbordin/LaravelHttpDeployer/LaravelHttpDeployer.php:220-222 | filtering distributes over concatenation: the kept masks stay in their order, with their repetitions |
| HttpDeployer.NonBlankIdempotent | src/Mayconbordin/LaravelHttpDeployer/LaravelHttpDeployer.php:220-222 | filtering the stored-back list again changes nothing |
| HttpDeployer.ExcludeArgsCons | src/Mayconbordin/LaravelHttpDeployer/LaravelHttpDeployer.php:224-226 | one `--exclude='<trimmed mask>'` per non-blank mask, in order, separated by single spaces |
| HttpDeployer.ExcludeArgsEmptyIff | src/Mayconbordin/LaravelHttpDeployer/LaravelHttpDeployer.php:213-227 | the arguments are empty iff every mask is blank |
| HttpDeployer.ExcludeArgsStable | src/Mayconbordin/LaravelHttpDeployer/LaravelHttpDeployer.php:213-227 | the stored-back masks give the same arguments next time |
| HttpDeployer.Entries | src/Mayconbordin/LaravelHttpDeployer/LaravelHttpDeployer.php:197-199 | text is split on newlines and keyed 0, 1, …; a list is taken as it is |
| HttpDeployer.Filled | src/Mayconbordin/LaravelHttpDeployer/LaravelHttpDeployer.php:201-205 | values are trimmed, empty ones dropped and keys kept; every non-blank entry survives (order and repetitions: FilledAppend) |
| HttpDeployer.FilledAppend | src/Mayconbordin/LaravelHttpDeployer/LaravelHttpDeployer.php:201-205 | normalising distributes over concatenation: the kept entries stay in their order, with their repetitions |
| HttpDeployer.FilledIdempotent | src/Mayconbordin/LaravelHttpDeployer/LaravelHttpDeployer.php:201-207 | normalising twice is normalising once |
| HttpDeployer.ExtraFilesStable | src/Mayconbordin/LaravelHttpDeployer/LaravelHttpDeployer.php:195-208 | getExtraFiles() called a second time returns the same list |
| HttpDeployer.FirstVersion | src/Mayconbordin/LaravelHttpDeployer/LaravelHttpDeployer.php:160-166 | without a version file the first version is 1 |
| HttpDeployer.NextVersionAfterWrite | src/Mayconbordin/LaravelHttpDeployer/LaravelHttpDeployer.php:157-171 | after writing version v the next increment gives v + 1 |
| HttpDeployer.VersionStep | src/Mayconbordin/LaravelHttpDeployer/LaravelHttpDeployer.php:157-171 | the version becomes the file's integer (or 0) plus one, and the file holds exactly that number |
| HttpDeployer.AgentReadsStampedVersion | src/Mayconbordin/LaravelHttpDeployer/LaravelHttpDeployer.php:168-170 | the agent's getVersion() reads the stamped file as the client's new version |
| HttpDeployer.PackagePathInjective | src/Mayconbordin/LaravelHttpDeployer/LaravelHttpDeployer.php:121 | different versions (or a version and none) give different package paths |
| HttpDeployer.RunScripts | src/Mayconbordin/LaravelHttpDeployer/LaravelHttpDeployer.php:177-189 | never more commands than scripts; a success runs them all |
| HttpDeployer.RunScriptsStopsAt | src/Mayconbordin/LaravelHttpDeployer/LaravelHttpDeployer.php:177-186 | when script i is the first to fail, the commands run are `cd <local> && <script>` for scripts 0..i and the run fails |
| HttpDeployer.RunScriptsAllPass | src/Mayconbordin/LaravelHttpDeployer/LaravelHttpDeployer.php:177-189 | when every script passes, all run in order and the run succeeds |
| HttpDeployer.AddFiles | src/Mayconbordin/LaravelHttpDeployer/LaravelHttpDeployer.php:145-147 | the files added are a prefix, each accepted; success iff all were; a failure names the refused file |
| HttpDeployer.ScriptsStep | src/Mayconbordin/LaravelHttpDeployer/LaravelHttpDeployer.php:173-190 | only the trace changes, and nothing is uploaded |
| HttpDeployer.PackStep | src/Mayconbordin/LaravelHttpDeployer/LaravelHttpDeployer.php:117-132 | the package is tempDir/packageName-version.tar.gz; the one command run is the tar of the local directory with the exclude arguments; the non-blank masks are stored back; the result is Err("An error ocurred while packaging.") iff that command exits non-zero; nothing else changes and nothing is uploaded |
| HttpDeployer.AddStep | src/Mayconbordin/LaravelHttpDeployer/LaravelHttpDeployer.php:138-151 | package, version and files untouched; nothing uploaded (its outcome is stated by AddStepOutcome) |
| HttpDeployer.AddStepOutcome | src/Mayconbordin/LaravelHttpDeployer/LaravelHttpDeployer.php:138-151 | the result is Err("An error ocurred while adding the extra files to the package.") iff the archive does not open or some normalised extra file is refused; an archive that does not open changes nothing; a success has added every normalised file, in order, and stored the list back |
| HttpDeployer.AddFilesRefused | src/Mayconbordin/LaravelHttpDeployer/LaravelHttpDeployer.php:145-147 | the loop fails iff some extra file is refused; a success adds all of them |
| HttpDeployer.DeploySequence | src/Mayconbordin/LaravelHttpDeployer/LaravelHttpDeployer.php:83-94 | a successful deploy runs all scripts, bumps the version, packs the versioned package, adds every extra file and uploads once, in that order, returning the server's answer unchanged |
| HttpDeployer.ScriptFailureStopsDeploy | src/Mayconbordin/LaravelHttpDeployer/LaravelHttpDeployer.php:83-94 | a failing before-script stops the deploy with its error: no version bump, no package, no upload |
| HttpDeployer.UploadOnlyOnSuccess | src/Mayconbordin/LaravelHttpDeployer/LaravelHttpDeployer.php:83-94 | nothing is uploaded unless the deploy succeeds, and then exactly once as the last effect |
| HttpDeployer.PackageOnlyKeepsVersion | src/Mayconbordin/LaravelHttpDeployer/LaravelHttpDeployer.php:102-111 | packageOnly() never bumps the version or uploads, and returns the path named after the version held |
| HttpDeployer.LaravelHttpDeployer.constructor | src/Mayconbordin/LaravelHttpDeployer/LaravelHttpDeployer.php:16-41 | the defaults: no masks, extra files or scripts, /tmp, package, version, no version and no package yet |
| HttpDeployer.LaravelHttpDeployer.RunAll | src/Mayconbordin/LaravelHttpDeployer/LaravelHttpDeployer.php:177-189 | the loop's outcome and trace are exactly RunScripts' |
| HttpDeployer.LaravelHttpDeployer.ApplyBeforeScripts | src/Mayconbordin/LaravelHttpDeployer/LaravelHttpDeployer.php:173-190 | behaves exactly as ScriptsStep |
| HttpDeployer.LaravelHttpDeployer.IncrementVersion | src/Mayconbordin/LaravelHttpDeployer/LaravelHttpDeployer.php:157-171 | behaves exactly as VersionStep |
| HttpDeployer.LaravelHttpDeployer.IgnoreMasksTar | src/Mayconbordin/LaravelHttpDeployer/LaravelHttpDeployer.php:213-227 | returns the exclusion arguments and stores the filtered masks back |
| HttpDeployer.LaravelHttpDeployer.CreatePackage | src/Mayconbordin/LaravelHttpDeployer/LaravelHttpDeployer.php:117-132 | behaves exactly as PackStep |
| HttpDeployer.LaravelHttpDeployer.ExtraFiles | src/Mayconbordin/LaravelHttpDeployer/LaravelHttpDeployer.php:195-208 | returns the normalised extra files and stores them back |
| HttpDeployer.LaravelHttpDeployer.AddAll | src/Mayconbordin/LaravelHttpDeployer/LaravelHttpDeployer.php:145-147 | the loop's outcome and trace are exactly AddFiles' |
| HttpDeployer.LaravelHttpDeployer.AddExtraFiles | src/Mayconbordin/LaravelHttpDeployer/LaravelHttpDeployer.php:138-151 | behaves exactly as AddStep |
| HttpDeployer.LaravelHttpDeployer.Deploy | src/Mayconbordin/LaravelHttpDeployer/LaravelHttpDeployer.php:83-94 | behaves exactly as DeployStep |
| HttpDeployer.LaravelHttpDeployer.PackageOnly | src/Mayconbordin/LaravelHttpDeployer/LaravelHttpDeployer.php:102-111 | behaves exactly as PackageOnlyStep |

## Left out

- INI loading in `readConfiguration()` (src/server/deploy.php:58-73): the agent's key is a `Host` field, and a missing or unreadable INI file is not modelled.
- JSON decoding of `config` and `stripslashes()` are an injected decoder. A decoded value that is not an array, which makes `array_merge` fail, is not modelled.
- `md5_file()` and `tar` are oracles, a digest function and a run result. A partial extraction by a failing `tar` is not modelled: a failing run leaves the directory as it was.
- PHP's loose comparisons (`==`/`!=` against null, `in_array` with numeric strings) are exact string comparisons. A requested rollback version of "" counts as none.
- The `(int)` cast does not read exponents, hexadecimal or overflowing values. Integers are unbounded.
- Renaming onto an existing empty directory is treated like a taken name: nothing moves.
- The order of `scandir()` is not modelled. The history listing is a ghost result constrained to be ascending, with every entry exactly once.
- Concurrency, crashes between the two renames, and races on the history directory are out of scope.
- The polyfill's initial `$headers = ''` is taken to become an array on the first keyed assignment, as PHP up to 7.0 does; from PHP 7.1 on that assignment is a string-offset write, which the model does not follow. The headers start as an empty map.
- `mkdir()` of the history and extraction directories (non-recursive), `move_uploaded_file()` and `unlink()` (src/server/deploy.php:115-161, 176-180, 206-209) are taken to succeed: the model has no failure path for them.
- The output of `response()` (header and JSON encoding) is not modelled: an answer is a status code and a body.
- The client's `realpath()` check in the constructor (src/Mayconbordin/LaravelHttpDeployer/LaravelHttpDeployer.php:67-77) is not modelled: the local directory is taken as already resolved.
- Logger calls and the output captured from before-scripts are not modelled.
- What the before-scripts do to the local directory is not modelled; the shell only answers exit statuses.
- The server capability and its Guzzle transport (Servers/HttpServer.php), the console commands, the loggers and the service provider are not part of this model. The server's `deploy()` is a function from the package path to its decoded answer, and its transport errors are not modelled.
- HttpDeployer.RunScripts: its own contract only bounds the run; the order and the stop at the first failure are stated by RunScriptsStopsAt and RunScriptsAllPass.
