/**
  The part of the agent host's filesystem one request of the deployment agent
  (src/server/deploy.php) works on, seen through that request's configuration:
  the live `target` directory, the history directory with one entry per
  retired release, and the temporary artifacts `<temp_dir>/<package_name>.tar.gz`,
  `.tar` and the extraction directory `<temp_dir>/<package_name>`.

  Directories are maps from a relative file name to its contents. The primitive
  operations are the PHP calls the agent makes: mkdir, scandir, rename, unlink
  and the recursive removeDir(). A rename whose source is missing, whose
  destination directory is missing or whose destination is already taken does
  nothing (PHP's rename() then only returns false, which the agent never looks at).
 */
module AgentDisk {
  import opened Wrappers

  /** A directory tree: relative file name to contents. */
  type Tree = map<string, string>

  type Bytes = seq<bv8>

  /** The state of the filesystem at the request's paths, as a value. */
  datatype Fs = Fs(
    /** The live release, if the target directory exists. */
    target: Option<Tree>,
    /** Whether the history directory exists. */
    historyDir: bool,
    /** The entries of the history directory, by name. */
    history: map<string, Tree>,
    /** `<temp_dir>/<package_name>.tar.gz`, if present. */
    gzip: Option<Bytes>,
    /** Whether `<temp_dir>/<package_name>.tar` is present. */
    tar: bool,
    /** `<temp_dir>/<package_name>`, the extraction directory, if present. */
    extracted: Option<Tree>)
  {
    /** A directory listing never holds real entries named "." or "..", and a missing directory holds nothing. */
    ghost predicate Valid() {
      && "." !in history && ".." !in history
      && (!historyDir ==> history == map[])
    }

    /** No temporary artifact is left. */
    predicate TempCleared() {
      gzip.None? && !tar && extracted.None?
    }

    /** Whether rename(target, history_dir/<key>) succeeds. */
    predicate CanRetire(key: string) {
      target.Some? && historyDir && key !in history && key != "." && key != ".."
    }

    /** rename(target, history_dir/<key>): the live release becomes a history entry. */
    function Retire(key: string): (r: Fs)
      ensures r.gzip == gzip && r.tar == tar && r.extracted == extracted && r.historyDir == historyDir
      ensures CanRetire(key) ==> r.target.None? && r.history == history[key := target.value]
      ensures !CanRetire(key) ==> r == this
      ensures Valid() ==> r.Valid()
    {
      if CanRetire(key) then this.(target := None, history := history[key := target.value]) else this
    }

    /** rename(<temp_dir>/<package_name>, target): the unpacked release goes live. */
    function Activate(): (r: Fs)
      ensures r.history == history && r.historyDir == historyDir && r.gzip == gzip && r.tar == tar
      ensures extracted.Some? && target.None? ==> r.target == extracted && r.extracted.None?
      ensures !(extracted.Some? && target.None?) ==> r == this
    {
      if extracted.Some? && target.None? then this.(target := extracted, extracted := None) else this
    }

    /** rename(history_dir/<key>, target): a history entry goes live again. */
    function Restore(key: string): (r: Fs)
      ensures r.historyDir == historyDir && r.gzip == gzip && r.tar == tar && r.extracted == extracted
      ensures key in history && target.None? ==> r.target == Some(history[key]) && r.history == history - {key}
      ensures !(key in history && target.None?) ==> r == this
      ensures Valid() ==> r.Valid()
    {
      if key in history && target.None? then this.(target := Some(history[key]), history := history - {key})
      else this
    }

    /** cleanAll(): every temporary artifact removed, nothing else touched. */
    function Cleaned(): (r: Fs)
      ensures r.TempCleared()
      ensures r.target == target && r.historyDir == historyDir && r.history == history
    {
      this.(gzip := None, tar := false, extracted := None)
    }
  }

  /** The filesystem the agent changes call by call. */
  class Disk {
    var target: Option<Tree>
    var historyDir: bool
    var history: map<string, Tree>
    var gzip: Option<Bytes>
    var tar: bool
    var extracted: Option<Tree>

    /** The current state as a value. */
    function Snap(): Fs
      reads this
    {
      Fs(target, historyDir, history, gzip, tar, extracted)
    }

    constructor (fs: Fs)
      ensures Snap() == fs
    {
      target, historyDir, history := fs.target, fs.historyDir, fs.history;
      gzip, tar, extracted := fs.gzip, fs.tar, fs.extracted;
    }

    /** mkdir(history_dir), done only when it is missing. */
    method MakeHistoryDir()
      modifies this`historyDir
      ensures Snap() == old(Snap()).(historyDir := true)
    {
      historyDir := true;
    }

    /** scandir(history_dir): the entries together with "." and "..". */
    method ScanHistory() returns (names: set<string>)
      requires historyDir
      ensures names == {".", ".."} + history.Keys
    {
      names := {".", ".."} + history.Keys;
    }

    /** rename(target, history_dir/<key>). */
    method RetireTarget(key: string)
      modifies this`target, this`history
      ensures Snap() == old(Snap()).Retire(key)
    {
      if target.Some? && historyDir && key !in history && key != "." && key != ".." {
        history := history[key := target.value];
        target := None;
      }
    }

    /** rename(<temp_dir>/<package_name>, target). */
    method ActivateExtracted()
      modifies this`target, this`extracted
      ensures Snap() == old(Snap()).Activate()
    {
      if extracted.Some? && target.None? {
        target, extracted := extracted, None;
      }
    }

    /** rename(history_dir/<key>, target). */
    method RestoreFromHistory(key: string)
      modifies this`target, this`history
      ensures Snap() == old(Snap()).Restore(key)
    {
      if key in history && target.None? {
        target := Some(history[key]);
        history := history - {key};
      }
    }

    /** move_uploaded_file(): the upload becomes the gzip artifact. */
    method StoreUpload(content: Bytes)
      modifies this`gzip
      ensures Snap() == old(Snap()).(gzip := Some(content))
    {
      gzip := Some(content);
    }

    /** mkdir(<temp_dir>/<package_name>) when it does not exist yet. */
    method MakeExtractionDir()
      modifies this`extracted
      ensures Snap() == old(Snap()).(extracted := Some(old(extracted).GetOr(map[])))
    {
      if extracted.None? {
        extracted := Some(map[]);
      }
    }

    /** What a successful `tar -C <dir> -xf <gzip>` leaves: the archive's files written over the directory. */
    method Unpack(files: Tree)
      requires extracted.Some?
      modifies this`extracted
      ensures Snap() == old(Snap()).(extracted := Some(old(extracted).value + files))
    {
      extracted := Some(extracted.value + files);
    }

    /** unlink() of the gzip artifact. */
    method RemoveGzip()
      modifies this`gzip
      ensures Snap() == old(Snap()).(gzip := None)
    {
      gzip := None;
    }

    /** unlink() of the tar artifact. */
    method RemoveTar()
      modifies this`tar
      ensures Snap() == old(Snap()).(tar := false)
    {
      tar := false;
    }

    /** removeDir(): deletes the extraction directory's entries one by one, then the directory. */
    method RemoveExtractionDir()
      requires extracted.Some?
      modifies this`extracted
      ensures Snap() == old(Snap()).(extracted := None)
    {
      var entries := extracted.value;
      while entries != map[]
        decreases |entries|
      {
        var name :| name in entries;
        entries := entries - {name};
        extracted := Some(entries);
      }
      extracted := None;
    }
  }
}
