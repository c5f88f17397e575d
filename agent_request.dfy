/**
  The request gate of the deployment agent (src/server/deploy.php): the
  getallheaders() polyfill, the shared-secret check, the merge of the request's
  configuration over the agent's defaults, and the shape of every answer.
 */
module AgentRequest {
  import opened Wrappers
  import opened PhpStrings

  // ---------------------------------------------------------------------------
  // Answers and exceptions
  // ---------------------------------------------------------------------------

  /** The JSON object written back. */
  datatype Body =
    | Success(message: string)
    | Failure(error: string)
    | StatusReport(currentVersion: int, oldVersions: seq<string>)

  /** An HTTP status code with its JSON body. */
  datatype Reply = Reply(code: int, body: Body)

  /** What can escape a server operation: a DeploymentServerException or a plain Exception. */
  datatype Thrown =
    | ServerException(message: string, code: int)
    | PlainException(message: string)

  /** A server operation either wrote its answer or threw. */
  datatype Outcome<T> = Done(value: T) | Threw(thrown: Thrown) {
    /** The same exception, rethrown from an operation with another result type. */
    function PropagateThrown<U>(): Outcome<U>
      requires Threw?
    {
      Threw(thrown)
    }
  }

  /** `new DeploymentServerException($message)`: the status code defaults to 400. */
  function Fail<T>(message: string): Outcome<T> {
    Threw(ServerException(message, 400))
  }

  /**
    The top-level try/catch: a DeploymentServerException is answered with its
    own code, any other exception with 400; either way the body carries the message.
   */
  function CatchAll(t: Thrown): (r: Reply)
    ensures r.body == Failure(t.message)
    ensures r.code == (if t.ServerException? then t.code else 400)
  {
    match t
    case ServerException(m, c) => Reply(c, Failure(m))
    case PlainException(m) => Reply(400, Failure(m))
  }

  // ---------------------------------------------------------------------------
  // getallheaders() polyfill
  // ---------------------------------------------------------------------------

  predicate IsUpper(c: char) { 'A' <= c <= 'Z' }
  predicate IsLower(c: char) { 'a' <= c <= 'z' }

  /** strtolower() of one character (ASCII only, as PHP 8 does). */
  function Lower(c: char): char {
    if IsUpper(c) then (c as int + 32) as char else c
  }

  /** strtoupper() of one character. */
  function Upper(c: char): char {
    if IsLower(c) then (c as int - 32) as char else c
  }

  /** The default word delimiters of ucwords(): " \t\r\n\f\v". */
  predicate IsWordBreak(c: char) {
    c == ' ' || c == '\t' || c == '\r' || c == '\n' || c == '\U{000C}' || c == '\U{000B}'
  }

  function ReplaceChar(s: string, from: char, to: char): (r: string)
    ensures |r| == |s|
    ensures forall i :: 0 <= i < |s| ==> r[i] == if s[i] == from then to else s[i]
  {
    seq(|s|, i requires 0 <= i < |s| => if s[i] == from then to else s[i])
  }

  function StrToLower(s: string): (r: string)
    ensures |r| == |s| && forall i :: 0 <= i < |s| ==> r[i] == Lower(s[i])
  {
    seq(|s|, i requires 0 <= i < |s| => Lower(s[i]))
  }

  /** What ucwords() makes of the character at `i`: upper-cased at the start of a word, else kept. */
  function UcWordsAt(s: string, i: nat): char
    requires i < |s|
  {
    if i == 0 || IsWordBreak(s[i - 1]) then Upper(s[i]) else s[i]
  }

  /** ucwords(): upper-cases the first character and every character after a delimiter. */
  function UcWords(s: string): (r: string)
    ensures |r| == |s|
    ensures forall i :: 0 <= i < |s| ==> r[i] == UcWordsAt(s, i)
  {
    seq(|s|, i requires 0 <= i < |s| => UcWordsAt(s, i))
  }

  /**
    The header name the polyfill derives from the rest of a `HTTP_…` server
    variable: '_' becomes a space, everything is lower-cased, each word gets a
    capital, and spaces become '-'.
   */
  function HeaderName(rest: string): string {
    ReplaceChar(UcWords(StrToLower(ReplaceChar(rest, '_', ' '))), ' ', '-')
  }

  /**
    Character by character: underscores and spaces turn into '-', a character
    at the start or after an underscore or space is capitalised, every other
    character is lower-cased.
   */
  lemma HeaderNameAt(rest: string, i: nat)
    requires i < |rest|
    ensures |HeaderName(rest)| == |rest|
    ensures HeaderName(rest)[i] ==
      if rest[i] == '_' || rest[i] == ' ' then '-'
      else if i == 0 || rest[i - 1] == '_' || IsWordBreak(rest[i - 1]) then Upper(Lower(rest[i]))
      else Lower(rest[i])
  {
    var a := ReplaceChar(rest, '_', ' ');
    var b := StrToLower(a);
    var c := UcWords(b);
    if i > 0 {
      assert b[i - 1] == Lower(a[i - 1]);
      assert IsWordBreak(b[i - 1]) <==> rest[i - 1] == '_' || IsWordBreak(rest[i - 1]);
    }
    assert c[i] == UcWordsAt(b, i);
  }

  /** The server variable a client's `Auth` header arrives in is turned back into `Auth`. */
  lemma AuthHeaderName()
    ensures HeaderName("AUTH") == "Auth"
  {
    HeaderNameAt("AUTH", 0);
    HeaderNameAt("AUTH", 1);
    HeaderNameAt("AUTH", 2);
    HeaderNameAt("AUTH", 3);
  }

  /** The header a server variable stands for, if it is one (its name starts with `HTTP_`). */
  function HeaderOf(name: string): Option<string> {
    if |name| >= 5 && name[..5] == "HTTP_" then Some(HeaderName(name[5..])) else None
  }

  /**
    The polyfill's loop over $_SERVER, in order: each `HTTP_…` variable is
    stored under its header name, a later one replacing an earlier one that
    maps to the same name.
   */
  method GetAllHeaders(server: seq<(string, string)>) returns (headers: map<string, string>)
    ensures forall i :: 0 <= i < |server| && HeaderOf(server[i].0).Some? ==> HeaderOf(server[i].0).value in headers
    ensures forall h :: h in headers ==>
      exists i :: 0 <= i < |server| && HeaderOf(server[i].0) == Some(h) && headers[h] == server[i].1 &&
        forall j :: i < j < |server| ==> HeaderOf(server[j].0) != Some(h)
  {
    headers := map[];
    var k := 0;
    while k < |server|
      invariant 0 <= k <= |server|
      invariant forall i :: 0 <= i < k && HeaderOf(server[i].0).Some? ==> HeaderOf(server[i].0).value in headers
      invariant forall h :: h in headers ==>
        exists i :: 0 <= i < k && HeaderOf(server[i].0) == Some(h) && headers[h] == server[i].1 &&
          forall j :: i < j < k ==> HeaderOf(server[j].0) != Some(h)
    {
      var (name, value) := server[k];
      var header := HeaderOf(name);
      if header.Some? {
        headers := headers[header.value := value];
      }
      k := k + 1;
    }
  }

  // ---------------------------------------------------------------------------
  // authenticate()
  // ---------------------------------------------------------------------------

  /**
    authenticate(): the request must carry an `Auth` header, the agent's key must
    be set and non-empty, and the two must be equal (compared as strings).
   */
  predicate Authenticate(headers: map<string, string>, authKey: Option<string>) {
    && "Auth" in headers
    && authKey.Some?
    && |authKey.value| > 0
    && headers["Auth"] == authKey.value
  }

  /** A key left unset or empty in the agent's configuration locks every request out. */
  lemma EmptyKeyRejectsAll(headers: map<string, string>, authKey: Option<string>)
    requires authKey == None || authKey == Some("")
    ensures !Authenticate(headers, authKey)
  {
  }

  /**
    A client that sends `Auth: <key>` (which reaches the agent as the server
    variable HTTP_AUTH) is let in exactly when the key is the agent's non-empty
    key, wherever the variable stands, as long as no later variable is also
    turned into `Auth`.
   */
  lemma AuthThroughPolyfill(server: seq<(string, string)>, k: nat, key: string, authKey: Option<string>,
                            headers: map<string, string>)
    requires k < |server| && server[k] == ("HTTP_AUTH", key)
    requires forall j :: k < j < |server| ==> HeaderOf(server[j].0) != Some("Auth")
    requires "Auth" in headers
    requires forall h :: h in headers ==>
      exists i :: 0 <= i < |server| && HeaderOf(server[i].0) == Some(h) && headers[h] == server[i].1 &&
        forall j :: i < j < |server| ==> HeaderOf(server[j].0) != Some(h)
    ensures Authenticate(headers, authKey) <==> authKey == Some(key) && key != ""
  {
    AuthHeaderName();
    assert "HTTP_AUTH"[..5] == "HTTP_" && "HTTP_AUTH"[5..] == "AUTH";
    assert HeaderOf(server[k].0) == Some("Auth");
    var i :| 0 <= i < |server| && HeaderOf(server[i].0) == Some("Auth") && headers["Auth"] == server[i].1 &&
      forall j :: i < j < |server| ==> HeaderOf(server[j].0) != Some("Auth");
    assert i == k;
  }

  // ---------------------------------------------------------------------------
  // loadConfig()
  // ---------------------------------------------------------------------------

  /** The agent's defaults for the request configuration. */
  const DefaultConfig: map<string, string> :=
    map["package_name" := "package", "temp_dir" := "../tmp", "history_dir" := "../tmp/old_deployments"]

  /**
    array_merge($defaultConfig, $config): every key of the request wins over the
    default of the same name; a default survives only where the request is silent.
   */
  function MergeConfig(given: map<string, string>): (config: map<string, string>)
    ensures config.Keys == DefaultConfig.Keys + given.Keys
    ensures forall k :: k in given ==> config[k] == given[k]
    ensures forall k :: k in DefaultConfig && k !in given ==> config[k] == DefaultConfig[k]
  {
    DefaultConfig + given
  }

  /** The three settings with defaults are always present after the merge, with these fall-backs. */
  lemma MergedFallbacks(given: map<string, string>)
    ensures var c := MergeConfig(given);
      && c["package_name"] == (if "package_name" in given then given["package_name"] else "package")
      && c["temp_dir"] == (if "temp_dir" in given then given["temp_dir"] else "../tmp")
      && c["history_dir"] == (if "history_dir" in given then given["history_dir"] else "../tmp/old_deployments")
  {
  }

  // ---------------------------------------------------------------------------
  // Temporary artifacts of one deployment
  // ---------------------------------------------------------------------------

  /** The paths extractPackage() records: the package's name, its gzip, its tar and its directory. */
  datatype PackagePaths = PackagePaths(name: string, gzip: string, tar: string, dir: string)

  /**
    The three temporary artifacts live in the temp dir under the package name:
    the directory itself, and beside it the same name with `.tar.gz` and `.tar`.
   */
  function ArtifactPaths(config: map<string, string>): (p: PackagePaths)
    requires "package_name" in config && "temp_dir" in config
    ensures p.name == config["package_name"]
    ensures p.dir == config["temp_dir"] + "/" + config["package_name"]
    ensures p.gzip == p.dir + ".tar.gz" && p.tar == p.dir + ".tar"
  {
    var dir := config["temp_dir"] + "/" + config["package_name"];
    PackagePaths(config["package_name"], dir + ".tar.gz", dir + ".tar", dir)
  }

  /** The three artifact paths are pairwise different, so cleaning one never touches another. */
  lemma ArtifactPathsDistinct(config: map<string, string>)
    requires "package_name" in config && "temp_dir" in config
    ensures var p := ArtifactPaths(config); p.gzip != p.tar && p.gzip != p.dir && p.tar != p.dir
  {
    var p := ArtifactPaths(config);
    assert |p.gzip| == |p.dir| + 7 && |p.tar| == |p.dir| + 4;
  }
}
