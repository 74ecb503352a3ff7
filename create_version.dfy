/**
 * bin/create-version.js: scaffolding a new API version `v` from `latest`. The redocly
 * configuration gains (or has overwritten) the entry `cf@<v>` of its `apis` table, and the
 * copied `openapi.yaml` has every `version: latest` replaced by `version: <v>`. Copying the
 * directory, reading and writing files and the YAML text itself are not modelled: the parsed
 * configuration and the text of `latest/openapi.yaml` are inputs.
 */
module CreateVersion {
  import opened Wrappers
  import opened JsString

  /** A parsed YAML value. */
  datatype Yaml =
    | YNull
    | YBool(b: bool)
    | YNum(n: int)
    | YStr(s: string)
    | YList(items: seq<Yaml>)
    | YMap(fields: map<string, Yaml>)

  /** JavaScript truthiness of a loaded YAML value. */
  predicate Truthy(y: Yaml) {
    match y
    case YNull => false
    case YBool(b) => b
    case YNum(n) => n != 0
    case YStr(s) => s != ""
    case YList(_) => true
    case YMap(_) => true
  }

  /** `cf@${version}`. */
  function ApiName(version: string): string {
    "cf@" + version
  }

  /** `{ root: 'apis/cf/${version}/openapi.yaml' }`. */
  function ApiEntry(version: string): Yaml {
    YMap(map["root" := YStr("apis/cf/" + version + "/openapi.yaml")])
  }

  /**
   * The configuration after the update: a missing or falsy `apis` becomes an empty table, and
   * the table gets `cf@<v>` set to the version's entry. An `apis` that is truthy but not a
   * table (a string, a number, a list) ignores the assignment and stays as it was.
   */
  function WithApi(config: map<string, Yaml>, version: string): (r: map<string, Yaml>)
    ensures r.Keys == config.Keys + {"apis"}
    ensures forall k :: k in config && k != "apis" ==> r[k] == config[k]
  {
    var apis := if "apis" in config && Truthy(config["apis"]) then config["apis"] else YMap(map[]);
    match apis
    case YMap(table) => config["apis" := YMap(table[ApiName(version) := ApiEntry(version)])]
    case _ => config["apis" := apis]
  }

  /** The entry `cf@<v>` is in the table afterwards, every other entry is kept, and no other
      entry appears. */
  lemma WithApiSetsEntry(config: map<string, Yaml>, version: string)
    requires "apis" !in config || !Truthy(config["apis"]) || config["apis"].YMap?
    ensures WithApi(config, version)["apis"].YMap?
    ensures var table := WithApi(config, version)["apis"].fields;
      && table.Keys == OldTable(config).Keys + {ApiName(version)}
      && table[ApiName(version)] == ApiEntry(version)
      && forall k :: k in OldTable(config) && k != ApiName(version) ==> table[k] == OldTable(config)[k]
  {
  }

  /** The table the update starts from. */
  function OldTable(config: map<string, Yaml>): map<string, Yaml> {
    if "apis" in config && config["apis"].YMap? then config["apis"].fields else map[]
  }

  /** Running the update twice with the same version gives what running it once gives. */
  lemma WithApiIdempotent(config: map<string, Yaml>, version: string)
    ensures WithApi(WithApi(config, version), version) == WithApi(config, version)
  {
    var once := WithApi(config, version);
    if once["apis"].YMap? {
      var table := once["apis"].fields;
      assert table[ApiName(version) := ApiEntry(version)] == table;
    }
    assert once["apis" := once["apis"]] == once;
  }

  /** The loaded `redocly.yaml`, updated in place. */
  class RedoclyConfig {
    var fields: map<string, Yaml>

    constructor(loaded: map<string, Yaml>)
      ensures fields == loaded
    {
      fields := loaded;
    }

    /** `if (!redoclyConfig.apis) redoclyConfig.apis = {}` followed by
        `redoclyConfig.apis[apiName] = {...}`. */
    method AddApi(version: string)
      modifies this
      ensures fields == WithApi(old(fields), version)
    {
      if !("apis" in fields && Truthy(fields["apis"])) {
        fields := fields["apis" := YMap(map[])];
      }
      var apis := fields["apis"];
      if apis.YMap? {
        fields := fields["apis" := YMap(apis.fields[ApiName(version) := ApiEntry(version)])];
      }
    }
  }

  const LATEST_LINE: string := "version: latest"

  /** `openapiContent.replace(/version: latest/g, `version: ${version}`)`: the text between the
      occurrences is kept, and text without one comes back unchanged. */
  function BumpVersion(text: string, version: string): (r: string)
    ensures r == Join(Split(text, LATEST_LINE), "version: " + version)
    ensures !Includes(text, LATEST_LINE) ==> r == text
  {
    ReplaceAllIsSplitJoin(text, LATEST_LINE, "version: " + version);
    var r := ReplaceAll(text, LATEST_LINE, "version: " + version);
    if Includes(text, LATEST_LINE) then r
    else ReplaceAllWithoutMatch(text, LATEST_LINE, "version: " + version); r
  }

  /** `process.argv[2]` when given and not empty; the script refuses to run otherwise. */
  function VersionArg(args: seq<string>): (v: Option<string>)
    ensures v.Some? <==> |args| > 0 && args[0] != ""
    ensures v.Some? ==> v.value == args[0]
  {
    if |args| > 0 && args[0] != "" then Some(args[0]) else None
  }

  /** A path segment that `path.join` keeps as it is. */
  predicate Plain(seg: string) {
    seg != "" && seg != "." && seg != ".."
  }

  /**
   * `path.join` read segment by segment from the absolute directory `dir`: an empty or `.`
   * segment vanishes, `..` climbs one level (never above the root), and any other segment
   * descends into it.
   */
  function Resolve(dir: seq<string>, segs: seq<string>): seq<string>
    decreases |segs|
  {
    if segs == [] then dir else Resolve(Step(dir, segs[0]), segs[1..])
  }

  /** One segment of `Resolve`. */
  function Step(dir: seq<string>, seg: string): seq<string> {
    if seg == "" || seg == "." then dir
    else if seg == ".." then (if dir == [] then [] else dir[..|dir| - 1])
    else dir + [seg]
  }

  /** Starting from a directory of plain segments, the result is a directory of plain
      segments: `path.join` leaves no empty, `.` or `..` segment behind. */
  lemma {:induction false} ResolveKeepsPlain(dir: seq<string>, segs: seq<string>)
    requires forall i :: 0 <= i < |dir| ==> Plain(dir[i])
    ensures forall i :: 0 <= i < |Resolve(dir, segs)| ==> Plain(Resolve(dir, segs)[i])
    decreases |segs|
  {
    if segs != [] {
      var next := Step(dir, segs[0]);
      assert forall i :: 0 <= i < |next| ==> Plain(next[i]);
      ResolveKeepsPlain(next, segs[1..]);
    }
  }

  /** Plain segments are appended as they are. */
  lemma {:induction false} ResolvePlain(dir: seq<string>, segs: seq<string>)
    requires forall i :: 0 <= i < |segs| ==> Plain(segs[i])
    ensures Resolve(dir, segs) == dir + segs
    decreases |segs|
  {
    if segs != [] {
      assert Plain(segs[0]);
      ResolvePlain(dir + [segs[0]], segs[1..]);
      assert dir + [segs[0]] + segs[1..] == dir + segs;
    }
  }

  /** Joining two lists of segments is resolving one after the other. */
  lemma {:induction false} ResolveConcat(dir: seq<string>, a: seq<string>, b: seq<string>)
    ensures Resolve(dir, a + b) == Resolve(Resolve(dir, a), b)
    decreases |a|
  {
    if a != [] {
      assert (a + b)[0] == a[0] && (a + b)[1..] == a[1..] + b;
      ResolveConcat(Step(dir, a[0]), a[1..], b);
    } else {
      assert a + b == b;
    }
  }

  /** `path.join(process.cwd(), 'apis', 'cf', 'latest')`. */
  function LatestDir(cwd: seq<string>): seq<string> {
    Resolve(cwd, ["apis", "cf", "latest"])
  }

  /** `path.join(process.cwd(), 'apis', 'cf', version)`. */
  function VersionDir(cwd: seq<string>, version: string): seq<string> {
    Resolve(cwd, ["apis", "cf"] + Split(version, "/"))
  }

  /** `fs.copy(latestDir, versionDir)` rejects a destination that is `latest` itself or lies
      inside it; the rejection ends the script through its `catch`. */
  predicate CopyRefused(cwd: seq<string>, version: string) {
    LatestDir(cwd) <= VersionDir(cwd, version)
  }

  /** From a plain working directory, a version made of plain segments is refused exactly
      when its first segment is `latest`. */
  lemma CopyRefusedPlain(cwd: seq<string>, version: string)
    requires forall i :: 0 <= i < |cwd| ==> Plain(cwd[i])
    requires forall i :: 0 <= i < |Split(version, "/")| ==> Plain(Split(version, "/")[i])
    ensures CopyRefused(cwd, version) <==> Split(version, "/")[0] == "latest"
  {
    var parts := Split(version, "/");
    ResolvePlain(cwd, ["apis", "cf", "latest"]);
    ResolvePlain(cwd, ["apis", "cf"] + parts);
    var latest, dest := cwd + ["apis", "cf", "latest"], cwd + (["apis", "cf"] + parts);
    assert dest[|cwd| + 2] == parts[0];
    if parts[0] == "latest" {
      assert dest[..|latest|] == latest;
    }
  }

  /** Resolving one more segment: an empty or `.` segment changes nothing, a plain one
      descends into it, and `..` climbs one level. */
  lemma ResolveAfter(dir: seq<string>, p: seq<string>, seg: string)
    ensures seg == "" || seg == "." ==> Resolve(dir, p + [seg]) == Resolve(dir, p)
    ensures Plain(seg) ==> Resolve(dir, p + [seg]) == Resolve(dir, p) + [seg]
    ensures seg == ".." && Resolve(dir, p) != [] ==>
      Resolve(dir, p + [seg]) == Resolve(dir, p)[..|Resolve(dir, p)| - 1]
  {
    ResolveConcat(dir, p, [seg]);
    assert [seg][1..] == [];
  }

  /** `latest` is the directory below `apis/cf`. */
  lemma LatestDirParent(cwd: seq<string>)
    ensures LatestDir(cwd) == Resolve(cwd, ["apis", "cf"]) + ["latest"]
  {
    var base := ["apis", "cf"];
    assert base + ["latest"] == ["apis", "cf", "latest"];
    ResolveAfter(cwd, base, "latest");
  }

  /** The version `latest` names the source directory itself, so the copy refuses it. */
  lemma LatestRefused(cwd: seq<string>, version: string)
    requires version == "latest"
    ensures CopyRefused(cwd, version)
  {
    SplitWithout(version, '/');
    assert ["apis", "cf"] + Split(version, "/") == ["apis", "cf", "latest"];
  }

  /** So does `latest/`: the empty segment after the slash vanishes. */
  lemma TrailingSlashRefused(cwd: seq<string>, version: string)
    requires version == "latest/"
    ensures CopyRefused(cwd, version)
  {
    var latest := "latest";
    assert version == latest + ['/'] + "";
    SplitAtFirst(latest, '/', "");
    SplitWithout(latest, '/');
    var inLatest := ["apis", "cf", "latest"];
    assert ["apis", "cf"] + Split(version, "/") == inLatest + [""];
    ResolveAfter(cwd, inLatest, "");
  }

  /** The segments of `./latest`. */
  lemma DotSegments(version: string)
    requires version == "./latest"
    ensures Split(version, "/") == [".", "latest"]
  {
    var here, latest := ".", "latest";
    assert version == here + ['/'] + latest;
    SplitWithout(latest, '/');
    SplitAtFirst(here, '/', latest);
  }

  /** So does `./latest`: the `.` segment vanishes. */
  lemma DotRefused(cwd: seq<string>, version: string)
    requires version == "./latest"
    ensures CopyRefused(cwd, version)
  {
    DotSegments(version);
    var base := ["apis", "cf"];
    assert base + Split(version, "/") == (base + ["."]) + ["latest"];
    ResolveAfter(cwd, base, ".");
    ResolveAfter(cwd, base + ["."], "latest");
    LatestDirParent(cwd);
  }

  /** The segments of `latest/../v2`. */
  lemma EscapeSegments(version: string)
    requires version == "latest/../v2"
    ensures Split(version, "/") == ["latest", "..", "v2"]
  {
    var latest, up, v2 := "latest", "..", "v2";
    assert version == latest + ['/'] + (up + ['/'] + v2);
    SplitWithout(v2, '/');
    SplitAtFirst(up, '/', v2);
    SplitAtFirst(latest, '/', up + ['/'] + v2);
  }

  /** A version that enters `latest` and climbs out again, `latest/../v2`, names a sibling
      directory, which the copy accepts. */
  lemma EscapeNotRefused(cwd: seq<string>, version: string)
    requires version == "latest/../v2"
    ensures !CopyRefused(cwd, version)
  {
    EscapeSegments(version);
    var base := ["apis", "cf"];
    var inLatest := base + ["latest"];
    assert base + Split(version, "/") == (inLatest + [".."]) + ["v2"];
    LatestDirParent(cwd);
    var parent := Resolve(cwd, base);
    ResolveAfter(cwd, base, "latest");
    ResolveAfter(cwd, inLatest, "..");
    assert (parent + ["latest"])[..|parent + ["latest"]| - 1] == parent;
    ResolveAfter(cwd, inLatest + [".."], "v2");
    assert VersionDir(cwd, version) == parent + ["v2"];
    assert VersionDir(cwd, version)[|parent|] != LatestDir(cwd)[|parent|];
  }

  /**
   * The script: without a version, or with one whose directory the copy refuses, it exits
   * with status 1 before touching the configuration; otherwise it updates the configuration
   * and returns the text of the new version's `openapi.yaml`, the copy of `latest` with its
   * version lines bumped.
   */
  method Run(args: seq<string>, cwd: seq<string>, config: RedoclyConfig, latestOpenapi: string)
    returns (exitCode: int, openapi: Option<string>)
    modifies config
    ensures VersionArg(args).None? || CopyRefused(cwd, args[0]) ==>
      exitCode == 1 && openapi.None? && config.fields == old(config.fields)
    ensures VersionArg(args).Some? && !CopyRefused(cwd, args[0]) ==>
      && exitCode == 0
      && config.fields == WithApi(old(config.fields), args[0])
      && openapi == Some(BumpVersion(latestOpenapi, args[0]))
  {
    var version := VersionArg(args);
    if version.None? || CopyRefused(cwd, version.value) {
      return 1, None;
    }
    config.AddApi(version.value);
    openapi := Some(BumpVersion(latestOpenapi, version.value));
    exitCode := 0;
  }
}
