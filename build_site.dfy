/**
 * The deterministic part of bin/build.js: the rewrite of the two references the bundler leaves
 * pointing at external files, the viewer configuration derived from the version directories,
 * and the all-or-nothing verdict over the bundle runs. Spawning `redocly`, reading and writing
 * files and printing are not modelled: the directory listing and the outcome of each bundle
 * run are inputs.
 */
module BuildSite {
  import opened Wrappers
  import opened JsString
  import opened SeqUtil

  /* ---------------------------------------------------------------------------------------
   * fixUnresolvedReferences
   * ------------------------------------------------------------------------------------- */

  /** One rewrite: every occurrence of the literal `from` becomes `$ref: ` followed by `to`. */
  datatype Fix = Fix(from: string, to: string)

  /** The key every reference starts with; the only `$` in any of the strings below. */
  const REF_KEY: string := "$ref: "
  const SCHEMAS: string := "components/" + "schemas/"

  const JOB_REF: string := REF_KEY + "../" + SCHEMAS + "Job.yaml"
  const LINK_REF: string := REF_KEY + "../" + SCHEMAS + "Link.yaml"
  const JOB_LOCAL: string := "#/" + SCHEMAS + "Job"
  const LINK_LOCAL: string := "#/" + SCHEMAS + "Link"

  /** The two fixes, in the order they are applied. */
  const FIXES: seq<Fix> := [Fix(JOB_REF, JOB_LOCAL), Fix(LINK_REF, LINK_LOCAL)]

  /** What an occurrence of `fix.from` is replaced by. */
  function Replacement(fix: Fix): string {
    REF_KEY + fix.to
  }

  /** `content.replace(fix.from, `$ref: ${fix.to}`)` when the pattern occurs, else `content`. */
  function ApplyFix(content: string, fix: Fix): string
    requires |fix.from| > 0
  {
    if Includes(content, fix.from) then ReplaceAll(content, fix.from, Replacement(fix)) else content
  }

  /** The content after the first `n` fixes. */
  function ApplyFixes(content: string, n: nat): string
    requires n <= |FIXES|
  {
    if n == 0 then content else ApplyFix(ApplyFixes(content, n - 1), FIXES[n - 1])
  }

  /** The content after both fixes. */
  function Rewrite(content: string): string {
    ApplyFixes(content, 2)
  }

  /** Some fix among the first `n` applied to the content it saw. */
  predicate Changed(content: string, n: nat)
    requires n <= |FIXES|
  {
    exists j :: 0 <= j < n && Includes(ApplyFixes(content, j), FIXES[j].from)
  }

  /**
   * `fixUnresolvedReferences` on a file whose text is `original`: each fix that finds its
   * pattern rewrites the text and sets `hasChanges`; the text is written back (`written`) only
   * then. Both references are gone from the result and the file is written exactly when one of
   * them was present.
   */
  method FixUnresolvedReferences(original: string) returns (content: string, written: bool)
    ensures content == Rewrite(original)
    ensures !Includes(content, JOB_REF) && !Includes(content, LINK_REF)
    ensures written <==> Includes(original, JOB_REF) || Includes(original, LINK_REF)
  {
    content := original;
    var hasChanges := false;
    for i := 0 to |FIXES|
      invariant content == ApplyFixes(original, i)
      invariant hasChanges <==> Changed(original, i)
    {
      var fix := FIXES[i];
      if Includes(content, fix.from) {
        content := ReplaceAll(content, fix.from, Replacement(fix));
        hasChanges := true;
      }
      ChangedStep(original, i);
    }
    RewriteRemoves(original);
    RewriteWrites(original);
    written := hasChanges;
  }

  lemma ChangedStep(content: string, i: nat)
    requires i < |FIXES|
    ensures Changed(content, i + 1) <==>
      Changed(content, i) || Includes(ApplyFixes(content, i), FIXES[i].from)
  {
    if Includes(ApplyFixes(content, i), FIXES[i].from) {
      assert 0 <= i < i + 1 && Includes(ApplyFixes(content, i), FIXES[i].from);
    }
  }

  /** Two fixes whose patterns and replacements all start with the only `$` they hold, and
      whose patterns differ early from each other and from both replacements: then neither fix
      can create an occurrence of either pattern. */
  predicate Separated(f: Fix, g: Fix) {
    && |f.from| > 0 && |g.from| > 0
    && LeadsOnce(f.from, '$') && LeadsOnce(g.from, '$')
    && LeadsOnce(Replacement(f), '$') && LeadsOnce(Replacement(g), '$')
    && Diverge(f.from, Replacement(f)) && Diverge(f.from, Replacement(g))
    && Diverge(g.from, Replacement(f)) && Diverge(g.from, Replacement(g))
    && Diverge(g.from, f.from)
  }

  /** The two fixes of the script are separated. */
  lemma FixesSeparated()
    ensures Separated(FIXES[0], FIXES[1])
  {
    LeadFacts();
    DivergeFacts();
  }

  /** Appending text without `c` keeps `c` leading once. */
  lemma LeadsOnceAppend(a: string, b: string, c: char)
    requires LeadsOnce(a, c) && c !in b
    ensures LeadsOnce(a + b, c)
  {
    assert (a + b)[1..] == a[1..] + b;
  }

  lemma LeadFacts()
    ensures LeadsOnce(JOB_REF, '$') && LeadsOnce(LINK_REF, '$')
    ensures LeadsOnce(REF_KEY + JOB_LOCAL, '$') && LeadsOnce(REF_KEY + LINK_LOCAL, '$')
  {
    assert LeadsOnce(REF_KEY, '$');
    LeadsOnceAppend(REF_KEY, "../", '$');
    LeadsOnceAppend(REF_KEY + "../", SCHEMAS, '$');
    LeadsOnceAppend(REF_KEY + "../" + SCHEMAS, "Job.yaml", '$');
    LeadsOnceAppend(REF_KEY + "../" + SCHEMAS, "Link.yaml", '$');
    assert '$' !in "#/" + SCHEMAS + "Job" by {
      assert '$' !in "#/" && '$' !in "Job";
    }
    assert '$' !in "#/" + SCHEMAS + "Link" by {
      assert '$' !in "#/" && '$' !in "Link";
    }
    LeadsOnceAppend(REF_KEY, JOB_LOCAL, '$');
    LeadsOnceAppend(REF_KEY, LINK_LOCAL, '$');
  }

  lemma DivergeFacts()
    ensures Diverge(JOB_REF, REF_KEY + JOB_LOCAL) && Diverge(JOB_REF, REF_KEY + LINK_LOCAL)
    ensures Diverge(LINK_REF, REF_KEY + JOB_LOCAL) && Diverge(LINK_REF, REF_KEY + LINK_LOCAL)
    ensures Diverge(LINK_REF, JOB_REF)
  {
    var dir := REF_KEY + "../" + SCHEMAS;
    assert JOB_REF[6] == '.' && LINK_REF[6] == '.' by {
      assert JOB_REF[6] == dir[6] && LINK_REF[6] == dir[6];
    }
    assert (REF_KEY + JOB_LOCAL)[6] == '#' && (REF_KEY + LINK_LOCAL)[6] == '#';
    assert |dir| == 28;
    assert JOB_REF[28] == 'J' && LINK_REF[28] == 'L';
  }

  /** Applying a fix leaves no occurrence of its pattern and creates none of a `q` that starts
      with `$` and differs early from the replacement. */
  lemma StepAdds(content: string, fix: Fix, q: string)
    requires |fix.from| > 0 && LeadsOnce(Replacement(fix), fix.from[0])
    requires LeadsOnce(q, fix.from[0]) && Diverge(q, Replacement(fix))
    ensures Includes(ApplyFix(content, fix), q) ==> Includes(content, q) && q != fix.from
  {
    if Includes(content, fix.from) {
      OccurrenceOrigin(content, q, fix.from, Replacement(fix));
    }
  }

  /** After two separated fixes neither pattern is left. */
  lemma TwoFixesRemove(content: string, f: Fix, g: Fix)
    requires Separated(f, g)
    ensures !Includes(ApplyFix(ApplyFix(content, f), g), f.from)
    ensures !Includes(ApplyFix(ApplyFix(content, f), g), g.from)
  {
    var once := ApplyFix(content, f);
    StepAdds(content, f, f.from);
    StepAdds(once, g, f.from);
    StepAdds(once, g, g.from);
  }

  /** The first of two separated fixes neither removes nor creates the second's pattern. */
  lemma FirstKeepsSecond(content: string, f: Fix, g: Fix)
    requires Separated(f, g)
    ensures Includes(ApplyFix(content, f), g.from) <==> Includes(content, g.from)
  {
    StepAdds(content, f, g.from);
    if Includes(content, g.from) && Includes(content, f.from) {
      OccurrenceKept(content, g.from, f.from, Replacement(f));
    }
  }

  /** After the rewrite neither external reference is left. */
  lemma RewriteRemoves(content: string)
    ensures !Includes(Rewrite(content), JOB_REF) && !Includes(Rewrite(content), LINK_REF)
  {
    FixesSeparated();
    TwoSteps(content);
    TwoFixesRemove(content, FIXES[0], FIXES[1]);
  }

  /** The rewrite is the first fix followed by the second. */
  lemma TwoSteps(content: string)
    ensures ApplyFixes(content, 1) == ApplyFix(content, FIXES[0])
    ensures Rewrite(content) == ApplyFix(ApplyFix(content, FIXES[0]), FIXES[1])
  {
    assert ApplyFixes(content, 0) == content;
  }

  /** Some fix applies exactly when the original holds one of the two references. */
  lemma RewriteWrites(content: string)
    ensures Changed(content, 2) <==> Includes(content, JOB_REF) || Includes(content, LINK_REF)
  {
    FixesSeparated();
    TwoSteps(content);
    ChangedStep(content, 0);
    ChangedStep(content, 1);
    FirstKeepsSecond(content, FIXES[0], FIXES[1]);
  }

  /** The rewrite is idempotent: on its own output no fix applies and nothing is written. */
  lemma RewriteIdempotent(content: string)
    ensures Rewrite(Rewrite(content)) == Rewrite(content)
    ensures !Changed(Rewrite(content), 2)
  {
    var r := Rewrite(content);
    RewriteRemoves(content);
    RewriteWrites(r);
    assert ApplyFixes(r, 1) == r;
  }

  /** Text between the references is kept: each fix splits at its pattern and joins with its
      replacement. */
  lemma RewriteKeepsText(content: string)
    ensures Rewrite(content) == Join(Split(Join(Split(content, JOB_REF), Replacement(FIXES[0])),
                                           LINK_REF), Replacement(FIXES[1]))
  {
    FixesSeparated();
    var f := FIXES[0];
    var g := FIXES[1];
    TwoSteps(content);
    FixIsSplitJoin(content, f);
    FixIsSplitJoin(ApplyFix(content, f), g);
  }

  /** A fix splits at its pattern and joins with its replacement. */
  lemma FixIsSplitJoin(content: string, fix: Fix)
    requires |fix.from| > 0
    ensures ApplyFix(content, fix) == Join(Split(content, fix.from), Replacement(fix))
  {
    ReplaceAllIsSplitJoin(content, fix.from, Replacement(fix));
    if !Includes(content, fix.from) {
      ReplaceAllWithoutMatch(content, fix.from, Replacement(fix));
    }
  }

  /* ---------------------------------------------------------------------------------------
   * Viewer configuration and build verdict
   * ------------------------------------------------------------------------------------- */

  /** An entry of `apis/cf`: its name, whether it is a directory, and whether that directory
      holds an `openapi.yaml`. */
  datatype Entry = Entry(name: string, isDirectory: bool, hasOpenapi: bool)

  /** One viewer configuration. `isDefault` stands for the `default: true` property. */
  datatype ScalarConfig = ScalarConfig(title: string, slug: string, url: string, isDefault: bool)

  /** The configuration of version `v`. */
  function ConfigFor(v: string): (c: ScalarConfig)
    ensures c.isDefault <==> v == "latest"
  {
    ScalarConfig("Cloud Foundry V3 (CAPI " + v + ")", "cf-api-" + v, v + "/openapi.yaml",
                 v == "latest")
  }

  /** The entries that are bundled: directories holding an `openapi.yaml`. */
  predicate Bundled(e: Entry) {
    e.isDirectory && e.hasOpenapi
  }

  /** The names of the bundled entries, in listing order. */
  function Versions(entries: seq<Entry>): (vs: seq<string>)
    ensures |vs| <= |entries|
    ensures forall v :: v in vs <==> exists e :: e in entries && Bundled(e) && e.name == v
  {
    if entries == [] then []
    else
      var init := Versions(entries[..|entries| - 1]);
      var last := entries[|entries| - 1];
      assert entries == entries[..|entries| - 1] + [last];
      if Bundled(last) then init + [last.name] else init
  }

  /** A directory lists each name once, so the versions are distinct. */
  lemma {:induction false} VersionsDistinct(entries: seq<Entry>)
    requires forall i, j :: 0 <= i < j < |entries| ==> entries[i].name != entries[j].name
    ensures NoDuplicates(Versions(entries))
    decreases |entries|
  {
    if entries != [] {
      var init := entries[..|entries| - 1];
      var last := entries[|entries| - 1];
      VersionsDistinct(init);
      if Bundled(last) {
        forall e | e in init
          ensures e.name != last.name
        {
          var k :| 0 <= k < |init| && init[k] == e;
          assert entries[k] == e;
        }
        assert last.name !in Versions(init);
        assert entries[..|entries| - 1] == init;
        var vs := Versions(init) + [last.name];
        assert Versions(entries) == vs;
        forall i, j | 0 <= i < j < |vs| ensures vs[i] != vs[j] {
          if j == |vs| - 1 {
            assert vs[i] in Versions(init);
          }
        }
      }
    }
  }

  /** How one `redocly bundle` run ended: its command and its exit code, `None` when the child
      was ended by a signal (`code` null). A spawn error resolves with code 1. */
  datatype BundleResult = BundleResult(version: string, code: Option<int>)

  predicate Failed(r: BundleResult) {
    r.code != Some(0)
  }

  /**
   * `build()`: walk the listing; for each bundled version run the bundler (`bundle(v)` is how
   * that run ended), post-process its output when it exited with 0, and record its viewer
   * configuration. Then the build fails with exit status 1 and writes no `index.html` exactly
   * when a run failed; otherwise `index` holds the configurations it embeds.
   */
  method Build(entries: seq<Entry>, bundle: string -> Option<int>)
    returns (configs: seq<ScalarConfig>, results: seq<BundleResult>, postProcessed: seq<string>,
             exitCode: int, index: Option<seq<ScalarConfig>>)
    ensures |configs| == |results| == |Versions(entries)|
    ensures forall i :: 0 <= i < |configs| ==> configs[i] == ConfigFor(Versions(entries)[i])
    ensures forall i :: 0 <= i < |results| ==>
      results[i] == BundleResult(Versions(entries)[i], bundle(Versions(entries)[i]))
    ensures forall v :: v in postProcessed <==> v in Versions(entries) && bundle(v) == Some(0)
    ensures exitCode == 1 <==> exists i :: 0 <= i < |results| && Failed(results[i])
    ensures exitCode == 0 || exitCode == 1
    ensures index.Some? <==> exitCode == 0
    ensures index.Some? ==> index.value == configs
  {
    configs, results, postProcessed := Collect(entries, bundle);
    var hasErrors := HasErrors(results);
    if hasErrors {
      exitCode, index := 1, None;
    } else {
      exitCode, index := 0, Some(configs);
    }
  }

  /** The loop of `build` over the listing: a configuration and a bundle run per bundled
      version, and post-processing of the runs that exited with 0. */
  method Collect(entries: seq<Entry>, bundle: string -> Option<int>)
    returns (configs: seq<ScalarConfig>, results: seq<BundleResult>, postProcessed: seq<string>)
    ensures |configs| == |results| == |Versions(entries)|
    ensures forall i :: 0 <= i < |configs| ==> configs[i] == ConfigFor(Versions(entries)[i])
    ensures forall i :: 0 <= i < |results| ==>
      results[i] == BundleResult(Versions(entries)[i], bundle(Versions(entries)[i]))
    ensures forall v :: v in postProcessed <==> v in Versions(entries) && bundle(v) == Some(0)
  {
    configs := [];
    results := [];
    postProcessed := [];
    for i := 0 to |entries|
      invariant |configs| == |results| == |Versions(entries[..i])|
      invariant forall k :: 0 <= k < |results| ==>
        results[k] == BundleResult(Versions(entries[..i])[k], bundle(Versions(entries[..i])[k]))
      invariant forall k :: 0 <= k < |configs| ==> configs[k] == ConfigFor(results[k].version)
      invariant forall v :: v in postProcessed <==> v in Versions(entries[..i]) && bundle(v) == Some(0)
    {
      var entry := entries[i];
      VersionsPush(entries, i);
      if Bundled(entry) {
        var version := entry.name;
        var result := BundleResult(version, bundle(version));
        if result.code == Some(0) {
          postProcessed := postProcessed + [version];
        }
        results := results + [result];
        configs := configs + [ConfigFor(version)];
      }
    }
    assert entries[..|entries|] == entries;
  }

  /** One more entry adds its name when it is bundled. */
  lemma VersionsPush(entries: seq<Entry>, i: int)
    requires 0 <= i < |entries|
    ensures Versions(entries[..i + 1])
      == Versions(entries[..i]) + (if Bundled(entries[i]) then [entries[i].name] else [])
  {
    assert entries[..i + 1][..i] == entries[..i];
  }

  /** The loop of `build` over the bundle results: `hasErrors` is set by any run that did not
      exit with 0. */
  method HasErrors(results: seq<BundleResult>) returns (hasErrors: bool)
    ensures hasErrors <==> exists i :: 0 <= i < |results| && Failed(results[i])
  {
    hasErrors := false;
    for i := 0 to |results|
      invariant hasErrors <==> exists k :: 0 <= k < i && Failed(results[k])
    {
      if results[i].code != Some(0) {
        hasErrors := true;
      }
    }
  }

  /** With distinct directory names at most one configuration is the default, and one is
      exactly when `latest` is bundled. */
  lemma OneDefault(entries: seq<Entry>)
    requires forall i, j :: 0 <= i < j < |entries| ==> entries[i].name != entries[j].name
    ensures forall i, j :: 0 <= i < j < |Versions(entries)| ==>
      !(ConfigFor(Versions(entries)[i]).isDefault && ConfigFor(Versions(entries)[j]).isDefault)
    ensures (exists i :: 0 <= i < |Versions(entries)| && ConfigFor(Versions(entries)[i]).isDefault)
      <==> exists e :: e in entries && Bundled(e) && e.name == "latest"
  {
    VersionsDistinct(entries);
    var vs := Versions(entries);
    if exists e :: e in entries && Bundled(e) && e.name == "latest" {
      assert "latest" in vs;
      var i :| 0 <= i < |vs| && vs[i] == "latest";
      assert ConfigFor(vs[i]).isDefault;
    }
  }
}
