/**
 * What `processTask` in scripts/manage_issues.js does for one audit task: the texts it builds
 * (endpoint name, hidden issue marker, title, body), the label difference against an open
 * issue, the `gh` commands it issues in each of its three branches, and the batch summary
 * `main` draws from the settled tasks. `gh` is an oracle from a command to the outcomes of its
 * attempts; the JSON reply of the issue search is read by a `parse` oracle.
 */
module IssueSync {
  import opened Wrappers
  import opened JsString
  import opened SeqUtil
  import opened IssueCatalogue
  import opened GitHubRetry

  /* ---------------------------------------------------------------------------------------
   * Texts
   * ------------------------------------------------------------------------------------- */

  /** `${method} ${endpointPath}`. */
  function EndpointName(t: Task): string {
    t.verb + " " + t.path
  }

  /** `c.toLowerCase()` on the ASCII letters: a capital moves to its small letter, 32 code
      points further on; every other character is kept. */
  function LowerChar(c: char): (r: char)
    ensures 'A' <= c <= 'Z' ==> 'a' <= r <= 'z' && r as int == c as int + 32
    ensures !('A' <= c <= 'Z') ==> r == c
  {
    if 'A' <= c <= 'Z' then (c as int - 'A' as int + 'a' as int) as char else c
  }

  /** `s.toLowerCase()` on ASCII text. */
  function Lower(s: string): (r: string)
    ensures |r| == |s|
    ensures forall i :: 0 <= i < |r| ==> r[i] == LowerChar(s[i])
  {
    seq(|s|, i requires 0 <= i < |s| => LowerChar(s[i]))
  }

  /** `aspect.title.toLowerCase().replace(/ /g, '-')`: the aspect's part of the issue marker.
      Character by character, a space becomes `-` and anything else its lower case, so the
      slug has no space and no capital letter. */
  function AspectSlug(title: string): (slug: string)
    ensures |slug| == |title|
    ensures forall i :: 0 <= i < |title| ==>
      slug[i] == if title[i] == ' ' then '-' else LowerChar(title[i])
    ensures ' ' !in slug
    ensures forall i :: 0 <= i < |slug| ==> !('A' <= slug[i] <= 'Z')
  {
    var low := Lower(title);
    ReplaceCharPointwise(low, ' ', '-');
    ReplaceAll(low, [' '], ['-'])
  }

  /** Replacing every occurrence of the character `c` by the character `d` works position by
      position: the length is kept, each `c` becomes `d` and every other character stays. */
  lemma {:induction false} ReplaceCharPointwise(s: string, c: char, d: char)
    ensures |ReplaceAll(s, [c], [d])| == |s|
    ensures forall i :: 0 <= i < |s| ==>
      ReplaceAll(s, [c], [d])[i] == if s[i] == c then d else s[i]
    decreases |s|
  {
    if |s| >= 1 {
      ReplaceCharPointwise(s[1..], c, d);
      assert s[..1] == [s[0]];
      var head := if s[0] == c then d else s[0];
      assert ReplaceAll(s, [c], [d]) == [head] + ReplaceAll(s[1..], [c], [d]);
    }
  }

  /** `<!-- ID: ${endpointName}-${aspectTitle} -->`: the hidden marker by which the issue of a
      task is found again. */
  function IssueMarker(t: Task): string {
    "<!-- ID: " + EndpointName(t) + "-" + AspectSlug(t.aspect.title) + " -->"
  }

  /** `SpecCheck: ${endpointName} - ${aspect.title}`. */
  function IssueTitle(t: Task): string {
    "SpecCheck: " + EndpointName(t) + " - " + t.aspect.title
  }

  /** The issue body: the endpoint, the aspect's summary, its details and, last, the marker. */
  function IssueBody(t: Task, details: string): (body: string)
    ensures |IssueMarker(t)| <= |body|
    ensures body[|body| - |IssueMarker(t)|..] == IssueMarker(t)
  {
    var head := "Check and validate the correctness of the openapi specification for `"
      + EndpointName(t) + "`\n\n**Aspect:** " + t.aspect.body + "\n\n**Details:**\n" + details
      + "\n\n";
    head + IssueMarker(t)
  }

  /** The marker search finds an issue created from the body: the body contains the marker. */
  lemma BodyHoldsMarker(t: Task, details: string)
    ensures Includes(IssueBody(t, details), IssueMarker(t))
  {
    var body := IssueBody(t, details);
    assert OccursAt(body, IssueMarker(t), |body| - |IssueMarker(t)|);
  }

  /* ---------------------------------------------------------------------------------------
   * Issues, label differences and commands
   * ------------------------------------------------------------------------------------- */

  /** An issue as the search lists it: number, state and label names. */
  datatype Issue = Issue(number: int, state: string, labels: seq<string>)

  /** The `gh` commands `processTask` issues, with the data each one carries. */
  datatype GhCommand =
    | SearchIssues(marker: string)
    | EditIssue(number: int, title: string, body: string)
    | AddLabels(number: int, labels: seq<string>)
    | RemoveLabels(number: int, labels: seq<string>)
    | CreateIssue(title: string, body: string, labels: seq<string>)

  /** `labels.filter(l => !issueLabels.includes(l))`. */
  function LabelsToAdd(wanted: seq<string>, current: seq<string>): seq<string> {
    Without(wanted, current)
  }

  /** `issueLabels.filter(l => !labels.includes(l))`. */
  function LabelsToRemove(wanted: seq<string>, current: seq<string>): seq<string> {
    Without(current, wanted)
  }

  /** No label is both added and removed, and applying both lists to the issue's labels leaves
      exactly the wanted labels. */
  lemma LabelDiff(wanted: seq<string>, current: seq<string>)
    ensures SetOf(LabelsToAdd(wanted, current)) !! SetOf(LabelsToRemove(wanted, current))
    ensures (SetOf(current) + SetOf(LabelsToAdd(wanted, current)))
      - SetOf(LabelsToRemove(wanted, current)) == SetOf(wanted)
  {
  }

  /** An issue whose labels are already the wanted ones gets no label command. */
  lemma LabelDiffEmpty(wanted: seq<string>, current: seq<string>)
    ensures LabelsToAdd(wanted, current) == [] <==> forall l :: l in wanted ==> l in current
    ensures LabelsToRemove(wanted, current) == [] <==> forall l :: l in current ==> l in wanted
  {
    if LabelsToAdd(wanted, current) != [] {
      assert LabelsToAdd(wanted, current)[0] in LabelsToAdd(wanted, current);
    }
    if LabelsToRemove(wanted, current) != [] {
      assert LabelsToRemove(wanted, current)[0] in LabelsToRemove(wanted, current);
    }
  }

  /** The texts `processTask` derives from a task before it talks to GitHub. */
  datatype IssueTexts = IssueTexts(marker: string, title: string, body: string, labels: seq<string>)

  function TextsFor(t: Task, details: string): (x: IssueTexts)
    ensures Includes(x.body, x.marker)
    ensures |x.labels| == 5 && NoDuplicates(x.labels)
  {
    BodyHoldsMarker(t, details);
    TaskLabelsDistinct(t);
    IssueTexts(IssueMarker(t), IssueTitle(t), IssueBody(t, details), TaskLabels(t))
  }

  /**
   * The commands that follow the search, given the issues it found: create an issue when there
   * is none; when the first one is open, rewrite its title and body, then add and remove labels
   * where those lists are not empty; when it is closed, nothing.
   */
  function Plan(x: IssueTexts, found: seq<Issue>): seq<GhCommand> {
    if |found| == 0 then
      [CreateIssue(x.title, x.body, x.labels)]
    else if found[0].state == "OPEN" then
      var n := found[0].number;
      var add := LabelsToAdd(x.labels, found[0].labels);
      var remove := LabelsToRemove(x.labels, found[0].labels);
      [EditIssue(n, x.title, x.body)]
        + (if |add| > 0 then [AddLabels(n, add)] else [])
        + (if |remove| > 0 then [RemoveLabels(n, remove)] else [])
    else
      []
  }

  /** The three branches of the plan. For an open issue the label commands come after the
      edit, adding before removing, and each is issued exactly when its list is not empty. */
  lemma PlanShape(x: IssueTexts, found: seq<Issue>)
    ensures found == [] ==> Plan(x, found) == [CreateIssue(x.title, x.body, x.labels)]
    ensures found != [] && found[0].state != "OPEN" ==> Plan(x, found) == []
    ensures found != [] && found[0].state == "OPEN" ==>
      && |Plan(x, found)| == 1
        + (if LabelsToAdd(x.labels, found[0].labels) != [] then 1 else 0)
        + (if LabelsToRemove(x.labels, found[0].labels) != [] then 1 else 0)
      && Plan(x, found)[0] == EditIssue(found[0].number, x.title, x.body)
    ensures forall c :: c in Plan(x, found) && c.AddLabels? ==>
      c.labels != [] && c.labels == LabelsToAdd(x.labels, found[0].labels)
    ensures forall c :: c in Plan(x, found) && c.RemoveLabels? ==>
      c.labels != [] && c.labels == LabelsToRemove(x.labels, found[0].labels)
    ensures forall c :: c in Plan(x, found) ==> !c.SearchIssues?
    ensures found != [] && found[0].state == "OPEN" ==>
      var n, add := found[0].number, LabelsToAdd(x.labels, found[0].labels);
      (add != [] <==> AddLabels(n, add) in Plan(x, found))
      && (add != [] ==> Plan(x, found)[1] == AddLabels(n, add))
    ensures found != [] && found[0].state == "OPEN" ==>
      var n, remove := found[0].number, LabelsToRemove(x.labels, found[0].labels);
      (remove != [] <==> RemoveLabels(n, remove) in Plan(x, found))
      && (remove != [] ==> Plan(x, found)[|Plan(x, found)| - 1] == RemoveLabels(n, remove))
  {
  }

  /** What the search yields once it has settled: the issues its reply lists, or `None` when
      the search failed or its reply does not parse. */
  function Found(x: IssueTexts, gh: GhCommand -> nat -> CmdOutcome,
                 parse: string -> Option<seq<Issue>>): Option<seq<Issue>>
  {
    match Settle(gh(SearchIssues(x.marker)), MAX_RETRIES)
    case Resolved(out) => parse(Trim(out))
    case _ => None
  }

  /** A command that the retry policy settles successfully. */
  predicate Succeeds(gh: GhCommand -> nat -> CmdOutcome, c: GhCommand) {
    Settle(gh(c), MAX_RETRIES).Resolved?
  }

  /**
   * `processTask`: search for the task's issue by its marker, then carry out the plan, each
   * command through the retry policy and each awaited before the next. The first command that
   * fails ends the task with failure (`ok` false). `issued` is the commands that were run, in
   * order.
   */
  method ProcessTask(t: Task, details: string, gh: GhCommand -> nat -> CmdOutcome,
                     parse: string -> Option<seq<Issue>>)
    returns (ok: bool, issued: seq<GhCommand>)
    ensures Outcome(TextsFor(t, details), gh, parse, ok, issued)
  {
    ok, issued := ProcessTexts(TextsFor(t, details), gh, parse);
  }

  /** The commands `done` are how far `plan` got when run in order, stopping at the first
      command that fails; `ok` says that the whole plan ran and nothing failed. */
  predicate Ran(gh: GhCommand -> nat -> CmdOutcome, plan: seq<GhCommand>, done: seq<GhCommand>,
                ok: bool)
  {
    && done <= plan
    && (forall i :: 0 <= i < |done| - 1 ==> Succeeds(gh, done[i]))
    && (|done| < |plan| ==> done != [] && !Succeeds(gh, done[|done| - 1]))
    && (ok <==> done == plan && (done == [] || Succeeds(gh, done[|done| - 1])))
  }

  /** What `processTask` guarantees: the search runs first; when it fails or its reply does not
      parse the task fails there; otherwise the plan for what it found runs as `Ran` says. */
  predicate Outcome(x: IssueTexts, gh: GhCommand -> nat -> CmdOutcome,
                    parse: string -> Option<seq<Issue>>, ok: bool, issued: seq<GhCommand>)
  {
    && 1 <= |issued| && issued[0] == SearchIssues(x.marker)
    && match Found(x, gh, parse)
       case None => |issued| == 1 && !ok
       case Some(found) => Ran(gh, Plan(x, found), issued[1..], ok)
  }

  /** The body of `processTask` once its texts are built. */
  method ProcessTexts(x: IssueTexts, gh: GhCommand -> nat -> CmdOutcome,
               parse: string -> Option<seq<Issue>>)
    returns (ok: bool, issued: seq<GhCommand>)
    ensures Outcome(x, gh, parse, ok, issued)
  {
    var search := SearchIssues(x.marker);
    var r, attempts, delays := RetryGitHubCommand(gh(search), MAX_RETRIES);
    if !r.Resolved? {
      return false, [search];
    }
    var parsed := parse(Trim(r.stdout));
    if parsed.None? {
      return false, [search];
    }
    var found := parsed.value;
    var done: seq<GhCommand>;
    if |found| > 0 {
      if found[0].state == "OPEN" {
        ok, done := UpdateOpen(x, gh, found);
      } else {
        ok, done := true, [];
      }
    } else {
      var create := CreateIssue(x.title, x.body, x.labels);
      ok, done := RunCommand(gh, [], create);
    }
    issued := [search] + done;
    assert issued[1..] == done;
  }

  /** The branch for an open issue: rewrite title and body, then fix the labels. */
  method UpdateOpen(x: IssueTexts, gh: GhCommand -> nat -> CmdOutcome, found: seq<Issue>)
    returns (ok: bool, done: seq<GhCommand>)
    requires |found| > 0 && found[0].state == "OPEN"
    ensures Ran(gh, Plan(x, found), done, ok)
  {
    var issue := found[0];
    var edit := EditIssue(issue.number, x.title, x.body);
    var add := LabelsToAdd(x.labels, issue.labels);
    var remove := LabelsToRemove(x.labels, issue.labels);
    var addCmds := if |add| > 0 then [AddLabels(issue.number, add)] else [];
    var removeCmds := if |remove| > 0 then [RemoveLabels(issue.number, remove)] else [];
    assert Plan(x, found) == [edit] + addCmds + removeCmds;
    ok, done := RunCommand(gh, [], edit);
    if !ok {
      return;
    }
    if |add| > 0 {
      ok, done := RunCommand(gh, done, AddLabels(issue.number, add));
      if !ok {
        return;
      }
    }
    if |remove| > 0 {
      ok, done := RunCommand(gh, done, RemoveLabels(issue.number, remove));
    }
  }

  /** Runs one more command through the retry policy and records it. */
  method RunCommand(gh: GhCommand -> nat -> CmdOutcome, before: seq<GhCommand>, c: GhCommand)
    returns (ok: bool, issued: seq<GhCommand>)
    ensures issued == before + [c]
    ensures ok <==> Succeeds(gh, c)
  {
    var r, attempts, delays := RetryGitHubCommand(gh(c), MAX_RETRIES);
    ok := r.Resolved?;
    issued := before + [c];
  }

  /* ---------------------------------------------------------------------------------------
   * Batch summary
   * ------------------------------------------------------------------------------------- */

  /** How one issue task settled under `Promise.allSettled`. The wrapper around `processTask`
      fulfils with `{success: true}` or, on an error, `{success: false}`. */
  datatype Settled = Fulfilled(success: bool) | Rejected

  /** `issueResults.filter(r => r.status === 'fulfilled' && r.value?.success).length`. */
  function Successful(results: seq<Settled>): (n: nat)
    ensures n <= |results|
  {
    if results == [] then 0
    else
      var last := if results[|results| - 1] == Fulfilled(true) then 1 else 0;
      Successful(results[..|results| - 1]) + last
  }

  /** Counting splits over a concatenation: the successful tasks of `a + b` are those of `a`
      and those of `b`. */
  lemma {:induction false} SuccessfulAppend(a: seq<Settled>, b: seq<Settled>)
    ensures Successful(a + b) == Successful(a) + Successful(b)
    decreases |b|
  {
    if b == [] {
      assert a + b == a;
    } else {
      var init := b[..|b| - 1];
      SuccessfulAppend(a, init);
      assert (a + b)[..|a + b| - 1] == a + init;
      assert (a + b)[|a + b| - 1] == b[|b| - 1];
    }
  }

  /** A single result counts exactly when it is fulfilled with `success: true`; a rejection
      and `{success: false}` do not count. */
  lemma SuccessfulOne(r: Settled)
    ensures Successful([r]) == if r == Fulfilled(true) then 1 else 0
  {
    assert [r][..0] == [];
  }

  /** A success, a failure and a rejection: one task succeeded, two failed, exit status 1. */
  lemma SummaryMixed()
    ensures Summarize([Fulfilled(true), Fulfilled(false), Rejected]) == Summary(3, 1, 2, 1)
  {
    SuccessfulAppend([Fulfilled(true), Fulfilled(false)], [Rejected]);
    SuccessfulAppend([Fulfilled(true)], [Fulfilled(false)]);
    SuccessfulOne(Fulfilled(true));
    SuccessfulOne(Fulfilled(false));
    SuccessfulOne(Rejected);
    assert [Fulfilled(true), Fulfilled(false), Rejected]
      == [Fulfilled(true), Fulfilled(false)] + [Rejected];
    assert [Fulfilled(true), Fulfilled(false)] == [Fulfilled(true)] + [Fulfilled(false)];
  }

  /** The printed counts and the exit status of `main`. */
  datatype Summary = Summary(total: nat, successful: nat, failed: nat, exitCode: int)

  function Summarize(results: seq<Settled>): (s: Summary)
    ensures s.total == |results| && s.successful + s.failed == s.total
  {
    var ok := Successful(results);
    var failed := |results| - ok;
    Summary(|results|, ok, failed, if failed > 0 then 1 else 0)
  }

  /** Every task that was not fulfilled with success counts as failed, and the script exits
      with status 1 exactly when there is one. */
  lemma {:induction false} SummaryExit(results: seq<Settled>)
    ensures Summarize(results).successful == |results| <==>
      forall i :: 0 <= i < |results| ==> results[i] == Fulfilled(true)
    ensures Summarize(results).exitCode == 1 <==>
      exists i :: 0 <= i < |results| && results[i] != Fulfilled(true)
    ensures Summarize(results).exitCode == 0 || Summarize(results).exitCode == 1
  {
    AllSuccessful(results);
  }

  lemma {:induction false} AllSuccessful(results: seq<Settled>)
    ensures Successful(results) == |results| <==>
      forall i :: 0 <= i < |results| ==> results[i] == Fulfilled(true)
    decreases |results|
  {
    if results != [] {
      var init := results[..|results| - 1];
      AllSuccessful(init);
      if Successful(results) == |results| {
        forall i | 0 <= i < |results| ensures results[i] == Fulfilled(true) {
          if i < |init| {
            assert results[i] == init[i];
          }
        }
      }
    }
  }
}
