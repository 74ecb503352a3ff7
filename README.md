# cf-openapi tooling, modelled in Dafny

The repository maintains the Cloud Foundry V3 OpenAPI document. Around it sit four small
programs, and this project models the deterministic logic inside them. Their external calls
become inputs: `gh`, `redocly`, the file system, the OpenAPI validator library and Go's standard
library.

- **scripts/manage_issues.js** opens one GitHub issue per endpoint and review aspect. The model
  covers these parts:
  - the resource group of an endpoint path;
  - the catalogue of tasks and labels built from the endpoint list and the eleven aspects;
  - the texts of an issue (hidden ID marker, title, body) and its five labels;
  - the three-way create / update-if-open / skip-if-closed branch, with the label difference
    against an open issue;
  - the retry policy around every `gh` call, with its rate-limit classifier and doubling
    backoff;
  - the label cache that `ensureLabelExists` appends to;
  - the batch summary and exit status of `main`.

  Modules: `IssueCatalogue`, `GitHubRetry`, `IssueSync`.
- **bin/build.js** bundles every API version and builds the viewer page. The model covers these
  parts:
  - the literal rewrite of the two `$ref`s the bundler leaves pointing at external files;
  - the viewer configuration derived from the directory listing;
  - the all-or-nothing build verdict.

  Module: `BuildSite`.
- **bin/create-version.js** scaffolds a new version from `latest`. The model covers these parts:
  - the argument guard;
  - the in-place update of the `apis` table of the redocly configuration;
  - the global replacement of `version: latest`.

  Module: `CreateVersion`.
- **validator/main.go** replays recorded traffic against the OpenAPI document. The model covers
  these parts:
  - the argument check;
  - the construction of the HTTP request and response from a record;
  - the loop that counts records as valid, invalid or neither.

  Module: `Validator`.

Supporting modules:
- `JsString` models the JavaScript string operations the scripts rely on: `includes`, `split`,
  `join`, `trim`, and `replace` with a global literal pattern.
- `SeqUtil` holds sequence helpers.
- `Wrappers` holds `Option` and `Result`.

Conventions of the model:
- A command is an oracle from an attempt number to that attempt's outcome. The retry policy
  returns the waits it would sleep rather than sleeping.
- A failed or unparsable step is an explicit `None`, `Err` or `Thrown` value, never a
  precondition.
- Go ranges over a map in no fixed order. That order is an input: `Env.requestOrder` and
  `Env.responseOrder`. `Validator.Visits` requires each to visit every key of its header map
  exactly once, as `range` does.

## Model

| member | source | states |
|---|---|---|
| IssueCatalogue.ExtractResourceGroup | scripts/manage_issues.js:122-134 | The group is never empty and holds no `/` or `?`. It is `unknown` when the path before `?` has no non-empty segment; otherwise it is one of those segments. |
| IssueCatalogue.PathSegments | scripts/manage_issues.js:123 | Every segment is non-empty and free of `/` and `?`. |
| IssueCatalogue.BeforeQuery | scripts/manage_issues.js:123 | The text before the first `?` is a prefix of the path and holds no `?`. |
| IssueCatalogue.QueryIgnored | scripts/manage_issues.js:123 | Appending `?` and any query to a path does not change its resource group. |
| IssueCatalogue.SegmentsCons | scripts/manage_issues.js:123 | A leading `/a` contributes segment `a` ahead of the segments of the rest, so paths written segment by segment have the expected segments. |
| IssueCatalogue.V3Resource | scripts/manage_issues.js:125-131 | Segments `v3, r, ...` with `r` not `admin` give `r`. |
| IssueCatalogue.V3AdminResource | scripts/manage_issues.js:128-130 | Segments `v3, admin, r, ...` give `r`. |
| IssueCatalogue.V3AdminAlone | scripts/manage_issues.js:125-131 | Segments exactly `v3, admin` give `admin`. |
| IssueCatalogue.OtherResource | scripts/manage_issues.js:133 | Any other non-empty segment list, including `v3` alone, gives its first segment. |
| IssueCatalogue.Aspects | scripts/manage_issues.js:356-454 | There are exactly eleven aspects. |
| IssueCatalogue.AspectTitlesDistinct | scripts/manage_issues.js:356-454 | No two aspect titles are equal. |
| IssueCatalogue.ParseLineSpec | scripts/manage_issues.js:142-146 | A blank line holds no endpoint. A parsed method and path are non-empty and space-free, and the trimmed line starts with `<method> <path>`. |
| IssueCatalogue.ParseLineWords | scripts/manage_issues.js:142-146 | Which non-blank lines hold an endpoint: none when the trimmed line has no space; otherwise the first space is neither first nor last, and there is no endpoint exactly when a second space follows it at once. A parsed method and path are whole words: the trimmed line ends or has a space right after `<method> <path>`. |
| IssueCatalogue.FirstSpaceDecides | scripts/manage_issues.js:145-146 | For a trimmed line: no space, or a space right after the first one, means no endpoint, and only then. |
| IssueCatalogue.WholeWords | scripts/manage_issues.js:145-146 | For a trimmed line, the parsed method and path are followed by the end of the line or a space. |
| IssueCatalogue.SplitAtSpace | scripts/manage_issues.js:145 | A trimmed line with a space splits into two or more words; the first is the non-empty text before the first space, which is not the last character. |
| IssueCatalogue.WordAfterSpace | scripts/manage_issues.js:145 | The text after the first space starts with a space exactly when the second word is empty, and after the second word it ends or has a space. |
| IssueCatalogue.ParseLineRoundTrip | scripts/manage_issues.js:142-146 | Writing a line as `<method> <path>` and reading it back gives that endpoint. |
| IssueCatalogue.SplitRejoin | scripts/manage_issues.js:145 | Space-free words joined by spaces split back into the same words. |
| IssueCatalogue.TaskLabelsDistinct | scripts/manage_issues.js:150-155 | A task carries five pairwise distinct labels. |
| IssueCatalogue.TasksForShape | scripts/manage_issues.js:141-158 | There are eleven tasks per valid line, and task `11*i+j` is endpoint `i` with aspect `j` (line-major, then aspect). |
| IssueCatalogue.FlattenMembers | scripts/manage_issues.js:149-156 | A label is in the stream of all task labels exactly when it belongs to one of the tasks. |
| IssueCatalogue.InsertAllAppend | scripts/manage_issues.js:138-160 | Adding `xs` and then `ys` to the ordered set equals adding `xs + ys`. |
| IssueCatalogue.InsertAllIsOrderedSet | scripts/manage_issues.js:138-160 | The ordered set has no duplicates. It holds exactly the old and the added elements, and it keeps the old elements first, in their old order. |
| IssueCatalogue.LabelSetFacts | scripts/manage_issues.js:138-160 | `allLabels` has no duplicates and holds exactly the labels of the tasks. |
| IssueCatalogue.BuildTasksAndLabels | scripts/manage_issues.js:137-161 | Returns the tasks of the valid lines (as `TasksFor`) and the insertion-ordered set of their labels. |
| IssueCatalogue.AddLineTasks | scripts/manage_issues.js:141-158 | One line adds the tasks of its endpoint, if it holds one, and their labels. |
| IssueCatalogue.AddAspectTasks | scripts/manage_issues.js:149-157 | One endpoint appends one task per aspect, in aspect order, and adds their labels. |
| IssueCatalogue.AddTaskLabels | scripts/manage_issues.js:150-155 | The five `add` calls give the set extended by the task's labels. |
| GitHubRetry.IsRateLimit | scripts/manage_issues.js:75-77 | True exactly when the message contains `was submitted too quickly` or `rate limit`. The `API rate limit` test is subsumed. |
| GitHubRetry.BackoffDoubles | scripts/manage_issues.js:79-80 | The first wait is `RATE_LIMIT_DELAY`, and each later wait is exactly twice the one before. |
| GitHubRetry.Schedule | scripts/manage_issues.js:79-82 | The `k`-th wait is `RATE_LIMIT_DELAY * 2^(k-1)`. |
| GitHubRetry.ScheduleTotal | scripts/manage_issues.js:79-82 | After `n` waits the total wait is `RATE_LIMIT_DELAY * (2^n - 1)`. |
| GitHubRetry.SettleDefined | scripts/manage_issues.js:69-87 | With at least one attempt allowed the policy never resolves to `undefined`. |
| GitHubRetry.RetryGitHubCommand | scripts/manage_issues.js:69-87 | The command runs at most `maxRetries` times, and every attempt before the last was rate-limited. The first success is returned at once. A non-rate-limit error, or a rate-limit error on the final attempt, is rethrown. The result is `undefined` exactly when `maxRetries < 1`, and the waits are the doubling schedule. |
| GitHubRetry.LabelCache.EnsureLabelExists | scripts/manage_issues.js:102-119 | A known label issues no command. Otherwise the create command runs through the retry policy, and the label is appended exactly when that succeeded. The cache stays duplicate-free. |
| IssueSync.LowerChar | scripts/manage_issues.js:167 | An ASCII capital becomes the small letter 32 code points on; any other character is kept. |
| IssueSync.Lower | scripts/manage_issues.js:167 | Lower-casing keeps the length and maps each character. |
| IssueSync.AspectSlug | scripts/manage_issues.js:167 | The slug is as long as the title; at each position a space becomes `-` and any other character its lower case, so the slug has no space and no capital letter. |
| IssueSync.ReplaceCharPointwise | scripts/manage_issues.js:167 | Replacing every `c` by the character `d` keeps the length, turns each `c` into `d` and keeps every other character. |
| IssueSync.IssueBody | scripts/manage_issues.js:170 | The body ends with the issue's ID marker. |
| IssueSync.BodyHoldsMarker | scripts/manage_issues.js:168-175 | The marker the search looks for is contained in the body the issue is created with. |
| IssueSync.LabelDiff | scripts/manage_issues.js:192-194 | `labelsToAdd` and `labelsToRemove` are disjoint. (current ∪ add) \ remove equals the wanted label set. |
| IssueSync.LabelDiffEmpty | scripts/manage_issues.js:196-205 | No add command exactly when every wanted label is present. No remove command exactly when every present label is wanted. |
| IssueSync.TextsFor | scripts/manage_issues.js:166-172 | The body contains the marker, and there are five distinct labels. |
| IssueSync.PlanShape | scripts/manage_issues.js:180-236 | With no issue found, one create command with title, body and labels. A closed issue gets no command. An open issue gets exactly one command more than its non-empty label lists: the edit first. The add command follows it exactly when there are labels to add, and the remove command comes last exactly when there are labels to remove. |
| IssueSync.ProcessTask | scripts/manage_issues.js:164-241 | The search runs first. A failed search or an unreadable reply fails the task. Otherwise the plan for the issues found runs in order and stops at the first failing command. The task succeeds exactly when the whole plan succeeded. |
| IssueSync.ProcessTexts | scripts/manage_issues.js:174-240 | Same outcome as `ProcessTask`, given the task's texts. |
| IssueSync.UpdateOpen | scripts/manage_issues.js:187-205 | The open-issue branch runs its plan as far as the first failure. |
| IssueSync.RunCommand | scripts/manage_issues.js:190 | One command is recorded, and its success is the retry policy's. |
| IssueSync.Successful | scripts/manage_issues.js:330 | The count of successes is at most the number of tasks. |
| IssueSync.SuccessfulAppend | scripts/manage_issues.js:330 | The count over `a + b` is the count over `a` plus the count over `b`. With `SuccessfulOne`, the count is the number of results fulfilled with `success: true`. |
| IssueSync.SuccessfulOne | scripts/manage_issues.js:330 | One result counts 1 when it is fulfilled with `success: true`, and 0 when it is rejected or fulfilled with `success: false`. |
| IssueSync.SummaryMixed | scripts/manage_issues.js:330-341 | A success, a failure and a rejection give 3 tasks, 1 successful, 2 failed and exit status 1. |
| IssueSync.Summarize | scripts/manage_issues.js:330-331 | `successful + failed` is the number of tasks. |
| IssueSync.AllSuccessful | scripts/manage_issues.js:330 | Every task counts as successful exactly when each was fulfilled with `success: true`. |
| IssueSync.SummaryExit | scripts/manage_issues.js:330-341 | Exit status is 1 exactly when some task was not fulfilled with success, so a fulfilled `{success:false}` counts as failed. Otherwise it is 0. |
| SeqUtil.SetOf | scripts/manage_issues.js:192-194 | Set membership equals sequence membership. |
| SeqUtil.Without | scripts/manage_issues.js:193-194 | The filtered list holds exactly the elements of `xs` that are not in `ys`. |
| SeqUtil.WithoutNoDuplicates | scripts/manage_issues.js:193-194 | Filtering a duplicate-free list keeps it duplicate-free. |
| JsString.Includes | scripts/manage_issues.js:75-77 | `includes` holds exactly when the pattern occurs at some position. |
| JsString.Split | scripts/manage_issues.js:123 | `split` gives at least one piece, and joining the pieces with the separator gives back the text. |
| JsString.SplitPiecesFree | scripts/manage_issues.js:123 | No piece contains the separator. |
| JsString.SplitsIffIncludes | scripts/manage_issues.js:123 | There is more than one piece exactly when the separator occurs. |
| JsString.SplitHeadIsPrefix | scripts/manage_issues.js:123 | The first piece is a prefix of the text. |
| JsString.SplitAtFirst | scripts/manage_issues.js:123 | Splitting `a + c + b` with `c` absent from `a` gives `a` and then the pieces of `b`. |
| JsString.ReplaceAllIsSplitJoin | bin/build.js:22 | Global literal replacement equals splitting at the pattern and joining with the replacement. |
| JsString.ReplaceAllWithoutMatch | bin/create-version.js:42 | Without an occurrence, replacement returns the text unchanged. |
| JsString.OccurrenceOrigin | bin/build.js:22 | Suppose the replacement and `q` each hold the pattern's first character only at their start, and neither of `q` and the replacement is a prefix of the other. Then any occurrence of `q` in the output was already in the input, and `q` is not the pattern. |
| JsString.OccurrenceKept | bin/build.js:22 | Suppose the pattern and `q` each hold the pattern's first character only at their start, and neither of `q` and the pattern is a prefix of the other. Then an occurrence of `q` in the input survives the replacement. |
| JsString.Trim | scripts/manage_issues.js:142 | `trim` never lengthens the text. |
| JsString.TrimEmpty | scripts/manage_issues.js:143 | The trimmed line is empty exactly when the line is all white space. |
| JsString.TrimEnds | scripts/manage_issues.js:142 | A non-empty trimmed line neither starts nor ends with white space. |
| JsString.TrimUnchanged | scripts/manage_issues.js:142 | A line without white space at either end trims to itself. |
| BuildSite.FixUnresolvedReferences | bin/build.js:8-34 | The result is the two fixes applied in order. Neither external reference remains, and the file is written exactly when one of them was present. |
| BuildSite.FixesSeparated | bin/build.js:13-16 | The two patterns and their replacements cannot create each other's patterns. |
| BuildSite.StepAdds | bin/build.js:20-22 | A fix creates no occurrence of a `$`-led pattern that differs from its replacement, and it removes every occurrence of its own pattern. |
| BuildSite.TwoFixesRemove | bin/build.js:19-25 | After both fixes, neither pattern occurs. |
| BuildSite.FirstKeepsSecond | bin/build.js:19-25 | The first fix neither removes nor creates the second fix's pattern. |
| BuildSite.RewriteRemoves | bin/build.js:13-24 | No `$ref: ../components/schemas/Job.yaml` or `...Link.yaml` is left after the rewrite. |
| BuildSite.RewriteWrites | bin/build.js:18-29 | Some fix applies exactly when the original holds one of the two references. |
| BuildSite.RewriteIdempotent | bin/build.js:13-29 | Rewriting the output again changes nothing, and no fix applies to it, so nothing would be written. |
| BuildSite.RewriteKeepsText | bin/build.js:18-25 | The output equals splitting at the Job reference and joining with `$ref: #/components/schemas/Job`, then the same for Link, so the text between references is kept. |
| BuildSite.FixIsSplitJoin | bin/build.js:20-22 | One fix equals split-and-join on its pattern, whether or not the pattern occurs. |
| BuildSite.ConfigFor | bin/build.js:104-112 | `default: true` is set exactly on version `latest`. |
| BuildSite.Versions | bin/build.js:82-88 | A name is listed exactly when some entry is a directory holding `openapi.yaml`. |
| BuildSite.VersionsDistinct | bin/build.js:77-88 | A listing with distinct names gives distinct versions. |
| BuildSite.Collect | bin/build.js:82-117 | One configuration and one bundle run per bundled entry, in listing order. A run is post-processed exactly when it exited with 0. |
| BuildSite.HasErrors | bin/build.js:121-141 | `hasErrors` holds exactly when some run's code is not 0, including a null code. |
| BuildSite.Build | bin/build.js:74-175 | Configurations and runs follow the listing. The exit status is 1, with no `index.html`, exactly when a run failed; otherwise the index embeds the configurations. |
| BuildSite.OneDefault | bin/build.js:104-114 | With distinct names at most one configuration is the default, and there is one exactly when `latest` is bundled. |
| CreateVersion.VersionArg | bin/create-version.js:5-10 | A version is taken exactly when `argv[2]` is given and non-empty. |
| CreateVersion.WithApi | bin/create-version.js:27-34 | The update adds the key `apis` and leaves every other top-level key as it was. |
| CreateVersion.WithApiSetsEntry | bin/create-version.js:27-34 | When `apis` is missing, falsy or a table, the table afterwards maps `cf@<v>` to `{root: apis/cf/<v>/openapi.yaml}` and keeps every other entry; no other entry is added. |
| CreateVersion.WithApiIdempotent | bin/create-version.js:27-34 | Running the update twice with the same version equals running it once. |
| CreateVersion.RedoclyConfig.AddApi | bin/create-version.js:27-34 | The configuration object is updated in place to `WithApi` of its old value. |
| CreateVersion.BumpVersion | bin/create-version.js:42 | The new text equals splitting at `version: latest` and joining with `version: <v>`, and text without the line is unchanged. |
| CreateVersion.ResolveKeepsPlain | bin/create-version.js:12-14 | From a directory of plain segments, `path.join` leaves no empty, `.` or `..` segment. |
| CreateVersion.ResolvePlain | bin/create-version.js:12-14 | Plain segments are appended as they are. |
| CreateVersion.ResolveConcat | bin/create-version.js:12-14 | Joining two lists of segments equals resolving one after the other. |
| CreateVersion.ResolveAfter | bin/create-version.js:12-14 | One more segment: an empty or `.` one changes nothing, a plain one descends, and `..` climbs one level. |
| CreateVersion.CopyRefusedPlain | bin/create-version.js:13-20 | From a plain working directory, a version of plain segments is refused by the copy exactly when its first segment is `latest`. |
| CreateVersion.LatestRefused | bin/create-version.js:13-20 | The copy refuses the version `latest`. |
| CreateVersion.TrailingSlashRefused | bin/create-version.js:13-20 | The copy refuses `latest/`, which names the same directory. |
| CreateVersion.DotRefused | bin/create-version.js:13-20 | The copy refuses `./latest`, which names the same directory. |
| CreateVersion.EscapeNotRefused | bin/create-version.js:13-20 | The copy accepts `latest/../v2`, which climbs out of `latest` into a sibling directory. |
| CreateVersion.Run | bin/create-version.js:5-52 | Without a version, or with one whose resolved directory is `latest` or lies inside it (the copy refuses those), exit 1 and the configuration is unchanged. Otherwise exit 0: the configuration gets its entry, and the new `openapi.yaml` is the bumped copy of `latest`. |
| Validator.Arguments | validator/main.go:41-48 | The program goes on exactly when there are three arguments, taking the two file names. |
| Validator.EncodeBody | validator/main.go:146-153 | There is no body exactly for a null body. A body that cannot be marshalled is an error; otherwise the body is the marshalled text. |
| Validator.Headers | validator/main.go:162-164 | The header names are the canonical forms of the visited keys, and each holds the value of a key with that form. |
| Validator.HeadersKeepValues | validator/main.go:162-164 | When no two keys share a canonical form, every key's value is found under its canonical name. |
| Validator.HeadersOfEnumeration | validator/main.go:162-164 | When the order visits exactly the map's keys, the header names are exactly the canonical forms of all source keys. When no two keys collide, each key's value is under its canonical name. |
| Validator.HeadersOrderFree | validator/main.go:162-164 | When no two keys share a canonical form, the result does not depend on the iteration order. |
| Validator.SetHeaders | validator/main.go:162-164 | The loop computes `Headers` for the visited order. |
| Validator.RequestFor | validator/main.go:139-167 | The request is built exactly when the path parses, the body marshals and `NewRequest` accepts the method, an empty one counting as `GET`. It keeps a non-empty method and sends an empty one as `GET`. It keeps the parsed URL, its header map is `Headers` over the visit order (all the record's headers when the order enumerates them, by `HeadersOfEnumeration`), and it has no body exactly when the record's body is null. |
| Validator.CreateHttpRequest | validator/main.go:139-167 | Computes `RequestFor`, with the header loop. |
| Validator.ResponseFor | validator/main.go:170-194 | The response fails only on an unmarshallable body. `StatusCode` is the recorded status, and there is no body exactly when the recorded body is null. |
| Validator.CreateHttpResponse | validator/main.go:170-194 | Computes `ResponseFor`, with the header loop. |
| Validator.ClassifyCases | validator/main.go:89-129 | A record is skipped exactly when its request or response cannot be built, even after a failed request validation. It is valid exactly when both are built and both validations report no error. |
| Validator.CountsPartition | validator/main.go:85-130 | Valid, invalid and skipped counts add up to the number of records. |
| Validator.Tally | validator/main.go:85-130 | For visit orders that range over each record's header maps, `validCount` and `invalidCount` count the records classified valid and invalid, so their sum never exceeds `len(requests)`. |
| Validator.Validate | validator/main.go:39-136 | A wrong argument count, or unreadable inputs, exits with 1 and no counts. Otherwise the counts are the tally. |

## Left out

- `processTasksInParallel` and the `processed`/`errors` counters (scripts/manage_issues.js:39-61, 310-324) are left out because they are about concurrency. Tasks are modelled one at a time, and the summary takes the settled results as input.
- The repository guard, `gh --version`, the repository access check and `getExistingLabels` in scripts/manage_issues.js are I/O. The cache starts from a given list.
- The `--recolor` pass and the random label colours are left out: they only issue commands, with random arguments.
- The aspects' `details` text (scripts/manage_issues.js:356-454) is a parameter of `IssueBody`. Only titles and summaries are modelled.
- Temporary body files, `Date.now`, `Math.random`, the 200 ms and 500 ms pauses and all console output are left out.
- GitHubRetry.RetryGitHubCommand returns its waits rather than sleeping them.
- The success-rate percentage is left out, because it is floating point.
- IssueSync.Lower folds only ASCII capitals, whereas `toLowerCase` also folds non-ASCII letters.
- IssueSync.ProcessTask reads the search reply through a `parse` oracle standing for `JSON.parse`. The issues are taken as parsed values.
- IssueSync.ProcessTask does not model the exact `gh` command lines (quoting, `JSON.stringify` of the title). Commands are values carrying their data.
- CreateVersion.BumpVersion treats the replacement text as literal. JavaScript would expand `$&`, `$'` and similar patterns if the version string contained `$`.
- CreateVersion.WithApi assumes the loaded configuration is a mapping. An empty document or a scalar makes the `apis` update throw, after the directory copy. A top-level sequence takes both assignments as plain properties, which `yaml.dump` then drops, so the file is written back unchanged. A truthy `apis` that is not a table is modelled as unchanged.
- CreateVersion.Run does not model `fs.copy` of the `latest` directory or YAML parsing and dumping. The copy's `openapi.yaml` is taken to be `latest`'s text.
- CreateVersion.Run resolves the destination by its `/` segments, as `path.join` does, and takes the working directory as its segments. It does not model symbolic links or file-system failures of the copy, reads or writes.
- Failures of file reads and writes in bin/create-version.js and bin/build.js are left out, because they are I/O.
- BuildSite.Build takes the outcome of each `redocly bundle` run as an oracle, where `None` stands for a null exit code and a spawn error is code 1. It does not model stdout or stderr.
- BuildSite.Build treats the runs as sequential, while the source awaits them together. Only the collected results matter to the verdict.
- BuildSite.Build does not model the HTML text of `index.html`. Only the configurations it embeds are modelled.
- The "Fixing unresolved reference" warnings and the catch that swallows read errors in `fixUnresolvedReferences` are I/O.
- Validator.Validate collapses the read and parse of the OpenAPI document, the records read and the JSON parse into one `loaded` input. Any failure there is `log.Fatalf`, which means exit status 1.
- The validator's creation warnings and all logging in validator/main.go are left out.
- Validator.RequestFor takes `url.Parse`, `json.Marshal` and `http.NewRequest`'s method and URL checks as oracles.
- Validator.Headers takes header-name canonicalisation (`textproto.CanonicalMIMEHeaderKey`) as an oracle.
- Validator.ResponseFor does not model the `Status` text (`"%d %s"` with `http.StatusText`). Only `StatusCode` is kept.
- The libopenapi validator is an oracle giving error counts. Its error messages are not modelled.
