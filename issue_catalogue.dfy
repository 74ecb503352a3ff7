/**
 * The catalogue of audit tasks that scripts/manage_issues.js builds from the endpoint list:
 * every endpoint line crossed with the eleven review aspects, the labels each task carries,
 * and the insertion-ordered set of all labels.
 */
module IssueCatalogue {
  import opened Wrappers
  import opened JsString
  import opened SeqUtil

  /* ---------------------------------------------------------------------------------------
   * Resource group of an endpoint path
   * ------------------------------------------------------------------------------------- */

  /** The strings of `parts` that are not empty, in order (`filter(part => part)`). */
  function NonEmpty(parts: seq<string>): (r: seq<string>)
    ensures forall i :: 0 <= i < |r| ==> r[i] != "" && r[i] in parts
    decreases |parts|
  {
    if parts == [] then []
    else if parts[0] == "" then NonEmpty(parts[1..])
    else [parts[0]] + NonEmpty(parts[1..])
  }

  /** The non-empty `/`-separated segments of the path before its first `?`. */
  function PathSegments(endpointPath: string): (segs: seq<string>)
    ensures forall i :: 0 <= i < |segs| ==> segs[i] != "" && '/' !in segs[i] && '?' !in segs[i]
  {
    PiecesClean(BeforeQuery(endpointPath));
    NonEmpty(Split(BeforeQuery(endpointPath), "/"))
  }

  /** The path up to its first `?`. */
  function BeforeQuery(endpointPath: string): (r: string)
    ensures '?' !in r
    ensures |r| <= |endpointPath| && r == endpointPath[..|r|]
  {
    SplitCharPiecesFree(endpointPath, '?');
    SplitHeadIsPrefix(endpointPath, "?");
    Split(endpointPath, "?")[0]
  }

  /** The `/`-separated pieces of text free of `?` hold neither `/` nor `?`. */
  lemma PiecesClean(beforeQuery: string)
    requires '?' !in beforeQuery
    ensures forall x :: x in Split(beforeQuery, "/") ==> '/' !in x && '?' !in x
  {
    var pieces := Split(beforeQuery, "/");
    SplitCharPiecesFree(beforeQuery, '/');
    forall x | x in pieces
      ensures '/' !in x && '?' !in x
    {
      var i :| 0 <= i < |pieces| && pieces[i] == x;
      if '?' in x {
        JoinKeepsChars(pieces, "/", i, '?');
      }
    }
  }

  /**
   * `extractResourceGroup`: the resource an endpoint belongs to, used for its `Resource:`
   * label. Never empty; it is one of the path's segments, or `unknown` when the path has none.
   */
  function ExtractResourceGroup(endpointPath: string): (group: string)
    ensures group != ""
    ensures PathSegments(endpointPath) == [] ==> group == "unknown"
    ensures PathSegments(endpointPath) != [] ==> group in PathSegments(endpointPath)
    ensures '/' !in group && '?' !in group
  {
    var pathParts := PathSegments(endpointPath);
    if |pathParts| > 1 && pathParts[0] == "v3" then
      var resourcePart := if pathParts[1] == "admin" && |pathParts| > 2 then pathParts[2] else pathParts[1];
      if resourcePart != "" then resourcePart else "unknown"
    else if |pathParts| > 0 && pathParts[0] != "" then pathParts[0]
    else "unknown"
  }

  /** Only the text before the first `?` decides the resource group. */
  lemma QueryIgnored(path: string, query: string)
    requires '?' !in path
    ensures ExtractResourceGroup(path + "?" + query) == ExtractResourceGroup(path)
  {
    SplitAtFirst(path, '?', query);
    SplitWithout(path, '?');
    assert path + "?" + query == path + ['?'] + query;
  }

  /** A path segment: not empty, and holding neither `/` nor `?`. */
  predicate IsSegment(a: string) {
    a != "" && '/' !in a && '?' !in a
  }

  /** Text that can follow a segment: nothing, or a new segment or the query. */
  predicate EndsSegment(rest: string) {
    rest == "" || rest[0] == '/' || rest[0] == '?'
  }

  /** A leading `/a` contributes the segment `a` in front of the segments of what follows. */
  lemma SegmentsCons(a: string, rest: string)
    requires IsSegment(a) && EndsSegment(rest)
    ensures PathSegments("/" + a + rest) == [a] + PathSegments(rest)
  {
    BeforeQueryCons(a, rest);
    QueryHead(rest);
    SlashPieces(a, BeforeQuery(rest));
  }

  /** A leading `/a` free of `?` stays in front of the text before the query. */
  lemma BeforeQueryCons(a: string, rest: string)
    requires '?' !in a
    ensures BeforeQuery("/" + a + rest) == "/" + a + BeforeQuery(rest)
  {
    SplitHeadAppend("/" + a, '?', rest);
  }

  /** Splitting `/a` followed by nothing or by a further `/`. */
  lemma SlashPieces(a: string, h: string)
    requires IsSegment(a) && (h == "" || h[0] == '/')
    ensures NonEmpty(Split("/" + a + h, "/")) == [a] + NonEmpty(Split(h, "/"))
  {
    LeadingSlash(a + h);
    assert "/" + a + h == "/" + (a + h);
    if h == "" {
      assert a + h == a;
      SlashLast(a);
    } else {
      var h1 := h[1..];
      assert a + h == a + "/" + h1 by {
        assert h == "/" + h1;
      }
      SlashMore(a, h1);
    }
  }

  /** A leading `/` only adds an empty piece. */
  lemma LeadingSlash(t: string)
    ensures NonEmpty(Split("/" + t, "/")) == NonEmpty(Split(t, "/"))
  {
    assert "/" + t == [] + ['/'] + t;
    SplitAtFirst("", '/', t);
    NonEmptyCons("", Split(t, "/"));
  }

  lemma SlashLast(a: string)
    requires IsSegment(a)
    ensures NonEmpty(Split(a, "/")) == [a] + NonEmpty(Split("", "/"))
  {
    SplitWithout(a, '/');
    SplitWithout("", '/');
    NonEmptyCons("", []);
    NonEmptyCons(a, []);
  }

  lemma SlashMore(a: string, h1: string)
    requires IsSegment(a)
    ensures NonEmpty(Split(a + "/" + h1, "/")) == [a] + NonEmpty(Split("/" + h1, "/"))
  {
    SplitAtFirst(a, '/', h1);
    SplitAtFirst("", '/', h1);
    assert "/" + h1 == [] + ['/'] + h1;
    NonEmptyCons(a, Split(h1, "/"));
    NonEmptyCons("", Split(h1, "/"));
  }

  /** Dropping or keeping the first string of a list. */
  lemma NonEmptyCons(x: string, xs: seq<string>)
    ensures NonEmpty([x] + xs) == if x == "" then NonEmpty(xs) else [x] + NonEmpty(xs)
  {
    assert ([x] + xs)[1..] == xs;
  }

  /** Before its query, a path that follows a segment is empty or starts a new segment. */
  lemma QueryHead(rest: string)
    requires EndsSegment(rest)
    ensures BeforeQuery(rest) == "" || BeforeQuery(rest)[0] == '/'
  {
    if rest != "" && rest[0] == '?' {
      SplitAtFirst("", '?', rest[1..]);
      assert rest == [] + ['?'] + rest[1..];
    } else if rest != "" {
      SplitHeadAppend("/", '?', rest[1..]);
      assert rest == "/" + rest[1..];
    }
  }

  /** A path whose segments start `v3`, `r` belongs to resource `r`, unless `r` is `admin`. */
  lemma V3Resource(endpointPath: string, r: string, more: seq<string>)
    requires PathSegments(endpointPath) == ["v3", r] + more && r != "admin"
    ensures ExtractResourceGroup(endpointPath) == r
  {
  }

  /** A path whose segments start `v3`, `admin`, `r` belongs to resource `r`. */
  lemma V3AdminResource(endpointPath: string, r: string, more: seq<string>)
    requires PathSegments(endpointPath) == ["v3", "admin", r] + more
    ensures ExtractResourceGroup(endpointPath) == r
  {
  }

  /** A path whose only segments are `v3` and `admin` belongs to resource `admin`. */
  lemma V3AdminAlone(endpointPath: string)
    requires PathSegments(endpointPath) == ["v3", "admin"]
    ensures ExtractResourceGroup(endpointPath) == "admin"
  {
  }

  /** Any other path belongs to its first segment, including the path `/v3` alone. */
  lemma OtherResource(endpointPath: string, a: string, more: seq<string>)
    requires PathSegments(endpointPath) == [a] + more && (a != "v3" || more == [])
    ensures ExtractResourceGroup(endpointPath) == a
  {
  }

  /* ---------------------------------------------------------------------------------------
   * Aspects, endpoint lines and tasks
   * ------------------------------------------------------------------------------------- */

  /** One review aspect: its title and its one-line summary. */
  datatype Aspect = Aspect(title: string, body: string)

  /** `getAspects`: the eleven aspects every endpoint is reviewed for, in order. */
  function Aspects(): (aspects: seq<Aspect>)
    ensures |aspects| == 11
  {
    seq(11, k requires 0 <= k < 11 => AspectAt(k))
  }

  /** Entry `k` of the aspect list. */
  function AspectAt(k: int): Aspect
    requires 0 <= k < 11
  {
    match k
    case 0 => Aspect("Path", "Verify the endpoint path and its parameters.")
    case 1 => Aspect("Request Schema", "Verify the request body schema.")
    case 2 => Aspect("Request Parameters", "Verify the request parameters for the endpoint.")
    case 3 => Aspect("Request Headers", "Verify the request headers.")
    case 4 => Aspect("Response Body", "Verify the response body for all possible response codes.")
    case 5 => Aspect("Response Headers", "Verify the response headers.")
    case 6 => Aspect("Response Codes", "Verify the HTTP response status codes.")
    case 7 => Aspect("Error Handling", "Verify the error responses for the endpoint.")
    case 8 => Aspect("Summary and Description", "Verify the summary and description for the operation.")
    case 9 => Aspect("Tags", "Verify the tags associated with the operation.")
    case 10 => Aspect("Security", "Verify the security requirements for the endpoint.")
  }

  /** No two aspects share a title, so no two tasks of one endpoint share an `Aspect:` label. */
  lemma AspectTitlesDistinct()
    ensures forall i, j :: 0 <= i < j < |Aspects()| ==> Aspects()[i].title != Aspects()[j].title
  {
  }

  /** One line of the endpoint list: an HTTP method and a path. */
  datatype Endpoint = Endpoint(verb: string, path: string)

  /**
   * The endpoint on one line: the first two space-separated words of the trimmed line, or
   * nothing for a blank line or a line lacking either word.
   */
  function ParseLine(line: string): Option<Endpoint> {
    var trimmedLine := Trim(line);
    if trimmedLine == "" then None else FirstTwoWords(trimmedLine)
  }

  /** `const [method, endpointPath] = trimmedLine.split(' ')`, and no endpoint when either of
      the two is missing or empty. */
  function FirstTwoWords(trimmedLine: string): Option<Endpoint> {
    var parts := Split(trimmedLine, " ");
    if parts[0] == "" || |parts| < 2 || parts[1] == "" then None
    else Some(Endpoint(parts[0], parts[1]))
  }

  /**
   * A blank line holds no endpoint; a parsed endpoint has a non-empty method and path, neither
   * holding a space, and the trimmed line starts with the method, a space and the path.
   */
  lemma ParseLineSpec(line: string)
    ensures Trim(line) == "" ==> ParseLine(line).None?
    ensures ParseLine(line).Some? ==> ParseLine(line).value.verb != "" && ParseLine(line).value.path != ""
    ensures ParseLine(line).Some? ==> ' ' !in ParseLine(line).value.verb && ' ' !in ParseLine(line).value.path
    ensures ParseLine(line).Some? ==>
      var e := ParseLine(line).value.verb + " " + ParseLine(line).value.path;
      |e| <= |Trim(line)| && Trim(line)[..|e|] == e
  {
    var trimmedLine := Trim(line);
    if trimmedLine != "" {
      var parts := Split(trimmedLine, " ");
      SplitCharPiecesFree(trimmedLine, ' ');
      if parts[0] != "" && |parts| >= 2 && parts[1] != "" {
        assert trimmedLine == parts[0] + " " + Join(parts[1..], " ");
        SplitHeadIsPrefix(Join(parts[1..], " "), " ");
        assert Split(Join(parts[1..], " "), " ")[0] == parts[1] by {
          SplitRejoin(parts[1..]);
        }
      }
    }
  }

  /**
   * Which non-blank lines hold an endpoint. A trimmed line without a space holds none; in one
   * with a space, the first space is neither first nor last, and the line holds none exactly
   * when a second space follows it at once. A parsed method and path are whole words: after
   * them the trimmed line ends or has a space.
   */
  lemma ParseLineWords(line: string)
    ensures var t := Trim(line); t != "" && ' ' !in t ==> ParseLine(line).None?
    ensures var t := Trim(line);
      forall i :: 0 <= i < |t| && t[i] == ' ' && ' ' !in t[..i] ==>
        0 < i && i + 1 < |t| && (ParseLine(line).None? <==> t[i + 1] == ' ')
    ensures ParseLine(line).Some? ==>
      var t, e := Trim(line), ParseLine(line).value;
      var n := |e.verb| + 1 + |e.path|;
      n <= |t| && t[..n] == e.verb + " " + e.path && (n == |t| || t[n] == ' ')
  {
    var t := Trim(line);
    TrimEnds(line);
    if t != "" {
      assert ParseLine(line) == FirstTwoWords(t);
      FirstSpaceDecides(t);
      WholeWords(t);
    }
  }

  /** For a trimmed line, the first space decides: none, or a second space right after it,
      leaves no endpoint. */
  lemma FirstSpaceDecides(t: string)
    requires t != "" && !IsSpace(t[0]) && !IsSpace(t[|t| - 1])
    ensures ' ' !in t ==> FirstTwoWords(t).None?
    ensures forall i :: 0 <= i < |t| && t[i] == ' ' && ' ' !in t[..i] ==>
      0 < i && i + 1 < |t| && (FirstTwoWords(t).None? <==> t[i + 1] == ' ')
  {
    if ' ' in t {
      var parts := Split(t, " ");
      SplitAtSpace(t);
      var i0 := |parts[0]|;
      FirstOccurrence(t, ' ', i0);
      SplitCharPiecesFree(t, ' ');
      WordAfterSpace(parts[1..], t[i0 + 1..]);
      assert t[i0 + 1] == t[i0 + 1..][0];
    } else {
      SplitWithout(t, ' ');
    }
  }

  /** For a trimmed line, a parsed method and path are whole words. */
  lemma WholeWords(t: string)
    requires t != "" && !IsSpace(t[0]) && !IsSpace(t[|t| - 1])
    ensures FirstTwoWords(t).Some? ==>
      var e := FirstTwoWords(t).value;
      var n := |e.verb| + 1 + |e.path|;
      n <= |t| && t[..n] == e.verb + " " + e.path && (n == |t| || t[n] == ' ')
  {
    var parts := Split(t, " ");
    if ' ' !in t {
      SplitWithout(t, ' ');
    } else if FirstTwoWords(t).Some? {
      SplitAtSpace(t);
      var i0 := |parts[0]|;
      SplitCharPiecesFree(t, ' ');
      var rest := t[i0 + 1..];
      WordAfterSpace(parts[1..], rest);
      var n := i0 + 1 + |parts[1]|;
      assert t[..n] == t[..i0] + " " + rest[..|parts[1]|];
      assert n < |t| ==> t[n] == rest[|parts[1]|];
    }
  }

  /** A trimmed line with a space splits into at least two pieces, and the first one is the
      non-empty text before the first space, which is not the last character. */
  lemma SplitAtSpace(t: string)
    requires t != "" && !IsSpace(t[0]) && !IsSpace(t[|t| - 1]) && ' ' in t
    ensures var parts := Split(t, " ");
      && |parts| >= 2 && parts[0] != "" && |parts[0]| + 1 < |t|
      && t[..|parts[0]|] == parts[0] && ' ' !in parts[0] && t[|parts[0]|] == ' '
      && t[|parts[0]| + 1..] == Join(parts[1..], " ")
  {
    var parts := Split(t, " ");
    SplitCharPiecesFree(t, ' ');
    IncludesChar(t, ' ');
    SplitsIffIncludes(t, " ");
    var rest := Join(parts[1..], " ");
    assert t == parts[0] + " " + rest;
  }

  /** Only one position holds a character with no copy of it before. */
  lemma FirstOccurrence(t: string, c: char, i0: int)
    requires 0 <= i0 < |t| && t[i0] == c && c !in t[..i0]
    ensures forall i :: 0 <= i < |t| && t[i] == c && c !in t[..i] ==> i == i0
  {
  }

  /** The text after the first space, rejoined from its space-free pieces: it starts with a
      space exactly when the first piece is empty, and after the first piece it ends or has a
      space. */
  lemma WordAfterSpace(pieces: seq<string>, rest: string)
    requires |pieces| >= 1 && rest == Join(pieces, " ") && rest != ""
    requires forall i :: 0 <= i < |pieces| ==> ' ' !in pieces[i]
    ensures rest[0] == ' ' <==> pieces[0] == ""
    ensures |pieces[0]| <= |rest| && rest[..|pieces[0]|] == pieces[0]
    ensures |pieces| == 1 <==> |pieces[0]| == |rest|
    ensures |pieces| > 1 ==> rest[|pieces[0]|] == ' '
  {
    if |pieces| > 1 {
      assert rest == pieces[0] + " " + Join(pieces[1..], " ");
    }
    assert pieces[0] != "" ==> rest[0] == pieces[0][0];
  }

  /** Pieces free of the separator split back into themselves after joining. */
  lemma {:induction false} SplitRejoin(parts: seq<string>)
    requires |parts| >= 1 && forall i :: 0 <= i < |parts| ==> ' ' !in parts[i]
    ensures Split(Join(parts, " "), " ") == parts
    decreases |parts|
  {
    if |parts| == 1 {
      SplitWithout(parts[0], ' ');
    } else {
      SplitRejoin(parts[1..]);
      SplitAtFirst(parts[0], ' ', Join(parts[1..], " "));
      assert Join(parts, " ") == parts[0] + [' '] + Join(parts[1..], " ");
    }
  }

  /** A line written as `<method> <path>` reads back as that endpoint. */
  lemma ParseLineRoundTrip(verb: string, path: string)
    requires verb != "" && path != ""
    requires ' ' !in verb && ' ' !in path
    requires !IsSpace(verb[0]) && !IsSpace(path[|path| - 1])
    ensures ParseLine(verb + " " + path) == Some(Endpoint(verb, path))
  {
    var line := verb + " " + path;
    assert line[0] == verb[0] && line[|line| - 1] == path[|path| - 1];
    TrimUnchanged(line);
    SplitRejoin([verb, path]);
    assert Join([verb, path], " ") == line by {
      assert [verb, path][1..] == [path];
    }
  }

  /** The endpoints of the lines that hold one, in order. */
  function EndpointsOf(lines: seq<string>): seq<Endpoint>
    decreases |lines|
  {
    if lines == [] then []
    else
      var prefix := EndpointsOf(lines[..|lines| - 1]);
      match ParseLine(lines[|lines| - 1])
      case Some(e) => prefix + [e]
      case None => prefix
  }

  /** Reading one more line adds its endpoint, if it holds one. */
  lemma EndpointsOfPush(lines: seq<string>, i: int)
    requires 0 <= i < |lines|
    ensures ParseLine(lines[i]).Some? ==>
      EndpointsOf(lines[..i + 1]) == EndpointsOf(lines[..i]) + [ParseLine(lines[i]).value]
    ensures ParseLine(lines[i]).None? ==> EndpointsOf(lines[..i + 1]) == EndpointsOf(lines[..i])
  {
    assert lines[..i + 1][..i] == lines[..i];
  }

  /** The endpoints listed in the endpoint file, one per valid line. */
  function Endpoints(text: string): seq<Endpoint> {
    EndpointsOf(Split(text, "\n"))
  }

  /** One audit task: an endpoint reviewed for one aspect. */
  datatype Task = Task(verb: string, path: string, aspect: Aspect)

  /** The five labels an audit task's issue carries, in the order the script lists them. */
  function TaskLabels(t: Task): seq<string> {
    [ "OpenAPI", "Quality Check", "Method: " + t.verb, "Aspect: " + t.aspect.title,
      "Resource: " + ExtractResourceGroup(t.path) ]
  }

  /** The five labels of a task are distinct: their first characters already differ. */
  lemma TaskLabelsDistinct(t: Task)
    ensures |TaskLabels(t)| == 5 && NoDuplicates(TaskLabels(t))
  {
    var ls := TaskLabels(t);
    assert ls[0][0] == 'O' && ls[1][0] == 'Q' && ls[2][0] == 'M' && ls[3][0] == 'A' && ls[4][0] == 'R';
  }

  /** The tasks for one endpoint: one per aspect, in aspect order. */
  function AspectTasks(e: Endpoint, aspects: seq<Aspect>): (ts: seq<Task>)
    ensures |ts| == |aspects|
    ensures forall j :: 0 <= j < |aspects| ==> ts[j] == Task(e.verb, e.path, aspects[j])
    decreases |aspects|
  {
    if aspects == [] then []
    else AspectTasks(e, aspects[..|aspects| - 1]) + [Task(e.verb, e.path, aspects[|aspects| - 1])]
  }

  /** The tasks for a list of endpoints: line-major, then aspect. */
  function TasksFor(eps: seq<Endpoint>): seq<Task>
    decreases |eps|
  {
    if eps == [] then [] else TasksFor(eps[..|eps| - 1]) + AspectTasks(eps[|eps| - 1], Aspects())
  }

  /** One more endpoint appends its tasks. */
  lemma TasksForPush(eps: seq<Endpoint>, e: Endpoint)
    ensures TasksFor(eps + [e]) == TasksFor(eps) + AspectTasks(e, Aspects())
  {
    assert (eps + [e])[..|eps|] == eps;
  }

  /** There are eleven tasks per endpoint, and task `11 * i + j` is endpoint `i` with aspect `j`. */
  lemma {:induction false} TasksForShape(eps: seq<Endpoint>)
    ensures |TasksFor(eps)| == 11 * |eps|
    ensures forall i, j :: 0 <= i < |eps| && 0 <= j < 11 ==>
      TasksFor(eps)[11 * i + j] == Task(eps[i].verb, eps[i].path, Aspects()[j])
    decreases |eps|
  {
    if eps != [] {
      var init := eps[..|eps| - 1];
      TasksForShape(init);
      var ts := TasksFor(eps);
      assert ts == TasksFor(init) + AspectTasks(eps[|eps| - 1], Aspects());
      forall i, j | 0 <= i < |eps| && 0 <= j < 11
        ensures ts[11 * i + j] == Task(eps[i].verb, eps[i].path, Aspects()[j])
      {
        if i < |eps| - 1 {
          assert eps[i] == init[i];
        }
      }
    }
  }

  /** The labels of the tasks, task after task, duplicates included. */
  function LabelStream(tasks: seq<Task>): seq<string> {
    Flatten(tasks, TaskLabels)
  }

  /** The lists `f(x)` of the elements `x` of `xs`, concatenated in order. */
  function Flatten<T>(xs: seq<T>, f: T -> seq<string>): seq<string>
    decreases |xs|
  {
    if xs == [] then [] else Flatten(xs[..|xs| - 1], f) + f(xs[|xs| - 1])
  }

  /** A string is in the concatenation exactly when it is in one of the lists. */
  lemma {:induction false} FlattenMembers<T>(xs: seq<T>, f: T -> seq<string>)
    ensures forall i, l :: 0 <= i < |xs| && l in f(xs[i]) ==> l in Flatten(xs, f)
    ensures forall l :: l in Flatten(xs, f) ==> exists i :: 0 <= i < |xs| && l in f(xs[i])
    decreases |xs|
  {
    if xs != [] {
      var init := xs[..|xs| - 1];
      var n := |xs| - 1;
      FlattenMembers(init, f);
      forall i, l | 0 <= i < |xs| && l in f(xs[i])
        ensures l in Flatten(xs, f)
      {
        if i < n {
          assert xs[i] == init[i];
        }
      }
      forall l | l in Flatten(xs, f)
        ensures exists i :: 0 <= i < |xs| && l in f(xs[i])
      {
        if l !in f(xs[n]) {
          var i :| 0 <= i < |init| && l in f(init[i]);
          assert xs[i] == init[i];
        }
      }
    }
  }

  /** `known.add(x)` on an insertion-ordered set held as a sequence. */
  function Insert(known: seq<string>, x: string): seq<string> {
    if x in known then known else known + [x]
  }

  /** Adding the elements of `xs` one after the other. */
  function InsertAll(known: seq<string>, xs: seq<string>): seq<string>
    decreases |xs|
  {
    if xs == [] then known else Insert(InsertAll(known, xs[..|xs| - 1]), xs[|xs| - 1])
  }

  /** Adding `xs` then `ys` is adding `xs + ys`. */
  lemma {:induction false} InsertAllAppend(known: seq<string>, xs: seq<string>, ys: seq<string>)
    ensures InsertAll(known, xs + ys) == InsertAll(InsertAll(known, xs), ys)
    decreases |ys|
  {
    if ys == [] {
      assert xs + ys == xs;
    } else {
      var n := |ys| - 1;
      InsertAllAppend(known, xs, ys[..n]);
      assert (xs + ys)[..|xs + ys| - 1] == xs + ys[..n];
      assert (xs + ys)[|xs + ys| - 1] == ys[n];
    }
  }

  /** Adding five elements, one after the other. */
  lemma InsertAllFive(known: seq<string>, ls: seq<string>)
    requires |ls| == 5
    ensures InsertAll(known, ls)
         == Insert(Insert(Insert(Insert(Insert(known, ls[0]), ls[1]), ls[2]), ls[3]), ls[4])
  {
    assert InsertAll(known, ls[..1]) == Insert(known, ls[0]) by {
      assert ls[..1][..0] == [];
    }
    assert InsertAll(known, ls[..2]) == Insert(InsertAll(known, ls[..1]), ls[1]) by {
      assert ls[..2][..1] == ls[..1];
    }
    assert InsertAll(known, ls[..3]) == Insert(InsertAll(known, ls[..2]), ls[2]) by {
      assert ls[..3][..2] == ls[..2];
    }
    assert InsertAll(known, ls[..4]) == Insert(InsertAll(known, ls[..3]), ls[3]) by {
      assert ls[..4][..3] == ls[..3];
    }
  }

  /**
   * The insertion-ordered set semantics: the result holds no duplicate, holds exactly the old
   * elements and the added ones, and keeps the old elements first, in their old order.
   */
  lemma {:induction false} InsertAllIsOrderedSet(known: seq<string>, xs: seq<string>)
    requires NoDuplicates(known)
    ensures NoDuplicates(InsertAll(known, xs))
    ensures forall x :: x in InsertAll(known, xs) <==> x in known || x in xs
    ensures |known| <= |InsertAll(known, xs)| && InsertAll(known, xs)[..|known|] == known
    decreases |xs|
  {
    if xs != [] {
      var init := xs[..|xs| - 1];
      InsertAllIsOrderedSet(known, init);
      var before := InsertAll(known, init);
      assert xs == init + [xs[|xs| - 1]];
      if xs[|xs| - 1] !in before {
        assert (before + [xs[|xs| - 1]])[..|known|] == before[..|known|];
      }
    }
  }

  /** Appending a task adds its five labels to the label set. */
  lemma LabelStreamPush(tasks: seq<Task>, t: Task)
    ensures InsertAll([], LabelStream(tasks + [t]))
         == InsertAll(InsertAll([], LabelStream(tasks)), TaskLabels(t))
  {
    assert (tasks + [t])[..|tasks + [t]| - 1] == tasks;
    assert Flatten(tasks + [t], TaskLabels) == Flatten(tasks, TaskLabels) + TaskLabels(t);
    InsertAllAppend([], LabelStream(tasks), TaskLabels(t));
  }

  /**
   * `buildTasksAndLabels`: walks the lines of the endpoint file; for each valid line, and for
   * each aspect, adds the five labels of the task to the label set and appends the task.
   */
  method BuildTasksAndLabels(endpoints: string) returns (allLabels: seq<string>, tasks: seq<Task>)
    ensures tasks == TasksFor(Endpoints(endpoints))
    ensures allLabels == InsertAll([], LabelStream(tasks))
  {
    allLabels := [];
    tasks := [];
    var lines := Split(endpoints, "\n");
    for i := 0 to |lines|
      invariant tasks == TasksFor(EndpointsOf(lines[..i]))
      invariant allLabels == InsertAll([], LabelStream(tasks))
    {
      allLabels, tasks := AddLineTasks(lines, i, allLabels, tasks);
    }
    assert lines[..|lines|] == lines;
  }

  /** The label set built from a task list is a set of exactly the labels of those tasks. */
  lemma LabelSetFacts(tasks: seq<Task>)
    ensures NoDuplicates(InsertAll([], LabelStream(tasks)))
    ensures forall i, l :: 0 <= i < |tasks| && l in TaskLabels(tasks[i]) ==>
      l in InsertAll([], LabelStream(tasks))
    ensures forall l :: l in InsertAll([], LabelStream(tasks)) ==>
      exists i :: 0 <= i < |tasks| && l in TaskLabels(tasks[i])
  {
    InsertAllIsOrderedSet([], LabelStream(tasks));
    FlattenMembers(tasks, TaskLabels);
  }

  /** The body of the line loop of `buildTasksAndLabels`, for line `i`. */
  method AddLineTasks(lines: seq<string>, i: int, labelsBefore: seq<string>, tasksBefore: seq<Task>)
    returns (allLabels: seq<string>, tasks: seq<Task>)
    requires 0 <= i < |lines|
    requires tasksBefore == TasksFor(EndpointsOf(lines[..i]))
    requires labelsBefore == InsertAll([], LabelStream(tasksBefore))
    ensures tasks == TasksFor(EndpointsOf(lines[..i + 1]))
    ensures allLabels == InsertAll([], LabelStream(tasks))
  {
    allLabels, tasks := labelsBefore, tasksBefore;
    EndpointsOfPush(lines, i);
    var parsed := ParseLine(lines[i]);
    if parsed.Some? {
      TasksForPush(EndpointsOf(lines[..i]), parsed.value);
      var aspects := Aspects();
      allLabels, tasks := AddAspectTasks(parsed.value, aspects, allLabels, tasks);
    }
  }

  /** The per-aspect step of `buildTasksAndLabels` for one endpoint line. */
  method AddAspectTasks(e: Endpoint, aspects: seq<Aspect>, labelsBefore: seq<string>,
                        tasksBefore: seq<Task>)
    returns (allLabels: seq<string>, tasks: seq<Task>)
    requires labelsBefore == InsertAll([], LabelStream(tasksBefore))
    ensures tasks == tasksBefore + AspectTasks(e, aspects)
    ensures allLabels == InsertAll([], LabelStream(tasks))
  {
    allLabels, tasks := labelsBefore, tasksBefore;
    for j := 0 to |aspects|
      invariant tasks == tasksBefore + AspectTasks(e, aspects[..j])
      invariant allLabels == InsertAll([], LabelStream(tasks))
    {
      var aspect := aspects[j];
      var task := Task(e.verb, e.path, aspect);
      AspectTasksPush(e, aspects, j);
      allLabels := AddTaskLabels(allLabels, tasks, task);
      tasks := tasks + [task];
    }
    assert aspects[..|aspects|] == aspects;
  }

  /** One more aspect appends one task, after the earlier ones. */
  lemma AspectTasksPush(e: Endpoint, aspects: seq<Aspect>, j: int)
    requires 0 <= j < |aspects|
    ensures forall before: seq<Task> ::
      before + AspectTasks(e, aspects[..j + 1])
        == (before + AspectTasks(e, aspects[..j])) + [Task(e.verb, e.path, aspects[j])]
  {
    assert aspects[..j + 1][..j] == aspects[..j];
    var done := AspectTasks(e, aspects[..j]);
    var task := Task(e.verb, e.path, aspects[j]);
    assert AspectTasks(e, aspects[..j + 1]) == done + [task];
    forall before: seq<Task>
      ensures before + (done + [task]) == (before + done) + [task]
    {
    }
  }

  /** The five `allLabels.add` calls for one task. */
  method AddTaskLabels(labelsBefore: seq<string>, ghost tasks: seq<Task>, task: Task)
    returns (allLabels: seq<string>)
    requires labelsBefore == InsertAll([], LabelStream(tasks))
    ensures allLabels == InsertAll([], LabelStream(tasks + [task]))
  {
    LabelStreamPush(tasks, task);
    InsertAllFive(labelsBefore, TaskLabels(task));
    allLabels := Insert(labelsBefore, "OpenAPI");
    allLabels := Insert(allLabels, "Quality Check");
    allLabels := Insert(allLabels, "Method: " + task.verb);
    allLabels := Insert(allLabels, "Aspect: " + task.aspect.title);
    var resourceGroup := ExtractResourceGroup(task.path);
    allLabels := Insert(allLabels, "Resource: " + resourceGroup);
  }
}
