/**
 * The catalog block of the system prompt: one line per project of the knowledge base,
 * in catalog order, under a fixed heading. The surrounding prompt prose is constant text.
 */
module Prompt {
  import opened Wrappers

  /** A catalog entry of the knowledge base, its five fields already rendered as text. */
  datatype Project = Project(name: string, code: string, client: string, task: string, taskId: string)

  const ListingHeading: string := "AVAILABLE PROJECTS:\n"

  /** `s` holds `t` at position `k`. */
  predicate At(s: string, t: string, k: int)
  {
    0 <= k && k + |t| <= |s| && s[k..k + |t|] == t
  }

  /** The number of times `c` occurs in `s`. */
  function Occurrences(s: string, c: char): (n: nat)
    ensures n <= |s|
    ensures n == 0 <==> c !in s
  {
    if s == [] then 0 else Occurrences(s[..|s| - 1], c) + (if s[|s| - 1] == c then 1 else 0)
  }

  /** Occurrences in a joined text add up. */
  lemma {:induction false} OccurrencesAppend(a: string, b: string, c: char)
    ensures Occurrences(a + b, c) == Occurrences(a, c) + Occurrences(b, c)
    decreases |b|
  {
    if b != [] {
      assert (a + b)[..|a + b| - 1] == a + b[..|b| - 1];
      assert (a + b)[|a + b| - 1] == b[|b| - 1];
      OccurrencesAppend(a, b[..|b| - 1], c);
    } else {
      assert a + b == a;
    }
  }

  /** The listing line of one project. */
  function ProjectLine(p: Project): (line: string)
    ensures |line| == |p.name| + |p.code| + |p.client| + |p.task| + |p.taskId| + 41
  {
    "- " + p.name + " (Code: " + p.code + ", Client: " + p.client + ", Task: " + p.task
      + ", Task ID: " + p.taskId + ")\n"
  }

  /** A project's line starts with "- ", ends with its one newline and shows all five fields. */
  lemma LineShowsProject(p: Project)
    ensures var line := ProjectLine(p);
      && At(line, "- ", 0)
      && At(line, p.name, 2)
      && At(line, p.code, 2 + |p.name| + 8)
      && At(line, p.client, 2 + |p.name| + 8 + |p.code| + 10)
      && At(line, p.task, 2 + |p.name| + 8 + |p.code| + 10 + |p.client| + 8)
      && At(line, p.taskId, 2 + |p.name| + 8 + |p.code| + 10 + |p.client| + 8 + |p.task| + 11)
      && line[|line| - 1] == '\n'
  {
  }

  /** No field of the project holds a line break. */
  predicate SingleLine(p: Project)
  {
    '\n' !in p.name && '\n' !in p.code && '\n' !in p.client && '\n' !in p.task && '\n' !in p.taskId
  }

  /** A line built from single-line fields holds exactly one line break. */
  lemma LineHasOneBreak(p: Project)
    requires SingleLine(p)
    ensures Occurrences(ProjectLine(p), '\n') == 1
  {
    var body := "- " + p.name + " (Code: " + p.code + ", Client: " + p.client + ", Task: " + p.task
      + ", Task ID: " + p.taskId;
    assert ProjectLine(p) == body + ")\n";
    assert '\n' !in body;
    OccurrencesAppend(body, ")\n", '\n');
    assert ")\n"[..1] == ")";
  }

  /** The project lines of `ps`, in catalog order. */
  function Lines(ps: seq<Project>): string
  {
    if ps == [] then "" else Lines(ps[..|ps| - 1]) + ProjectLine(ps[|ps| - 1])
  }

  /** `projects_info` as the loop leaves it: empty without a "projects" key. */
  function Listing(projects: Option<seq<Project>>): (info: string)
    ensures projects.None? ==> info == ""
    ensures projects.Some? ==> |ListingHeading| <= |info| && info[..|ListingHeading|] == ListingHeading
  {
    match projects
    case None => ""
    case Some(ps) => ListingHeading + Lines(ps)
  }

  /** The loop of `create_system_prompt` that accumulates `projects_info`. */
  method ProjectsInfo(projects: Option<seq<Project>>) returns (info: string)
    ensures info == Listing(projects)
  {
    info := "";
    if projects.Some? {
      var ps := projects.value;
      info := ListingHeading;
      for i := 0 to |ps|
        invariant info == ListingHeading + Lines(ps[..i])
      {
        assert ps[..i + 1][..i] == ps[..i];
        info := info + ProjectLine(ps[i]);
      }
      assert ps[..|ps|] == ps;
    }
  }

  /** The lines of two catalogs one after the other are the lines of the joined catalog. */
  lemma {:induction false} LinesAppend(a: seq<Project>, b: seq<Project>)
    ensures Lines(a + b) == Lines(a) + Lines(b)
    decreases |b|
  {
    if b != [] {
      assert (a + b)[..|a + b| - 1] == a + b[..|b| - 1];
      assert (a + b)[|a + b| - 1] == b[|b| - 1];
      LinesAppend(a, b[..|b| - 1]);
    } else {
      assert a + b == a;
    }
  }

  /** The first `i + 1` projects give the lines of the first `i` and then line `i`. */
  lemma LinesExtend(ps: seq<Project>, i: int)
    requires 0 <= i < |ps|
    ensures Lines(ps[..i + 1]) == Lines(ps[..i]) + ProjectLine(ps[i])
  {
    assert ps[..i + 1][..i] == ps[..i];
  }

  /** Line `i` of the listing is the line of project `i`: the listing keeps catalog order. */
  lemma LinesInOrder(ps: seq<Project>, i: int)
    requires 0 <= i < |ps|
    ensures Lines(ps) == Lines(ps[..i]) + ProjectLine(ps[i]) + Lines(ps[i + 1..])
  {
    var head, tail := ps[..i + 1], ps[i + 1..];
    assert head + tail == ps;
    calc {
      Lines(ps);
      { LinesAppend(head, tail); }
      Lines(head) + Lines(tail);
      { LinesExtend(ps, i); }
      Lines(ps[..i]) + ProjectLine(ps[i]) + Lines(tail);
    }
  }

  /** The listing has one line break per project, so exactly one line per project. */
  lemma {:induction false} LinesCount(ps: seq<Project>)
    requires forall i :: 0 <= i < |ps| ==> SingleLine(ps[i])
    ensures Occurrences(Lines(ps), '\n') == |ps|
    decreases |ps|
  {
    if ps != [] {
      LinesCount(ps[..|ps| - 1]);
      OccurrencesAppend(Lines(ps[..|ps| - 1]), ProjectLine(ps[|ps| - 1]), '\n');
      LineHasOneBreak(ps[|ps| - 1]);
    }
  }

  /** With a catalog, the listing is the heading line and one line per project. */
  lemma ListingLineCount(ps: seq<Project>)
    requires forall i :: 0 <= i < |ps| ==> SingleLine(ps[i])
    ensures Occurrences(Listing(Some(ps)), '\n') == |ps| + 1
  {
    LinesCount(ps);
    OccurrencesAppend(ListingHeading, Lines(ps), '\n');
    assert Occurrences(ListingHeading, '\n') == 1 by {
      assert ListingHeading[..|ListingHeading| - 1] == "AVAILABLE PROJECTS:";
    }
  }
}
