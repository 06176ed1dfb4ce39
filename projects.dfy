/** Projects and the two status views' pure part (src/app.ts): which projects a list
    shows, and the titles it renders for them. */
module Projects {

  datatype ProjectStatus = Active | Finished

  /** A project record; `people` is the already-coerced head count. */
  datatype Project = Project(id: string, title: string, description: string, people: int, status: ProjectStatus)

  /** The `"active" | "finished"` type of a project list. */
  datatype ListType = ActiveList | FinishedList

  /** The filter callback of a list: an active list keeps active projects, any other
      list keeps finished ones. */
  predicate Relevant(p: Project, t: ListType) {
    if t == ActiveList then p.status == Active else p.status == Finished
  }

  /** `projects.filter(...)`: the projects a list of type `t` shows, in list order. */
  function RelevantProjects(ps: seq<Project>, t: ListType): (r: seq<Project>)
    ensures |r| <= |ps|
    ensures forall i :: 0 <= i < |r| ==> Relevant(r[i], t)
  {
    if ps == [] then []
    else
      (if Relevant(ps[0], t) then [ps[0]] else []) + RelevantProjects(ps[1..], t)
  }

  /** The list items a render produces: one title per shown project, in order. */
  function Titles(ps: seq<Project>): (r: seq<string>)
    ensures |r| == |ps|
    ensures forall i :: 0 <= i < |ps| ==> r[i] == ps[i].title
  {
    if ps == [] then [] else [ps[0].title] + Titles(ps[1..])
  }

  /** Filtering works segment by segment: it keeps the original relative order. */
  lemma {:induction false} RelevantProjectsAppend(a: seq<Project>, b: seq<Project>, t: ListType)
    ensures RelevantProjects(a + b, t) == RelevantProjects(a, t) + RelevantProjects(b, t)
  {
    if a == [] {
      assert a + b == b;
    } else {
      assert (a + b)[1..] == a[1..] + b;
      RelevantProjectsAppend(a[1..], b, t);
    }
  }

  /** A list shows exactly the projects of its status, each as often as it occurs. */
  lemma {:induction false} RelevantProjectsCount(ps: seq<Project>, t: ListType, p: Project)
    ensures multiset(RelevantProjects(ps, t))[p] == if Relevant(p, t) then multiset(ps)[p] else 0
  {
    if ps != [] {
      assert ps == [ps[0]] + ps[1..];
      RelevantProjectsCount(ps[1..], t, p);
    }
  }

  /** Membership form of the previous lemma. */
  lemma RelevantProjectsMembers(ps: seq<Project>, t: ListType, p: Project)
    ensures p in RelevantProjects(ps, t) <==> p in ps && Relevant(p, t)
  {
    RelevantProjectsCount(ps, t, p);
  }

  /** The active and the finished list together partition the snapshot. */
  lemma {:induction false} ViewsPartition(ps: seq<Project>)
    ensures multiset(RelevantProjects(ps, ActiveList)) + multiset(RelevantProjects(ps, FinishedList)) == multiset(ps)
    ensures |RelevantProjects(ps, ActiveList)| + |RelevantProjects(ps, FinishedList)| == |ps|
  {
    if ps != [] {
      assert ps == [ps[0]] + ps[1..];
      ViewsPartition(ps[1..]);
    }
  }

  /** No project is shown in both lists. */
  lemma ViewsDisjoint(ps: seq<Project>, p: Project)
    ensures !(p in RelevantProjects(ps, ActiveList) && p in RelevantProjects(ps, FinishedList))
  {
    RelevantProjectsMembers(ps, ActiveList, p);
    RelevantProjectsMembers(ps, FinishedList, p);
  }

  /** Rendering works segment by segment. */
  lemma {:induction false} TitlesAppend(a: seq<Project>, b: seq<Project>)
    ensures Titles(a + b) == Titles(a) + Titles(b)
  {
    if a == [] {
      assert a + b == b;
    } else {
      assert (a + b)[1..] == a[1..] + b;
      TitlesAppend(a[1..], b);
    }
  }

  /** Appending a new project changes only the list it belongs in, and that list gains
      exactly its title at the end. */
  lemma AppendedProjectShownLast(ps: seq<Project>, p: Project, t: ListType)
    ensures Relevant(p, t) ==> Titles(RelevantProjects(ps + [p], t)) == Titles(RelevantProjects(ps, t)) + [p.title]
    ensures !Relevant(p, t) ==> RelevantProjects(ps + [p], t) == RelevantProjects(ps, t)
  {
    RelevantProjectsAppend(ps, [p], t);
    assert RelevantProjects([p], t) == (if Relevant(p, t) then [p] else []) + RelevantProjects([], t);
    TitlesAppend(RelevantProjects(ps, t), RelevantProjects([p], t));
  }
}
