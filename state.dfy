/** The project store and the two list views that listen to it (src/app.ts). The store
    keeps an append-only list of projects and an append-only list of listeners; adding a
    project notifies every listener, in registration order, with a copy of the whole list.
    The only listeners the application registers are the project lists' callbacks, so a
    listener is modelled as the `ProjectList` whose callback it is. */
module State {
  import opened Projects

  /** One call of a listener: which list was called and the snapshot it received. */
  datatype Delivery = Delivery(listener: ProjectList, snapshot: seq<Project>)

  /** Every delivery went to a listener of `listeners` and carried a non-empty prefix of
      `projects`. */
  ghost predicate DeliveriesConsistent(deliveries: seq<Delivery>, listeners: seq<ProjectList>, projects: seq<Project>) {
    forall k :: 0 <= k < |deliveries| ==>
      deliveries[k].listener in listeners && deliveries[k].snapshot != [] && deliveries[k].snapshot <= projects
  }

  /** Appending to the project list keeps every earlier snapshot a prefix of it. */
  lemma ConsistentAfterGrowth(ds: seq<Delivery>, ls: seq<ProjectList>, ps: seq<Project>, ps': seq<Project>)
    requires DeliveriesConsistent(ds, ls, ps) && ps <= ps'
    ensures DeliveriesConsistent(ds, ls, ps')
  {
    forall k | 0 <= k < |ds| ensures ds[k].snapshot <= ps' {
      var snap := ds[k].snapshot;
      assert snap == ps[..|snap|] == ps'[..|snap|];
    }
  }

  /** The calls one notification round makes, in the order it makes them. */
  function Fanout(ls: seq<ProjectList>, snapshot: seq<Project>): (r: seq<Delivery>)
    ensures |r| == |ls|
  {
    if ls == [] then [] else Fanout(ls[..|ls| - 1], snapshot) + [Delivery(ls[|ls| - 1], snapshot)]
  }

  /** A round calls each listener once, in registration order, each with the same snapshot. */
  lemma {:induction false} FanoutAt(ls: seq<ProjectList>, snapshot: seq<Project>, i: nat)
    requires i < |ls|
    ensures Fanout(ls, snapshot)[i] == Delivery(ls[i], snapshot)
  {
    if i < |ls| - 1 {
      FanoutAt(ls[..|ls| - 1], snapshot, i);
    }
  }

  /** A sequence that delivers the snapshot to each listener in turn is that round. */
  lemma FanoutIs(ls: seq<ProjectList>, snapshot: seq<Project>, r: seq<Delivery>)
    requires |r| == |ls| && forall j :: 0 <= j < |ls| ==> r[j] == Delivery(ls[j], snapshot)
    ensures r == Fanout(ls, snapshot)
  {
    forall j | 0 <= j < |ls| ensures r[j] == Fanout(ls, snapshot)[j] {
      FanoutAt(ls, snapshot, j);
    }
  }

  /** A notification round with the current, non-empty list keeps the trace consistent. */
  lemma ConsistentAfterFanout(ds: seq<Delivery>, ls: seq<ProjectList>, ps: seq<Project>)
    requires DeliveriesConsistent(ds, ls, ps) && ps != []
    ensures DeliveriesConsistent(ds + Fanout(ls, ps), ls, ps)
  {
    var all := ds + Fanout(ls, ps);
    forall k | 0 <= k < |all|
      ensures all[k].listener in ls && all[k].snapshot != [] && all[k].snapshot <= ps
    {
      if k < |ds| {
        assert all[k] == ds[k];
      } else {
        FanoutAt(ls, ps, k - |ds|);
        assert all[k] == Delivery(ls[k - |ds|], ps);
      }
    }
  }

  /** Registering one more listener keeps the trace consistent. */
  lemma ConsistentAfterRegistration(ds: seq<Delivery>, ls: seq<ProjectList>, ps: seq<Project>, l: ProjectList)
    requires DeliveriesConsistent(ds, ls, ps)
    ensures DeliveriesConsistent(ds, ls + [l], ps)
  {
  }

  /** A project list view: keeps the projects of its status and the titles it shows. */
  class ProjectList {
    const listType: ListType
    var assignedProjects: seq<Project>
    /** The `li` items of the rendered list, as their text. */
    var renderedTitles: seq<string>

    /** Creates an empty list of the given type and registers its callback with `state`. */
    constructor (listType: ListType, state: ProjectState)
      requires state.Valid()
      modifies state
      ensures this.listType == listType && assignedProjects == [] && renderedTitles == []
      ensures state.Valid()
      ensures state.listeners == old(state.listeners) + [this]
      ensures state.projects == old(state.projects) && state.deliveries == old(state.deliveries)
    {
      this.listType := listType;
      assignedProjects := [];
      renderedTitles := [];
      new;
      state.AddListener(this);
    }

    /** The list shows exactly the projects of its status in `projects`, as their titles. */
    ghost predicate Shows(projects: seq<Project>)
      reads this
    {
      && assignedProjects == RelevantProjects(projects, listType)
      && renderedTitles == Titles(RelevantProjects(projects, listType))
    }

    /** The registered callback: keep the relevant projects, then render them. */
    method OnProjectsChanged(projects: seq<Project>)
      modifies this
      ensures assignedProjects == RelevantProjects(projects, listType)
      ensures renderedTitles == Titles(assignedProjects)
      ensures Shows(projects)
    {
      assignedProjects := RelevantProjects(projects, listType);
      RenderProjects();
    }

    /** `renderProjects`: clears the list, then appends one item per assigned project.
        The result does not depend on what was shown before. */
    method RenderProjects()
      modifies this`renderedTitles
      ensures renderedTitles == Titles(assignedProjects)
    {
      renderedTitles := [];
      for i := 0 to |assignedProjects|
        invariant renderedTitles == Titles(assignedProjects[..i])
      {
        assert assignedProjects[..i + 1] == assignedProjects[..i] + [assignedProjects[i]];
        TitlesAppend(assignedProjects[..i], [assignedProjects[i]]);
        renderedTitles := renderedTitles + [assignedProjects[i].title];
      }
      assert assignedProjects[..|assignedProjects|] == assignedProjects;
    }
  }

  /** The project store. */
  class ProjectState {
    var listeners: seq<ProjectList>
    var projects: seq<Project>
    /** Every listener call so far, in the order the calls were made. */
    ghost var deliveries: seq<Delivery>

    /** Every delivery went to a registered listener and carried a non-empty prefix of
        the current list: the list only grows, and a snapshot is taken after the add. */
    ghost predicate Valid()
      reads this
    {
      DeliveriesConsistent(deliveries, listeners, projects)
    }

    /** Every registered list shows exactly the projects of its status, as their titles. */
    ghost predicate ViewsInSync()
      reads this, listeners
    {
      forall l :: l in listeners ==> l.Shows(projects)
    }

    constructor ()
      ensures Valid()
      ensures listeners == [] && projects == [] && deliveries == []
    {
      listeners := [];
      projects := [];
      deliveries := [];
    }

    /** `addListener`: appends one listener; nothing else changes. */
    method AddListener(listener: ProjectList)
      requires Valid()
      modifies this
      ensures Valid()
      ensures listeners == old(listeners) + [listener]
      ensures projects == old(projects) && deliveries == old(deliveries)
    {
      ConsistentAfterRegistration(deliveries, listeners, projects, listener);
      listeners := listeners + [listener];
    }

    /** `addProject`: appends a new active project, then calls every listener once, in
        registration order, each with a copy of the whole list. `id` is the generated id. */
    method AddProject(id: string, title: string, description: string, people: int)
      requires Valid()
      modifies this, listeners
      ensures Valid()
      ensures projects == old(projects) + [Project(id, title, description, people, Active)]
      ensures listeners == old(listeners)
      ensures deliveries == old(deliveries) + Fanout(listeners, projects)
      ensures ViewsInSync()
    {
      var newProject := Project(id, title, description, people, Active);
      ConsistentAfterGrowth(deliveries, listeners, projects, projects + [newProject]);
      projects := projects + [newProject];
      NotifyListeners();
    }

    method NotifyListeners()
      requires Valid() && projects != []
      modifies this`deliveries, listeners
      ensures Valid()
      ensures deliveries == old(deliveries) + Fanout(listeners, projects)
      ensures ViewsInSync()
    {
      ghost var round: seq<Delivery> := [];
      for i := 0 to |listeners|
        invariant deliveries == old(deliveries)
        invariant |round| == i
        invariant forall j {:trigger round[j]} :: 0 <= j < i ==> round[j] == Delivery(listeners[j], projects)
        invariant forall j {:trigger listeners[j].Shows(projects)} :: 0 <= j < i ==> listeners[j].Shows(projects)
      {
        var snapshot := projects;
        listeners[i].OnProjectsChanged(snapshot);
        round := round + [Delivery(listeners[i], snapshot)];
      }
      FanoutIs(listeners, projects, round);
      ConsistentAfterFanout(deliveries, listeners, projects);
      deliveries := deliveries + round;
      forall l | l in listeners ensures l.Shows(projects) {
        var j :| 0 <= j < |listeners| && listeners[j] == l;
      }
    }
  }

  /** The store's single shared instance (the static `instance` field). */
  class ProjectStateHolder {
    var instance: ProjectState?

    constructor ()
      ensures instance == null
    {
      instance := null;
    }

    /** `getInstance`: the first call creates the store, every later call returns it. */
    method GetInstance() returns (s: ProjectState)
      modifies this
      ensures old(instance) != null ==> s == old(instance)
      ensures old(instance) == null ==> fresh(s) && s.Valid() && s.listeners == [] && s.projects == [] && s.deliveries == []
      ensures instance == s
    {
      if instance != null {
        return instance;
      }
      instance := new ProjectState();
      s := instance;
    }
  }
}
