/** The project form (src/app.ts): on submit it validates the three entered values and,
    only when all three pass, adds the project to the store and clears its fields.
    The numeric coercion of the people field (`+enteredPeople`) is host behaviour and is
    passed in as `toNumber`; the generated project id is passed in as `id`. */
module Input {
  import opened Validation
  import opened Projects
  import opened State

  /** The title must be non-blank and at least five characters long. */
  function TitleRule(title: string): Validatable {
    Validatable(Str(title), true, Some(5), None, None, None)
  }

  /** The description has the same rule as the title. */
  function DescriptionRule(description: string): Validatable {
    Validatable(Str(description), true, Some(5), None, None, None)
  }

  /** The head count is only `required`. */
  function PeopleRule(people: int): Validatable {
    Validatable(Num(people), true, None, None, None, None)
  }

  /** The three validations the form runs, ANDed. */
  ghost predicate InputAccepted(title: string, description: string, people: int) {
    Satisfies(TitleRule(title)) && Satisfies(DescriptionRule(description)) && Satisfies(PeopleRule(people))
  }

  /** The submit decision in plain terms: title and description each hold some
      non-white-space character and are at least five long; the count never matters. */
  lemma InputAcceptedExactly(title: string, description: string, people: int)
    ensures InputAccepted(title, description, people) <==>
      HasText(title) && |title| >= 5 && HasText(description) && |description| >= 5
  {
    SatisfiesExactly(TitleRule(title));
    SatisfiesExactly(DescriptionRule(description));
    SatisfiesExactly(PeopleRule(people));
    TrimEmptyIffBlank(title);
    TrimEmptyIffBlank(description);
    NumberTextNeverBlank(people);
  }

  /** A two-letter title is rejected, whatever the description and the count. */
  lemma ShortTitleRejected(description: string, people: int)
    ensures !InputAccepted("Hi", description, people)
  {
    InputAcceptedExactly("Hi", description, people);
  }

  /** A five-plus-letter title and description are accepted, whatever the count. */
  lemma WellFormedInputAccepted(people: int)
    ensures InputAccepted("Build App", "A nice app", people)
  {
    assert !IsWhitespace("Build App"[0]) && !IsWhitespace("A nice app"[0]);
    InputAcceptedExactly("Build App", "A nice app", people);
  }

  /** The values `gatherUserInput` hands back on success. */
  datatype UserInput = UserInput(title: string, description: string, people: int)

  class ProjectInput {
    var titleInput: string
    var descriptionInput: string
    var peopleInput: string

    constructor ()
      ensures titleInput == "" && descriptionInput == "" && peopleInput == ""
    {
      titleInput, descriptionInput, peopleInput := "", "", "";
    }

    /** `gatherUserInput`: the entered values when all three validations pass, nothing
        otherwise. The checks run in order and stop at the first failure. */
    method GatherUserInput(toNumber: string -> int) returns (r: Option<UserInput>)
      ensures InputAccepted(titleInput, descriptionInput, toNumber(peopleInput)) ==>
        r == Some(UserInput(titleInput, descriptionInput, toNumber(peopleInput)))
      ensures !InputAccepted(titleInput, descriptionInput, toNumber(peopleInput)) ==> r == None
    {
      var enteredTitle := titleInput;
      var enteredDescription := descriptionInput;
      var enteredPeople := peopleInput;
      var ok := Validate(TitleRule(enteredTitle));
      if ok {
        ok := Validate(DescriptionRule(enteredDescription));
      }
      if ok {
        ok := Validate(PeopleRule(toNumber(enteredPeople)));
      }
      if ok {
        r := Some(UserInput(enteredTitle, enteredDescription, toNumber(enteredPeople)));
      } else {
        r := None;
      }
    }

    /** `clearInputs`. */
    method ClearInputs()
      modifies this
      ensures titleInput == "" && descriptionInput == "" && peopleInput == ""
    {
      descriptionInput := "";
      peopleInput := "";
      titleInput := "";
    }

    /** `submitHandler`: an accepted submit adds exactly one active project, built from the
        entered values, notifies every list and clears the form; a rejected one changes
        neither the store, nor the lists, nor the form. */
    method SubmitHandler(state: ProjectState, id: string, toNumber: string -> int)
      requires state.Valid()
      modifies this, state, state.listeners
      ensures state.Valid()
      ensures InputAccepted(old(titleInput), old(descriptionInput), toNumber(old(peopleInput))) ==>
        && state.projects == old(state.projects) +
             [Project(id, old(titleInput), old(descriptionInput), toNumber(old(peopleInput)), Active)]
        && state.listeners == old(state.listeners)
        && state.deliveries == old(state.deliveries) + Fanout(state.listeners, state.projects)
        && state.ViewsInSync()
        && titleInput == "" && descriptionInput == "" && peopleInput == ""
      ensures !InputAccepted(old(titleInput), old(descriptionInput), toNumber(old(peopleInput))) ==>
        unchanged(this, state) && unchanged(state.listeners)
    {
      var userInput := GatherUserInput(toNumber);
      if userInput.Some? {
        var UserInput(title, description, people) := userInput.value;
        state.AddProject(id, title, description, people);
        ClearInputs();
      }
    }
  }

  /** The page's start-up wiring: the shared store, the form, then the active and the
      finished list, each list registering its callback as it is created. */
  method Startup() returns (holder: ProjectStateHolder, state: ProjectState, form: ProjectInput,
                            active: ProjectList, finished: ProjectList)
    ensures fresh(state) && fresh(form) && fresh(active) && fresh(finished)
    ensures holder.instance == state && state.Valid()
    ensures state.projects == [] && state.deliveries == [] && state.listeners == [active, finished]
    ensures state.ViewsInSync()
    ensures active.listType == ActiveList && finished.listType == FinishedList
    ensures form.titleInput == "" && form.descriptionInput == "" && form.peopleInput == ""
  {
    holder := new ProjectStateHolder();
    state := holder.GetInstance();
    form := new ProjectInput();
    active := new ProjectList(ActiveList, state);
    finished := new ProjectList(FinishedList, state);
  }

  /** A session on a fresh page: a too-short title is rejected and changes nothing; a valid
      submit then shows its title in the active list only and clears the form. */
  method ExampleSession(toNumber: string -> int) returns (active: ProjectList, finished: ProjectList, form: ProjectInput)
    ensures active.renderedTitles == ["Build App"] && finished.renderedTitles == []
    ensures form.titleInput == "" && form.descriptionInput == "" && form.peopleInput == ""
  {
    var holder, state;
    holder, state, form, active, finished := Startup();
    form.titleInput, form.descriptionInput, form.peopleInput := "Hi", "ok", "3";
    ShortTitleRejected("ok", toNumber("3"));
    form.SubmitHandler(state, "0.1", toNumber);
    assert state.projects == [] && state.listeners == [active, finished];

    form.titleInput, form.descriptionInput := "Build App", "A nice app";
    WellFormedInputAccepted(toNumber("3"));
    form.SubmitHandler(state, "0.2", toNumber);
    var p := Project("0.2", "Build App", "A nice app", toNumber("3"), Active);
    assert state.projects == [p];
    assert active.Shows([p]) && finished.Shows([p]);
    assert RelevantProjects([p], ActiveList) == [p];
    assert RelevantProjects([p], FinishedList) == [];
  }
}
