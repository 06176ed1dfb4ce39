# Project manager form: verified model

A model of the logic of a small browser application (`src/app.ts`). A form collects a project's title, description and head count. It validates them and adds the project to a shared store. The store then notifies two list views, "active" and "finished". Each view keeps the projects of its own status and re-renders their titles from scratch.

The model has four modules:

- `Validation` (`validation.dfy`) is the `validate` rule engine. A value is `Str(text)` or `Num(number)`. Each bound of a `Validatable` record is an `Option`. `Satisfies` states the rule: every constraint the record sets, and that applies to the value's shape, holds. The imperative `Validate` method threads one accumulator through the five checks, as the source does, and is proved equal to `Satisfies`. `String.prototype.trim` and integer `toString` are modelled as functions. `TrimStart` and `TrimEnd` state exactly what each drops, and `TrimKeepsMiddle` shows that `trim` keeps the slice between an all-white-space prefix and an all-white-space suffix. The contract of `NumberToString` gives the sign, the decimal digits after it, and the value those digits denote.
- `Projects` (`projects.dfy`) holds the project record and the pure part of a view. `RelevantProjects` is the status filter and `Titles` is the list a render produces. Lemmas cover order preservation, exact membership, the active/finished partition, and the effect of appending one project.
- `State` (`state.dfy`) holds the `ProjectState` store as a class. `projects` and `listeners` are append-only fields. A ghost `deliveries` trace records every listener call with the snapshot it received. The listeners the application registers are the `ProjectList` views' callbacks, so a listener is the `ProjectList` object. Calling it runs `OnProjectsChanged`, which reassigns the view's projects and re-renders its titles. `ProjectStateHolder` models the static `instance` field behind `getInstance`.
- `Input` (`input.dfy`) holds the `ProjectInput` form as a class with its three field values. `GatherUserInput`, `ClearInputs` and `SubmitHandler` are methods. `Startup` is the page's module-level wiring.

A consequence worth noting: the head count is validated only with `required`. A number's decimal text is never blank, so that check can never fail (`Validation.NumberTextNeverBlank`). The submit decision therefore depends on the title and the description alone (`Input.InputAcceptedExactly`).

## Model

| member | source | states |
|---|---|---|
| `Validation.Validate` | src/app.ts:64-96 | the sequential accumulator returns true exactly when every set constraint that applies to the value holds |
| `Validation.SatisfiesExactly` | src/app.ts:64-96 | the rule check by check: `required` means the trimmed text is non-empty; length bounds apply only to text and range bounds only to numbers, each only when present |
| `Validation.EmptyConfigAlwaysValid` | src/app.ts:64-96 | a record that sets no constraint accepts every value |
| `Validation.LengthBoundsIgnoredForNumbers` | src/app.ts:69-82 | changing `minLength`/`maxLength` in any way never changes the verdict on a number |
| `Validation.RangeBoundsIgnoredForStrings` | src/app.ts:83-94 | changing `min`/`max` in any way never changes the verdict on a string |
| `Validation.TighteningNeverAdmits` | src/app.ts:65-95 | monotonicity: adding `required`, adding a bound or tightening one can turn a pass into a fail, never a fail into a pass |
| `Validation.TrimStart` | src/app.ts:67 | the result is a suffix of the input, everything dropped is white space, and it does not start with white space |
| `Validation.TrimEnd` | src/app.ts:67 | the result is a prefix of the input, everything dropped is white space, and it does not end with white space |
| `Validation.Trim` | src/app.ts:67 | `trim()` is no longer than its input and neither starts nor ends with white space |
| `Validation.TrimKeepsMiddle` | src/app.ts:67 | `trim()` is a slice of its input, and everything before and after that slice is white space |
| `Validation.TrimEmptyIffBlank` | src/app.ts:67 | trimming leaves nothing exactly when every character is white space |
| `Validation.NaturalToString` | src/app.ts:67 | a natural number's text is non-empty, all decimal digits, starts with `0` only for zero, and its digits denote the number |
| `Validation.NumberToString` | src/app.ts:67 | an integer's text is non-empty, starts with `-` exactly for negatives, is decimal digits after that sign, and those digits denote the number's absolute value |
| `Validation.NumberTextNeverBlank` | src/app.ts:66-68 | `required` holds of every number |
| `Projects.RelevantProjects` | src/app.ts:132-137 | the filter keeps only projects of the list's status and never lengthens the list |
| `Projects.RelevantProjectsAppend` | src/app.ts:132-137 | filtering a concatenation is the concatenation of the filtered parts, so relative order is kept |
| `Projects.RelevantProjectsCount` | src/app.ts:132-137 | each project occurs in the view as often as in the snapshot if it has the view's status, otherwise not at all |
| `Projects.RelevantProjectsMembers` | src/app.ts:132-137 | a project is in the view exactly when it is in the snapshot and has the view's status |
| `Projects.ViewsPartition` | src/app.ts:131-139 | the active and the finished view together hold exactly the snapshot, as multisets and by length |
| `Projects.ViewsDisjoint` | src/app.ts:131-139 | no project appears in both views |
| `Projects.Titles` | src/app.ts:151-155 | the render has one item per project, item i being project i's title |
| `Projects.TitlesAppend` | src/app.ts:151-155 | rendering a concatenation is the concatenation of the renders |
| `Projects.AppendedProjectShownLast` | src/app.ts:131-155 | after one project is appended, the view of its status shows the old titles plus its title last, and the other view is unchanged |
| `State.FanoutAt` | src/app.ts:46-48 | a notification round calls listener i at step i with the same snapshot, so each listener is called once, in registration order |
| `State.ProjectList.constructor` | src/app.ts:117-144 | a new list starts with no projects and an empty render, and is appended to the store's listeners; nothing else in the store changes |
| `State.ProjectList.OnProjectsChanged` | src/app.ts:131-140 | the callback replaces the list's projects with the filtered snapshot and its render with their titles |
| `State.ProjectList.RenderProjects` | src/app.ts:146-156 | the render is rebuilt from empty: it equals the assigned projects' titles whatever was shown before |
| `State.ProjectState.constructor` | src/app.ts:19-24 | a new store has no projects, no listeners and no deliveries |
| `State.ProjectState.AddListener` | src/app.ts:34-36 | appends exactly one listener; projects and the delivery trace are unchanged |
| `State.ProjectState.AddProject` | src/app.ts:37-49 | appends exactly one project, active and built from the arguments; earlier projects and the listeners are unchanged; the trace grows by one round over all listeners with the new list; afterwards every registered list shows exactly its status's projects |
| `State.ProjectState.NotifyListeners` | src/app.ts:46-48 | calls every listener in order with the current list, records that round in the trace, and leaves every registered list in step with the list |
| `State.ProjectStateHolder.constructor` | src/app.ts:22 | no instance exists before the first `getInstance` |
| `State.ProjectStateHolder.GetInstance` | src/app.ts:26-32 | the first call creates an empty store; every later call returns that same store |
| `Input.InputAcceptedExactly` | src/app.ts:245-255 | a submit is accepted exactly when title and description each hold a non-white-space character and are at least five long |
| `Input.ShortTitleRejected` | src/app.ts:245-255 | the title "Hi" is rejected whatever the description and the count |
| `Input.WellFormedInputAccepted` | src/app.ts:245-255 | "Build App" with "A nice app" passes every check |
| `Input.ProjectInput.constructor` | src/app.ts:213-238 | a new form has empty fields |
| `Input.ProjectInput.GatherUserInput` | src/app.ts:240-261 | returns the three entered values, the count coerced, exactly when all three validations pass, and nothing otherwise |
| `Input.ProjectInput.ClearInputs` | src/app.ts:263-267 | all three fields become empty |
| `Input.ProjectInput.SubmitHandler` | src/app.ts:270-278 | an accepted submit adds exactly one active project built from the entered values, records one notification round over every list, in registration order, with the new list, leaves them in step and clears the form; a rejected one changes neither the store, nor the lists, nor the form |
| `Input.Startup` | src/app.ts:289-291 | start-up leaves one empty store holding the active list and then the finished list as its listeners, both empty and in step, and an empty form |
| `Input.ExampleSession` | src/app.ts:270-278 | on a fresh page, a rejected submit followed by an accepted one leaves the active list showing only "Build App", the finished list empty and the form cleared |

## Left out

- DOM work is not modelled: template lookup and cloning, `importNode`, `insertAdjacentElement`, `querySelector`, element ids, the list heading (`renderContent`) and the unused `Component` base class. A render is modelled only as the sequence of item texts it produces.
- The `Autobine` decorator is not modelled. It only fixes JavaScript's `this` binding.
- `Math.random().toString()` is not modelled. The project id is a parameter of `AddProject` and `SubmitHandler`, and ids are not claimed to be unique, because the code does not make them so.
- `+enteredPeople` is not modelled. The coercion is the parameter `toNumber: string -> int`, so `NaN` and fractional counts are out of scope. Numbers are integers throughout the model.
- `Validation.IsWhitespace` covers the ASCII white-space characters only. `String.prototype.trim` also removes Unicode spaces and line terminators. String length is counted in characters, not UTF-16 code units.
- `Validation.NumberToString` covers integers only. The floating-point and exponent forms of `Number.prototype.toString` are out of scope.
- `alert`, `event.preventDefault` and the registration of the submit handler are UI side effects and are not modelled. A rejected submit is modelled as changing nothing.
- Listeners are the `ProjectList` callbacks only, which are the only listeners the application registers. The store's `Listener` type allows any function, and arbitrary functions are not modelled.
- The `slice()` copy is implicit. Project lists are immutable sequence values, so no listener can alter the store's list through its snapshot.
- Input.ProjectInput.constructor: the fields start empty. In the source their initial values come from the HTML template, which is not modelled.
- The module-level `const` instances become the values that `Input.Startup` returns. The static `instance` field becomes the field of a `ProjectStateHolder` object.
