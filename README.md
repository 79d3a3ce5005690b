# Guided-tour step navigation

A model of the logic inside the single React component of `src/App.tsx`: a guided product tour
whose view-state is the record `{fullscreenMode, currentTour, currentStep}`. Four handlers replace
that record: Next (`incrementStep`), Back (`decrementStep`), the display-mode button and the
section dropdown. The render guards `stepNumber > 1` and `stepNumber < stepCount` decide which
Back and Next buttons exist. The model also covers the coachmark selection `steps.map(...)` and the
image path `title.toLowerCase().replace(/\s+/g, '')/stepNumber.png`.

Layout:

- `wrappers.dfy`: `Option` and `Result`.
- `tour_data.dfy` (module `TourData`): `Step` and `ProgramTour`. It also holds `WellFormed`, the
  shape the bundled tour data is assumed to have: `stepCount == |steps| >= 1` and `steps[i]`
  numbered `i + 1`. The data file itself is not part of this model. `Lookup` is JavaScript's
  `steps[i]`, which yields `undefined` (None) outside the array.
- `navigation.dfy` (module `Navigation`): the record as the value `TourState`, and the invariant
  `Valid`. Each handler is a pure function that keeps the source's own index arithmetic. The
  module also holds two kinds of session. `Session` replays events through the handlers as
  written and ends in None once the dropdown stores an undefined step. `Run` replays actions
  through the corrected dropdown jump.
- `coachmark.dfy` (module `Coachmark`): the per-step coachmark slots and the one bubble drawn.
- `asset_path.dfy` (module `AssetPath`): the image path and its inverse `SplitImagePath`.
- `tour_view.dfy` (module `TourViewModel`): class `TourView` holds the mutable state. Its handler
  methods assign the fields, and each is proved equal to the pure transition.

The handlers do not check bounds themselves. Next and Back are only reachable through buttons
drawn behind the guards, so the class methods require those guards. The pure functions return
None exactly when the guard fails. A design that made Next/Back no-ops inside the operation
would differ from the code; the model follows the code. `Enabled` and `Dispatch` then treat an
action whose control is not drawn as impossible, so it leaves the state unchanged.

## Model

| member | source | states |
|---|---|---|
| TourData.StepAtItsNumber | src/App.tsx:44-57 | in a well-formed tour, a step that belongs to it has a number in 1..stepCount and sits at position number - 1 |
| Navigation.Initial | src/App.tsx:66-70 | the start state is standard mode, holds the given tour, is valid and is on step 1 |
| Navigation.ValidBounds | src/App.tsx:59-63 | under the invariant the current step is `steps[stepNumber - 1]` |
| TourData.Lookup | src/App.tsx:100 | the JavaScript read `steps[i]`: undefined exactly outside 0..length-1, the element otherwise |
| Navigation.ShowBack | src/App.tsx:221 | under the invariant, the Back guard holds exactly when index stepNumber - 2 lies in the steps |
| Navigation.ShowNext | src/App.tsx:230 | under the invariant, the Next guard holds exactly when index stepNumber lies in the steps |
| Navigation.AfterIncrement | src/App.tsx:97-108 | `steps[stepNumber]` is defined exactly when the Next guard holds; the result is valid, one step further on, same tour and mode |
| Navigation.AfterDecrement | src/App.tsx:110-121 | `steps[stepNumber - 2]` is defined exactly when the Back guard holds; the result is valid, one step back, same tour and mode |
| Navigation.IncrementThenDecrement | src/App.tsx:97-121 | from a step with a Next button, Next then Back returns exactly the original state |
| Navigation.DecrementThenIncrement | src/App.tsx:97-121 | from a step with a Back button, Back then Next returns exactly the original state |
| Navigation.AfterToggle | src/App.tsx:182-187 | the mode flips; step and tour are unchanged; validity is unchanged |
| Navigation.ToggleTwice | src/App.tsx:182-187 | toggling twice restores the state |
| Navigation.DropdownIndex | src/App.tsx:209 | `key ? key : 1` is never 0: the handler never reads `steps[0]`; a missing or zero key gives 1 |
| Navigation.AfterDropdown | src/App.tsx:207-210 | defined exactly when the index is within the steps; then valid, on the step numbered index + 1, same tour and mode |
| Navigation.SelectedKey | src/App.tsx:206 | under the invariant the shown key lies in 1..stepCount and its 1-based position holds the current step |
| Navigation.DropdownNeverStepOne | src/App.tsx:207-210 | whatever number the dropdown hands over, the handler never lands on step 1 |
| Navigation.DropdownFalsyKey | src/App.tsx:207-210 | a missing or zero key lands on step 2 |
| Navigation.DropdownKeyOffByOne | src/App.tsx:206-210 | key k in 1..stepCount-1 leaves the dropdown showing k + 1 |
| Navigation.DropdownKeyPastEnd | src/App.tsx:207-210 | a key of stepCount or more yields an undefined step |
| Navigation.FirstOptionMissesStepOne | src/App.tsx:32-39 | the first option ("Welcome", key 1, position 0) lands on step 2 under either number |
| Navigation.AfterJump | src/App.tsx:206-210 | corrected jump: succeeds exactly for 1 <= k <= stepCount; then valid, the selected key is k, same tour and mode; otherwise OutOfRange |
| Navigation.JumpToSelectedIsIdentity | src/App.tsx:206 | jumping to the option already shown leaves the state unchanged |
| Navigation.Enabled | src/App.tsx:194-237 | under the invariant, Next and Back are drawn exactly when their handler's index is in range; the dropdown exactly outside fullscreen |
| Navigation.Dispatch | src/App.tsx:193-240 | with the corrected jump, one user action keeps the invariant and the tour; an action whose control is not drawn changes nothing |
| Navigation.Run | src/App.tsx:163-240 | with the corrected jump, any sequence of actions keeps the invariant, the tour and 1 <= stepNumber <= stepCount |
| Navigation.ReachableStatesValid | src/App.tsx:66-121 | with the corrected jump, every state reachable from the start has its current step in the tour and within 1..stepCount |
| Navigation.EventEnabled | src/App.tsx:194-211 | the dropdown's handler can fire exactly outside fullscreen; the mode button always |
| Navigation.Handle | src/App.tsx:97-210 | one event through the handlers as written keeps the invariant; it yields an undefined step exactly when the dropdown's index falls outside the steps; an event whose control is not drawn changes nothing |
| Navigation.Session | src/App.tsx:163-240 | a session of the program as written keeps the invariant for as long as no undefined step has been stored |
| Navigation.PositionSessionsDefined | src/App.tsx:32-39 | if the dropdown hands over option positions and the tour has at least as many steps as options, every session as written stays defined and valid |
| Navigation.LastOptionKeyBreaksSession | src/App.tsx:32-39 | if the dropdown hands over option keys, choosing "Summary" (key 6) on a six-step tour stores an undefined step |
| Navigation.BoundaryNoOps | src/App.tsx:221-237 | Next on the last step and Back on the first step change nothing |
| Coachmark.CoachmarkSlots | src/App.tsx:265-301 | one slot per step of the tour |
| Coachmark.BubbleFor | src/App.tsx:277-296 | the bubble shows the step's name and number; for the current step its Prev/Next follow the Back/Next guards; the close icon shows exactly outside fullscreen |
| Coachmark.ExactlyOneCoachmark | src/App.tsx:265-301 | in a valid state exactly one bubble is drawn, for the current step; its Prev/Next match the Back/Next guards and its close icon shows outside fullscreen |
| AssetPath.ToLower | src/App.tsx:243 | an upper-case letter becomes the lower-case letter at the same alphabet position; the result is never upper-case; whitespace is kept; other characters are unchanged |
| AssetPath.LowerCase | src/App.tsx:243 | same length, each character lowered in place |
| AssetPath.StripWhitespace | src/App.tsx:243 | no longer than the input; keeps only non-whitespace characters of the input |
| AssetPath.AssetFolder | src/App.tsx:243 | the folder has no whitespace and no upper-case letter, and is no longer than the title |
| AssetPath.AssetFolderIdempotent | src/App.tsx:243 | normalising a folder name again changes nothing |
| AssetPath.AssetFolderJoin | src/App.tsx:243 | two words separated by any whitespace give the two folders run together |
| AssetPath.Decimal | src/App.tsx:243 | the text of a step number is non-empty, all digits, with a leading zero only for 0 |
| AssetPath.DecimalRoundTrip | src/App.tsx:243 | reading the decimal text back gives the number |
| AssetPath.NumberText | src/App.tsx:243 | the text of a step number: a minus sign exactly for negatives, then digits, never a '/' |
| AssetPath.NumberTextRoundTrip | src/App.tsx:243 | reading the text of an integer (with its minus sign) back gives the integer |
| AssetPath.ImagePath | src/App.tsx:243 | the path starts with the folder, then '/', and ends in ".png", with the step number's text in between |
| AssetPath.ImagePathRoundTrip | src/App.tsx:243 | splitting the path at its last '/' and before ".png" gives back the folder and the step number |
| AssetPath.ImagePathInjective | src/App.tsx:243 | two steps of one tour with different numbers have different image paths |
| AssetPath.StepImage | src/App.tsx:243 | the image of a valid state names the tour's folder and a step number in 1..stepCount |
| TourViewModel.TourView.constructor | src/App.tsx:66-70 | the state starts as Initial(tour): standard mode, step 1, invariant holds |
| TourViewModel.TourView.IncrementStep | src/App.tsx:97-108 | under the Next guard: new state is AfterIncrement of the old, the next step; invariant kept; mode and tour unchanged |
| TourViewModel.TourView.DecrementStep | src/App.tsx:110-121 | under the Back guard: new state is AfterDecrement of the old, the previous step; invariant kept; mode and tour unchanged |
| TourViewModel.TourView.ToggleFullscreen | src/App.tsx:182-187 | only the mode flips; the invariant holds after exactly when it held before |
| TourViewModel.TourView.SelectFromDropdown | src/App.tsx:207-210 | reports whether the index `key ? key : 1` lies in the steps; if so, the new state is AfterDropdown of the old, the step numbered index + 1; mode and tour unchanged |
| TourViewModel.TourView.JumpTo | src/App.tsx:206-210 | corrected jump: succeeds exactly for 1 <= k <= stepCount and lands on step k; otherwise the state is unchanged |

## Findings

| source | as written | input that shows it | evidently intended | confidence | as-written member | corrected member |
|---|---|---|---|---|---|---|
| src/App.tsx:206-210 | the dropdown shows `selectedKey = stepNumber` (1-based keys, lines 32-39) but reads `steps[key ? key : 1]`, a 0-based index | choosing the first option "Welcome": the handler receives 1 as its key or 0 as its position; both give step 2, and step 1 cannot be reached from the dropdown | choosing the option with key k shows step k | not executed; high | Navigation.FirstOptionMissesStepOne | Navigation.AfterJump |

`Navigation.AfterDropdown`, `Navigation.Handle`, `Navigation.Session` and
`TourView.SelectFromDropdown` model the handler as written. `Navigation.DropdownNeverStepOne`
shows that no number reaches step 1. `Navigation.DropdownKeyOffByOne`,
`Navigation.DropdownKeyPastEnd` and `Navigation.LastOptionKeyBreaksSession` show the rest of the
shift when the handler receives the option key. `Navigation.AfterJump` is the corrected jump. It
proves that the dropdown then shows the chosen key. `Dispatch`, `Run` and `TourView.JumpTo`
use it.

## Left out

- Navigation.Dispatch: its Jump action uses the corrected jump `AfterJump`, not the dropdown
  handler as written. `Navigation.Handle` covers the handler as written.
- Navigation.Run: sessions of actions use the corrected jump. For the program as written, see
  `Navigation.Session` and `Navigation.PositionSessionsDefined`.
- Navigation.ReachableStatesValid: proves the invariant for the program with the corrected jump.
  As written, the dropdown can store an undefined step (`Navigation.LastOptionKeyBreaksSession`).
- TourView.SelectFromDropdown: when the index falls outside the steps, the source stores
  `undefined` and the next render fails at the breadcrumb text. The method reports
  `defined == false` and keeps the old fields, because a `Step` field cannot hold `undefined`.
- AssetPath.ImagePath: leaves out the `./assets/` prefix of the `require` argument.
- AssetPath.NumberText: writes every integer in plain decimal. JavaScript writes numbers of
  magnitude 1e21 or more in exponent notation.

- Rendering: the Fluent UI widgets, breadcrumbs, custom divider and overflow icon, and the
  "Step n of m" texts. The coachmark's percentage position is also left out; it is only style.
- The breadcrumb `onClick` handlers are left out; they are empty.
- `onStepChange` is left out. It resets the coachmark's directional hint, which is a
  positioning setting of the toolkit. The `useBoolean` coachmark and teaching-bubble flags and
  `useRef` are also left out.
- React scheduling is left out: `useState` batching, `useMemo`, `useCallback`, and handlers that
  read a stale `state`. Each handler is modelled as one atomic update of the current state.
- `initializeIcons()` at load time and the `useEffect` console logging are left out; they are
  side effects.
- The bundled tour data and the `require` of images are left out. The data's shape is the
  `WellFormed` precondition. Turning a path into an image is left to the asset loader.
- Non-integer step numbers and a NaN dropdown key are not modelled. Step numbers and keys are
  integers, and `undefined` is None.
- AssetPath.ToLower: lowers only the ASCII letters A-Z. JavaScript's `toLowerCase` also maps
  non-ASCII letters; this model does not.
- AssetPath.IsWhitespace: covers only ASCII whitespace (tab, line feed, vertical tab, form feed,
  carriage return, space). JavaScript's `\s` also matches non-breaking and other Unicode spaces.
- AssetPath.StripWhitespace: deletes each whitespace character. `replace(/\s+/g, '')` deletes
  runs of whitespace, which leaves the same string.
