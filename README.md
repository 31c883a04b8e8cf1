# Setup wizard and team directory

A Dafny model of the two pieces of the ASIC project-management front end that
hold behaviour rather than markup:

- the **project setup wizard** (`src/pages/Setup.tsx`): a five-step linear
  controller. Next moves one step forward and, on the last step, fires the
  one-shot "setup complete" signal (navigation to the dashboard) instead.
  Previous moves one step back and does nothing on step 1. The form's text
  fields and the list of selected EDA tools are carried across the steps, and
  a progress percentage is derived from the step;
- the **team directory** (`src/pages/Team.tsx`): the search filter over the
  member list, the per-role statistics and the initials shown when an avatar
  image is missing.

Files:

- `seqs.dfy` — module `Seqs`: subsequence and duplicate-freedom, shared by both pages.
- `setup.dfy` — module `Setup`: step transitions as functions (`Advance`,
  `Retreat`, `Progress`, the button state), runs of button presses (`Walk`), the
  tool-toggle list function, the form's text fields (`FormText`), and the class
  `Wizard` holding the component state. `Wizard`'s methods update that state in
  place; each is specified by the functions above, and `Valid()` keeps the step in
  1..5.
- `team.dfy` — module `Team`: `Member`, the shipped member list, ASCII case
  mapping, substring search, `Filter`, the role counts and `Initials`, all pure.

Completion of the wizard is the `completed` result of `Wizard.Next`; the
navigation it triggers is not modelled. Progress is the integer
`step * 100 / 5`, which is exact for every step.

## Model

| member | source | states |
|---|---|---|
| Setup.Advance | src/pages/Setup.tsx:38-45 | Next keeps the step in 1..5 and moves it forward by at most one. It signals completion exactly when it is pressed on step 5, and it leaves the step unchanged exactly then. |
| Setup.Retreat | src/pages/Setup.tsx:47-51 | Previous keeps the step in 1..5 and moves it back by at most one. It is a no-op exactly at step 1. |
| Setup.RetreatUndoesAdvance | src/pages/Setup.tsx:38-51 | Below the last step, Next does not complete, and Previous brings the wizard back to where it was. |
| Setup.AdvanceUndoesRetreat | src/pages/Setup.tsx:38-51 | Above step 1, Previous followed by Next returns to the same step without completing. |
| Setup.PreviousDisabled | src/pages/Setup.tsx:373 | The Previous button is disabled exactly when pressing it would not change the step. |
| Setup.NextLabel | src/pages/Setup.tsx:380 | The forward button reads "Complete Setup" exactly when pressing it completes the wizard, and "Next" otherwise. |
| Setup.Progress | src/pages/Setup.tsx:29-30 | Progress times 5 is step times 100, so it is exact. It lies in (0, 100] and is 100 exactly on the last step. |
| Setup.ProgressIncreasing | src/pages/Setup.tsx:29-30 | A later step shows strictly more progress. |
| Setup.Walk | src/pages/Setup.tsx:38-51 | Any run of Next/Previous presses from a valid step ends on a step in 1..5. It fires at most one completion per press. |
| Setup.WalkCompletionBound | src/pages/Setup.tsx:38-45 | A run from step n that signals c > 0 completions has at least c + 5 - n presses. |
| Setup.NoEarlyCompletion | src/pages/Setup.tsx:38-45 | From step 1, fewer than five presses never complete the wizard. |
| Setup.ForwardRunCompletes | src/pages/Setup.tsx:38-45 | From step n, pressing Next 6 - n times completes exactly once and ends on step 5. |
| Setup.RemoveAll | src/pages/Setup.tsx:57 | Filtering out id t removes every copy of t. It keeps every other id with its multiplicity, in the original order (a subsequence). |
| Setup.RemoveAbsent | src/pages/Setup.tsx:57 | Filtering out an id that is not selected leaves the list unchanged. |
| Setup.RemoveAfterAppend | src/pages/Setup.tsx:56-58 | Filtering t out of a list with t appended gives the same result as filtering t out of the list itself. |
| Setup.Toggle | src/pages/Setup.tsx:53-59 | Toggling t flips whether t is selected and leaves every other id's membership alone. If t was selected, the result is the old list with every t removed, in order. If not, it is the old list with t appended. |
| Setup.ToggleTwice | src/pages/Setup.tsx:53-59 | Toggling the same id twice restores every id's membership. When the id was not selected, it restores the list itself. |
| Setup.ToggleKeepsDistinct | src/pages/Setup.tsx:53-59 | A duplicate-free selection stays duplicate-free after a toggle. |
| Setup.ToggleAll | src/pages/Setup.tsx:53-59 | After a run of checkbox clicks, a tool is selected exactly when it was selected before or was clicked an odd number of times, but not both. |
| Setup.SelectionDistinct | src/pages/Setup.tsx:53-59 | Any sequence of toggles keeps a duplicate-free selection duplicate-free. |
| Setup.InitialSelectionDistinct | src/pages/Setup.tsx:26 | Starting from the initial empty selection, no click sequence ever lists a tool twice. |
| Setup.FormText.With | src/pages/Setup.tsx:78 | The spread update `{ ...prev, field: value }` sets that one field to the value and leaves every other field as it was. |
| Setup.Wizard.constructor | src/pages/Setup.tsx:16-27 | The wizard opens on step 1 with empty text fields, mode "single" and no tools selected. |
| Setup.Wizard.Next | src/pages/Setup.tsx:38-45 | The step and the completion flag are those of `Advance`, the step stays in 1..5, and the form and tool list are unchanged. |
| Setup.Wizard.Previous | src/pages/Setup.tsx:47-51 | The step is that of `Retreat` and stays in 1..5. The form and tool list are unchanged. |
| Setup.Wizard.ToggleTool | src/pages/Setup.tsx:53-60 | The tool list becomes `Toggle` of the old list. The step and text fields are unchanged. |
| Setup.Wizard.SetField | src/pages/Setup.tsx:78 | The text fields become the old ones with just that field replaced. The step and tool list are unchanged. This covers every field handler (lines 78, 88, 99, 118, 135, 179, 198, 209, 220). |
| Setup.NameThenAdvanceThrice | src/pages/Setup.tsx:38-45 | Naming the project "Core X" and then pressing Next three times leaves the wizard on step 4, not completed, with the name kept. |
| Team.Lower | src/pages/Team.tsx:117 | Lower-casing keeps the length, maps each character by ASCII case folding, and leaves no capital letter. |
| Team.LowerIdempotent | src/pages/Team.tsx:117-119 | Lower-casing twice is the same as lower-casing once. |
| Team.Upper | src/pages/Team.tsx:211 | Upper-casing keeps the length, maps each character by ASCII case folding, and leaves no small letter. |
| Team.Contains | src/pages/Team.tsx:117 | `includes` is true exactly when the term occurs at some index of the string. |
| Team.Matches | src/pages/Team.tsx:116-119 | A member matches exactly when the lower-cased term occurs, at some index, in its lower-cased name, e-mail or department. |
| Team.Filter | src/pages/Team.tsx:116-120 | The shown members are an order-preserving subsequence of the list. A member is shown iff it `Matches`. Each matching member appears as often as in the list and each other member not at all, so the count on line 200 is fixed for any list. |
| Team.FilterEmptyTerm | src/pages/Team.tsx:116-120 | The empty search term shows every member, in order. |
| Team.FilterCaseInsensitive | src/pages/Team.tsx:116-120 | Searching for a term or for its lower-cased form shows the same members. |
| Team.AllMembersShownInitially | src/pages/Team.tsx:200 | With the initial empty search box the count line reads "6 of 6 members shown". |
| Team.WithRole | src/pages/Team.tsx:123 | Filtering by role keeps exactly the members with that role, in order. Their number is the number of times the role occurs among the members' roles. |
| Team.RoleCount | src/pages/Team.tsx:123-127 | A role's count is the number of times the role occurs among the members' roles. |
| Team.Stats | src/pages/Team.tsx:122-128 | Each of the five statistics is the number of members holding that role. |
| Team.StatsSum | src/pages/Team.tsx:122-128 | When every member's role is one of the five keys, the five counts add up to the number of members. |
| Team.TeamMembersShape | src/pages/Team.tsx:24-85 | The shipped member list has six members with ids 1 to 6, and each holds one of the five counted roles. |
| Team.TeamRoles | src/pages/Team.tsx:24-85 | The roles of the shipped members, in order. |
| Team.TeamStats | src/pages/Team.tsx:122-128 | The shipped directory has 1 admin, 2 front-end engineers, 1 back-end engineer, 1 project manager and 1 team leader. |
| Team.Split | src/pages/Team.tsx:211 | `split(' ')` yields one more piece than there are spaces. No piece contains a space, and joining the pieces with spaces gives back the name. |
| Team.SplitJoin | src/pages/Team.tsx:211 | Splitting undoes joining pieces that contain no separator. |
| Team.NonEmpty | src/pages/Team.tsx:211 | The words are the non-empty pieces, each as often as it occurs, in order (a subsequence whose multiset drops only the empty pieces). |
| Team.Heads | src/pages/Team.tsx:211 | `map(n => n[0]).join('')` has one character per non-empty piece, the piece's first character, in order. Empty pieces (from repeated spaces) contribute nothing. |
| Team.Words | src/pages/Team.tsx:211 | The words of a name are non-empty and contain no space. |
| Team.Initials | src/pages/Team.tsx:211 | The initials have one character per word of the name. Each is the word's upper-cased first character, in order, and none is a small letter. |
| Team.InitialsOfWords | src/pages/Team.tsx:211 | For a name made of words joined by single spaces, the words are recovered exactly. The initials are the upper-cased first letters of those words, so "Sarah Chen" gives "SC". |
| Team.InitialsOfSarahChen | src/pages/Team.tsx:211 | The avatar fallback for "Sarah Chen" is "SC". |

## Left out

- All JSX rendering, CSS classes, icons and the step-view switch `renderStep`: presentation only.
- Navigation (`navigate('/dashboard')`, the back-to-home button): completion is the returned `completed` flag of `Wizard.Next`. In the program, that navigation unmounts the wizard, so completion ends the run. The model instead lets Next be pressed again on step 5, and each such press counts one more completion in `Walk`. Its bounds on completions therefore over-approximate what the page can do.
- The file-upload buttons of steps 2 and 4 (src/pages/Setup.tsx:159, 271): inert placeholders with no behaviour.
- The closed choice lists of the mode cards and the technology-node select: `Wizard.SetField` accepts any string, as the state update itself does.
- Floating-point progress: `step / 5 * 100` is modelled as the integer `step * 100 / 5`. That is exact for steps 1 to 5.
- Full Unicode `toLowerCase`/`toUpperCase`: only ASCII letters change case; every other character is kept. `n[0]` is modelled as the first `char`, not a UTF-16 code unit.
- The splash screen's timers, the settings page's form bindings, and the dashboard's and landing page's static data and lookups: none of these belong to this model.
- The team page's `searchTerm` state is just replaced on each keystroke, so it is a parameter of `Filter` rather than a field.
- The source keeps the tool selection as an insertion-ordered list, not a set, and its toggle removes every copy of an id. The model follows the code and proves that a selection starting empty never holds duplicates.
