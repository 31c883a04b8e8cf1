/** The project setup wizard: a five-step linear controller holding the form
    the user fills in across the steps (src/pages/Setup.tsx). */
module Setup {
  import opened Seqs

  /** Number of wizard steps. */
  const TotalSteps: nat := 5

  predicate InRange(n: int)
  {
    1 <= n <= TotalSteps
  }

  // ---------------------------------------------------------------------------
  // Step transitions
  // ---------------------------------------------------------------------------

  /** Result of pressing Next: the new step and whether the one-shot
      "setup complete" signal (navigation to the dashboard) fires. */
  datatype Transition = Transition(step: int, completed: bool)

  /** Pressing Next at step `n`. */
  function Advance(n: int): (t: Transition)
    requires InRange(n)
    ensures InRange(t.step)
    ensures n <= t.step <= n + 1
    ensures t.completed <==> t.step == n
    ensures t.completed <==> n == TotalSteps
  {
    if n < TotalSteps then Transition(n + 1, false) else Transition(n, true)
  }

  /** Pressing Previous at step `n`. */
  function Retreat(n: int): (r: int)
    requires InRange(n)
    ensures InRange(r)
    ensures n - 1 <= r <= n
    ensures r == n <==> n == 1
  {
    if n > 1 then n - 1 else n
  }

  /** Previous undoes a Next that did not complete the wizard. */
  lemma RetreatUndoesAdvance(n: int)
    requires InRange(n) && n < TotalSteps
    ensures !Advance(n).completed && Retreat(Advance(n).step) == n
  {
  }

  /** Next undoes a Previous that moved. */
  lemma AdvanceUndoesRetreat(n: int)
    requires InRange(n) && n > 1
    ensures Advance(Retreat(n)) == Transition(n, false)
  {
  }

  /** Whether the Previous button is disabled at step `n`: exactly when
      pressing it would do nothing. */
  function PreviousDisabled(n: int): (disabled: bool)
    requires InRange(n)
    ensures disabled <==> Retreat(n) == n
  {
    n == 1
  }

  /** Caption of the forward button at step `n`: it announces completion
      exactly when pressing it completes the wizard. */
  function NextLabel(n: int): (caption: string)
    requires InRange(n)
    ensures caption == "Complete Setup" <==> Advance(n).completed
    ensures caption == "Next" <==> !Advance(n).completed
  {
    if n == TotalSteps then "Complete Setup" else "Next"
  }

  /** The progress bar's percentage, `n / TotalSteps * 100`. The division is
      exact for every step, so integers model it without loss. */
  function Progress(n: int): (p: int)
    requires InRange(n)
    ensures p * TotalSteps == n * 100
    ensures 0 < p <= 100
    ensures p == 100 <==> n == TotalSteps
  {
    n * 100 / TotalSteps
  }

  /** More steps done means a fuller progress bar. */
  lemma ProgressIncreasing(n: int, m: int)
    requires InRange(n) && InRange(m) && n < m
    ensures Progress(n) < Progress(m)
  {
  }

  // ---------------------------------------------------------------------------
  // Sequences of button presses
  // ---------------------------------------------------------------------------

  datatype Move = Forward | Back

  /** Where a run of presses ends and how many completion signals it fired. */
  datatype Outcome = Outcome(step: int, completions: nat)

  /** Applies the presses in `moves`, in order, from step `n`. */
  function Walk(n: int, moves: seq<Move>): (o: Outcome)
    requires InRange(n)
    ensures InRange(o.step)
    ensures o.completions <= |moves|
    decreases |moves|
  {
    if moves == [] then Outcome(n, 0)
    else
      var t := match moves[0]
        case Forward => Advance(n)
        case Back => Transition(Retreat(n), false);
      var o := Walk(t.step, moves[1..]);
      Outcome(o.step, o.completions + (if t.completed then 1 else 0))
  }

  /** A run can signal completion only after enough presses to reach the
      last step: each completion needs the steps still ahead plus one. */
  lemma {:induction false} WalkCompletionBound(n: int, moves: seq<Move>)
    requires InRange(n)
    ensures Walk(n, moves).completions == 0
         || Walk(n, moves).completions + TotalSteps <= n + |moves|
    decreases |moves|
  {
    if moves != [] {
      var t := match moves[0]
        case Forward => Advance(n)
        case Back => Transition(Retreat(n), false);
      WalkCompletionBound(t.step, moves[1..]);
    }
  }

  /** From the first step no completion happens within fewer than
      TotalSteps presses. */
  lemma NoEarlyCompletion(moves: seq<Move>)
    requires |moves| < TotalSteps
    ensures Walk(1, moves).completions == 0
  {
    WalkCompletionBound(1, moves);
  }

  /** Pressing Next once for every step still ahead and once more completes
      exactly once and leaves the wizard on its last step. */
  lemma {:induction false} ForwardRunCompletes(n: int, k: nat)
    requires InRange(n) && k == TotalSteps - n + 1
    ensures Walk(n, seq(k, _ => Forward)) == Outcome(TotalSteps, 1)
    decreases k
  {
    var moves := seq(k, _ => Forward);
    assert moves[0] == Forward;
    if n < TotalSteps {
      assert moves[1..] == seq(k - 1, _ => Forward);
      ForwardRunCompletes(n + 1, k - 1);
    } else {
      assert moves[1..] == [];
    }
  }

  // ---------------------------------------------------------------------------
  // Tool selection
  // ---------------------------------------------------------------------------

  /** Identifier of an EDA tool suite ("cadence", "synopsys", "opensource"). */
  type ToolId = string

  /** `s` with every occurrence of `t` filtered out, the rest kept in order. */
  function RemoveAll(s: seq<ToolId>, t: ToolId): (r: seq<ToolId>)
    ensures t !in r
    ensures forall x :: x != t ==> (x in r <==> x in s)
    ensures multiset(r) == multiset(s)[t := 0]
    ensures IsSubseq(r, s)
    decreases |s|
  {
    if s == [] then []
    else
      var rest := RemoveAll(s[1..], t);
      assert s == [s[0]] + s[1..];
      if s[0] == t then rest else [s[0]] + rest
  }

  /** Nothing to filter out leaves the list as it is. */
  lemma {:induction false} RemoveAbsent(s: seq<ToolId>, t: ToolId)
    requires t !in s
    ensures RemoveAll(s, t) == s
    decreases |s|
  {
    if s != [] {
      RemoveAbsent(s[1..], t);
    }
  }

  /** Filtering out `t` after appending it gives back the filtered list. */
  lemma {:induction false} RemoveAfterAppend(s: seq<ToolId>, t: ToolId)
    ensures RemoveAll(s + [t], t) == RemoveAll(s, t)
    decreases |s|
  {
    if s == [] {
      assert [] + [t] == [t];
      assert [t][1..] == [];
    } else {
      assert (s + [t])[1..] == s[1..] + [t];
      RemoveAfterAppend(s[1..], t);
    }
  }

  /** The checkbox of tool `t` was clicked: deselect it if selected (every
      copy), otherwise append it. Membership of `t` flips, every other id
      keeps its membership and its place in the order. */
  function Toggle(s: seq<ToolId>, t: ToolId): (r: seq<ToolId>)
    ensures t in r <==> t !in s
    ensures forall x :: x != t ==> (x in r <==> x in s)
    ensures t in s ==> IsSubseq(r, s) && multiset(r) == multiset(s)[t := 0]
    ensures t !in s ==> r == s + [t]
  {
    if t in s then RemoveAll(s, t) else s + [t]
  }

  /** Toggling the same tool twice restores every id's membership, and
      restores the list itself when the tool was not selected before. */
  lemma ToggleTwice(s: seq<ToolId>, t: ToolId)
    ensures forall x :: x in Toggle(Toggle(s, t), t) <==> x in s
    ensures t !in s ==> Toggle(Toggle(s, t), t) == s
  {
    if t !in s {
      RemoveAfterAppend(s, t);
      RemoveAbsent(s, t);
    }
  }

  /** A selection without duplicates keeps none after a toggle. */
  lemma ToggleKeepsDistinct(s: seq<ToolId>, t: ToolId)
    requires Distinct(s)
    ensures Distinct(Toggle(s, t))
  {
    if t in s {
      SubseqDistinct(RemoveAll(s, t), s);
    }
  }

  /** The selection after clicking the checkboxes in `clicks`, in order: a
      tool ends up selected exactly when it was selected before or was
      clicked an odd number of times, but not both. */
  function ToggleAll(s: seq<ToolId>, clicks: seq<ToolId>): (r: seq<ToolId>)
    ensures forall x :: x in r <==> (x in s) != (multiset(clicks)[x] % 2 == 1)
    decreases |clicks|
  {
    if clicks == [] then s
    else
      var r := ToggleAll(Toggle(s, clicks[0]), clicks[1..]);
      ToggleAllStep(s, clicks, r);
      r
  }

  /** One click more flips the parity of that tool's clicks and its membership. */
  lemma ToggleAllStep(s: seq<ToolId>, clicks: seq<ToolId>, r: seq<ToolId>)
    requires clicks != []
    requires forall x :: x in r <==> (x in Toggle(s, clicks[0])) != (multiset(clicks[1..])[x] % 2 == 1)
    ensures forall x :: x in r <==> (x in s) != (multiset(clicks)[x] % 2 == 1)
  {
    var c, rest := clicks[0], clicks[1..];
    assert clicks == [c] + rest;
    assert multiset(clicks) == multiset{c} + multiset(rest);
    forall x ensures x in r <==> (x in s) != (multiset(clicks)[x] % 2 == 1) {
      assert multiset(clicks)[x] == multiset(rest)[x] + (if x == c then 1 else 0);
      assert x in Toggle(s, c) <==> (x in s) != (x == c);
    }
  }

  /** The selection starts empty, so whatever the clicks it never lists a
      tool twice. */
  lemma {:induction false} SelectionDistinct(s: seq<ToolId>, clicks: seq<ToolId>)
    requires Distinct(s)
    ensures Distinct(ToggleAll(s, clicks))
    decreases |clicks|
  {
    if clicks != [] {
      ToggleKeepsDistinct(s, clicks[0]);
      SelectionDistinct(Toggle(s, clicks[0]), clicks[1..]);
    }
  }

  lemma InitialSelectionDistinct(clicks: seq<ToolId>)
    ensures Distinct(ToggleAll([], clicks))
  {
    SelectionDistinct([], clicks);
  }

  // ---------------------------------------------------------------------------
  // Form fields
  // ---------------------------------------------------------------------------

  /** The free-text and single-choice fields of the setup form. */
  datatype Field =
    | ProjectName | AdminName | AdminEmail | Mode
    | TechnologyNode | RtlPaths | TestbenchPaths | PdkFiles

  /** The text part of the form; the tool selection is held separately. */
  datatype FormText = FormText(
    projectName: string, adminName: string, adminEmail: string, mode: string,
    technologyNode: string, rtlPaths: string, testbenchPaths: string, pdkFiles: string)
  {
    function Get(f: Field): string
    {
      match f
      case ProjectName => projectName
      case AdminName => adminName
      case AdminEmail => adminEmail
      case Mode => mode
      case TechnologyNode => technologyNode
      case RtlPaths => rtlPaths
      case TestbenchPaths => testbenchPaths
      case PdkFiles => pdkFiles
    }

    /** The spread update `{ ...prev, f: v }`: field `f` becomes `v`, no
        other field changes. */
    function With(f: Field, v: string): (r: FormText)
      ensures r.Get(f) == v
      ensures forall g :: g != f ==> r.Get(g) == Get(g)
    {
      match f
      case ProjectName => this.(projectName := v)
      case AdminName => this.(adminName := v)
      case AdminEmail => this.(adminEmail := v)
      case Mode => this.(mode := v)
      case TechnologyNode => this.(technologyNode := v)
      case RtlPaths => this.(rtlPaths := v)
      case TestbenchPaths => this.(testbenchPaths := v)
      case PdkFiles => this.(pdkFiles := v)
    }
  }

  /** Every text field empty, the mode "single". */
  const InitialText := FormText("", "", "", "single", "", "", "", "")

  // ---------------------------------------------------------------------------
  // The wizard component's state
  // ---------------------------------------------------------------------------

  class Wizard {
    var currentStep: nat
    var projectName: string
    var adminName: string
    var adminEmail: string
    var mode: string
    var technologyNode: string
    var rtlPaths: string
    var testbenchPaths: string
    var pdkFiles: string
    var selectedTools: seq<ToolId>

    ghost predicate Valid()
      reads this
    {
      InRange(currentStep)
    }

    /** The text fields of the form, as one value. */
    function Text(): FormText
      reads this
    {
      FormText(projectName, adminName, adminEmail, mode,
               technologyNode, rtlPaths, testbenchPaths, pdkFiles)
    }

    /** A freshly opened wizard: first step, default form, nothing selected. */
    constructor ()
      ensures Valid()
      ensures currentStep == 1 && Text() == InitialText && selectedTools == []
    {
      currentStep := 1;
      projectName, adminName, adminEmail, mode := "", "", "", "single";
      technologyNode, rtlPaths, testbenchPaths, pdkFiles := "", "", "", "";
      selectedTools := [];
    }

    /** The forward button: moves one step on, or on the last step reports
        completion and stays put. The form is not touched. */
    method Next() returns (completed: bool)
      requires Valid()
      modifies this
      ensures Valid()
      ensures currentStep == Advance(old(currentStep)).step
      ensures completed == Advance(old(currentStep)).completed
      ensures Text() == old(Text()) && selectedTools == old(selectedTools)
    {
      if currentStep < TotalSteps {
        currentStep := currentStep + 1;
        completed := false;
      } else {
        completed := true;
      }
    }

    /** The Previous button: one step back, nothing at the first step. */
    method Previous()
      requires Valid()
      modifies this
      ensures Valid()
      ensures currentStep == Retreat(old(currentStep))
      ensures Text() == old(Text()) && selectedTools == old(selectedTools)
    {
      if currentStep > 1 {
        currentStep := currentStep - 1;
      }
    }

    /** A tool checkbox changed. */
    method ToggleTool(id: ToolId)
      requires Valid()
      modifies this
      ensures Valid()
      ensures selectedTools == Toggle(old(selectedTools), id)
      ensures currentStep == old(currentStep) && Text() == old(Text())
    {
      if id in selectedTools {
        selectedTools := RemoveAll(selectedTools, id);
      } else {
        selectedTools := selectedTools + [id];
      }
    }

    /** An input, select or mode card changed field `f` to `v`. */
    method SetField(f: Field, v: string)
      requires Valid()
      modifies this
      ensures Valid()
      ensures Text() == old(Text()).With(f, v)
      ensures currentStep == old(currentStep) && selectedTools == old(selectedTools)
    {
      match f
      case ProjectName => projectName := v;
      case AdminName => adminName := v;
      case AdminEmail => adminEmail := v;
      case Mode => mode := v;
      case TechnologyNode => technologyNode := v;
      case RtlPaths => rtlPaths := v;
      case TestbenchPaths => testbenchPaths := v;
      case PdkFiles => pdkFiles := v;
    }
  }

  /** A user names the project "Core X" and presses Next three times: the
      wizard is on step 4, has not completed, and still holds the name. */
  method NameThenAdvanceThrice() returns (step: int, name: string, completed: bool)
    ensures step == 4 && name == "Core X" && !completed
  {
    var w := new Wizard();
    w.SetField(ProjectName, "Core X");
    completed := w.Next();
    completed := w.Next();
    completed := w.Next();
    step, name := w.currentStep, w.projectName;
  }
}
