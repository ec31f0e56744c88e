/**
 * The page's generation flow: from a submitted request to the sequence of
 * page states it sets.
 *
 * The flow first enters `generating` at progress 0, then runs the security
 * filter. A rejected prompt ends in `security_violation` with a fixed
 * message and no result. An accepted prompt steps the progress through
 * 0, 25, 50, 75, 100, each step copying the previous state and replacing
 * only its progress, and then ends in `success` with the themed result.
 * The timer delays between steps carry no data and are not modelled.
 */
module Generation {
  import opened Wrappers
  import opened ResumeTypes
  import opened SecurityFilter
  import opened ThemeSelection
  import opened ThemeRendering

  const SecurityViolationMessage: string :=
    "Security violation detected. Please enter a normal theme request."

  /** The result record for an already selected theme. */
  function ThemedResult(theme: Theme, userPrompt: string, content: ResumeContent, id: string, createdAt: int)
    : (r: ThemedResumeResult)
    ensures r.theme == ThemeName(theme)
    ensures r.userPrompt == userPrompt && r.isSecure
    ensures r.id == id && r.createdAt == createdAt
    ensures var b := GenerateThemeContent(r.theme, content);
      r.htmlContent == b.html && r.cssContent == b.css && r.jsContent == Some(b.js)
  {
    var name := ThemeName(theme);
    var themeContent := GenerateThemeContent(name, content);
    ThemedResumeResult(id, name, themeContent.html, themeContent.css, Some(themeContent.js),
                       userPrompt, createdAt, true)
  }

  /**
   * The terminal theme gets the terminal stylesheet and script; every other
   * theme gets its own table stylesheet and the one-line "theme loaded" script.
   */
  lemma ThemedResultAssets(theme: Theme, userPrompt: string, content: ResumeContent, id: string, createdAt: int)
    ensures var r := ThemedResult(theme, userPrompt, content, id, createdAt);
      && r.theme in ThemeNames
      && (theme == Terminal ==> r.cssContent == TerminalCss && r.jsContent == Some(TerminalJs))
      && (theme != Terminal ==>
            && r.theme in CssTable && r.cssContent == CssTable[r.theme]
            && r.jsContent == Some(ThemeLoadedJs(r.theme)))
  {
    ThemeNameInjective(theme, theme);
    if theme != Terminal {
      NonTerminalAssets(theme, userPrompt, content, id, createdAt);
    }
  }

  /** A non-terminal theme's record carries its table stylesheet and the one-line script. */
  lemma NonTerminalAssets(theme: Theme, userPrompt: string, content: ResumeContent, id: string, createdAt: int)
    requires theme != Terminal
    ensures var r := ThemedResult(theme, userPrompt, content, id, createdAt);
      && r.theme in CssTable && r.cssContent == CssTable[r.theme]
      && r.jsContent == Some(ThemeLoadedJs(r.theme))
  {
    var name := ThemeName(theme);
    NonTerminalName(theme);
    ThemeCssLookup(name);
  }

  /** Only the terminal theme is named `terminal`, and every other name is a stylesheet key. */
  lemma NonTerminalName(theme: Theme)
    requires theme != Terminal
    ensures ThemeName(theme) != "terminal" && ThemeName(theme) in CssTable
  {
  }

  /**
   * `generateThemedContent`: selects a theme from the prompt and renders it.
   * The record keeps the prompt as typed, not lower-cased, and is marked secure.
   */
  function GenerateThemedContent(userPrompt: string, content: ResumeContent, id: string, createdAt: int)
    : (r: ThemedResumeResult)
    ensures r.theme == ThemeName(SelectTheme(userPrompt))
    ensures r.userPrompt == userPrompt && r.isSecure
    ensures r.id == id && r.createdAt == createdAt
  {
    ThemedResult(SelectTheme(userPrompt), userPrompt, content, id, createdAt)
  }

  /** The progress values of a run of states, with 0 for an absent one. */
  function Progresses(states: seq<ThemeState>): (r: seq<int>)
    ensures |r| == |states|
    ensures forall k :: 0 <= k < |states| ==> r[k] == states[k].progress.GetOr(0)
  {
    seq(|states|, k requires 0 <= k < |states| => states[k].progress.GetOr(0))
  }

  /** The state the page shows first on every submission. */
  const StartState := ThemeState(Generating, None, None, Some(0))

  /**
   * The simulated progress loop `for (i = 0; i <= 100; i += 25)`: each step
   * copies the previous state and replaces its progress with `i`.
   */
  method ProgressSteps(start: ThemeState) returns (steps: seq<ThemeState>)
    ensures |steps| == 5
    ensures forall k :: 0 <= k < 5 ==> steps[k] == start.(progress := Some(25 * k))
    ensures Progresses(steps) == [0, 25, 50, 75, 100]
  {
    steps := [];
    var prev := start;
    var i := 0;
    while i <= 100
      invariant 0 <= i <= 125 && i % 25 == 0
      invariant |steps| == i / 25
      invariant forall k :: 0 <= k < |steps| ==> steps[k] == start.(progress := Some(25 * k))
      invariant prev.status == start.status && prev.result == start.result && prev.error == start.error
    {
      prev := prev.(progress := Some(i));
      steps := steps + [prev];
      i := i + 25;
    }
  }

  /**
   * The states one submission sets, given the filter's verdict on the prompt
   * and the record the renderer produces for it.
   */
  method RunGeneration(secure: bool, themedResume: ThemedResumeResult) returns (trace: seq<ThemeState>)
    ensures |trace| >= 2 && trace[0] == StartState
    ensures forall k :: 0 <= k < |trace| ==> trace[k].status != Error
    ensures !secure ==>
      && trace == [StartState, ThemeState(SecurityViolation, None, Some(SecurityViolationMessage), None)]
      && forall k :: 0 <= k < |trace| ==> trace[k].result.None?
    ensures secure ==>
      && |trace| == 7
      && (forall k :: 0 <= k < 6 ==> trace[k].status == Generating && trace[k].result.None?)
      && Progresses(trace[1..6]) == [0, 25, 50, 75, 100]
      && trace[6] == ThemeState(Success, Some(themedResume), None, None)
  {
    trace := [StartState];
    if !secure {
      trace := trace + [ThemeState(SecurityViolation, None, Some(SecurityViolationMessage), None)];
      return;
    }
    var steps := ProgressSteps(StartState);
    trace := trace + steps;
    assert trace[1..6] == steps;
    trace := trace + [ThemeState(Success, Some(themedResume), None, None)];
    assert trace[1..6] == steps;
  }

  /**
   * `generateThemedResume`: returns every state the page sets, in order.
   * The last element is the state the page is left in.
   */
  method GenerateThemedResume(request: ThemeRequest, content: ResumeContent, id: string, createdAt: int)
    returns (trace: seq<ThemeState>)
    ensures |trace| >= 2 && trace[0] == StartState
    ensures forall k :: 0 <= k < |trace| ==> trace[k].status != Error
    ensures !CheckPromptSecurity(request.userPrompt) ==>
      && trace == [StartState, ThemeState(SecurityViolation, None, Some(SecurityViolationMessage), None)]
      && forall k :: 0 <= k < |trace| ==> trace[k].result.None?
    ensures CheckPromptSecurity(request.userPrompt) ==>
      && |trace| == 7
      && (forall k :: 0 <= k < 6 ==> trace[k].status == Generating && trace[k].result.None?)
      && Progresses(trace[1..6]) == [0, 25, 50, 75, 100]
      && trace[6] == ThemeState(Success, Some(GenerateThemedContent(request.userPrompt, content, id, createdAt)),
                                None, None)
  {
    var secure := CheckPromptSecurity(request.userPrompt);
    var themedResume := GenerateThemedContent(request.userPrompt, content, id, createdAt);
    trace := RunGeneration(secure, themedResume);
  }
}
