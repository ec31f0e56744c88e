# Generative resume theme generator, modelled in Dafny

The generative-resume page lets a visitor type a free-text description of a
look ("make it look like a retro 80s arcade game"). The page turns that
description into one of six hard-wired themes: `terminal`, `dark`, `retro`,
`neon`, `cyberpunk` or `minimal`. It then renders the resume into that
theme's HTML, CSS and JS strings and shows them in a tabbed preview panel.

Nothing is generated by a model. The page works in these steps:

1. The prompt form validates the text: it must not be blank, and once
   trimmed it must be at least three UTF-16 code units long.
2. A prompt-injection filter of eight case-insensitive regular expressions
   rejects suspicious prompts.
3. A keyword classifier picks the theme by first-hit-wins substring search
   over the lower-cased prompt.
4. A simulated progress loop walks through 0, 25, 50, 75 and 100.
5. The page ends in `success` holding the themed result.

This project models that flow as pure functions over immutable datatypes and
proves what each step promises. The modules are:

- `Wrappers`: the `Option` type.
- `Text`: the JavaScript string operations the page relies on:
  - `trim` over the ECMAScript WhiteSpace and LineTerminator set;
  - ASCII `toLowerCase`;
  - `includes`;
  - `.length` in UTF-16 code units;
  - `join`.
- `ResumeTypes`: the records of `types/resume.ts`.
- `SecurityFilter`: `checkPromptSecurity`. Each pattern is stated twice, as
  an explicit "these words at these positions with gaps of at most twenty
  UTF-16 code units and no line terminator" predicate and as an executable matcher,
  and the two are proved equal.
- `ThemeSelection`: the keyword classifier.
- `ThemeRendering`: `generateThemeContent`, the terminal template,
  `getThemeCSS` and the company slug.
- `Generation`: `generateThemedResume` and `generateThemedContent`. The
  result is the sequence of page states they set.
- `Progress`: the progress headline and the four milestone tiles.
- `PromptForm`: the form's submit, edit and example-click handlers.
- `Preview`: the downloaded file, the preview frame document, the header
  title, the JS tab and the tab and fullscreen state.

Several consequences of first-hit-wins substring search are proved:

- `vi` is a terminal keyword, so every prompt containing `vi` is classified
  as terminal. That includes `vim`, `vintage`, `service` and `Scandinavian`.
- The retro keyword `vintage` can therefore never decide the theme.
- Three of the suggested example prompts are classified as terminal. The
  first one asks for a terminal theme. The other two are "Create a minimalist
  Scandinavian design" and "Make it look like a vintage typewriter document",
  which land there only because they contain `vi`.
- The filter's `forget … system … prompt` pattern is subsumed by its
  `system … prompt` pattern, so dropping it changes no verdict.

Parameters stand in for clocks and identifiers: the request timestamp, the
result id and the creation time.

## Model

| member | source | states |
|---|---|---|
| SecurityFilter.CheckPromptSecurityCorrect | generative-resume/src/app/page.tsx:162-174 | the filter accepts a prompt exactly when none of the eight patterns (three-word chains, two-word chains and the literal `jailbreak`, with gaps of at most 20 UTF-16 code units and no line terminator, case-insensitive) occurs anywhere in it |
| SecurityFilter.TestCorrect | generative-resume/src/app/page.tsx:174 | the executable left-to-right matcher reports a match exactly when the word chain occurs at some index with every gap within bounds |
| SecurityFilter.TestTriple | generative-resume/src/app/page.tsx:164-165 | a three-word pattern `a.{0,20}b.{0,20}c` matches exactly when the three words sit in order with two admissible gaps |
| SecurityFilter.TestPair | generative-resume/src/app/page.tsx:166-171 | a two-word pattern `a.{0,20}b` matches exactly when the two words sit in order with one admissible gap |
| SecurityFilter.JailbreakRejected | generative-resume/src/app/page.tsx:170 | a prompt containing `jailbreak` in any ASCII letter case is rejected |
| SecurityFilter.CaseInsensitive | generative-resume/src/app/page.tsx:164-171 | two prompts differing only in ASCII letter case get the same verdict (the `i` flag) |
| SecurityFilter.LowerCaseVerdict | generative-resume/src/app/page.tsx:164-171 | lower-casing a prompt never changes the verdict |
| SecurityFilter.ForgetSubsumedBySystem | generative-resume/src/app/page.tsx:165-169 | every match of `forget.{0,20}system.{0,20}prompt` is also a match of `system.{0,20}prompt` |
| SecurityFilter.ForgetPatternRedundant | generative-resume/src/app/page.tsx:163-174 | removing the `forget` pattern from the list leaves every verdict unchanged |
| SecurityFilter.IgnorePatternGapBound | generative-resume/src/app/page.tsx:164 | the `ignore` pattern fires exactly when `ignore`, `previous`, `instruction` occur in order with each gap 0 to 20 UTF-16 code units long and free of line terminators |
| SecurityFilter.IgnorePreviousExample | generative-resume/src/app/page.tsx:164 | the mixed-case prompt "IGNORE all Previous Instructions" is rejected |
| SecurityFilter.TenEmojiGapRejected | generative-resume/src/app/page.tsx:167 | `admin` and `mode` separated by ten U+1F600 characters (twenty code units) are rejected |
| SecurityFilter.ElevenEmojiGapAccepted | generative-resume/src/app/page.tsx:167 | with eleven U+1F600 characters (twenty-two code units) in between, the gap is too long and the prompt is accepted |
| ThemeSelection.ThemeNameInjective | generative-resume/src/app/page.tsx:222-252 | the six theme identifiers are distinct and each one is among the six names the page uses |
| ThemeSelection.GroupsUnfold | generative-resume/src/app/page.tsx:225-251 | each keyword group hits exactly when one of the source's `includes` disjuncts holds |
| ThemeSelection.SelectThemeFirstHit | generative-resume/src/app/page.tsx:222-252 | the selected theme is that of the first keyword group the lower-cased prompt hits, and `minimal` exactly when it hits none |
| ThemeSelection.ViSelectsTerminal | generative-resume/src/app/page.tsx:225-231 | any prompt containing `vi` after lower-casing selects terminal |
| ThemeSelection.VimKeywordRedundant | generative-resume/src/app/page.tsx:227-228 | every text containing `vim` contains `vi`, so the `vim` keyword never decides anything |
| ThemeSelection.VintageNeverRetro | generative-resume/src/app/page.tsx:225-239 | a prompt containing `vintage` selects terminal and never retro |
| ThemeSelection.DarkBeatsCyberpunk | generative-resume/src/app/page.tsx:232-251 | a prompt hitting both the dark and the cyberpunk groups, and no terminal keyword, selects dark |
| ThemeSelection.DarkCyberpunkExample | generative-resume/src/app/page.tsx:232-233 | "dark cyberpunk" selects dark |
| ThemeSelection.ScandinavianIsTerminal | generative-resume/src/app/components/ThemePromptForm.tsx:46 | the suggested prompt "Create a minimalist Scandinavian design" selects terminal |
| ThemeSelection.VintageTypewriterIsTerminal | generative-resume/src/app/components/ThemePromptForm.tsx:47 | the suggested prompt "Make it look like a vintage typewriter document" selects terminal, not retro |
| ThemeSelection.RetroReachable | generative-resume/src/app/page.tsx:234-239 | the prompt "retro" selects retro, so the retro theme is reachable |
| ThemeRendering.ThemeCssLookup | generative-resume/src/app/page.tsx:543-590 | a known identifier gets its own stylesheet; any other, `terminal` included, gets the minimal one; the result is never empty |
| ThemeRendering.GenerateThemeContentAssets | generative-resume/src/app/page.tsx:269-327 | `terminal` gets the terminal stylesheet and script and a page holding the ASCII banner and a `cat experience/<slug>.exp` line for every job; any other identifier gets a non-empty stylesheet (its table entry, or the minimal one for an unknown key), the "theme loaded" script, and a page that opens with the `<theme>-resume` element and shows every `position @ company` heading |
| ThemeRendering.GenericThemesShareBody | generative-resume/src/app/page.tsx:276-323 | two non-terminal themes render the same page apart from the root element's class |
| ThemeRendering.GenericHtmlListsEveryJob | generative-resume/src/app/page.tsx:294-307 | the generic template shows every experience entry's `position @ company` heading |
| ThemeRendering.TerminalHtmlHasBanner | generative-resume/src/app/page.tsx:346-353 | the terminal template holds the ASCII-art banner |
| ThemeRendering.TerminalHtmlListsEveryJob | generative-resume/src/app/page.tsx:371-387 | for every experience entry the terminal template holds `cat experience/<slug>.exp` |
| ThemeRendering.TerminalShowsGithub | generative-resume/src/app/page.tsx:360 | a non-empty GitHub handle appears as `GITHUB: <handle>` in the terminal info block |
| ThemeRendering.ReplaceWhitespaceRuns | generative-resume/src/app/page.tsx:375 | replacing whitespace runs never lengthens the text and leaves no whitespace |
| ThemeRendering.SlugHasNoWhitespace | generative-resume/src/app/page.tsx:375 | a company slug contains no whitespace |
| ThemeRendering.SlugIdempotent | generative-resume/src/app/page.tsx:375 | slugging a slug changes nothing |
| ThemeRendering.SlugOfWords | generative-resume/src/app/page.tsx:375 | a company name made of whitespace-free words with a whitespace run in each gap, the runs free to differ from gap to gap, slugs to the lower-cased words joined by `_` |
| ThemeRendering.ReplaceCollapsesRun | generative-resume/src/app/page.tsx:375 | a maximal whitespace run, however long, becomes one underscore |
| Generation.ThemedResultAssets | generative-resume/src/app/page.tsx:254-265 | the result for the terminal theme carries the terminal stylesheet and script; any other theme's result carries its table stylesheet and the "theme loaded" script |
| Generation.GenerateThemedContent | generative-resume/src/app/page.tsx:217-266 | the result's theme is the classifier's choice, the prompt is kept as typed (not lower-cased) and the record is marked secure |
| Generation.ProgressSteps | generative-resume/src/app/page.tsx:193-196 | the loop sets five states, each a copy of the previous one with the progress replaced, through 0, 25, 50, 75 and 100 |
| Generation.RunGeneration | generative-resume/src/app/page.tsx:179-207 | given the filter's verdict and the rendered record, a run starts in `generating` at 0; a rejected prompt ends in `security_violation` with the fixed message and never holds a result; an accepted one sets exactly five `generating` states with progress 0, 25, 50, 75, 100 and then `success` holding the record |
| Generation.GenerateThemedResume | generative-resume/src/app/page.tsx:178-214 | every run starts in `generating` at 0 and never reaches `error`; a rejected prompt ends in `security_violation` with the fixed message and no result; an accepted one passes through the five progress values and ends in `success` with the themed result |
| Progress.IconByStage | generative-resume/src/app/components/ThemeProgress.tsx:16-22 | the icon is determined by the quarter of the run the progress lies in |
| Progress.MessageStartsWithIcon | generative-resume/src/app/components/ThemeProgress.tsx:8-22 | every headline message opens with the headline icon and a space |
| Progress.IconIdentifiesStage | generative-resume/src/app/components/ThemeProgress.tsx:8-22 | two progress values show the same icon, and the same message, exactly when they lie in the same quarter |
| Progress.LitLeftToRight | generative-resume/src/app/components/ThemeProgress.tsx:52-94 | the milestone tiles light up left to right |
| Progress.LitCountIsStage | generative-resume/src/app/components/ThemeProgress.tsx:52-94 | the number of lit tiles equals the headline's stage, so headline and tiles always agree |
| Progress.CompleteRun | generative-resume/src/app/components/ThemeProgress.tsx:13 | at 100 every tile is lit and the headline reports success |
| PromptForm.HandleSubmit | generative-resume/src/app/components/ThemePromptForm.tsx:19-37 | a submit never changes the typed text; it either sets one of the two errors and sends nothing, or clears the error and sends the trimmed text, stamped with the given time |
| PromptForm.SubmitOutcomes | generative-resume/src/app/components/ThemePromptForm.tsx:22-30 | the "enter" error is shown exactly for an all-whitespace prompt, the "more detailed" error exactly for a trimmed length of 1 or 2 code units, and a request is sent exactly when the trimmed length is at least 3 |
| PromptForm.SubmittedPrompt | generative-resume/src/app/components/ThemePromptForm.tsx:32-36 | the sent prompt is the piece of the typed text with only whitespace before and after it and no whitespace at either end of its own, so it is its own trim; it is 3 to 200 code units long |
| PromptForm.ExampleSubmitsVerbatim | generative-resume/src/app/components/ThemePromptForm.tsx:39-53 | each suggested example fits in the textarea and, once clicked, is submitted exactly as written |
| PromptForm.EditKeepsWellFormed | generative-resume/src/app/components/ThemePromptForm.tsx:72-80 | any text the textarea accepts (at most 200 code units) keeps the form within its cap, and editing clears the error |
| PromptForm.SubmitKeepsWellFormed | generative-resume/src/app/components/ThemePromptForm.tsx:80 | a submit keeps the text within the textarea's 200-unit cap |
| Preview.ExportOrder | generative-resume/src/app/components/ThemedResumePreview.tsx:21-38 | the downloaded file holds, in order, the style element with the stylesheet, `<body>`, the HTML, and the script element with the script |
| Preview.ExportWithoutScript | generative-resume/src/app/components/ThemedResumePreview.tsx:34-36 | without a script the file keeps an empty script element, and an absent script exports the same file as an empty one |
| Preview.DownloadFileNameInjective | generative-resume/src/app/components/ThemedResumePreview.tsx:45 | two downloads get the same file name exactly when their themes are equal |
| Preview.PreviewOrder | generative-resume/src/app/components/ThemedResumePreview.tsx:144-152 | the preview frame holds the HTML, then the stylesheet in a style element, then a script element only for a non-empty script |
| Preview.StyleElementInBoth | generative-resume/src/app/components/ThemedResumePreview.tsx:27-29 | both the downloaded file and the preview wrap the stylesheet in a style element |
| Preview.HeaderTitleRoundTrip | generative-resume/src/app/components/ThemedResumePreview.tsx:91-92 | lower-casing the title of a lower-case identifier gives the identifier back |
| Preview.ThemeTitlesCapitalised | generative-resume/src/app/components/ThemedResumePreview.tsx:89-93 | every selectable theme shows a non-empty title starting with a capital letter |
| Preview.JsTabShowsEmbeddedScript | generative-resume/src/app/components/ThemedResumePreview.tsx:149-222 | when the preview runs a script, the JS tab shows exactly the text inside the preview's script element; when it runs none, the tab shows the placeholder |
| Preview.PlaceholderIffNoScript | generative-resume/src/app/components/ThemedResumePreview.tsx:149-151 | the placeholder shows exactly when the preview embeds no script, unless the script is the placeholder text itself |
| Preview.ToggleFullscreenInvolution | generative-resume/src/app/components/ThemedResumePreview.tsx:101 | pressing the fullscreen button twice restores the view |
| Preview.SelectTabLastWins | generative-resume/src/app/components/ThemedResumePreview.tsx:126 | only the last tab clicked counts |
| Preview.SelectTabCommutesWithToggle | generative-resume/src/app/components/ThemedResumePreview.tsx:101-126 | choosing a tab and toggling fullscreen are independent |
| Text.TrimIdempotent | generative-resume/src/app/components/ThemePromptForm.tsx:22-34 | trimming twice is trimming once |
| Text.TrimEmptyIff | generative-resume/src/app/components/ThemePromptForm.tsx:22 | the trim is empty exactly when every character is whitespace |
| Text.ToLowerIdempotent | generative-resume/src/app/page.tsx:223 | lower-casing twice is lower-casing once |

## Left out

- Unicode case mapping: `toLowerCase` and `toUpperCase` are modelled on ASCII letters only. The regular expressions use the `i` flag without `u`, which never folds a non-ASCII character onto an ASCII one, so the filter is unaffected. The classifier (page.tsx:223) and the company slug (page.tsx:375) call `toLowerCase`, which does fold some non-ASCII characters onto ASCII letters, so for them the model differs on such text. The Kelvin sign U+212A lower-cases to `k`, so `"DAR\u212A"` is dark on the page but minimal in the model. U+0130 lower-cases to `i` followed by U+0307, so `"V\u0130"` is terminal on the page but minimal in the model. A company name holding such a character gets a different slug.
- Prompts holding an unpaired surrogate code unit are outside the model. Dafny strings hold Unicode scalar values, so a lone surrogate, which a textarea value may contain and which `.length` and `.{0,20}` count as one unit, cannot be written down.
- Text.Utf16Length: it counts a character above U+FFFF as two code units, as `.length` does. Its contract bounds only the result (between one and two units per character), and the exact count for characters below U+10000 is a separate lemma.
- The stylesheet texts of the five table themes and of the terminal theme are short stand-in constants. Only which stylesheet is chosen matters to the page's logic.
- The page's `themes` object is a plain object literal, so keys such as `constructor` would reach `Object.prototype`. The model's stylesheet table holds only the five own keys. Only the classifier's six identifiers are ever looked up.
- The resume data hard-wired in the page (name, jobs, skills) is a parameter.
- `Date.now()`, `new Date()` and the result id are parameters.
- The 500 ms `setTimeout` delays and the `async` control flow carry no data and are not modelled. The state trace lists the states in the order they are set.
- Generation.GenerateThemedResume: the `catch` branch that sets `error` is not modelled, because no statement in the `try` block can throw. The contract proves that `error` is never reached.
- The clipboard, the share sheet, `Blob`, object URLs, the anchor click and `alert` are browser I/O and are left out. The strings handed to them are modelled.
- Progress values other than integers (fractions, `NaN`) are not modelled. The page sets only 0, 25, 50, 75 and 100.
- Disabling the form while `isGenerating` is a rendering concern and is not modelled.
- JSX markup, Tailwind classes, the animated dots, the progress bar's width style and the character counter are not modelled.
- `next.config.ts` and the page's static resume content are not part of this model.
