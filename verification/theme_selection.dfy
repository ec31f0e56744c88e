/**
 * The keyword classifier that picks a theme from the user's prompt.
 *
 * The prompt is lower-cased and five keyword groups are tried in a fixed
 * priority order; the first group with any substring hit decides the theme,
 * and a prompt hitting no group gets `minimal`. Because the search is on
 * raw substrings, the two-letter keyword `vi` swallows `vim`, `vintage` and
 * any word that merely contains those letters.
 */
module ThemeSelection {
  import opened Text

  datatype Theme = Terminal | Dark | Retro | Neon | Cyberpunk | Minimal

  /** The identifier the page stores in `ThemedResumeResult.theme`. */
  function ThemeName(t: Theme): string {
    match t
    case Terminal => "terminal"
    case Dark => "dark"
    case Retro => "retro"
    case Neon => "neon"
    case Cyberpunk => "cyberpunk"
    case Minimal => "minimal"
  }

  /** The six theme identifiers. */
  const ThemeNames: set<string> := {"terminal", "dark", "retro", "neon", "cyberpunk", "minimal"}

  /** Distinct themes have distinct identifiers, and every identifier is one of the six. */
  lemma ThemeNameInjective(a: Theme, b: Theme)
    ensures ThemeName(a) in ThemeNames
    ensures ThemeName(a) == ThemeName(b) ==> a == b
  {
  }

  /** The keyword groups, highest priority first. */
  const KeywordGroups: seq<(Theme, seq<string>)> := [
    (Terminal, ["terminal", "vi", "vim", "console"]),
    (Dark, ["dark", "night"]),
    (Retro, ["retro", "vintage", "80s"]),
    (Neon, ["neon", "glow", "electric"]),
    (Cyberpunk, ["cyberpunk", "futuristic", "matrix"])
  ]

  /** Some word of `words` is a substring of `s`. */
  predicate HitsAny(s: string, words: seq<string>) {
    exists w :: w in words && Contains(s, w)
  }

  /** Group `g` is the first group hit by the lower-cased prompt `p`. */
  ghost predicate FirstHit(p: string, g: int) {
    && 0 <= g < |KeywordGroups|
    && HitsAny(p, KeywordGroups[g].1)
    && forall h :: 0 <= h < g ==> !HitsAny(p, KeywordGroups[h].1)
  }

  /** The disjunction each group stands for in the source. */
  lemma GroupsUnfold(p: string)
    ensures HitsAny(p, KeywordGroups[0].1) <==>
      Contains(p, "terminal") || Contains(p, "vi") || Contains(p, "vim") || Contains(p, "console")
    ensures HitsAny(p, KeywordGroups[1].1) <==> Contains(p, "dark") || Contains(p, "night")
    ensures HitsAny(p, KeywordGroups[2].1) <==>
      Contains(p, "retro") || Contains(p, "vintage") || Contains(p, "80s")
    ensures HitsAny(p, KeywordGroups[3].1) <==>
      Contains(p, "neon") || Contains(p, "glow") || Contains(p, "electric")
    ensures HitsAny(p, KeywordGroups[4].1) <==>
      Contains(p, "cyberpunk") || Contains(p, "futuristic") || Contains(p, "matrix")
  {
  }

  /**
   * The theme-selection part of `generateThemedContent`: lower-case, then
   * try the groups in priority order.
   */
  function SelectTheme(userPrompt: string): Theme {
    var prompt := ToLower(userPrompt);
    if Contains(prompt, "terminal") || Contains(prompt, "vi") || Contains(prompt, "vim")
       || Contains(prompt, "console") then
      Terminal
    else if Contains(prompt, "dark") || Contains(prompt, "night") then
      Dark
    else if Contains(prompt, "retro") || Contains(prompt, "vintage") || Contains(prompt, "80s") then
      Retro
    else if Contains(prompt, "neon") || Contains(prompt, "glow") || Contains(prompt, "electric") then
      Neon
    else if Contains(prompt, "cyberpunk") || Contains(prompt, "futuristic") || Contains(prompt, "matrix") then
      Cyberpunk
    else
      Minimal
  }

  /**
   * The selected theme is the theme of the first keyword group the
   * lower-cased prompt hits, and `Minimal` exactly when it hits none.
   */
  lemma SelectThemeFirstHit(userPrompt: string)
    ensures var p, t := ToLower(userPrompt), SelectTheme(userPrompt);
      && (t == Minimal <==> forall g :: 0 <= g < |KeywordGroups| ==> !HitsAny(p, KeywordGroups[g].1))
      && (t != Minimal ==> exists g :: FirstHit(p, g) && KeywordGroups[g].0 == t)
  {
    var p := ToLower(userPrompt);
    GroupsUnfold(p);
    var t := SelectTheme(userPrompt);
    if t == Terminal {
      assert FirstHit(p, 0);
    } else if t == Dark {
      assert FirstHit(p, 1);
    } else if t == Retro {
      assert FirstHit(p, 2);
    } else if t == Neon {
      assert FirstHit(p, 3);
    } else if t == Cyberpunk {
      assert FirstHit(p, 4);
    }
  }

  // ---------------------------------------------------------------------
  // Consequences of first-hit-wins substring search

  /** Any prompt containing `vi` after lower-casing selects the terminal theme. */
  lemma ViSelectsTerminal(userPrompt: string)
    requires Contains(ToLower(userPrompt), "vi")
    ensures SelectTheme(userPrompt) == Terminal
  {
  }

  /** Every prompt containing `vim` contains `vi`, so the `vim` keyword never decides anything. */
  lemma VimKeywordRedundant(s: string)
    requires Contains(s, "vim")
    ensures Contains(s, "vi")
  {
    PrefixContained(s, "vim", 2);
    assert "vim"[..2] == "vi";
  }

  /** A prompt containing `vintage` is classified as terminal and never as retro. */
  lemma VintageNeverRetro(userPrompt: string)
    requires Contains(ToLower(userPrompt), "vintage")
    ensures SelectTheme(userPrompt) == Terminal
    ensures SelectTheme(userPrompt) != Retro
  {
    PrefixContained(ToLower(userPrompt), "vintage", 2);
    assert "vintage"[..2] == "vi";
  }

  /** A prompt hitting both the dark and the cyberpunk groups, and no terminal keyword, is dark. */
  lemma DarkBeatsCyberpunk(userPrompt: string)
    requires HitsAny(ToLower(userPrompt), KeywordGroups[1].1)
    requires HitsAny(ToLower(userPrompt), KeywordGroups[4].1)
    requires !HitsAny(ToLower(userPrompt), KeywordGroups[0].1)
    ensures SelectTheme(userPrompt) == Dark
  {
    GroupsUnfold(ToLower(userPrompt));
  }

  /** The prompt "dark cyberpunk" selects dark. */
  lemma DarkCyberpunkExample()
    ensures SelectTheme("dark cyberpunk") == Dark
  {
    var p := ToLower("dark cyberpunk");
    assert p == "dark cyberpunk";
    AbsentCharNotContained(p, "terminal", 0);
    AbsentCharNotContained(p, "vi", 0);
    AbsentCharNotContained(p, "vim", 0);
    AbsentCharNotContained(p, "console", 1);
    assert OccursAt(p, "dark", 0);
  }

  /** The suggested example "Create a minimalist Scandinavian design" selects terminal, because of "scandinavian". */
  lemma ScandinavianIsTerminal()
    ensures SelectTheme("Create a minimalist Scandinavian design") == Terminal
  {
    var p := ToLower("Create a minimalist Scandinavian design");
    assert p[28..30] == "vi";
    assert OccursAt(p, "vi", 28);
  }

  /** The suggested example "Make it look like a vintage typewriter document" selects terminal, not retro. */
  lemma VintageTypewriterIsTerminal()
    ensures SelectTheme("Make it look like a vintage typewriter document") == Terminal
  {
    var p := ToLower("Make it look like a vintage typewriter document");
    assert p[20] == 'v' && p[21] == 'i';
    assert p[20..22] == "vi";
    assert OccursAt(p, "vi", 20);
  }

  /** The word "retro" alone selects retro, so the retro theme is reachable. */
  lemma RetroReachable()
    ensures SelectTheme("retro") == Retro
  {
    var p := ToLower("retro");
    assert p == "retro";
    AbsentCharNotContained(p, "terminal", 3);
    AbsentCharNotContained(p, "vi", 0);
    AbsentCharNotContained(p, "vim", 0);
    AbsentCharNotContained(p, "console", 0);
    AbsentCharNotContained(p, "dark", 0);
    AbsentCharNotContained(p, "night", 0);
    assert OccursAt(p, "retro", 0);
  }
}
