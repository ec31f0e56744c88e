/**
 * Rendering a theme: the HTML, CSS and JS strings the page produces for a
 * selected theme identifier.
 *
 * The terminal theme has its own "shell session" template; every other
 * identifier shares one generic template whose root element carries the
 * class `<theme>-resume`, paired with a stylesheet looked up by identifier
 * with a fallback to the minimal stylesheet. Stylesheet texts are stand-in
 * constants: only which one is chosen matters here.
 */
module ThemeRendering {
  import opened Wrappers
  import opened Text
  import opened ResumeTypes

  /** The three strings a theme produces. */
  datatype ThemeBundle = ThemeBundle(html: string, css: string, js: string)

  // ---------------------------------------------------------------------
  // getThemeCSS

  const DarkCss: string := "/* dark stylesheet */"
  const RetroCss: string := "/* retro stylesheet */"
  const NeonCss: string := "/* neon stylesheet */"
  const MinimalCss: string := "/* minimal stylesheet */"
  const CyberpunkCss: string := "/* cyberpunk stylesheet */"

  /** The stylesheet table of `getThemeCSS`; it has no terminal entry. */
  const CssTable: map<string, string> := map[
    "dark" := DarkCss,
    "retro" := RetroCss,
    "neon" := NeonCss,
    "minimal" := MinimalCss,
    "cyberpunk" := CyberpunkCss
  ]

  /** `getThemeCSS`: `themes[theme] || themes.minimal`. */
  function ThemeCss(theme: string): string {
    if theme in CssTable && CssTable[theme] != "" then CssTable[theme] else CssTable["minimal"]
  }

  /**
   * A known key gets its own table entry; any other key, `terminal`
   * included, gets the minimal stylesheet. The result is never empty.
   */
  lemma ThemeCssLookup(theme: string)
    ensures theme in CssTable ==> ThemeCss(theme) == CssTable[theme]
    ensures theme !in CssTable ==> ThemeCss(theme) == MinimalCss
    ensures ThemeCss(theme) != ""
    ensures ThemeCss(theme) == MinimalCss <==> theme == "minimal" || theme !in CssTable
  {
  }

  // ---------------------------------------------------------------------
  // The terminal file-name slug: company.toLowerCase().replace(/\s+/g, "_")

  /** `replace(/\s+/g, "_")`: every maximal run of whitespace becomes one underscore. */
  function ReplaceWhitespaceRuns(s: string): (r: string)
    ensures |r| <= |s|
    ensures forall k :: 0 <= k < |r| ==> !IsWhitespace(r[k])
    decreases |s|
  {
    if s == [] then []
    else if IsWhitespace(s[0]) then "_" + ReplaceWhitespaceRuns(TrimStart(s[1..]))
    else [s[0]] + ReplaceWhitespaceRuns(s[1..])
  }

  /** The slug a company name becomes in the terminal theme's `cat experience/<slug>.exp` line. */
  function Slug(company: string): string {
    ReplaceWhitespaceRuns(ToLower(company))
  }

  /** A whitespace-free prefix passes through unchanged. */
  lemma {:induction false} ReplacePassesWord(w: string, rest: string)
    requires forall k :: 0 <= k < |w| ==> !IsWhitespace(w[k])
    ensures ReplaceWhitespaceRuns(w + rest) == w + ReplaceWhitespaceRuns(rest)
    decreases |w|
  {
    if w != [] {
      var s := w + rest;
      assert s[0] == w[0] && s[1..] == w[1..] + rest;
      assert !IsWhitespace(s[0]);
      assert ReplaceWhitespaceRuns(s) == [s[0]] + ReplaceWhitespaceRuns(s[1..]);
      ReplacePassesWord(w[1..], rest);
      assert [w[0]] + (w[1..] + ReplaceWhitespaceRuns(rest)) == w + ReplaceWhitespaceRuns(rest);
    } else {
      assert w + rest == rest;
    }
  }

  /** A whitespace run followed by a non-whitespace character becomes one underscore. */
  lemma ReplaceCollapsesRun(sep: string, rest: string)
    requires |sep| > 0 && forall k :: 0 <= k < |sep| ==> IsWhitespace(sep[k])
    requires rest == [] || !IsWhitespace(rest[0])
    ensures ReplaceWhitespaceRuns(sep + rest) == "_" + ReplaceWhitespaceRuns(rest)
  {
    var s := sep + rest;
    assert s[0] == sep[0] && s[1..] == sep[1..] + rest;
    assert IsWhitespace(s[0]);
    TrimStartSkipsRun(sep[1..], rest);
    assert ReplaceWhitespaceRuns(s) == "_" + ReplaceWhitespaceRuns(TrimStart(s[1..]));
  }

  lemma {:induction false} TrimStartSkipsRun(sep: string, rest: string)
    requires forall k :: 0 <= k < |sep| ==> IsWhitespace(sep[k])
    requires rest == [] || !IsWhitespace(rest[0])
    ensures TrimStart(sep + rest) == rest
    decreases |sep|
  {
    if sep == [] {
      assert sep + rest == rest;
    } else {
      assert (sep + rest)[1..] == sep[1..] + rest;
      TrimStartSkipsRun(sep[1..], rest);
    }
  }

  /** A non-empty run of whitespace, the unit `/\s+/` matches. */
  predicate WhitespaceRun(r: string) {
    |r| > 0 && forall k :: 0 <= k < |r| ==> IsWhitespace(r[k])
  }

  /** The words interleaved with their own separators: `words[0] + seps[0] + words[1] + ...`. */
  function JoinWith(words: seq<string>, seps: seq<string>): string
    requires |words| <= |seps| + 1
    decreases |words|
  {
    if |words| == 0 then ""
    else if |words| == 1 then words[0]
    else words[0] + seps[0] + JoinWith(words[1..], seps[1..])
  }

  /**
   * Non-empty whitespace-free words with one whitespace run in each gap
   * between neighbours; the runs may all differ.
   */
  predicate SeparatedWords(words: seq<string>, seps: seq<string>) {
    && (|seps| + 1 == |words| || (words == [] && seps == []))
    && (forall i :: 0 <= i < |seps| ==> WhitespaceRun(seps[i]))
    && forall i :: 0 <= i < |words| ==>
         |words[i]| > 0 && forall k :: 0 <= k < |words[i]| ==> !IsWhitespace(words[i][k])
  }

  /** Joining words with any whitespace runs and then replacing runs is joining them with `_`. */
  lemma {:induction false} ReplaceJoin(words: seq<string>, seps: seq<string>)
    requires SeparatedWords(words, seps)
    ensures ReplaceWhitespaceRuns(JoinWith(words, seps)) == Join(words, "_")
    decreases |words|
  {
    if |words| == 0 {
    } else if |words| == 1 {
      ReplacePassesWord(words[0], "");
      assert words[0] + "" == words[0];
    } else {
      var sep := seps[0];
      var rest := JoinWith(words[1..], seps[1..]);
      assert SeparatedWords(words[1..], seps[1..]);
      assert WhitespaceRun(sep);
      ReplaceJoin(words[1..], seps[1..]);
      assert rest[0] == words[1][0] by { JoinWithHead(words[1..], seps[1..]); }
      assert words[0] + sep + rest == words[0] + (sep + rest);
      ReplacePassesWord(words[0], sep + rest);
      ReplaceCollapsesRun(sep, rest);
      assert words[0] + "_" + Join(words[1..], "_") == words[0] + ("_" + Join(words[1..], "_"));
    }
  }

  lemma JoinWithHead(words: seq<string>, seps: seq<string>)
    requires |words| <= |seps| + 1
    requires |words| > 0 && |words[0]| > 0
    ensures |JoinWith(words, seps)| > 0 && JoinWith(words, seps)[0] == words[0][0]
  {
  }

  /** A slug contains no whitespace. */
  lemma SlugHasNoWhitespace(company: string)
    ensures forall k :: 0 <= k < |Slug(company)| ==> !IsWhitespace(Slug(company)[k])
  {
  }

  /** Slugging is idempotent. */
  lemma SlugIdempotent(company: string)
    ensures Slug(Slug(company)) == Slug(company)
  {
    var s := Slug(company);
    var lower := ToLower(company);
    assert s == ReplaceWhitespaceRuns(lower);
    ReplaceKeepsLowerCase(lower);
    forall k | 0 <= k < |s| ensures ToLower(s)[k] == s[k] {
      assert LowerChar(s[k]) == s[k];
    }
    assert ToLower(s) == s;
    ReplaceIdentityOnWhitespaceFree(s);
  }

  /** Replacing runs keeps a lower-case string lower-case. */
  lemma {:induction false} ReplaceKeepsLowerCase(s: string)
    requires forall k :: 0 <= k < |s| ==> LowerChar(s[k]) == s[k]
    ensures var r := ReplaceWhitespaceRuns(s); forall k :: 0 <= k < |r| ==> LowerChar(r[k]) == r[k]
    decreases |s|
  {
    if s == [] {
    } else if IsWhitespace(s[0]) {
      var t := TrimStart(s[1..]);
      var d := |s| - |t|;
      assert forall k :: 0 <= k < |t| ==> t[k] == s[d + k];
      ReplaceKeepsLowerCase(t);
      assert ReplaceWhitespaceRuns(s) == "_" + ReplaceWhitespaceRuns(t);
    } else {
      ReplaceKeepsLowerCase(s[1..]);
      assert ReplaceWhitespaceRuns(s) == [s[0]] + ReplaceWhitespaceRuns(s[1..]);
    }
  }

  lemma ReplaceIdentityOnWhitespaceFree(s: string)
    requires forall k :: 0 <= k < |s| ==> !IsWhitespace(s[k])
    ensures ReplaceWhitespaceRuns(s) == s
  {
    ReplacePassesWord(s, "");
    assert s + "" == s;
  }

  /** Each text of `xs` lower-cased. */
  function LowerAll(xs: seq<string>): (r: seq<string>)
    ensures |r| == |xs| && forall i :: 0 <= i < |xs| ==> r[i] == ToLower(xs[i])
  {
    seq(|xs|, i requires 0 <= i < |xs| => ToLower(xs[i]))
  }

  /**
   * A company name made of words separated by whitespace runs, a different
   * run in each gap if need be, gets the slug of its lower-cased words
   * joined with `_`.
   */
  lemma SlugOfWords(words: seq<string>, seps: seq<string>)
    requires SeparatedWords(words, seps)
    ensures Slug(JoinWith(words, seps)) == Join(LowerAll(words), "_")
  {
    var lowered, loweredSeps := LowerAll(words), LowerAll(seps);
    ToLowerJoinWith(words, seps);
    assert SeparatedWords(lowered, loweredSeps) by {
      forall i | 0 <= i < |lowered|
        ensures forall k :: 0 <= k < |lowered[i]| ==> !IsWhitespace(lowered[i][k])
      {
        assert forall k :: 0 <= k < |words[i]| ==> lowered[i][k] == LowerChar(words[i][k]);
      }
      forall i | 0 <= i < |loweredSeps| ensures WhitespaceRun(loweredSeps[i]) {
        assert WhitespaceRun(seps[i]);
        assert forall k :: 0 <= k < |seps[i]| ==> loweredSeps[i][k] == LowerChar(seps[i][k]);
      }
    }
    ReplaceJoin(lowered, loweredSeps);
  }

  /** Lower-casing distributes over joining. */
  lemma {:induction false} ToLowerJoinWith(words: seq<string>, seps: seq<string>)
    requires |words| <= |seps| + 1
    ensures ToLower(JoinWith(words, seps)) == JoinWith(LowerAll(words), LowerAll(seps))
    decreases |words|
  {
    if |words| > 1 {
      ToLowerJoinWith(words[1..], seps[1..]);
      assert LowerAll(words[1..]) == LowerAll(words)[1..];
      assert LowerAll(seps[1..]) == LowerAll(seps)[1..];
      ToLowerAppend(words[0], seps[0]);
      ToLowerAppend(words[0] + seps[0], JoinWith(words[1..], seps[1..]));
    }
  }

  // ---------------------------------------------------------------------
  // The generic template shared by every non-terminal theme

  /** The heading that names a job in the generic template. */
  function JobHeading(exp: Experience): string {
    "<h4>" + exp.position + " @ " + exp.company + "</h4>"
  }

  const JobOpen: string := "\n      <div class=\"job\">\n        "

  function JobRest(exp: Experience): string {
    "\n        <p class=\"duration\">" + exp.duration + " | " + exp.location + "</p>\n"
    + "        <ul>\n          " + Join(seq(|exp.achievements|, i requires 0 <= i < |exp.achievements| =>
                                      "<li>" + exp.achievements[i] + "</li>"), "")
    + "\n        </ul>\n        <p class=\"tech\">Technologies: " + Join(exp.technologies, ", ")
    + "</p>\n      </div>\n    "
  }

  function JobHtml(exp: Experience): string {
    JobOpen + JobHeading(exp) + JobRest(exp)
  }

  function SkillGroupHtml(group: SkillGroup): string {
    "\n      <div class=\"skill-group\">\n        <h4>" + group.category + "</h4>\n        <p>"
    + Join(group.items, " \U{2022} ") + "</p>\n      </div>\n    "
  }

  function JobBlocks(exps: seq<Experience>): (r: seq<string>)
    ensures |r| == |exps| && forall i :: 0 <= i < |exps| ==> r[i] == JobHtml(exps[i])
  {
    seq(|exps|, i requires 0 <= i < |exps| => JobHtml(exps[i]))
  }

  function JobsHtml(exps: seq<Experience>): string {
    Join(JobBlocks(exps), "")
  }

  function SkillsHtml(groups: seq<SkillGroup>): string {
    Join(seq(|groups|, i requires 0 <= i < |groups| => SkillGroupHtml(groups[i])), "")
  }

  /** The opening tag of the generic template, carrying the root class. */
  function RootTag(theme: string): string {
    "\n<div class=\"" + theme + "-resume\">"
  }

  function GenericHeader(c: ResumeContent): string {
    "\n  <header class=\"header\">\n    <h1>" + c.personalInfo.name + "</h1>\n    <h2>"
    + c.personalInfo.title + "</h2>\n    <div class=\"contact\">\n      <p>\U{1F4E7} "
    + c.personalInfo.email + "</p>\n      <p>\U{1F4CD} " + c.personalInfo.location
    + "</p>\n    </div>\n  </header>\n\n  <section class=\"summary\">\n    <h3>Summary</h3>\n    <p>"
    + c.summary + "</p>\n  </section>\n\n  <section class=\"experience\">\n    <h3>Experience</h3>\n    "
  }

  function GenericFooter(c: ResumeContent): string {
    "\n  </section>\n\n  <section class=\"skills\">\n    <h3>Skills</h3>\n    "
    + SkillsHtml(c.skills) + "\n  </section>\n</div>"
  }

  /** Everything of the generic template after its root tag; it does not depend on the theme. */
  function GenericBody(c: ResumeContent): string {
    GenericHeader(c) + JobsHtml(c.experience) + GenericFooter(c)
  }

  function GenericHtml(theme: string, c: ResumeContent): string {
    RootTag(theme) + GenericBody(c)
  }

  /** The one-line script of a non-terminal theme. */
  function ThemeLoadedJs(theme: string): string {
    "console.log('" + theme + " theme loaded');"
  }

  // ---------------------------------------------------------------------
  // generateTerminalTheme

  /** The ASCII-art banner printed by `cat personal_info.txt`. */
  const AsciiArt: string :=
    " █████╗ ██╗     ███████╗██╗  ██╗\n"
    + "██╔══██╗██║     ██╔════╝╚██╗██╔╝\n"
    + "███████║██║     █████╗   ╚███╔╝\n"
    + "██╔══██║██║     ██╔══╝   ██╔██╗\n"
    + "██║  ██║███████╗███████╗██╔╝ ██╗\n"
    + "╚═╝  ╚═╝╚══════╝╚══════╝╚═╝  ╚═╝\n"

  const TerminalCss: string := "/* terminal stylesheet */"

  const TerminalJs: string :=
    "\ndocument.addEventListener('DOMContentLoaded', function() {\n"
    + "  console.log('Terminal theme resume loaded!');\n});"

  const ShellPrompt: string := "<span class=\"prompt\">alex@resume:~$</span>"

  /** The command a terminal experience block runs. */
  function ExperienceCommand(exp: Experience): string {
    "cat experience/" + Slug(exp.company) + ".exp"
  }

  const TerminalJobOpen: string :=
    "\n      <div class=\"terminal-line\">\n        " + ShellPrompt + " <span class=\"command\">"

  function TerminalJobRest(exp: Experience): string {
    "</span>\n      </div>\n      <div class=\"output\">\n"
    + "        <div class=\"exp-header\">" + exp.position + " @ " + exp.company + "</div>\n"
    + "        <div class=\"exp-duration\">" + exp.duration + " | " + exp.location + "</div>\n"
    + "        <div class=\"achievements\">\n          "
    + Join(seq(|exp.achievements|, i requires 0 <= i < |exp.achievements| =>
             "<div class=\"achievement\">\U{2022} " + exp.achievements[i] + "</div>"), "")
    + "\n        </div>\n        <div class=\"tech-stack\">Tech: [" + Join(exp.technologies, ", ")
    + "]</div>\n      </div>\n    "
  }

  function TerminalJobHtml(exp: Experience): string {
    TerminalJobOpen + ExperienceCommand(exp) + TerminalJobRest(exp)
  }

  function TerminalJobBlocks(exps: seq<Experience>): (r: seq<string>)
    ensures |r| == |exps| && forall i :: 0 <= i < |exps| ==> r[i] == TerminalJobHtml(exps[i])
  {
    seq(|exps|, i requires 0 <= i < |exps| => TerminalJobHtml(exps[i]))
  }

  function TerminalJobsHtml(exps: seq<Experience>): string {
    Join(TerminalJobBlocks(exps), "")
  }

  /** `github ? <field> : ""`: an absent or empty handle adds nothing. */
  function GithubField(github: Option<string>): string {
    match github
    case Some(g) => if g != "" then "<div class=\"field\">GITHUB: " + g + "</div>" else ""
    case None => ""
  }

  const TerminalTop: string :=
    "\n<div class=\"terminal-container\">\n  <div class=\"terminal-header\">\n"
    + "    <div class=\"terminal-buttons\">\n      <span class=\"btn close\"></span>\n"
    + "      <span class=\"btn minimize\"></span>\n      <span class=\"btn maximize\"></span>\n"
    + "    </div>\n    <div class=\"terminal-title\">alex@resume:~$</div>\n  </div>\n"
    + "  <div class=\"terminal-body\">\n    <div class=\"terminal-line\">\n      " + ShellPrompt
    + " <span class=\"command\">cat personal_info.txt</span>\n    </div>\n"
    + "    <div class=\"output\">\n      <div class=\"ascii-art\">\n"

  function TerminalInfoHead(p: PersonalInfo): string {
    "      </div>\n      <div class=\"info-block\">\n"
    + "        <div class=\"field\">NAME: " + p.name + "</div>\n"
    + "        <div class=\"field\">TITLE: " + p.title + "</div>\n"
    + "        <div class=\"field\">EMAIL: " + p.email + "</div>\n\n"
    + "        <div class=\"field\">LOCATION: " + p.location + "</div>\n        "
  }

  function TerminalSummary(c: ResumeContent): string {
    "\n      </div>\n    </div>\n\n"
    + "    <div class=\"terminal-line\">\n      " + ShellPrompt
    + " <span class=\"command\">cat summary.txt</span>\n    </div>\n"
    + "    <div class=\"output\">\n      <div class=\"text-content\">" + c.summary
    + "</div>\n    </div>\n\n    "
  }

  function TerminalInfo(c: ResumeContent): string {
    TerminalInfoHead(c.personalInfo) + GithubField(c.personalInfo.github) + TerminalSummary(c)
  }

  const TerminalBottom: string :=
    "\n\n    <div class=\"terminal-line cursor-line\">\n      " + ShellPrompt
    + " <span class=\"cursor\">\U{2588}</span>\n    </div>\n  </div>\n</div>"

  function TerminalHtml(c: ResumeContent): string {
    TerminalTop + AsciiArt + TerminalInfo(c) + TerminalJobsHtml(c.experience) + TerminalBottom
  }

  function TerminalBundle(c: ResumeContent): ThemeBundle {
    ThemeBundle(TerminalHtml(c), TerminalCss, TerminalJs)
  }

  // ---------------------------------------------------------------------
  // generateThemeContent

  /** `generateThemeContent`: the terminal template for `terminal`, the generic one otherwise. */
  function GenerateThemeContent(theme: string, c: ResumeContent): (b: ThemeBundle)
    ensures theme == "terminal" ==> b == TerminalBundle(c)
    ensures theme != "terminal" ==>
      && b.css == ThemeCss(theme)
      && b.js == ThemeLoadedJs(theme)
      && b.html == RootTag(theme) + GenericBody(c)
  {
    if theme == "terminal" then TerminalBundle(c)
    else ThemeBundle(GenericHtml(theme, c), ThemeCss(theme), ThemeLoadedJs(theme))
  }

  /**
   * What the terminal branch of `generateThemeContent` delivers: the
   * terminal stylesheet and script, and a page holding the banner and a
   * `cat experience/<slug>.exp` line per job.
   */
  predicate TerminalAssets(b: ThemeBundle, c: ResumeContent) {
    b.css == TerminalCss && b.js == TerminalJs && TerminalPageAssets(b.html, c)
  }

  predicate TerminalPageAssets(html: string, c: ResumeContent) {
    && Contains(html, AsciiArt)
    && forall i :: 0 <= i < |c.experience| ==> Contains(html, ExperienceCommand(c.experience[i]))
  }

  /**
   * What any other identifier gets: a non-empty stylesheet, its table entry
   * or else the minimal one, the "theme loaded" script, and a page that
   * opens with the element of class `<theme>-resume` and lists every
   * `position @ company` heading.
   */
  predicate GenericAssets(b: ThemeBundle, theme: string, c: ResumeContent) {
    && b.css != ""
    && (theme in CssTable ==> b.css == CssTable[theme])
    && (theme !in CssTable ==> b.css == MinimalCss)
    && b.js == ThemeLoadedJs(theme)
    && OccursAt(b.html, "\n<div class=\"" + theme + "-resume\">", 0)
    && forall i :: 0 <= i < |c.experience| ==> Contains(b.html, JobHeading(c.experience[i]))
  }

  /** Each branch of `generateThemeContent` delivers its assets. */
  lemma GenerateThemeContentAssets(theme: string, c: ResumeContent)
    ensures theme == "terminal" ==> TerminalAssets(GenerateThemeContent(theme, c), c)
    ensures theme != "terminal" ==> GenericAssets(GenerateThemeContent(theme, c), theme, c)
  {
    if theme == "terminal" {
      TerminalContentAssets(c);
    } else {
      GenericContentAssets(theme, c);
    }
  }

  lemma TerminalContentAssets(c: ResumeContent)
    ensures TerminalAssets(TerminalBundle(c), c)
  {
    TerminalPage(c);
  }

  lemma TerminalPage(c: ResumeContent)
    ensures TerminalPageAssets(TerminalHtml(c), c)
  {
    TerminalHtmlHasBanner(c);
    TerminalHtmlListsAllJobs(c);
  }

  lemma TerminalHtmlListsAllJobs(c: ResumeContent)
    ensures forall i :: 0 <= i < |c.experience| ==> Contains(TerminalHtml(c), ExperienceCommand(c.experience[i]))
  {
    forall i | 0 <= i < |c.experience|
      ensures Contains(TerminalHtml(c), ExperienceCommand(c.experience[i]))
    {
      TerminalHtmlListsEveryJob(c, i);
    }
  }

  lemma GenericContentAssets(theme: string, c: ResumeContent)
    ensures GenericAssets(ThemeBundle(GenericHtml(theme, c), ThemeCss(theme), ThemeLoadedJs(theme)), theme, c)
  {
    ThemeCssLookup(theme);
    OccursAtFront(RootTag(theme), GenericBody(c));
    GenericHtmlListsAllJobs(theme, c);
  }

  lemma GenericHtmlListsAllJobs(theme: string, c: ResumeContent)
    ensures forall i :: 0 <= i < |c.experience| ==> Contains(GenericHtml(theme, c), JobHeading(c.experience[i]))
  {
    forall i | 0 <= i < |c.experience| ensures Contains(GenericHtml(theme, c), JobHeading(c.experience[i])) {
      GenericHtmlListsEveryJob(theme, c, i);
    }
  }

  /** Each experience entry appears in the generic template under its position and company. */
  lemma GenericHtmlListsEveryJob(theme: string, c: ResumeContent, i: int)
    requires 0 <= i < |c.experience|
    ensures Contains(GenericHtml(theme, c), JobHeading(c.experience[i]))
  {
    var exp := c.experience[i];
    var w := JobHeading(exp);
    ContainsInfix(JobOpen, w, JobRest(exp));
    JoinContainsEach(JobBlocks(c.experience), "", i);
    ContainsInfixTransitive(JobsHtml(c.experience), JobHtml(exp), w);
    ContainsWithin(GenericHeader(c), JobsHtml(c.experience), GenericFooter(c), w);
    ContainsWithin(RootTag(theme), GenericBody(c), "", w);
  }

  /** The terminal template holds the ASCII-art banner. */
  lemma TerminalHtmlHasBanner(c: ResumeContent)
    ensures Contains(TerminalHtml(c), AsciiArt)
  {
    var info, jobs := TerminalInfo(c), TerminalJobsHtml(c.experience);
    ContainsSelf(AsciiArt);
    ContainsWithin(TerminalTop, AsciiArt, "", AsciiArt);
    ContainsWithin("", TerminalTop + AsciiArt, info, AsciiArt);
    ContainsWithin("", TerminalTop + AsciiArt + info, jobs, AsciiArt);
    ContainsWithin("", TerminalTop + AsciiArt + info + jobs, TerminalBottom, AsciiArt);
  }

  /** For every experience entry the terminal template holds the command line naming its slug. */
  lemma TerminalHtmlListsEveryJob(c: ResumeContent, i: int)
    requires 0 <= i < |c.experience|
    ensures Contains(TerminalHtml(c), ExperienceCommand(c.experience[i]))
  {
    var info, jobs := TerminalInfo(c), TerminalJobsHtml(c.experience);
    var exp := c.experience[i];
    var w := ExperienceCommand(exp);
    ContainsInfix(TerminalJobOpen, w, TerminalJobRest(exp));
    JoinContainsEach(TerminalJobBlocks(c.experience), "", i);
    ContainsInfixTransitive(jobs, TerminalJobHtml(exp), w);
    ContainsWithin(TerminalTop + AsciiArt + info, jobs, TerminalBottom, w);
  }

  /** A non-empty GitHub handle is listed in the terminal info block. */
  lemma TerminalShowsGithub(c: ResumeContent, g: string)
    requires c.personalInfo.github == Some(g) && g != ""
    ensures Contains(TerminalHtml(c), "GITHUB: " + g)
  {
    GithubInInfo(c, g);
    InfoInTerminalHtml(c, "GITHUB: " + g);
  }

  lemma GithubInInfo(c: ResumeContent, g: string)
    requires c.personalInfo.github == Some(g) && g != ""
    ensures Contains(TerminalInfo(c), "GITHUB: " + g)
  {
    var w := "GITHUB: " + g;
    var field := GithubField(c.personalInfo.github);
    assert field == "<div class=\"field\">" + w + "</div>";
    ContainsInfix("<div class=\"field\">", w, "</div>");
    var info := TerminalInfo(c);
    assert info == TerminalInfoHead(c.personalInfo) + field + TerminalSummary(c);
    ContainsInfix(TerminalInfoHead(c.personalInfo), field, TerminalSummary(c));
    ContainsInfixTransitive(info, field, w);
  }

  /** Whatever the info block holds, the terminal template holds. */
  lemma InfoInTerminalHtml(c: ResumeContent, w: string)
    requires Contains(TerminalInfo(c), w)
    ensures Contains(TerminalHtml(c), w)
  {
    var jobs := TerminalJobsHtml(c.experience);
    ContainsWithin(TerminalTop + AsciiArt, TerminalInfo(c), "", w);
    ContainsWithin("", TerminalTop + AsciiArt + TerminalInfo(c), jobs, w);
    ContainsWithin("", TerminalTop + AsciiArt + TerminalInfo(c) + jobs, TerminalBottom, w);
  }

  /** Two non-terminal themes render the same page apart from the root class. */
  lemma GenericThemesShareBody(t1: string, t2: string, c: ResumeContent)
    requires t1 != "terminal" && t2 != "terminal"
    ensures GenerateThemeContent(t1, c).html[|RootTag(t1)|..] == GenerateThemeContent(t2, c).html[|RootTag(t2)|..]
  {
  }
}
