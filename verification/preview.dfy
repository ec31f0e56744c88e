/**
 * The result panel: the standalone HTML file offered for download, the
 * document shown in the preview frame, the header title, the text of the
 * JS tab, and the tab and fullscreen state.
 *
 * The Blob, the object URL, the anchor click, the clipboard and the share
 * sheet are browser I/O and are not modelled; only the strings they are
 * given are.
 */
module Preview {
  import opened Wrappers
  import opened Text
  import opened ResumeTypes
  import opened ThemeSelection

  // ---------------------------------------------------------------------
  // downloadResume

  /** `jsContent || ""`: an absent script and an empty one both read as empty. */
  function ScriptText(js: Option<string>): (r: string)
    ensures js.Some? ==> r == js.value
    ensures js.None? ==> r == ""
  {
    match js
    case None => ""
    case Some(s) => s
  }

  /** The exported file up to and excluding the `<style>` tag; the title names the theme. */
  function DocumentHead(theme: string): string {
    "<!DOCTYPE html>\n<html lang=\"en\">\n<head>\n    <meta charset=\"UTF-8\">\n"
    + "    <meta name=\"viewport\" content=\"width=device-width, initial-scale=1.0\">\n"
    + "    <title>Alex Johnson - " + theme + " Theme Resume</title>\n    "
  }

  /**
   * The complete file `downloadResume` saves: the stylesheet inside the
   * head's style element, the HTML inside the body, then a script element
   * holding the script or nothing.
   */
  function ExportDocument(r: ThemedResumeResult): string {
    DocumentHead(r.theme)
    + "<style>" + "\n" + r.cssContent + "\n    " + "</style>"
    + "\n</head>\n" + "<body>" + "\n" + r.htmlContent + "\n\n    "
    + "<script>" + "\n" + ScriptText(r.jsContent) + "\n    " + "</script>"
    + "\n</body>\n</html>"
  }

  /**
   * In the exported file the style element holding the stylesheet comes
   * first, then `<body>` and the HTML, and the script element comes last.
   */
  lemma ExportOrder(r: ThemedResumeResult)
    ensures InOrder(ExportDocument(r),
                    ["<style>", r.cssContent, "</style>", "<body>", r.htmlContent, "<script>", ScriptText(r.jsContent), "</script>"])
  {
    InOrderSeparated(DocumentHead(r.theme), "<style>", "\n", r.cssContent, "\n    ", "</style>",
                     "\n</head>\n", "<body>", "\n", r.htmlContent, "\n\n    ",
                     "<script>", "\n", ScriptText(r.jsContent), "\n    ", "</script>", "\n</body>\n</html>");
  }

  /**
   * Eight words with filler text before, between and after them occur in
   * the result in order.
   */
  lemma InOrderSeparated(f0: string, w0: string, f1: string, w1: string, f2: string, w2: string,
                         f3: string, w3: string, f4: string, w4: string, f5: string, w5: string,
                         f6: string, w6: string, f7: string, w7: string, f8: string)
    ensures InOrder(f0 + w0 + f1 + w1 + f2 + w2 + f3 + w3 + f4 + w4 + f5 + w5 + f6 + w6 + f7 + w7 + f8,
                    [w0, w1, w2, w3, w4, w5, w6, w7])
  {
    var e := [w0, w1, w2, w3, w4, w5, w6, w7];
    var d := f0;
    assert e[..0] == [];
    InOrderAppendWord(d, e, 1);
    d := d + w0;
    InOrderExtend(d, f1, e[..1]);
    d := d + f1;
    InOrderAppendWord(d, e, 2);
    d := d + w1;
    InOrderExtend(d, f2, e[..2]);
    d := d + f2;
    InOrderAppendWord(d, e, 3);
    d := d + w2;
    InOrderExtend(d, f3, e[..3]);
    d := d + f3;
    InOrderAppendWord(d, e, 4);
    d := d + w3;
    InOrderExtend(d, f4, e[..4]);
    d := d + f4;
    InOrderAppendWord(d, e, 5);
    d := d + w4;
    InOrderExtend(d, f5, e[..5]);
    d := d + f5;
    InOrderAppendWord(d, e, 6);
    d := d + w5;
    InOrderExtend(d, f6, e[..6]);
    d := d + f6;
    InOrderAppendWord(d, e, 7);
    d := d + w6;
    InOrderExtend(d, f7, e[..7]);
    d := d + f7;
    InOrderAppendWord(d, e, 8);
    d := d + w7;
    InOrderExtend(d, f8, e[..8]);
    assert e[..8] == e;
  }

  /**
   * Without a script the exported file still has its script element, empty;
   * an absent script and an empty one export the same file.
   */
  lemma ExportWithoutScript(r: ThemedResumeResult)
    requires r.jsContent.None? || r.jsContent == Some("")
    ensures Contains(ExportDocument(r), "<script>" + "\n" + "\n    " + "</script>")
    ensures ExportDocument(r) == ExportDocument(r.(jsContent := None))
  {
    var d := ExportDocument(r);
    var front := DocumentHead(r.theme) + "<style>" + "\n" + r.cssContent + "\n    " + "</style>"
                 + "\n</head>\n" + "<body>" + "\n" + r.htmlContent + "\n\n    ";
    var block := "<script>" + "\n" + "" + "\n    " + "</script>";
    assert d == front + block + "\n</body>\n</html>";
    assert block == "<script>" + "\n" + "\n    " + "</script>";
    ContainsInfix(front, block, "\n</body>\n</html>");
  }

  /** `alex-johnson-resume-<theme>.html`, the name of the downloaded file. */
  function DownloadFileName(theme: string): string {
    "alex-johnson-resume-" + theme + ".html"
  }

  /** The file name determines the theme: distinct themes never share a file name. */
  lemma DownloadFileNameInjective(a: string, b: string)
    ensures DownloadFileName(a) == DownloadFileName(b) <==> a == b
  {
    if DownloadFileName(a) == DownloadFileName(b) {
      var n := |"alex-johnson-resume-"|;
      assert |a| == |b|;
      assert DownloadFileName(a)[n..n + |a|] == a;
      assert DownloadFileName(b)[n..n + |b|] == b;
    }
  }

  // ---------------------------------------------------------------------
  // The preview frame's srcDoc

  /** A script is embedded only when it is present and non-empty. */
  predicate HasScript(js: Option<string>) {
    js.Some? && js.value != ""
  }

  /** The document loaded into the preview frame. */
  function PreviewDocument(r: ThemedResumeResult): string {
    r.htmlContent + "<style>" + r.cssContent + "</style>"
    + (if HasScript(r.jsContent) then "<script>" + r.jsContent.value + "</script>" else "")
  }

  /**
   * The preview holds the HTML, then the stylesheet wrapped in a style
   * element, then, for a non-empty script only, the script wrapped in a
   * script element; without one it ends at `</style>`.
   */
  lemma PreviewOrder(r: ThemedResumeResult)
    ensures var w := [r.htmlContent, "<style>", r.cssContent, "</style>"];
      && InOrder(PreviewDocument(r), w)
      && (HasScript(r.jsContent) ==> InOrder(PreviewDocument(r), w + ["<script>", r.jsContent.value, "</script>"]))
      && (!HasScript(r.jsContent) ==> PreviewDocument(r) == r.htmlContent + "<style>" + r.cssContent + "</style>")
  {
    var html, css := r.htmlContent, r.cssContent;
    var front := html + "<style>" + css + "</style>";
    var w := [html, "<style>", css, "</style>"];
    InOrderAdjacent(html, "<style>", css, "</style>");
    if HasScript(r.jsContent) {
      InOrderAppendThree(front, w, "<script>", r.jsContent.value, "</script>");
      InOrderPrefix(PreviewDocument(r), w + ["<script>", r.jsContent.value, "</script>"], 4);
      assert (w + ["<script>", r.jsContent.value, "</script>"])[..4] == w;
    } else {
      assert PreviewDocument(r) == front + "";
      assert front + "" == front;
    }
  }

  /** Four words written one after another occur in order. */
  lemma InOrderAdjacent(w0: string, w1: string, w2: string, w3: string)
    ensures InOrder(w0 + w1 + w2 + w3, [w0, w1, w2, w3])
  {
    var e := [w0, w1, w2, w3];
    var d: string := [];
    assert e[..0] == [];
    InOrderAppendWord(d, e, 1);
    d := d + w0;
    assert d == w0;
    InOrderAppendWord(d, e, 2);
    d := d + w1;
    InOrderAppendWord(d, e, 3);
    d := d + w2;
    InOrderAppendWord(d, e, 4);
    assert e[..4] == e;
  }

  /** Three words written behind words held in order extend them. */
  lemma InOrderAppendThree(s: string, ws: seq<string>, a: string, b: string, c: string)
    requires InOrder(s, ws)
    ensures InOrder(s + (a + b + c), ws + [a, b, c])
  {
    InOrderSnoc(s, ws, a);
    InOrderSnoc(s + a, ws + [a], b);
    InOrderSnoc(s + a + b, ws + [a] + [b], c);
    assert ws + [a] + [b] + [c] == ws + [a, b, c];
    AppendAssociative(s, a, b, c);
  }

  /** Regrouping four concatenated strings. */
  lemma AppendAssociative(s: string, a: string, b: string, c: string)
    ensures s + a + b + c == s + (a + b + c)
  {
  }

  /** Both the exported file and the preview wrap the stylesheet in a style element. */
  lemma StyleElementInBoth(r: ThemedResumeResult)
    ensures InOrder(ExportDocument(r), ["<style>", r.cssContent, "</style>"])
    ensures InOrder(PreviewDocument(r), ["<style>", r.cssContent, "</style>"])
  {
    ExportOrder(r);
    PreviewOrder(r);
    FirstThreeInOrder(ExportDocument(r), "<style>", r.cssContent, "</style>", "<body>", r.htmlContent,
                      "<script>", ScriptText(r.jsContent), "</script>");
    LastThreeInOrder(PreviewDocument(r), r.htmlContent, "<style>", r.cssContent, "</style>");
  }

  /** The first three of eight words in order are in order. */
  lemma FirstThreeInOrder(s: string, w0: string, w1: string, w2: string, w3: string,
                          w4: string, w5: string, w6: string, w7: string)
    requires InOrder(s, [w0, w1, w2, w3, w4, w5, w6, w7])
    ensures InOrder(s, [w0, w1, w2])
  {
    var e := [w0, w1, w2, w3, w4, w5, w6, w7];
    InOrderPrefix(s, e, 3);
    assert e[..3] == [w0, w1, w2];
  }

  /** The last three of four words in order are in order. */
  lemma LastThreeInOrder(s: string, w0: string, w1: string, w2: string, w3: string)
    requires InOrder(s, [w0, w1, w2, w3])
    ensures InOrder(s, [w1, w2, w3])
  {
    var e := [w0, w1, w2, w3];
    InOrderSuffix(s, e);
    assert e[1..] == [w1, w2, w3];
  }

  /** Dropping words from the end keeps the rest in order. */
  lemma {:induction false} InOrderPrefix(s: string, ws: seq<string>, n: nat)
    requires InOrder(s, ws) && n <= |ws|
    ensures InOrder(s, ws[..n])
    decreases |ws|
  {
    if n < |ws| {
      var w := ws[|ws| - 1];
      var i :| 0 <= i <= |s| - |w| && OccursAt(s, w, i) && InOrder(s[..i], ws[..|ws| - 1]);
      InOrderPrefix(s[..i], ws[..|ws| - 1], n);
      assert ws[..|ws| - 1][..n] == ws[..n];
      InOrderExtend(s[..i], s[i..], ws[..n]);
      assert s[..i] + s[i..] == s;
    } else {
      assert ws[..n] == ws;
    }
  }

  /** Dropping the first word keeps the rest in order. */
  lemma {:induction false} InOrderSuffix(s: string, ws: seq<string>)
    requires InOrder(s, ws) && |ws| > 0
    ensures InOrder(s, ws[1..])
    decreases |ws|
  {
    if |ws| > 1 {
      var w := ws[|ws| - 1];
      var i :| 0 <= i <= |s| - |w| && OccursAt(s, w, i) && InOrder(s[..i], ws[..|ws| - 1]);
      InOrderSuffix(s[..i], ws[..|ws| - 1]);
      assert ws[..|ws| - 1][1..] == ws[1..][..|ws[1..]| - 1];
      assert ws[1..][|ws[1..]| - 1] == w;
    }
  }

  // ---------------------------------------------------------------------
  // Header title and JS tab

  /** `theme.charAt(0).toUpperCase() + theme.slice(1)`. */
  function HeaderTitle(theme: string): (r: string)
    ensures |r| == |theme|
    ensures theme != [] ==> r[0] == UpperChar(theme[0]) && r[1..] == theme[1..]
  {
    if theme == [] then "" else [UpperChar(theme[0])] + theme[1..]
  }

  /** Lower-casing the title of a lower-case identifier gives the identifier back. */
  lemma HeaderTitleRoundTrip(theme: string)
    requires ToLower(theme) == theme
    ensures ToLower(HeaderTitle(theme)) == theme
  {
    if theme != [] {
      var r := HeaderTitle(theme);
      assert LowerChar(theme[0]) == theme[0];
      assert !IsAsciiUpper(theme[0]);
      assert LowerChar(r[0]) == theme[0];
      forall k | 1 <= k < |theme| ensures ToLower(r)[k] == theme[k] {
        assert r[k] == theme[k];
        assert LowerChar(theme[k]) == theme[k];
      }
    }
  }

  /** Every theme the page can select shows a title starting with a capital letter. */
  lemma ThemeTitlesCapitalised(t: Theme)
    ensures var title := HeaderTitle(ThemeName(t));
      && |title| > 0 && IsAsciiUpper(title[0])
      && ToLower(title) == ThemeName(t)
  {
    var n := ThemeName(t);
    assert IsAsciiLower(n[0]);
    assert ToLower(n) == n;
    HeaderTitleRoundTrip(n);
  }

  const NoScriptPlaceholder: string :=
    "// No JavaScript generated for this theme\nconsole.log(\"Static resume - no interactivity needed\");"

  /** The JS tab's text: the script, or a placeholder when it is absent or empty. */
  function JsTabText(js: Option<string>): (r: string)
    ensures ScriptText(js) != "" ==> r == ScriptText(js)
    ensures ScriptText(js) == "" ==> r == NoScriptPlaceholder
  {
    if js.Some? && js.value != "" then js.value else NoScriptPlaceholder
  }

  /** The placeholder shows exactly when the preview embeds no script. */
  lemma PlaceholderIffNoScript(js: Option<string>)
    ensures JsTabText(js) == NoScriptPlaceholder <==> !HasScript(js) || js.value == NoScriptPlaceholder
  {
  }

  /**
   * The JS tab and the preview agree: when the preview runs a script, the
   * tab shows exactly the text inside the preview's script element, and
   * when the preview runs none, the tab shows the placeholder.
   */
  lemma JsTabShowsEmbeddedScript(r: ThemedResumeResult)
    ensures HasScript(r.jsContent) ==>
      Contains(PreviewDocument(r), "<script>" + JsTabText(r.jsContent) + "</script>")
    ensures !HasScript(r.jsContent) ==> JsTabText(r.jsContent) == NoScriptPlaceholder
  {
    if HasScript(r.jsContent) {
      var w := "<script>" + JsTabText(r.jsContent) + "</script>";
      var front := r.htmlContent + "<style>" + r.cssContent + "</style>";
      assert PreviewDocument(r) == front + w;
      ContainsSelf(w);
      ContainsWithin(front, w, "", w);
    }
  }

  // ---------------------------------------------------------------------
  // Tab and fullscreen state

  datatype Tab = PreviewTab | HtmlTab | CssTab | JsTab

  datatype ViewState = ViewState(activeTab: Tab, fullscreen: bool)

  /** The panel opens on the live preview, not fullscreen. */
  const InitialView := ViewState(PreviewTab, false)

  /** Clicking a tab shows that tab and leaves fullscreen alone. */
  function SelectTab(v: ViewState, t: Tab): (w: ViewState)
    ensures w.activeTab == t && w.fullscreen == v.fullscreen
  {
    v.(activeTab := t)
  }

  /** The fullscreen button flips fullscreen and leaves the tab alone. */
  function ToggleFullscreen(v: ViewState): (w: ViewState)
    ensures w.fullscreen != v.fullscreen && w.activeTab == v.activeTab
  {
    v.(fullscreen := !v.fullscreen)
  }

  /** Toggling fullscreen twice restores the view. */
  lemma ToggleFullscreenInvolution(v: ViewState)
    ensures ToggleFullscreen(ToggleFullscreen(v)) == v
  {
  }

  /** Selecting a tab is idempotent and only the last selection counts. */
  lemma SelectTabLastWins(v: ViewState, s: Tab, t: Tab)
    ensures SelectTab(SelectTab(v, s), t) == SelectTab(v, t)
  {
  }

  /** Selecting a tab and toggling fullscreen commute. */
  lemma SelectTabCommutesWithToggle(v: ViewState, t: Tab)
    ensures SelectTab(ToggleFullscreen(v), t) == ToggleFullscreen(SelectTab(v, t))
  {
  }
}
