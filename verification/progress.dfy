/**
 * The progress panel shown while a theme is generated: a headline icon and
 * message chosen by threshold, and four milestone tiles that light up once
 * the progress reaches their threshold.
 *
 * Progress is modelled as an integer; the page only ever sets the values
 * 0, 25, 50, 75 and 100.
 */
module Progress {

  /** `getProgressMessage`. */
  function ProgressMessage(progress: int): string {
    if progress < 25 then "\U{1F50D} Analyzing theme requirements..."
    else if progress < 50 then "\U{1F3A8} Designing custom layout..."
    else if progress < 75 then "\U{1F4BB} Generating themed code..."
    else if progress < 100 then "\U{2728} Applying final touches..."
    else "\U{1F389} Theme generated successfully!"
  }

  /** `getProgressIcon`. */
  function ProgressIcon(progress: int): string {
    if progress < 25 then "\U{1F50D}"
    else if progress < 50 then "\U{1F3A8}"
    else if progress < 75 then "\U{1F4BB}"
    else if progress < 100 then "\U{2728}"
    else "\U{1F389}"
  }

  // ---------------------------------------------------------------------
  // Reference definition: the stage a progress value falls in

  /** The quarter of the run a progress value belongs to, clamped to 0..4. */
  function Stage(progress: int): (s: nat)
    ensures s <= 4
  {
    if progress < 0 then 0
    else if progress >= 100 then 4
    else progress / 25
  }

  /** The icon of each stage. */
  function StageIcon(s: nat): string {
    match s
    case 0 => "\U{1F50D}"
    case 1 => "\U{1F3A8}"
    case 2 => "\U{1F4BB}"
    case 3 => "\U{2728}"
    case _ => "\U{1F389}"
  }

  /** Stage `s` holds exactly the progress values in `[25s, 25s + 25)`, the last stage being open above. */
  lemma StageBounds(progress: int)
    ensures Stage(progress) < 4 ==> progress < 25 * (Stage(progress) + 1)
    ensures Stage(progress) > 0 ==> 25 * Stage(progress) <= progress
  {
  }

  /** The headline icon is chosen by the stage. */
  lemma IconByStage(progress: int)
    ensures ProgressIcon(progress) == StageIcon(Stage(progress))
  {
  }

  /** The headline message opens with the headline icon followed by a space. */
  lemma MessageStartsWithIcon(progress: int)
    ensures |ProgressIcon(progress)| == 1 && |ProgressMessage(progress)| > 2
    ensures ProgressMessage(progress)[0] == ProgressIcon(progress)[0]
    ensures ProgressMessage(progress)[1] == ' '
  {
    var m := ProgressMessage(progress);
    if progress < 25 {
      assert m == "\U{1F50D} Analyzing theme requirements...";
    } else if progress < 50 {
      assert m == "\U{1F3A8} Designing custom layout...";
    } else if progress < 75 {
      assert m == "\U{1F4BB} Generating themed code...";
    } else if progress < 100 {
      assert m == "\U{2728} Applying final touches...";
    } else {
      assert m == "\U{1F389} Theme generated successfully!";
    }
  }

  /** Progress values in the same stage show the same icon and message. */
  lemma SameStageSameDisplay(p: int, q: int)
    requires Stage(p) == Stage(q)
    ensures ProgressIcon(p) == ProgressIcon(q) && ProgressMessage(p) == ProgressMessage(q)
  {
    StageBounds(p);
    StageBounds(q);
  }

  /**
   * The five icons are pairwise distinct, so the icon, and with it the
   * message, identifies the stage.
   */
  lemma IconIdentifiesStage(p: int, q: int)
    ensures ProgressIcon(p) == ProgressIcon(q) <==> Stage(p) == Stage(q)
    ensures ProgressMessage(p) == ProgressMessage(q) <==> Stage(p) == Stage(q)
  {
    IconByStage(p);
    IconByStage(q);
    MessageStartsWithIcon(p);
    MessageStartsWithIcon(q);
    if Stage(p) != Stage(q) {
      assert StageIcon(Stage(p))[0] != StageIcon(Stage(q))[0];
    } else {
      SameStageSameDisplay(p, q);
    }
  }

  /** The five values the page sets each show a different stage, in order. */
  lemma LoopValuesWalkTheStages(k: int)
    requires 0 <= k <= 4
    ensures Stage(25 * k) == k
  {
  }

  // ---------------------------------------------------------------------
  // The four milestone tiles

  datatype Milestone = Analyze | Design | Code | Deploy

  const Milestones: seq<Milestone> := [Analyze, Design, Code, Deploy]

  function Threshold(m: Milestone): int {
    match m
    case Analyze => 25
    case Design => 50
    case Code => 75
    case Deploy => 100
  }

  /** A tile is lit once the progress reaches its threshold. */
  predicate Lit(progress: int, m: Milestone) {
    progress >= Threshold(m)
  }

  /** Lit tiles stay lit as progress grows. */
  lemma LitMonotone(p: int, q: int, m: Milestone)
    requires p <= q && Lit(p, m)
    ensures Lit(q, m)
  {
  }

  /** Tiles light up left to right: a lit tile has every tile to its left lit. */
  lemma LitLeftToRight(progress: int, i: int, j: int)
    requires 0 <= i <= j < |Milestones| && Lit(progress, Milestones[j])
    ensures Lit(progress, Milestones[i])
  {
  }

  /** Number of lit tiles among the first `n`. */
  function LitCount(progress: int, n: nat): (c: nat)
    requires n <= |Milestones|
    ensures c <= n
  {
    if n == 0 then 0
    else LitCount(progress, n - 1) + (if Lit(progress, Milestones[n - 1]) then 1 else 0)
  }

  /** The number of lit tiles is the stage: the headline and the tiles always agree. */
  lemma {:induction false} LitCountIsStage(progress: int)
    ensures LitCount(progress, 4) == Stage(progress)
  {
    assert LitCount(progress, 0) == 0;
    assert LitCount(progress, 1) == (if progress >= 25 then 1 else 0);
    assert LitCount(progress, 2) == LitCount(progress, 1) + (if progress >= 50 then 1 else 0);
    assert LitCount(progress, 3) == LitCount(progress, 2) + (if progress >= 75 then 1 else 0);
  }

  /** At 100 every tile is lit and the headline reports success. */
  lemma CompleteRun(progress: int)
    requires progress >= 100
    ensures forall m: Milestone :: Lit(progress, m)
    ensures ProgressMessage(progress) == "\U{1F389} Theme generated successfully!"
  {
  }
}
