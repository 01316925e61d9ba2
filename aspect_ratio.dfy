/**
 * The aspect-ratio picker of the app: the image's width/height ratio is
 * classified against five fixed anchors by a `reduce` that keeps the
 * accumulator unless the current anchor is strictly nearer.
 */
module AspectRatio {

  /** One `{ id, val }` entry of the anchor list. */
  datatype Anchor = Anchor(id: string, val: real)

  /** The five ratios the image model accepts, in list order. */
  const Ratios: seq<Anchor> := [
    Anchor("1:1", 1.0),
    Anchor("3:4", 0.75),
    Anchor("4:3", 1.333),
    Anchor("9:16", 0.5625),
    Anchor("16:9", 1.777)
  ]

  function Abs(x: real): (r: real)
    ensures r >= 0.0 && (r == x || r == -x)
  {
    if x < 0.0 then -x else x
  }

  /** `Math.abs(a.val - ratio)`. */
  function Distance(a: Anchor, ratio: real): real {
    Abs(a.val - ratio)
  }

  /** The reduce callback: `curr` replaces `prev` only when strictly nearer. */
  function Nearer(prev: Anchor, curr: Anchor, ratio: real): (r: Anchor)
    ensures r == prev || r == curr
    ensures Distance(r, ratio) <= Distance(prev, ratio) && Distance(r, ratio) <= Distance(curr, ratio)
    ensures Distance(curr, ratio) == Distance(prev, ratio) ==> r == prev
  {
    if Distance(curr, ratio) < Distance(prev, ratio) then curr else prev
  }

  /**
   * The fold of `reduce` from position `i` with accumulator `prev`. Its
   * result is at least as near as the accumulator and every later anchor.
   */
  function Reduce(anchors: seq<Anchor>, ratio: real, prev: Anchor, i: nat): (r: Anchor)
    requires i <= |anchors|
    ensures Distance(r, ratio) <= Distance(prev, ratio)
    ensures forall j :: i <= j < |anchors| ==> Distance(r, ratio) <= Distance(anchors[j], ratio)
    decreases |anchors| - i
  {
    if i == |anchors| then prev
    else Reduce(anchors, ratio, Nearer(prev, anchors[i], ratio), i + 1)
  }

  /** `anchors.reduce(...)` without an initial value: the fold starts from the first entry. */
  function Closest(anchors: seq<Anchor>, ratio: real): (c: Anchor)
    requires |anchors| > 0
    ensures c in anchors
    ensures forall j :: 0 <= j < |anchors| ==> Distance(c, ratio) <= Distance(anchors[j], ratio)
  {
    assert FirstNearestIn(anchors, ratio, 1, 0);
    ReduceKeepsFirstNearest(anchors, ratio, 0, 1);
    Reduce(anchors, ratio, anchors[0], 1)
  }

  /**
   * Independent reference: `k` is the earliest position among the first `n`
   * anchors whose distance is minimal over those `n`.
   */
  ghost predicate FirstNearestIn(anchors: seq<Anchor>, ratio: real, n: nat, k: nat) {
    k < n <= |anchors| &&
    (forall j :: 0 <= j < n ==> Distance(anchors[k], ratio) <= Distance(anchors[j], ratio)) &&
    (forall j :: 0 <= j < k ==> Distance(anchors[k], ratio) < Distance(anchors[j], ratio))
  }

  ghost predicate FirstNearest(anchors: seq<Anchor>, ratio: real, k: nat) {
    FirstNearestIn(anchors, ratio, |anchors|, k)
  }

  /** At most one position is the earliest nearest. */
  lemma FirstNearestUnique(anchors: seq<Anchor>, ratio: real, k: nat, k': nat)
    requires FirstNearest(anchors, ratio, k) && FirstNearest(anchors, ratio, k')
    ensures k == k'
  {
    var d, d' := Distance(anchors[k], ratio), Distance(anchors[k'], ratio);
    assert d <= d' && d' <= d;
  }

  /** One step of the fold: the callback's choice is the earliest nearest of one more entry. */
  lemma NearerExtendsFirstNearest(anchors: seq<Anchor>, ratio: real, k: nat, i: nat)
    requires FirstNearestIn(anchors, ratio, i, k) && i < |anchors|
    ensures FirstNearestIn(anchors, ratio, i + 1, if Distance(anchors[i], ratio) < Distance(anchors[k], ratio) then i else k)
  {
  }

  /** The position the fold's accumulator ends at, when it starts at position `k` before `i`. */
  ghost function ReduceIndex(anchors: seq<Anchor>, ratio: real, k: nat, i: nat): nat
    requires k < i <= |anchors|
    decreases |anchors| - i
  {
    if i == |anchors| then k
    else ReduceIndex(anchors, ratio, if Distance(anchors[i], ratio) < Distance(anchors[k], ratio) then i else k, i + 1)
  }

  /** The fold keeps "the accumulator is the earliest nearest so far". */
  lemma {:induction false} ReduceKeepsFirstNearest(anchors: seq<Anchor>, ratio: real, k: nat, i: nat)
    requires FirstNearestIn(anchors, ratio, i, k)
    ensures FirstNearest(anchors, ratio, ReduceIndex(anchors, ratio, k, i))
    ensures Reduce(anchors, ratio, anchors[k], i) == anchors[ReduceIndex(anchors, ratio, k, i)]
    decreases |anchors| - i
  {
    if i < |anchors| {
      var k' := if Distance(anchors[i], ratio) < Distance(anchors[k], ratio) then i else k;
      NearerExtendsFirstNearest(anchors, ratio, k, i);
      assert anchors[k'] == Nearer(anchors[k], anchors[i], ratio);
      ReduceKeepsFirstNearest(anchors, ratio, k', i + 1);
    }
  }

  /**
   * The reduce returns the entry at the earliest position of minimal
   * distance: nearest overall, and strictly nearer than every earlier entry,
   * so that a tie goes to the entry listed first.
   */
  lemma ClosestIsFirstNearest(anchors: seq<Anchor>, ratio: real)
    requires |anchors| > 0
    ensures exists k: nat :: FirstNearest(anchors, ratio, k) && Closest(anchors, ratio) == anchors[k]
  {
    assert FirstNearestIn(anchors, ratio, 1, 0);
    ReduceKeepsFirstNearest(anchors, ratio, 0, 1);
    assert FirstNearest(anchors, ratio, ReduceIndex(anchors, ratio, 0, 1));
  }

  /** With pairwise distinct anchor values, a ratio equal to an anchor's value picks that anchor. */
  lemma ExactRatioPicksAnchor(anchors: seq<Anchor>, k: nat)
    requires k < |anchors|
    requires forall i, j :: 0 <= i < j < |anchors| ==> anchors[i].val != anchors[j].val
    ensures Closest(anchors, anchors[k].val) == anchors[k]
  {
  }

  /** The id the app chooses for a width/height ratio. */
  function NearestId(ratio: real): (id: string)
    ensures id in {"1:1", "3:4", "4:3", "9:16", "16:9"}
  {
    Closest(Ratios, ratio).id
  }

  /**
   * `getAspectRatio` once the image has been decoded: the pixel width over
   * the pixel height, classified. A zero height is excluded.
   */
  function GetAspectRatio(width: nat, height: nat): (id: string)
    requires height > 0
    ensures id in {"1:1", "3:4", "4:3", "9:16", "16:9"}
  {
    NearestId(width as real / height as real)
  }

  /** The chosen id belongs to the earliest anchor of minimal distance. */
  lemma NearestIdIsFirstNearest(ratio: real)
    ensures exists k: nat :: FirstNearest(Ratios, ratio, k) && NearestId(ratio) == Ratios[k].id
  {
    ClosestIsFirstNearest(Ratios, ratio);
  }

  /** A ratio exactly equal to one of the five anchor values yields that anchor's id. */
  lemma ExactAnchorRatios(k: nat)
    requires k < |Ratios|
    ensures NearestId(Ratios[k].val) == Ratios[k].id
  {
    ExactRatioPicksAnchor(Ratios, k);
  }

  /** 7:8 lies exactly halfway between 1:1 and 3:4; the earlier "1:1" wins the tie. */
  lemma TieGoesToEarlierEntry()
    ensures Distance(Ratios[0], 0.875) == Distance(Ratios[1], 0.875)
    ensures GetAspectRatio(7, 8) == "1:1"
  {
  }

  /** A ratio of 1.05 is nearest to 1:1. */
  lemma SlightlyWide()
    ensures NearestId(1.05) == "1:1"
  {
  }

  /** A 1920x1080 frame is nearest to 16:9. */
  lemma FullHdLandscape()
    ensures GetAspectRatio(1920, 1080) == "16:9"
  {
  }

  /** A 1080x1920 frame is nearest to 9:16. */
  lemma FullHdPortrait()
    ensures GetAspectRatio(1080, 1920) == "9:16"
  {
  }

  /** A 4000x3000 photo is nearest to 4:3. */
  lemma PhotoLandscape()
    ensures GetAspectRatio(4000, 3000) == "4:3"
  {
  }

  /** A 3000x4000 photo is nearest to 3:4. */
  lemma PhotoPortrait()
    ensures GetAspectRatio(3000, 4000) == "3:4"
  {
  }
}
