/** The hashtag cloud, components/hashtags/WordCloud.tsx: the top twelve
    tags by use, the size tier of each bubble, and how a tag is shown,
    compared with the active tag and reported on a click. */
module WordCloud {
  import opened Common

  /** `WordCloudItem`. */
  datatype CloudItem = CloudItem(tag: string, count: int)

  // ---------------------------------------------------------------------
  // getSizeTier
  // ---------------------------------------------------------------------

  datatype Tier = XS | SM | MD | LG | XL

  /** Position of a tier from the smallest to the largest. */
  function TierRank(t: Tier): nat {
    match t
    case XS => 0
    case SM => 1
    case MD => 2
    case LG => 3
    case XL => 4
  }

  /** `num / den > p / q` over exact rationals (`den != 0`, `q > 0`); the
      comparison flips when the denominator is negative. */
  predicate RatioAbove(num: int, den: int, p: nat, q: nat)
    requires den != 0 && q > 0
  {
    if den > 0 then q * num > p * den else q * num < p * den
  }

  /** `getSizeTier`: "md" when all counts are equal, otherwise the tier of
      `(count - min) / (max - min)` against the thresholds 0.8, 0.55, 0.3
      and 0.1. */
  function GetSizeTier(count: int, min: int, max: int): (t: Tier)
    ensures max == min ==> t == MD
    ensures min < max && count >= max ==> t == XL
    ensures min < max && count <= min ==> t == XS
    ensures min < max ==> (t == XL <==> 5 * (count - min) > 4 * (max - min))
    ensures min < max ==> (TierRank(t) >= 3 <==> 20 * (count - min) > 11 * (max - min))
    ensures min < max ==> (TierRank(t) >= 2 <==> 10 * (count - min) > 3 * (max - min))
    ensures min < max ==> (TierRank(t) >= 1 <==> 10 * (count - min) > max - min)
  {
    if max == min then MD
    else
      var num, den := count - min, max - min;
      if RatioAbove(num, den, 4, 5) then XL
      else if RatioAbove(num, den, 11, 20) then LG
      else if RatioAbove(num, den, 3, 10) then MD
      else if RatioAbove(num, den, 1, 10) then SM
      else XS
  }

  /** For a fixed range with `min < max`, a more used tag never gets a
      smaller bubble. */
  lemma TierMonotone(c1: int, c2: int, min: int, max: int)
    requires min < max && c1 <= c2
    ensures TierRank(GetSizeTier(c1, min, max)) <= TierRank(GetSizeTier(c2, min, max))
  {
    var d := max - min;
    assert d * (c1 - min) <= d * (c2 - min) by {
      MulMonotone(d, c1 - min, c2 - min);
    }
  }

  lemma MulMonotone(k: nat, a: int, b: int)
    requires a <= b
    ensures k * a <= k * b
  {
    assert k * b - k * a == k * (b - a);
  }

  // ---------------------------------------------------------------------
  // topItems: a stable sort by count, high to low, then the first twelve
  // ---------------------------------------------------------------------

  const MaxShown: nat := 12

  /** `x` goes before the first element with a count not above its own,
      so it stays ahead of the equal counts that followed it. */
  function Insert(x: CloudItem, t: seq<CloudItem>): (r: seq<CloudItem>)
    ensures |r| == |t| + 1
  {
    if t == [] || t[0].count <= x.count then [x] + t
    else [t[0]] + Insert(x, t[1..])
  }

  /** `[...items].sort((a, b) => b.count - a.count)`: a copy, sorted
      stably by count from high to low. */
  function SortByCount(items: seq<CloudItem>): (r: seq<CloudItem>)
    ensures |r| == |items|
  {
    if items == [] then [] else Insert(items[0], SortByCount(items[1..]))
  }

  predicate Descending(s: seq<CloudItem>) {
    forall i, j :: 0 <= i < j < |s| ==> s[i].count >= s[j].count
  }

  /** The items of `s` with count `c`, in order. */
  function WithCount(s: seq<CloudItem>, c: int): seq<CloudItem> {
    if s == [] then []
    else (if s[0].count == c then [s[0]] else []) + WithCount(s[1..], c)
  }

  lemma {:induction false} InsertPermutes(x: CloudItem, t: seq<CloudItem>)
    ensures multiset(Insert(x, t)) == multiset(t) + multiset{x}
    decreases |t|
  {
    if t != [] && t[0].count > x.count {
      InsertPermutes(x, t[1..]);
      assert t == [t[0]] + t[1..];
    }
  }

  lemma {:induction false} InsertSorts(x: CloudItem, t: seq<CloudItem>)
    requires Descending(t)
    ensures Descending(Insert(x, t))
    decreases |t|
  {
    if t != [] && t[0].count > x.count {
      InsertSorts(x, t[1..]);
      InsertPermutes(x, t[1..]);
      var r := Insert(x, t[1..]);
      forall k | 0 <= k < |r|
        ensures t[0].count >= r[k].count
      {
        assert r[k] in multiset(r);
        if r[k] != x {
          assert r[k] in multiset(t[1..]);
          var j :| 0 <= j < |t[1..]| && t[1..][j] == r[k];
          assert t[j + 1] == r[k];
        }
      }
    }
  }

  lemma {:induction false} InsertWithCount(x: CloudItem, t: seq<CloudItem>, c: int)
    ensures WithCount(Insert(x, t), c) == (if x.count == c then [x] else []) + WithCount(t, c)
    decreases |t|
  {
    var own := if x.count == c then [x] else [];
    if t != [] && t[0].count > x.count {
      var r := Insert(x, t[1..]);
      var head := if t[0].count == c then [t[0]] else [];
      InsertWithCount(x, t[1..], c);
      assert Insert(x, t) == [t[0]] + r;
      assert ([t[0]] + r)[1..] == r;
      assert WithCount(Insert(x, t), c) == head + (own + WithCount(t[1..], c));
      assert head == [] || own == [];
    } else {
      assert ([x] + t)[1..] == t;
    }
  }

  /** The copy holds the same items as the input. */
  lemma {:induction false} SortPermutes(items: seq<CloudItem>)
    ensures multiset(SortByCount(items)) == multiset(items)
  {
    if items != [] {
      SortPermutes(items[1..]);
      InsertPermutes(items[0], SortByCount(items[1..]));
      assert items == [items[0]] + items[1..];
    }
  }

  /** The copy is ordered by count from high to low. */
  lemma {:induction false} SortSorts(items: seq<CloudItem>)
    ensures Descending(SortByCount(items))
  {
    if items != [] {
      SortSorts(items[1..]);
      InsertSorts(items[0], SortByCount(items[1..]));
    }
  }

  /** The sort is stable: items with the same count keep their input
      order. */
  lemma {:induction false} SortStable(items: seq<CloudItem>, c: int)
    ensures WithCount(SortByCount(items), c) == WithCount(items, c)
  {
    if items != [] {
      SortStable(items[1..], c);
      InsertWithCount(items[0], SortByCount(items[1..]), c);
    }
  }

  /** `.slice(0, 12)` of the sorted copy. */
  function TopItems(items: seq<CloudItem>): (top: seq<CloudItem>)
    ensures |top| <= MaxShown
    ensures |top| == if |items| < MaxShown then |items| else MaxShown
    ensures top == SortByCount(items)[..|top|]
  {
    var sorted := SortByCount(items);
    if |sorted| <= MaxShown then sorted else sorted[..MaxShown]
  }

  /** The shown items are the most used ones: every shown item was in the
      input, they run from high to low count, and no item left out has a
      higher count than a shown one. */
  lemma TopItemsAreTheMostUsed(items: seq<CloudItem>)
    ensures multiset(TopItems(items)) <= multiset(items)
    ensures Descending(TopItems(items))
    ensures forall i, j :: 0 <= i < |TopItems(items)| <= j < |SortByCount(items)| ==>
      TopItems(items)[i].count >= SortByCount(items)[j].count
  {
    var sorted := SortByCount(items);
    var top := TopItems(items);
    SortPermutes(items);
    SortSorts(items);
    assert sorted == top + sorted[|top|..];
    assert multiset(sorted) == multiset(top) + multiset(sorted[|top|..]);
  }

  // ---------------------------------------------------------------------
  // The scale
  // ---------------------------------------------------------------------

  /** `Math.max(...counts, 1)`. */
  function MaxCount(counts: seq<int>): (m: int)
    ensures m >= 1
    ensures forall i :: 0 <= i < |counts| ==> counts[i] <= m
    ensures m == 1 || m in counts
  {
    if counts == [] then 1
    else
      var rest := MaxCount(counts[1..]);
      if counts[0] > rest then counts[0] else rest
  }

  /** `Math.min(...counts, 0)`. */
  function MinCount(counts: seq<int>): (m: int)
    ensures m <= 0
    ensures forall i :: 0 <= i < |counts| ==> m <= counts[i]
    ensures m == 0 || m in counts
  {
    if counts == [] then 0
    else
      var rest := MinCount(counts[1..]);
      if counts[0] < rest then counts[0] else rest
  }

  /** `topItems.map((i) => i.count)`. */
  function Counts(items: seq<CloudItem>): (counts: seq<int>)
    ensures |counts| == |items|
    ensures forall i :: 0 <= i < |items| ==> counts[i] == items[i].count
  {
    if items == [] then [] else [items[0].count] + Counts(items[1..])
  }

  /** The scale always has `min < max`, so the equal-count branch of
      `getSizeTier` is never reached from the cloud. */
  lemma ScaleIsProper(items: seq<CloudItem>)
    ensures MinCount(Counts(TopItems(items))) < MaxCount(Counts(TopItems(items)))
  {
  }

  // ---------------------------------------------------------------------
  // Tags
  // ---------------------------------------------------------------------

  predicate StartsWithHash(tag: string) {
    tag != [] && tag[0] == '#'
  }

  /** `item.tag.replace(/^#/, "")`: at most one leading '#' removed. */
  function RawTag(tag: string): (raw: string)
    ensures StartsWithHash(tag) ==> tag == "#" + raw
    ensures !StartsWithHash(tag) ==> raw == tag
  {
    if StartsWithHash(tag) then tag[1..] else tag
  }

  /** The bubble's text: the tag with '#' in front unless it has one. */
  function Label(tag: string): (shown: string)
    ensures StartsWithHash(shown)
  {
    if StartsWithHash(tag) then tag else "#" + tag
  }

  /** The label is always '#' before the raw tag, and labelling is
      idempotent: an already prefixed tag is shown unchanged. */
  lemma LabelIsHashRaw(tag: string)
    ensures Label(tag) == "#" + RawTag(tag)
    ensures Label(Label(tag)) == Label(tag)
    ensures RawTag(Label(tag)) == RawTag(tag)
  {
    if !StartsWithHash(tag) {
      assert ("#" + tag)[1..] == tag;
    }
  }

  /** `activeTag === rawTag || activeTag === item.tag`. */
  predicate IsActive(activeTag: Option<string>, tag: string) {
    activeTag == Some(RawTag(tag)) || activeTag == Some(tag)
  }

  /** One rendered bubble. */
  datatype Bubble = Bubble(text: string, tier: Tier, active: bool, reports: string)

  function BubbleFor(item: CloudItem, min: int, max: int, activeTag: Option<string>): (b: Bubble)
    ensures StartsWithHash(b.text)
    ensures b.reports == RawTag(item.tag)
    ensures b.active <==> activeTag.Some? && (activeTag.value == RawTag(item.tag) || activeTag.value == item.tag)
  {
    Bubble(Label(item.tag), GetSizeTier(item.count, min, max), IsActive(activeTag, item.tag), RawTag(item.tag))
  }

  /** The bubbles of the cloud, one per shown item, in order. */
  function Bubbles(items: seq<CloudItem>, activeTag: Option<string>): (bs: seq<Bubble>)
    ensures |bs| == |TopItems(items)|
  {
    var top := TopItems(items);
    var counts := Counts(top);
    seq(|top|, i requires 0 <= i < |top| => BubbleFor(top[i], MinCount(counts), MaxCount(counts), activeTag))
  }

  /** A click makes its own bubble the active one: the tag a bubble reports,
      passed back as `activeTag`, marks that bubble active, and a label
      names its raw tag. */
  lemma ClickActivates(item: CloudItem, min: int, max: int, activeTag: Option<string>)
    ensures BubbleFor(item, min, max, Some(BubbleFor(item, min, max, activeTag).reports)).active
    ensures BubbleFor(item, min, max, activeTag).text == "#" + BubbleFor(item, min, max, activeTag).reports
  {
    LabelIsHashRaw(item.tag);
  }

  /** With at least one use, the most used tag is drawn in the largest
      tier and leads the cloud. */
  lemma MostUsedIsLargest(items: seq<CloudItem>, activeTag: Option<string>)
    requires items != []
    requires exists k :: 0 <= k < |items| && items[k].count >= 1
    ensures |Bubbles(items, activeTag)| > 0 && Bubbles(items, activeTag)[0].tier == XL
  {
    var sorted := SortByCount(items);
    var top := TopItems(items);
    SortPermutes(items);
    SortSorts(items);
    var k :| 0 <= k < |items| && items[k].count >= 1;
    assert items[k] in multiset(sorted);
    var j :| 0 <= j < |sorted| && sorted[j] == items[k];
    assert top[0] == sorted[0];
    TopItemsAreTheMostUsed(items);
    MaxOfDescending(top);
  }

  /** The first count of a run from high to low, when at least 1, is the
      scale's maximum. */
  lemma MaxOfDescending(top: seq<CloudItem>)
    requires top != [] && top[0].count >= 1 && Descending(top)
    ensures MaxCount(Counts(top)) == top[0].count
  {
    var counts := Counts(top);
    assert counts[0] == top[0].count;
  }
}
