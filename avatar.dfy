/** components/ui/Avatar.tsx: what an avatar shows, how a group of
    avatars is cut short with a "+k" badge, and the emoji picker over the
    fixed list of options. */
module Avatar {
  import opened Common
  import Text

  /** The placeholder shown when there is neither emoji nor initials. */
  const Placeholder: string := "\U{1F464}"

  /** `AVATAR_OPTIONS`, in order. */
  const AvatarOptions: seq<string> := [
    "\U{1F464}", "\U{1F63A}", "\U{1F638}", "\U{1F639}", "\U{1F63B}", "\U{1F63C}",
    "\U{1F63D}", "\U{1F640}", "\U{1F63F}", "\U{1F63E}", "\U{1F431}", "\U{1F468}",
    "\U{1F469}", "\U{1F466}", "\U{1F467}", "\U{1F9D1}", "\U{1F471}",
    "\U{1F468}\U{200D}\U{1F9B0}", "\U{1F468}\U{200D}\U{1F9B1}",
    "\U{1F470}", "\U{1F934}", "\U{1F478}"]

  /** A JavaScript string prop is truthy when present and non-empty. */
  predicate Truthy(s: Option<string>) {
    s.Some? && s.value != ""
  }

  /** What `Avatar` shows: the emoji if given, otherwise the upper-cased
      initials if given, otherwise the placeholder. It never shows
      nothing. */
  function Display(emoji: Option<string>, initials: Option<string>): (shown: string)
    ensures shown != ""
    ensures Truthy(emoji) ==> shown == emoji.value
    ensures !Truthy(emoji) && Truthy(initials) ==> shown == Text.ToUpper(initials.value)
    ensures !Truthy(emoji) && !Truthy(initials) ==> shown == Placeholder
  {
    if Truthy(emoji) then emoji.value
    else if Truthy(initials) then Text.ToUpper(initials.value)
    else Placeholder
  }

  // ---------------------------------------------------------------------
  // AvatarGroup
  // ---------------------------------------------------------------------

  /** `max = 3`. */
  function GroupMax(max: Option<int>): (m: int)
    ensures max.None? ==> m == 3
    ensures max.Some? ==> m == max.value
  {
    max.GetOr(3)
  }

  /** How many children `childArray.slice(0, max)` keeps: a negative `max`
      counts back from the end, as `slice` does. */
  function ShownCount(n: nat, max: int): (k: nat)
    ensures k <= n
    ensures max >= 0 ==> k == if max < n then max else n
    ensures max < 0 ==> k == if n + max > 0 then n + max else 0
  {
    if max >= 0 then (if max < n then max else n)
    else if n + max > 0 then n + max else 0
  }

  /** The children drawn by `AvatarGroup`. */
  function Shown<T>(children: seq<T>, max: Option<int>): (shown: seq<T>)
    ensures shown == children[..ShownCount(|children|, GroupMax(max))]
  {
    children[..ShownCount(|children|, GroupMax(max))]
  }

  /** The "+k" badge: present only when `childArray.length - max` is
      positive, and then carrying that difference. */
  function Badge<T>(children: seq<T>, max: Option<int>): (badge: Option<int>)
    ensures badge.Some? <==> |children| > GroupMax(max)
    ensures badge.Some? ==> badge.value == |children| - GroupMax(max) && badge.value > 0
  {
    var remaining := |children| - GroupMax(max);
    if remaining > 0 then Some(remaining) else None
  }

  /** With a non-negative `max` (3 by default) the group accounts for every
      child exactly: either all are drawn and there is no badge, or `max`
      are drawn and the badge counts the rest. */
  lemma GroupAccountsForAll<T>(children: seq<T>, max: Option<int>)
    requires GroupMax(max) >= 0
    ensures Badge(children, max).None? ==> Shown(children, max) == children
    ensures Badge(children, max).Some? ==>
      |Shown(children, max)| == GroupMax(max) &&
      |Shown(children, max)| + Badge(children, max).value == |children|
  {
  }

  /** A negative `max` draws fewer than all children (none once `-max`
      reaches their number) but its badge claims `n - max` more, so drawn
      children and badge together exceed the group. */
  lemma NegativeMaxOvercounts<T>(children: seq<T>, max: int)
    requires max < 0 && |children| > 0
    ensures |Shown(children, Some(max))| < |children|
    ensures Badge(children, Some(max)) == Some(|children| - max)
    ensures |Shown(children, Some(max))| + Badge(children, Some(max)).value > |children|
  {
  }

  // ---------------------------------------------------------------------
  // AvatarPicker
  // ---------------------------------------------------------------------

  /** The options are pairwise different. */
  lemma OptionsDistinct()
    ensures |AvatarOptions| == 22
    ensures forall i, j :: 0 <= i < j < |AvatarOptions| ==> AvatarOptions[i] != AvatarOptions[j]
  {
  }

  /** One button of the picker: its emoji and whether it is highlighted. */
  datatype PickerButton = PickerButton(emoji: string, highlighted: bool)

  /** The picker's buttons for the currently `selected` emoji. */
  function PickerButtons(selected: Option<string>): (bs: seq<PickerButton>)
    ensures |bs| == |AvatarOptions|
    ensures forall i :: 0 <= i < |bs| ==> bs[i].emoji == AvatarOptions[i]
    ensures forall i :: 0 <= i < |bs| ==> (bs[i].highlighted <==> selected == Some(AvatarOptions[i]))
  {
    seq(|AvatarOptions|, i requires 0 <= i < |AvatarOptions| =>
      PickerButton(AvatarOptions[i], selected == Some(AvatarOptions[i])))
  }

  /** `onSelect(emoji)` of the `i`-th button. */
  function Pick(i: nat): (emoji: string)
    requires i < |AvatarOptions|
    ensures emoji in AvatarOptions
  {
    AvatarOptions[i]
  }

  /** Picking a button and passing the result back as `selected`
      highlights that button and no other. */
  lemma PickHighlightsOnlyIt(i: nat)
    requires i < |AvatarOptions|
    ensures forall j :: 0 <= j < |AvatarOptions| ==>
      (PickerButtons(Some(Pick(i)))[j].highlighted <==> j == i)
  {
    OptionsDistinct();
  }

  /** An emoji outside the options highlights nothing. */
  lemma ForeignSelectionHighlightsNothing(selected: string)
    requires selected !in AvatarOptions
    ensures forall j :: 0 <= j < |AvatarOptions| ==> !PickerButtons(Some(selected))[j].highlighted
  {
  }
}
