# genie-connect: a verified model of the app's logic

genie-connect is a Next.js community app. Posts, comments and profiles live in a hosted database, and most of the code is presentation. This project models the logic that decides what the app shows and what it sends, and proves what that logic promises:

- **Comment tree** (`lib/comments.ts`). `buildCommentTree` turns flat comment rows into a forest. It fills a `Map` from id to a fresh node, then walks the map and pushes each node onto its parent's `children` or onto the roots. This is modelled imperatively: a `CommentNode` class with a `children` field, and two loops over a `map<int, CommentNode>` plus the map's insertion-ordered key list. The loops are proved against pure functions (`Keys`, `RowMap`, `Roots`, `ChildrenOf`). Lemmas about those functions state the promises:
  - every distinct id is placed exactly once;
  - the root/child rule;
  - first-appearance order;
  - the last duplicate row wins;
  - the shape depends only on ids and parent ids;
  - parent cycles go undetected: an id is missing from the forest exactly when it lies in a set of ids closed under parent ids, a self-parent being the smallest such set.
- **Thread** (`components/ui/PostThread.tsx`, and its copy `components/feed/PostThread.tsx`, which has the same rules). This covers:
  - the recursive reply count, and its link to the nodes the thread renders;
  - the reply-depth cap of 3;
  - the trim / reject blank / submit / clear rule of the reply and comment boxes;
  - Enter-to-submit;
  - the feed copy's like/helpful `active` flags.
- **Profile page** (`app/profile/page.tsx`). This covers:
  - `timeAgo` bucketing, with the clock difference as a parameter;
  - the author name and avatar of listed posts, and anonymity;
  - the listed comment count and the card props;
  - the page state behind mounting, loading and the edit/save form.
- **Word cloud** (`components/hashtags/WordCloud.tsx`). This covers:
  - the size tiers, over exact rationals;
  - the stable sort by count and the top-12 cut;
  - the min/max scale;
  - `#` stripping and adding, the active-tag test and the click report.
- **Small pure rules**:
  - the post-card snippet and the ids its buttons report (`components/feed/PostCard.tsx`);
  - `cn` (`lib/classnames.ts`);
  - the avatar display, `AvatarGroup` truncation and the `AvatarPicker` (`components/ui/Avatar.tsx`);
  - the accessible ids of `Input`/`TextArea` (`components/ui/Input.tsx`).
- **State holders**, each as a class whose methods update its fields:
  - the toast list (`components/ui/Toast.tsx`);
  - the new-post dialog (`components/ui/CreatePost.tsx`);
  - the profile card (`components/profile/ProfileCard.tsx`);
  - the welcome page (`app/welcome/page.tsx`);
  - the search bar (`components/ui/SearchBar.tsx`).

Two modules are shared by the rest:
- `Common` holds `Option` and `Result`.
- `Text` holds JavaScript's `trim`/`trimEnd` over the ECMAScript whitespace set, ASCII upper-casing, and decimal rendering of numbers.

Where the source calls out to the database, the browser or the clock, the model takes the outcome as a parameter:
- the outcome of a network call (`Option`/`bool`);
- the stored profile;
- the milliseconds elapsed since a post was created;
- a fresh toast id.

## Model

| member | source | states |
|---|---|---|
| Comments.CommentNode.constructor | lib/comments.ts:63 | a node is a copy of its row with its own empty `children` list |
| Comments.FillMap | lib/comments.ts:59-64 | the first loop leaves one fresh node per distinct id, holding the last row with that id, with empty children, no two ids sharing a node; keys in first-insertion order |
| Comments.PushNode | lib/comments.ts:67-71 | one turn of the second loop pushes the visited node onto its parent's children when `parent_id` is non-zero and present, otherwise onto the roots, and changes no other list |
| Comments.LinkNodes | lib/comments.ts:66-72 | after the second loop the roots and every node's children are exactly the nodes named by `Roots` and `ChildrenOf` |
| Comments.BuildCommentTree | lib/comments.ts:58-75 | the returned roots and every node's children list are the nodes of `Roots(flat)` and `ChildrenOf(flat, x)`; each node is fresh and holds `RowMap(flat)[x]` |
| Comments.IdsUpTo | lib/comments.ts:62-64 | every id among the first n rows is in the set |
| Comments.RowMapUpTo | lib/comments.ts:62-64 | the map after n rows has exactly the ids of those rows as keys |
| Comments.KeysUpTo | lib/comments.ts:62-64 | the order of the map's keys after n rows: each id once, at its first insertion (properties in `KeysUpToHas` and `KeysOrderedPair`) |
| Comments.KeysUpToHas | lib/comments.ts:62-64 | the iteration order lists an id exactly when some row carries it |
| Comments.KeysHas | lib/comments.ts:62-66 | `map.values()` visits an id exactly when some input row carries it |
| Comments.RowMap | lib/comments.ts:62-64 | the filled map's keys are exactly the input's ids |
| Comments.Keys | lib/comments.ts:66 | the map iterates exactly the input's ids |
| Comments.FirstIndex | lib/comments.ts:62-64 | the first row carrying an id: no earlier row has it |
| Comments.LastIndex | lib/comments.ts:62-64 | the last row carrying an id: no later row has it |
| Comments.FirstIndexIsFirst | lib/comments.ts:62-64 | no row before the found position carries the id |
| Comments.LastIndexIsLast | lib/comments.ts:62-64 | no row after the found position carries the id |
| Comments.RowMapHoldsLastRowUpTo | lib/comments.ts:63 | after n rows the map holds, for each id, the last of those rows carrying it |
| Comments.RowMapHoldsLastRow | lib/comments.ts:63 | with duplicate ids, the node holds the fields of the last row carrying the id |
| Comments.KeysOrderedPair | lib/comments.ts:62-66 | of two ids in iteration order, the earlier one first appears earlier in the input |
| Comments.KeysInFirstAppearanceOrder | lib/comments.ts:62-66 | the map iterates ids in the order of their first appearance in the input |
| Comments.SlotOf | lib/comments.ts:67 | a node goes under a parent exactly when `parent_id` is non-null, non-zero and a key of the map, and then under that id |
| Comments.Placed | lib/comments.ts:66-72 | every id pushed into a list is a key of the map |
| Comments.Roots | lib/comments.ts:66-71 | the ids pushed onto `roots`, in visiting order (properties in `PlacementRule`, `PlacedExactlyOnce`, `PlacedInFirstAppearanceOrder`) |
| Comments.ChildrenOf | lib/comments.ts:66-71 | the ids pushed onto the children of the node for p, in visiting order (same lemmas) |
| Comments.NodesAt | lib/comments.ts:68-70 | the i-th node of a list is the map's node for the i-th id |
| Comments.NodesAppend | lib/comments.ts:68-70 | pushing an id appends its node |
| Comments.PlacedHas | lib/comments.ts:66-72 | an id is in a list exactly when it was visited and its slot is that list |
| Comments.PlacementRule | lib/comments.ts:67-71 | an id is a root exactly when its parent id is null, 0 or absent from the input, and a child of p exactly when its parent id is p, non-zero and present |
| Comments.PlacedOrderedPair | lib/comments.ts:62-72 | two ids in the same list appear in the order of their first appearance |
| Comments.PlacedInFirstAppearanceOrder | lib/comments.ts:62-72 | roots and every children list hold input ids, in first-appearance order |
| Comments.CountDistinct | lib/comments.ts:66 | in a list without repeats an element occurs once |
| Comments.PlacedExactlyOnce | lib/comments.ts:66-72 | each distinct id occurs exactly once in the list of its slot and in no other list; non-ids occur nowhere |
| Comments.EmptyInputEmptyForest | lib/comments.ts:58-75 | example: no rows give no roots |
| Comments.PlacedAllRoots | lib/comments.ts:69-70 | when every visited node is a root, the roots are the visited ids in order |
| Comments.NoParentsAllRoots | lib/comments.ts:58-75 | when no row names a present, non-zero parent, the roots are all distinct ids in first-appearance order |
| Comments.SameLinksIds | lib/comments.ts:62-64 | rows that agree on ids have the same ids |
| Comments.SameLinksKeys | lib/comments.ts:62-64 | rows that agree on ids iterate in the same order |
| Comments.SameLinksParents | lib/comments.ts:63 | rows that agree on ids and parent ids leave the same parent id in each node |
| Comments.SameLinksPlaced | lib/comments.ts:66-72 | placement depends only on the nodes' parent ids |
| Comments.ShapeIgnoresOtherFields | lib/comments.ts:58-75 | two inputs that agree on id and parent id give the same roots and children lists; depth, content and the other fields play no part |
| Comments.ReachableWithin | lib/comments.ts:66-74 | an id is reached within k steps when it is a root, or a child of an id reached within k - 1 steps (definition of what the forest shows) |
| Comments.Reachable | lib/comments.ts:66-74 | an id is shown in the forest when it is reached from the roots in some number of steps (definition) |
| Comments.ParentClosed | lib/comments.ts:67 | a set of input ids each of whose parent id is non-zero and again in the set (definition) |
| Comments.ClosedWithin | lib/comments.ts:66-71 | no id of a set closed under non-zero parent ids is reached within any number of steps |
| Comments.UnreachableIffParentClosed | lib/comments.ts:66-74 | an input id is missing from the forest exactly when it lies in a set of ids closed under non-zero parent ids (a parent cycle and what hangs below it): cycles are not detected, their rows silently vanish |
| Comments.SelfParentIsUnreachable | lib/comments.ts:67-68 | for every input, a row that is its own (non-zero) parent is pushed under itself, is not a root, and is unreachable from the roots |
| Comments.FillStep | lib/comments.ts:62-64 | one more row adds its id, overwrites that id's row, and appends the id to the order only if new |
| Comments.VisitStep | lib/comments.ts:66-72 | visiting one more id appends it to its slot's list and to no other |
| Thread.CountAppend | components/ui/PostThread.tsx:266-272 | the reply count of two lists one after the other is the sum of their counts |
| Thread.CountReplies | components/ui/PostThread.tsx:266-272 | the count is 0 exactly for absent replies or an empty list |
| Thread.CountAll | components/ui/PostThread.tsx:268-271 | a list counts at least one per reply |
| Thread.CountOne | components/ui/PostThread.tsx:269 | a reply counts at least itself |
| Thread.CountCons | components/ui/PostThread.tsx:268-271 | each reply adds one plus the count of its own replies, at every level |
| Thread.CountIsRenderedNodes | components/ui/PostThread.tsx:266-272 | the count of a list equals the number of reply nodes the thread renders for it |
| Thread.CountOneIsRenderedNodes | components/ui/PostThread.tsx:266-272 | a reply with its nested replies renders as many nodes as it counts |
| Thread.Items | components/ui/PostThread.tsx:118-126 | the nodes rendered for a list: at least one per reply |
| Thread.ItemsOf | components/ui/PostThread.tsx:85-126 | a reply renders its own node first, at the given depth, followed by its nested replies |
| Thread.PostItems | components/ui/PostThread.tsx:249-259 | the post renders exactly as many reply nodes as `countReplies` of its comments |
| Thread.CanReply | components/ui/PostThread.tsx:60 | a reply can be answered exactly below depth 3 (definition; used by `ItemsDepth` and `Composer.ForReply`) |
| Thread.ItemsDepth | components/ui/PostThread.tsx:60 | every rendered node sits at least at its list's depth, offers a reply action exactly when its depth is below 3, and its like button reports its own id |
| Thread.ItemsOfDepth | components/ui/PostThread.tsx:85-86 | the same for one reply and its nested replies |
| Thread.NestingAddsOne | components/ui/PostThread.tsx:123 | a reply renders at its list's depth and its own replies one level deeper |
| Thread.TopLevelAtDepthZero | components/ui/PostThread.tsx:255 | the first top-level comment is rendered first, at depth 0 |
| Thread.FirstItem | components/ui/PostThread.tsx:255 | a list's first reply opens its rendered block |
| Thread.PostActionBar | components/feed/PostThread.tsx:195-209 | the like and helpful buttons' `active` flags are exactly the passed `likeActive`/`helpfulActive`; their counts are the post's |
| Thread.CommentCountShown | components/ui/PostThread.tsx:159 | the comment count on the action bar equals the number of comment and reply nodes the thread renders |
| Thread.SubmitOutcome | components/ui/PostThread.tsx:62-68 | blank text sends nothing; otherwise the parent's id and the trimmed text are sent |
| Thread.Composer.ForReply | components/ui/PostThread.tsx:57-60 | a reply box starts closed and empty; its Reply button opens or closes the box only below depth 3 (at depth 3 and beyond it is drawn but does nothing) |
| Thread.Composer.ForPost | components/ui/PostThread.tsx:141-142 | the comment box starts closed and empty and targets the post's id |
| Thread.Composer.Toggle | components/ui/PostThread.tsx:86 | the Reply button flips the box only when it has a handler; text is kept |
| Thread.Composer.Type | components/ui/PostThread.tsx:88-94 | in an open box, typing replaces the text and leaves the box as it was |
| Thread.Composer.Submit | components/ui/PostThread.tsx:62-68 | in an open box (the submit button exists only then), blank text changes nothing; otherwise the trimmed text goes to the target, the text is cleared and the box closes |
| Thread.SubmitsOnKey | components/ui/PostThread.tsx:70-75 | Enter without Shift is the submitting key (definition; used by `Composer.KeyDown`) |
| Thread.Composer.KeyDown | components/ui/PostThread.tsx:70-75 | in an open box, Enter without Shift submits; any other key sends nothing and changes nothing |
| Thread.SubmittedTextIsTrimmed | components/ui/PostThread.tsx:63-65 | submitted text is already trimmed: sending it again sends the same |
| ProfilePage.AgeOf | app/profile/page.tsx:39-51 | each bucket is a range of the raw difference: under 1 minute (including future dates) "just now", then minutes below 60, hours below 24, days below 30, then months, each the difference divided by its unit and rounded down |
| ProfilePage.TimeAgo | app/profile/page.tsx:39-51 | the text is "just now" exactly for differences under a minute, and otherwise starts with a digit |
| ProfilePage.Render | app/profile/page.tsx:43-50 | the text of each bucket: "just now", or the number followed by "m ago", "h ago", "d ago" or "mo ago" (properties in `RenderSeparates` and `RenderInjective`) |
| ProfilePage.AgeMonotone | app/profile/page.tsx:39-51 | a larger difference never lands in an earlier bucket, nor on a smaller number in the same bucket |
| ProfilePage.RenderSeparates | app/profile/page.tsx:43-50 | "just now" is the only text that does not start with a digit |
| ProfilePage.RenderInjective | app/profile/page.tsx:43-50 | the shown text determines the bucket and its number |
| ProfilePage.DigitsThenSuffix | app/profile/page.tsx:44-50 | a number followed by a unit suffix splits back into the same number and suffix |
| ProfilePage.AuthorName | app/profile/page.tsx:271-275 | an anonymous post, or one without a profile, shows "Anonymous"; otherwise the author's nickname |
| ProfilePage.AuthorAvatar | app/profile/page.tsx:266-270 | the `avatarEmoji` prop passed to the card is set exactly for a non-anonymous post with a profile, and it is that profile's emoji |
| ProfilePage.CardAvatarDrawn | components/feed/PostCard.tsx:56 | what the card's `Avatar` draws: the profile's emoji for a non-anonymous post whose profile has a non-empty emoji, and the placeholder for every other post, anonymous ones included |
| ProfilePage.AnonymityHidesAuthor | app/profile/page.tsx:266-275 | an anonymous post gets the same name and no `avatarEmoji` prop whatever profile is joined to it, so its card draws the placeholder |
| ProfilePage.CommentCount | app/profile/page.tsx:281 | the first aggregate's count, or 0 when the aggregate list is absent or empty |
| ProfilePage.CardFor | app/profile/page.tsx:263-283 | the card's id is the decimal text of the post id; name, avatar, age, counts and texts come from the post |
| ProfilePage.CardIdsDistinct | app/profile/page.tsx:265 | distinct posts get distinct card ids |
| ProfilePage.SaveRequestFor | app/profile/page.tsx:104-109 | nothing is sent without a profile or with a blank nickname; otherwise the user's id, the trimmed (non-blank) nickname and the emoji |
| ProfilePage.ProfilePageState.constructor | app/profile/page.tsx:62-74 | the initial state: no profile, zero stats, no posts, loading, not editing, not saving |
| ProfilePage.ProfilePageState.Mount | app/profile/page.tsx:76-86 | without a stored profile the page goes to the welcome page and changes nothing; otherwise it shows the profile, seeds the form and loads that user's data |
| ProfilePage.ProfilePageState.FinishLoad | app/profile/page.tsx:88-101 | fetched stats and posts replace the old ones only on success; loading ends either way |
| ProfilePage.ProfilePageState.Edit | app/profile/page.tsx:218 | enters edit mode, nothing else changes |
| ProfilePage.ProfilePageState.Cancel | app/profile/page.tsx:189 | leaves edit mode; the form keeps what was typed |
| ProfilePage.ProfilePageState.SetNickname | app/profile/page.tsx:182-183 | the nickname field takes the typed text |
| ProfilePage.ProfilePageState.SetEmoji | app/profile/page.tsx:174-176 | the picked emoji becomes the form's emoji |
| ProfilePage.ProfilePageState.Save | app/profile/page.tsx:103-119 | the guard fails: nothing sent, nothing changes; otherwise the trimmed nickname is sent, a returned profile replaces the shown one and leaves edit mode, a failure keeps both, and saving is off at the end; the form and the loaded data are never touched |
| ProfilePage.ProfilePageState.FinishSave | app/profile/page.tsx:111-118 | a returned profile replaces the shown one and leaves edit mode, a failure keeps both; saving is off either way |
| ProfilePage.ProfilePageState.SaveDisabled | app/profile/page.tsx:195 | while the Save button is disabled no request can be produced; enabled with a profile loaded, a request is produced |
| ProfilePage.ProfilePageState.StatsShown | app/profile/page.tsx:159-225 | the stats grid is shown exactly when loading has finished and the page is not in edit mode; while loading only the loading text is shown |
| ProfilePage.DisabledSaveSendsNothing | app/profile/page.tsx:195 | while the Save button is disabled (blank nickname) no request can be produced |
| WordCloud.GetSizeTier | components/hashtags/WordCloud.tsx:21-33 | equal min and max give "md"; with min < max the maximum count gets "xl" and the minimum "xs", and the tier is "xl" exactly when the ratio exceeds 0.8, "lg" or above exactly above 0.55, "md" or above exactly above 0.3, and "sm" or above exactly above 0.1 |
| WordCloud.RatioAbove | components/hashtags/WordCloud.tsx:27-31 | `(count - min) / (max - min)` exceeds a threshold p/q, compared exactly, the comparison flipping for a negative denominator (used by `GetSizeTier`) |
| WordCloud.TierMonotone | components/hashtags/WordCloud.tsx:27-32 | for fixed min < max a larger count never gets a smaller tier |
| WordCloud.Insert | components/hashtags/WordCloud.tsx:54 | one insertion step of the stable sort adds exactly one item (with `InsertPermutes`, `InsertSorts`, `InsertWithCount`) |
| WordCloud.SortByCount | components/hashtags/WordCloud.tsx:54 | `sort((a, b) => b.count - a.count)` keeps the number of items (with `SortPermutes`, `SortSorts`, `SortStable`) |
| WordCloud.InsertPermutes | components/hashtags/WordCloud.tsx:54 | inserting adds exactly the one item |
| WordCloud.InsertSorts | components/hashtags/WordCloud.tsx:54 | inserting into a list sorted high to low keeps it sorted |
| WordCloud.InsertWithCount | components/hashtags/WordCloud.tsx:54 | an inserted item goes ahead of the equal-count items that followed it |
| WordCloud.SortPermutes | components/hashtags/WordCloud.tsx:54 | the sorted copy holds exactly the input items |
| WordCloud.SortSorts | components/hashtags/WordCloud.tsx:54 | the sorted copy runs from high to low count |
| WordCloud.SortStable | components/hashtags/WordCloud.tsx:54 | the sort is stable: items of equal count keep their input order |
| WordCloud.TopItems | components/hashtags/WordCloud.tsx:54 | at most 12 items, as many as possible, and a prefix of the sorted copy |
| WordCloud.TopItemsAreTheMostUsed | components/hashtags/WordCloud.tsx:54 | the shown items come from the input, run high to low, and no left-out item has a higher count than a shown one |
| WordCloud.MaxCount | components/hashtags/WordCloud.tsx:58 | the scale's max is at least 1 and every count, and is 1 or one of the counts |
| WordCloud.MinCount | components/hashtags/WordCloud.tsx:59 | the scale's min is at most 0 and every count, and is 0 or one of the counts |
| WordCloud.Counts | components/hashtags/WordCloud.tsx:57 | the counts of the shown items, in order |
| WordCloud.ScaleIsProper | components/hashtags/WordCloud.tsx:58-59 | min < max always, so the equal-count branch of `getSizeTier` is never reached from the cloud |
| WordCloud.RawTag | components/hashtags/WordCloud.tsx:71 | exactly one leading '#' is removed when there is one |
| WordCloud.Label | components/hashtags/WordCloud.tsx:90 | every label starts with '#' |
| WordCloud.LabelIsHashRaw | components/hashtags/WordCloud.tsx:71-90 | the label is '#' followed by the raw tag, labelling is idempotent, and the raw tag of a label is the raw tag |
| WordCloud.IsActive | components/hashtags/WordCloud.tsx:72 | a bubble is active when the active tag equals the raw tag or the original tag (definition; used by `BubbleFor`, `ClickActivates`) |
| WordCloud.BubbleFor | components/hashtags/WordCloud.tsx:67-90 | a bubble's text starts with '#', it reports the raw tag, and it is active exactly when the active tag equals the raw or the original tag |
| WordCloud.Bubbles | components/hashtags/WordCloud.tsx:67-93 | one bubble per shown item |
| WordCloud.ClickActivates | components/hashtags/WordCloud.tsx:72-78 | the tag a bubble reports, passed back as the active tag, makes that bubble active; its text is '#' and the reported tag |
| WordCloud.MostUsedIsLargest | components/hashtags/WordCloud.tsx:54-68 | with some count of at least 1 the cloud's first bubble is drawn in the largest tier |
| WordCloud.MaxOfDescending | components/hashtags/WordCloud.tsx:58 | in a list sorted high to low whose head count is at least 1, the head's count is the scale's max |
| PostCard.Snippet | components/feed/PostCard.tsx:42-43 | content of at most 150 characters is unchanged; longer content becomes a prefix of its first 150 characters, not ending in whitespace, with only whitespace dropped, followed by "...", at most 153 long |
| PostCard.Report | components/feed/PostCard.tsx:91-108 | the like and helpful buttons report the card's own id; the comments button reports nothing |
| PostCard.ShowsHashtags | components/feed/PostCard.tsx:74 | the hashtag row is drawn exactly when hashtags are given and the list is not empty (definition) |
| ClassNames.KeptStrings | lib/classnames.ts:2 | kept class names are non-empty, at most one per argument |
| ClassNames.Kept | lib/classnames.ts:2 | `filter(Boolean)` keeps exactly the non-empty strings (definition) |
| ClassNames.Join | lib/classnames.ts:2 | `join(" ")`: the parts with one space between neighbours (properties in `JoinEmpty`, `JoinAppend`) |
| ClassNames.Cn | lib/classnames.ts:1-3 | the result is "" exactly when no argument is a non-empty string |
| ClassNames.JoinEmpty | lib/classnames.ts:2 | a join of non-empty names is empty only when there are none |
| ClassNames.JoinAppend | lib/classnames.ts:2 | joining two lists puts one space between their joins, unless one is empty |
| ClassNames.KeptAppend | lib/classnames.ts:2 | the filter works argument by argument |
| ClassNames.CnAppend | lib/classnames.ts:2 | arguments keep their order and are joined by single spaces, untrimmed and not deduplicated |
| ClassNames.DroppedArgsIgnored | lib/classnames.ts:2 | false, null, undefined and "" leave the result unchanged wherever they stand |
| ClassNames.SingleClass | lib/classnames.ts:2 | a single non-empty string is returned unchanged |
| Toast.WithoutAppend | components/ui/Toast.tsx:37 | dismissing from two lists one after the other dismisses from each |
| Toast.Without | components/ui/Toast.tsx:37 | `filter((t) => t.id !== id)`: the toasts whose id differs, in order (properties in `DismissRemovesAll`, `DismissIdempotent`, `DismissKeepsOthers`) |
| Toast.WithoutAbsent | components/ui/Toast.tsx:37 | dismissing an id no toast has leaves the list unchanged |
| Toast.DismissRemovesAll | components/ui/Toast.tsx:37 | after dismissing an id no toast has it |
| Toast.DismissIdempotent | components/ui/Toast.tsx:37 | dismissing twice equals dismissing once |
| Toast.DismissKeepsOthers | components/ui/Toast.tsx:37 | the toasts of every other id stay, in order |
| Toast.OnlyAppend | components/ui/Toast.tsx:37 | selecting one id's toasts from two lists selects from each |
| Toast.Only | components/ui/Toast.tsx:37 | the toasts of one id, in order: what `DismissKeepsOthers` compares before and after a dismissal (definition) |
| Toast.ToastThenDismiss | components/ui/Toast.tsx:33-37 | a toast with a fresh id, then its dismissal, gives back the earlier list |
| Toast.ToastProvider.constructor | components/ui/Toast.tsx:29 | the list starts empty |
| Toast.ToastProvider.Toast | components/ui/Toast.tsx:31-34 | appends exactly one item at the end with the fresh id, the message and the variant, "success" by default; earlier items are unchanged |
| Toast.ToastProvider.Dismiss | components/ui/Toast.tsx:36-38 | the list becomes the old one without the toasts of that id |
| Toast.UseToast | components/ui/Toast.tsx:22-26 | outside a provider the call fails with "useToast must be used within ToastProvider"; inside it returns the context |
| Avatar.Display | components/ui/Avatar.tsx:70-76 | never empty: the emoji if given, else the upper-cased initials, else the placeholder |
| Avatar.GroupMax | components/ui/Avatar.tsx:92 | `max` defaults to 3 and otherwise is the passed value |
| Avatar.ShownCount | components/ui/Avatar.tsx:94 | `slice(0, max)` keeps min(max, n) children, or n + max (at least 0) for a negative max |
| Avatar.Shown | components/ui/Avatar.tsx:92-94 | the drawn children are the first `ShownCount` children, max defaulting to 3 |
| Avatar.Badge | components/ui/Avatar.tsx:95-109 | the "+k" badge appears exactly when there are more children than max, and then k = n - max > 0 |
| Avatar.GroupAccountsForAll | components/ui/Avatar.tsx:92-109 | with max >= 0: without a badge all children are drawn; with one, max are drawn and drawn + k = n |
| Avatar.NegativeMaxOvercounts | components/ui/Avatar.tsx:94-95 | for any non-empty group and any negative max, fewer than all children are drawn, the badge says "+(n - max)", and drawn plus badge exceed n |
| Avatar.OptionsDistinct | components/ui/Avatar.tsx:18-41 | there are 22 options and they are pairwise different |
| Avatar.PickerButtons | components/ui/Avatar.tsx:127-136 | one button per option, in order; a button is highlighted exactly when its emoji equals the selected one |
| Avatar.Pick | components/ui/Avatar.tsx:130 | clicking a button reports one of the options |
| Avatar.PickHighlightsOnlyIt | components/ui/Avatar.tsx:130-134 | the picked emoji, passed back as selected, highlights that button and no other |
| Avatar.ForeignSelectionHighlightsNothing | components/ui/Avatar.tsx:134 | a selected emoji outside the options highlights nothing |
| Input.InputId | components/ui/Input.tsx:16 | the id whenever one is passed, even "", otherwise the name |
| Input.HelpAndErrorDiffer | components/ui/Input.tsx:18-19 | the help and error ids of one field never coincide |
| Input.EntryFor | components/ui/Input.tsx:18-19 | one conditional push: the entry when the text is truthy, nothing otherwise (definition) |
| Input.HelpId | components/ui/Input.tsx:18 | the help id is the input id followed by "-help" (definition) |
| Input.ErrorId | components/ui/Input.tsx:19 | the error id is the input id followed by "-error" (definition) |
| Input.DescribedByIds | components/ui/Input.tsx:17-19 | no entries without a usable id; otherwise the help id for a description, then the error id for an error |
| Input.AriaDescribedBy | components/ui/Input.tsx:34 | the computed attribute is absent exactly when there are no entries; when present its value is the entries joined by single spaces |
| Input.DescribedByValue | components/ui/Input.tsx:17-19 | with a usable id: "X-help X-error" for both notes, "X-help" or "X-error" for one, and no attribute for none |
| Input.AriaInvalid | components/ui/Input.tsx:33 | the computed `aria-invalid` is true exactly for a non-empty error and absent otherwise |
| Input.Notes | components/ui/Input.tsx:46-49 | the four conditional notes in render order: with a usable id the help and error notes carry their ids, without one they carry none (properties in `NotesOnce`, `NotesMatchDescribedBy`) |
| Input.NotesOnce | components/ui/Input.tsx:46-49 | a description and an error are each rendered exactly once when given, and not at all otherwise |
| Input.NotesMatchDescribedBy | components/ui/Input.tsx:46-49 | a note carries an id exactly when there is a usable input id, and the carried ids are the `aria-describedby` entries, in order |
| Input.CountKindAppend | components/ui/Input.tsx:46-49 | note counts add up over consecutive notes |
| Input.CarriedAppend | components/ui/Input.tsx:46-49 | carried ids add up over consecutive notes |
| Input.TextAreaRows | components/ui/Input.tsx:62 | a text area has 4 rows unless told otherwise |
| CreatePost.CanPublish | components/ui/CreatePost.tsx:19 | publishing is possible exactly when neither the content nor the hashtag is blank |
| CreatePost.CreatePostState.constructor | components/ui/CreatePost.tsx:15-17 | the dialog starts closed with both fields empty |
| CreatePost.CreatePostState.OpenDialog | components/ui/CreatePost.tsx:35 | opens the dialog; the fields are kept |
| CreatePost.CreatePostState.Close | components/ui/CreatePost.tsx:39 | closing only sets open to false; typed text is kept |
| CreatePost.CreatePostState.SetContent | components/ui/CreatePost.tsx:48 | the content takes the typed text |
| CreatePost.CreatePostState.SetHashtag | components/ui/CreatePost.tsx:56 | the hashtag takes the typed text |
| CreatePost.CreatePostState.PublishDisabled | components/ui/CreatePost.tsx:62 | the Publish button is disabled exactly when publishing would send nothing, that is when the content or the hashtag is blank |
| CreatePost.CreatePostState.Publish | components/ui/CreatePost.tsx:21-27 | without `canPublish` nothing is sent or changed; otherwise the trimmed content and hashtag are sent, both fields emptied and the dialog closed |
| CreatePost.PublishOutcome | components/ui/CreatePost.tsx:19-23 | nothing is published exactly when `canPublish` is false; otherwise the content and hashtag, both trimmed |
| CreatePost.PublicationIsClean | components/ui/CreatePost.tsx:22-23 | a publication has no blank field and is already trimmed |
| ProfileCard.SaveOutcome | components/profile/ProfileCard.tsx:28-29 | a blank nickname saves nothing; otherwise the trimmed nickname and the emoji |
| ProfileCard.ProfileCardState.constructor | components/profile/ProfileCard.tsx:17-25 | view mode, the given nickname, and the given emoji or the placeholder when none is passed |
| ProfileCard.ProfileCardState.Edit | components/profile/ProfileCard.tsx:84 | enters edit mode, nothing else changes |
| ProfileCard.ProfileCardState.Cancel | components/profile/ProfileCard.tsx:52 | leaves edit mode without reverting the nickname or emoji |
| ProfileCard.ProfileCardState.SetNickname | components/profile/ProfileCard.tsx:49 | the nickname takes the typed text |
| ProfileCard.ProfileCardState.SetEmoji | components/profile/ProfileCard.tsx:43 | the emoji takes the picked one |
| ProfileCard.ProfileCardState.SaveDisabled | components/profile/ProfileCard.tsx:58 | the Save button is disabled exactly when saving would report nothing |
| ProfileCard.ProfileCardState.Save | components/profile/ProfileCard.tsx:27-31 | a blank nickname changes nothing; otherwise the trimmed nickname and emoji are reported and edit mode ends; the nickname as typed stays |
| ProfileCard.SavedNicknameTrimmed | components/profile/ProfileCard.tsx:28-29 | example: a nickname typed as " Ann" is saved as "Ann" |
| ProfileCard.ShownNicknameNotTrimmed | components/profile/ProfileCard.tsx:23-31 | example run of the card: built with " Ann", edited and saved, it reports "Ann", leaves edit mode, and its own nickname stays " Ann" |
| Welcome.CanContinue | app/welcome/page.tsx:18 | continuing is possible exactly when the nickname is not blank and an avatar is chosen |
| Welcome.WelcomeState.constructor | app/welcome/page.tsx:13-16 | empty nickname and avatar, not loading, no error |
| Welcome.WelcomeState.SetNickname | app/welcome/page.tsx:57 | the nickname takes the typed text |
| Welcome.WelcomeState.SetAvatar | app/welcome/page.tsx:62 | the avatar takes the picked one |
| Welcome.WelcomeState.ContinueDisabled | app/welcome/page.tsx:68 | the Continue button is disabled exactly when the nickname is blank or no avatar is chosen |
| Welcome.WelcomeState.Continue | app/welcome/page.tsx:20-34 | without `canContinue` nothing happens; otherwise the trimmed nickname and avatar are sent, success clears the error and goes to the feed, failure sets "Failed to create profile. Please try again.", and loading is off at the end |
| Welcome.DraftIsComplete | app/welcome/page.tsx:18-26 | a request never carries a blank nickname or an empty avatar |
| SearchBar.Placeholder | components/ui/SearchBar.tsx:17 | the placeholder defaults to "Search..." |
| SearchBar.SearchBarState.constructor | components/ui/SearchBar.tsx:23 | the own text starts empty |
| SearchBar.SearchBarState.Value | components/ui/SearchBar.tsx:24 | a passed value is shown whenever there is one, even ""; otherwise the own text |
| SearchBar.SearchBarState.ShowsClear | components/ui/SearchBar.tsx:58 | the clear button is shown exactly when the shown value is non-empty: the passed value when controlled, the own text otherwise |
| SearchBar.SearchBarState.Change | components/ui/SearchBar.tsx:26-29 | the own text follows only when uncontrolled; the new text is always reported |
| SearchBar.SearchBarState.KeyDown | components/ui/SearchBar.tsx:31-35 | Enter searches for the shown value; other keys report nothing |
| SearchBar.SearchBarState.Clear | components/ui/SearchBar.tsx:37-40 | reports "" as the new text, then searches for ""; uncontrolled, the text is emptied and the clear button disappears |
| Text.Trim | components/ui/PostThread.tsx:63 | the trimmed text is empty exactly for blank text; otherwise it neither starts nor ends with whitespace; it is never longer |
| Text.IsSpace | components/ui/PostThread.tsx:63 | the ECMAScript whitespace and line-terminator characters that `trim` removes (definition) |
| Text.IsBlank | components/ui/PostThread.tsx:63 | a string whose `trim()` is empty (definition; `Trim` proves the link) |
| Text.TrimEnd | components/ui/PostThread.tsx:63 | the longest prefix not ending in whitespace; only whitespace is dropped |
| Text.TrimStart | components/ui/PostThread.tsx:63 | the longest suffix not starting with whitespace; only whitespace is dropped |
| Text.TrimSplit | components/ui/PostThread.tsx:63 | the trimmed text is a contiguous run of the input, and everything before and after that run is whitespace |
| Text.TrimIdempotent | components/ui/PostThread.tsx:63 | trimming twice equals trimming once |
| Text.ToUpper | components/ui/Avatar.tsx:73 | same length, each character upper-cased (ASCII letters only) |
| Text.NatToString | app/profile/page.tsx:44 | a non-empty run of decimal digits without a leading zero |
| Text.IntToString | app/profile/page.tsx:265 | `String(n)`: the digits of n, preceded by "-" when n is negative |
| Text.NatToStringRoundTrip | app/profile/page.tsx:44 | reading back the printed digits gives the number |
| Text.NatToStringInjective | app/profile/page.tsx:44 | distinct numbers print differently |
| Text.IntToStringInjective | app/profile/page.tsx:265 | distinct integers print differently |

## Left out

- Database calls are not modelled; their outcomes are parameters. This covers:
  - `fetchComments`/`createComment` in `lib/comments.ts` and everything in `lib/posts.ts`;
  - `createProfile` in `lib/profile.ts`;
  - `updateProfile`, `fetchUserStats` and `fetchUserPosts`, which are not part of this model.
- Browser storage is not modelled: `getStoredProfile`, `storeProfile` and `clearProfile`, including JSON parsing. `Mount` takes what the stored profile lookup returned.
- The hosted-model assistant (`app/api/ai/route.ts`, `components/ai/AskAI.tsx`) is a pass-through to a remote service.
- The clock is a parameter. `timeAgo` receives the difference in milliseconds, `CardFor` receives `now`, and `createdAt` is already a number.
- ProfilePage.AgeOf: an unparsable date (a NaN difference, which prints "NaNmo ago") is not modelled, because the difference is an integer here.
- Toast.ToastProvider.Toast: the random UUID is a parameter, and the four-second auto-dismiss timer is timing and is not modelled.
- Input.AriaDescribedBy and Input.AriaInvalid state the values `Input` and `TextArea` compute. The `{...props}` spread comes after them (components/ui/Input.tsx:43 and :93), so a caller that passes `aria-describedby` or `aria-invalid` itself replaces the computed value. That override is not modelled: the rest props are not part of this model.
- WordCloud.GetSizeTier compares exact rationals. JavaScript divides doubles, and 0.8, 0.55, 0.3 and 0.1 are not exact in binary, so a count exactly at a threshold may land differently. Counts are integers, and a NaN count is not modelled.
- Lengths are counted in Unicode scalar values, not UTF-16 code units. This matters for:
  - PostCard.Snippet: JavaScript's `slice(0, 150)` counts UTF-16 code units and can cut a surrogate pair; the model counts characters.
- Text.ToUpper upper-cases ASCII letters only; `toUpperCase`'s full Unicode case mapping, used by Avatar.Display, is not modelled.
- Asynchronous handlers run as one atomic step with the awaited outcome passed in: the profile page's `loadData` and `handleSave`, and the welcome page's `handleContinue`.
  - The intermediate "saving"/"loading" renders are not observable.
  - Clicks that interleave with a pending request are not modelled.
- Navigation is returned as a value (`GoToWelcome`, `toFeed`) rather than performed. `router.push` to a post is not modelled.
- Presentation is not modelled: Tailwind classes, icons, `Button`'s loading spinner, the avatar status dot, labels and the empty-state text.
- Both PostThread files are modelled by the one `Thread` module, because their rules are identical. The table cites the `components/ui` copy, except for the `active` flags, which exist only in `components/feed/PostThread.tsx` (lines 195 and 209).
- Linking the reply count to the comment tree is not modelled. That would mean converting the forest of `buildCommentTree` into `Reply` lists and proving that the count equals the number of distinct ids. It needs an acyclicity hypothesis on the parent links, plus a proof that subtrees are disjoint. What is proved instead:
  - `Comments.PlacedExactlyOnce`: every distinct id is in exactly one list;
  - `Thread.CountIsRenderedNodes`: the count equals the rendered nodes.
- There is no like/helpful toggle with recount in the source, so none is modelled.
