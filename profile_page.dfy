/** The profile page, app/profile/page.tsx: the relative age shown on each
    listed post, the author and comment count of each listed post, and the
    page state behind loading and the edit/save form. The clock enters as
    the difference `diff` (now minus the post's creation time, in
    milliseconds); the database calls enter as their outcomes. */
module ProfilePage {
  import opened Common
  import Text
  import Avatar

  // ---------------------------------------------------------------------
  // timeAgo
  // ---------------------------------------------------------------------

  const MsPerMinute: nat := 60000
  const MsPerHour: nat := 3600000
  const MsPerDay: nat := 86400000
  const MsPerMonth: nat := 2592000000

  /** The bucket `timeAgo` picks, with the whole number it prints. */
  datatype Age = JustNow | MinutesAgo(minutes: nat) | HoursAgo(hours: nat)
               | DaysAgo(days: nat) | MonthsAgo(months: nat)

  /** The chain of floors and comparisons of `timeAgo`, stated directly on
      the difference: each bucket is a half-open range of `diff` and its
      number is `diff` divided by the bucket's unit, rounded down. A
      negative difference (a post dated in the future) is "just now". */
  function AgeOf(diff: int): (a: Age)
    ensures a.JustNow? <==> diff < MsPerMinute
    ensures a.MinutesAgo? <==> MsPerMinute <= diff < MsPerHour
    ensures a.HoursAgo? <==> MsPerHour <= diff < MsPerDay
    ensures a.DaysAgo? <==> MsPerDay <= diff < MsPerMonth
    ensures a.MonthsAgo? <==> MsPerMonth <= diff
    ensures a.MinutesAgo? ==> a.minutes == diff / MsPerMinute && 1 <= a.minutes < 60
    ensures a.HoursAgo? ==> a.hours == diff / MsPerHour && 1 <= a.hours < 24
    ensures a.DaysAgo? ==> a.days == diff / MsPerDay && 1 <= a.days < 30
    ensures a.MonthsAgo? ==> a.months == diff / MsPerMonth && a.months >= 1
  {
    var mins := diff / 60000;
    if mins < 1 then JustNow
    else if mins < 60 then MinutesAgo(mins)
    else
      var hours := mins / 60;
      if hours < 24 then HoursAgo(hours)
      else
        var days := hours / 24;
        if days < 30 then DaysAgo(days)
        else MonthsAgo(days / 30)
  }

  /** The text of a bucket. */
  function Render(a: Age): string {
    match a
    case JustNow => "just now"
    case MinutesAgo(m) => Text.NatToString(m) + "m ago"
    case HoursAgo(h) => Text.NatToString(h) + "h ago"
    case DaysAgo(d) => Text.NatToString(d) + "d ago"
    case MonthsAgo(mo) => Text.NatToString(mo) + "mo ago"
  }

  /** `timeAgo`, given `Date.now() - new Date(dateStr).getTime()`. */
  function TimeAgo(diff: int): (s: string)
    ensures s == "just now" <==> diff < MsPerMinute
    ensures diff >= MsPerMinute ==> s != [] && Text.IsDigit(s[0])
  {
    RenderSeparates(AgeOf(diff), JustNow);
    Render(AgeOf(diff))
  }

  /** Position of a bucket from the most recent to the oldest. */
  function Rank(a: Age): nat {
    match a
    case JustNow => 0
    case MinutesAgo(_) => 1
    case HoursAgo(_) => 2
    case DaysAgo(_) => 3
    case MonthsAgo(_) => 4
  }

  /** The number printed in a bucket (0 for "just now"). */
  function Amount(a: Age): nat {
    match a
    case JustNow => 0
    case MinutesAgo(m) => m
    case HoursAgo(h) => h
    case DaysAgo(d) => d
    case MonthsAgo(mo) => mo
  }

  /** `a` reads as no older than `b`. */
  predicate NoOlder(a: Age, b: Age) {
    Rank(a) < Rank(b) || (Rank(a) == Rank(b) && Amount(a) <= Amount(b))
  }

  /** An older post never reads as more recent: a larger difference never
      lands in an earlier bucket, nor on a smaller number in the same one. */
  lemma AgeMonotone(d1: int, d2: int)
    requires d1 <= d2
    ensures NoOlder(AgeOf(d1), AgeOf(d2))
  {

  }

  /** Digits followed by a suffix that starts with a non-digit split back
      into the same digits and the same suffix. */
  lemma {:induction false} DigitsThenSuffix(d1: string, s1: string, d2: string, s2: string)
    requires forall i :: 0 <= i < |d1| ==> Text.IsDigit(d1[i])
    requires forall i :: 0 <= i < |d2| ==> Text.IsDigit(d2[i])
    requires s1 != [] && !Text.IsDigit(s1[0])
    requires s2 != [] && !Text.IsDigit(s2[0])
    requires d1 + s1 == d2 + s2
    ensures d1 == d2 && s1 == s2
  {
    FirstNonDigit(d1, s1);
    FirstNonDigit(d2, s2);
    assert |d1| == |d2|;
    assert d1 == (d1 + s1)[..|d1|];
    assert d2 == (d2 + s2)[..|d2|];
    assert s1 == (d1 + s1)[|d1|..];
    assert s2 == (d2 + s2)[|d2|..];
  }

  /** In digits followed by a suffix that starts with a non-digit, the
      first non-digit sits right after the digits. */
  lemma FirstNonDigit(d: string, s: string)
    requires forall i :: 0 <= i < |d| ==> Text.IsDigit(d[i])
    requires s != [] && !Text.IsDigit(s[0])
    ensures forall i :: 0 <= i < |d| ==> Text.IsDigit((d + s)[i])
    ensures !Text.IsDigit((d + s)[|d|])
  {
  }

  /** "just now" is told apart from every numbered text by its first
      character. */
  lemma RenderSeparates(a: Age, b: Age)
    ensures a.JustNow? <==> Render(a) == "just now"
    ensures !a.JustNow? ==> Render(a) != [] && Text.IsDigit(Render(a)[0])
  {
    if !a.JustNow? {
      var d := Text.NatToString(Amount(a));
      assert Render(a)[0] == d[0];
    }
  }

  /** The text shown determines the bucket and its number: two differences
      that print the same text fall in the same bucket with the same
      number. */
  lemma RenderInjective(a: Age, b: Age)
    ensures Render(a) == Render(b) ==> a == b
  {
    if Render(a) == Render(b) {
      RenderSeparates(a, b);
      RenderSeparates(b, a);
      if !a.JustNow? && !b.JustNow? {
        var da, db := Text.NatToString(Amount(a)), Text.NatToString(Amount(b));
        var sa, sb := Render(a)[|da|..], Render(b)[|db|..];
        assert Render(a) == da + sa;
        assert Render(b) == db + sb;
        DigitsThenSuffix(da, sa, db, sb);
        Text.NatToStringInjective(Amount(a), Amount(b));
      }
    }
  }

  // ---------------------------------------------------------------------
  // The listed posts
  // ---------------------------------------------------------------------

  /** `Profile` of lib/profile.ts. */
  datatype Profile = Profile(id: int, nickname: string, avatarEmoji: string)

  /** The joined author profile of a post row. */
  datatype PostAuthor = PostAuthor(nickname: string, avatarEmoji: string)

  /** One element of the `comments: { count }[]` aggregate. */
  datatype CommentAggregate = CommentAggregate(count: int)

  /** `PostRow`; `createdAt` is the creation time in milliseconds. */
  datatype PostRow = PostRow(
    id: int,
    title: string,
    content: string,
    hashtags: seq<string>,
    likesCount: int,
    helpfulCount: int,
    createdAt: int,
    isAnonymous: bool,
    profiles: Option<PostAuthor>,
    comments: Option<seq<CommentAggregate>>)

  /** The name shown on a listed post. */
  function AuthorName(post: PostRow): (name: string)
    ensures post.isAnonymous || post.profiles.None? ==> name == "Anonymous"
    ensures !post.isAnonymous && post.profiles.Some? ==> name == post.profiles.value.nickname
  {
    if post.isAnonymous then "Anonymous"
    else match post.profiles
      case Some(p) => p.nickname
      case None => "Anonymous"
  }

  /** The `avatarEmoji` prop passed to a listed post's card: none for an
      anonymous post. */
  function AuthorAvatar(post: PostRow): (emoji: Option<string>)
    ensures emoji.Some? <==> !post.isAnonymous && post.profiles.Some?
    ensures emoji.Some? ==> emoji.value == post.profiles.value.avatarEmoji
  {
    if post.isAnonymous then None
    else match post.profiles
      case Some(p) => Some(p.avatarEmoji)
      case None => None
  }

  /** An anonymous post shows nothing of its author: whatever profile is
      joined to it, it gets the same name and no `avatarEmoji` prop. */
  lemma AnonymityHidesAuthor(post: PostRow, other: Option<PostAuthor>)
    requires post.isAnonymous
    ensures AuthorName(post.(profiles := other)) == AuthorName(post) == "Anonymous"
    ensures AuthorAvatar(post.(profiles := other)) == AuthorAvatar(post) == None
  {
  }

  /** What the card's `<Avatar emoji={avatarEmoji} />` draws: the author's
      emoji when the post is not anonymous and that emoji is non-empty,
      and the placeholder otherwise, so an anonymous card still shows an
      avatar. */
  lemma CardAvatarDrawn(post: PostRow)
    ensures var drawn := Avatar.Display(AuthorAvatar(post), None);
      && (post.isAnonymous || post.profiles.None? || post.profiles.value.avatarEmoji == "" ==> drawn == Avatar.Placeholder)
      && (!post.isAnonymous && post.profiles.Some? && post.profiles.value.avatarEmoji != "" ==> drawn == post.profiles.value.avatarEmoji)
  {
  }

  /** `post.comments?.[0]?.count ?? 0`. */
  function CommentCount(post: PostRow): (n: int)
    ensures post.comments.None? || post.comments.value == [] ==> n == 0
    ensures post.comments.Some? && post.comments.value != [] ==> n == post.comments.value[0].count
  {
    match post.comments
    case None => 0
    case Some(aggregates) => if aggregates == [] then 0 else aggregates[0].count
  }

  /** The props handed to `PostCard` for a listed post. */
  datatype CardProps = CardProps(
    id: string,
    avatarEmoji: Option<string>,
    name: string,
    timeAgo: string,
    title: string,
    content: string,
    hashtags: seq<string>,
    likes: int,
    commentCount: int,
    helpful: int)

  /** The card of `post` at time `now`. */
  function CardFor(post: PostRow, now: int): (card: CardProps)
    ensures card.id == Text.IntToString(post.id)
    ensures card.name == AuthorName(post) && card.avatarEmoji == AuthorAvatar(post)
    ensures card.timeAgo == Render(AgeOf(now - post.createdAt))
    ensures card.commentCount == CommentCount(post)
    ensures card.title == post.title && card.content == post.content && card.hashtags == post.hashtags
    ensures card.likes == post.likesCount && card.helpful == post.helpfulCount
  {
    CardProps(Text.IntToString(post.id), AuthorAvatar(post), AuthorName(post),
              TimeAgo(now - post.createdAt), post.title, post.content, post.hashtags,
              post.likesCount, CommentCount(post), post.helpfulCount)
  }

  /** Distinct posts get distinct card ids, so the id the card reports
      names its post. */
  lemma CardIdsDistinct(p: PostRow, q: PostRow, now: int)
    requires p.id != q.id
    ensures CardFor(p, now).id != CardFor(q, now).id
  {
    Text.IntToStringInjective(p.id, q.id);
  }

  // ---------------------------------------------------------------------
  // Page state
  // ---------------------------------------------------------------------

  /** `Stats`. */
  datatype Stats = Stats(posts: int, likes: int, comments: int, helpful: int)

  /** What the mount effect does next. */
  datatype MountEffect = GoToWelcome | LoadData(userId: int)

  /** What `loadData` fetched, when both requests succeeded. */
  datatype UserData = UserData(stats: Stats, posts: seq<PostRow>)

  /** The arguments `handleSave` passes to `updateProfile`. */
  datatype SaveRequest = SaveRequest(userId: int, nickname: string, avatarEmoji: string)

  /** The guard and arguments of `handleSave`: nothing without a profile or
      with a blank nickname, otherwise the trimmed nickname. */
  function SaveRequestFor(profile: Option<Profile>, nickname: string, emoji: string): (r: Option<SaveRequest>)
    ensures r.None? <==> profile.None? || Text.IsBlank(nickname)
    ensures r.Some? ==> r.value.userId == profile.value.id && r.value.nickname == Text.Trim(nickname)
                        && r.value.avatarEmoji == emoji
    ensures r.Some? ==> r.value.nickname != [] && !Text.IsSpace(r.value.nickname[0])
  {
    if profile.None? || Text.Trim(nickname) == [] then None
    else Some(SaveRequest(profile.value.id, Text.Trim(nickname), emoji))
  }

  /** The state of `ProfilePage`. */
  class ProfilePageState {
    var profile: Option<Profile>
    var stats: Stats
    var posts: seq<PostRow>
    var loading: bool
    var editing: bool
    var editNickname: string
    var editEmoji: string
    var saving: bool

    /** The initial `useState` values. */
    constructor()
      ensures profile == None && stats == Stats(0, 0, 0, 0) && posts == []
      ensures loading && !editing && editNickname == "" && editEmoji == "" && !saving
    {
      profile := None;
      stats := Stats(0, 0, 0, 0);
      posts := [];
      loading := true;
      editing := false;
      editNickname := "";
      editEmoji := "";
      saving := false;
    }

    /** The mount effect, given what `getStoredProfile` returned: without a
        stored profile the page leaves for the welcome page and changes
        nothing; otherwise it shows the profile, seeds the form with it and
        loads that user's data. */
    method Mount(stored: Option<Profile>) returns (effect: MountEffect)
      modifies this
      ensures stored.None? ==> effect == GoToWelcome && profile == old(profile)
                               && editNickname == old(editNickname) && editEmoji == old(editEmoji)
      ensures stored.Some? ==> effect == LoadData(stored.value.id) && profile == stored
                               && editNickname == stored.value.nickname && editEmoji == stored.value.avatarEmoji
      ensures stats == old(stats) && posts == old(posts) && loading == old(loading)
      ensures editing == old(editing) && saving == old(saving)
    {
      if stored.None? {
        return GoToWelcome;
      }
      profile := stored;
      editNickname := stored.value.nickname;
      editEmoji := stored.value.avatarEmoji;
      effect := LoadData(stored.value.id);
    }

    /** The end of `loadData`: on success the stats and posts are shown; on
        failure the old ones stay; loading ends either way. */
    method FinishLoad(outcome: Option<UserData>)
      modifies this
      ensures outcome.Some? ==> stats == outcome.value.stats && posts == outcome.value.posts
      ensures outcome.None? ==> stats == old(stats) && posts == old(posts)
      ensures !loading
      ensures profile == old(profile) && editing == old(editing) && saving == old(saving)
      ensures editNickname == old(editNickname) && editEmoji == old(editEmoji)
    {
      if outcome.Some? {
        stats := outcome.value.stats;
        posts := outcome.value.posts;
      }
      loading := false;
    }

    /** The "Edit Profile" button. */
    method Edit()
      modifies this
      ensures editing
      ensures profile == old(profile) && editNickname == old(editNickname) && editEmoji == old(editEmoji)
      ensures saving == old(saving) && loading == old(loading) && stats == old(stats) && posts == old(posts)
    {
      editing := true;
    }

    /** "Cancel" only leaves edit mode; the form keeps what was typed. */
    method Cancel()
      modifies this
      ensures !editing
      ensures profile == old(profile) && editNickname == old(editNickname) && editEmoji == old(editEmoji)
      ensures saving == old(saving) && loading == old(loading) && stats == old(stats) && posts == old(posts)
    {
      editing := false;
    }

    /** The nickname input. */
    method SetNickname(t: string)
      modifies this
      ensures editNickname == t
      ensures profile == old(profile) && editing == old(editing) && editEmoji == old(editEmoji)
      ensures saving == old(saving) && loading == old(loading) && stats == old(stats) && posts == old(posts)
    {
      editNickname := t;
    }

    /** The avatar picker's `onSelect`. */
    method SetEmoji(e: string)
      modifies this
      ensures editEmoji == e
      ensures profile == old(profile) && editing == old(editing) && editNickname == old(editNickname)
      ensures saving == old(saving) && loading == old(loading) && stats == old(stats) && posts == old(posts)
    {
      editEmoji := e;
    }

    /** The Save button is disabled while the nickname is blank. */
    predicate SaveDisabled(): (disabled: bool)
      reads this
      ensures disabled ==> SaveRequestFor(profile, editNickname, editEmoji).None?
      ensures !disabled && profile.Some? ==> SaveRequestFor(profile, editNickname, editEmoji).Some?
    {
      Text.IsBlank(editNickname)
    }

    /** The stats grid is shown only once loading has finished, and then
        only outside edit mode; while loading the page shows its loading
        text instead. */
    predicate StatsShown(): (shown: bool)
      reads this
      ensures shown <==> !loading && !editing
    {
      !loading && !editing
    }

    /** `handleSave`, given what `updateProfile` returned (`None` when it
        threw). When the guard fails nothing changes and nothing is sent;
        otherwise the trimmed nickname is sent and the outcome is applied. */
    method Save(outcome: Option<Profile>) returns (request: Option<SaveRequest>)
      modifies this`profile, this`editing, this`saving
      ensures request == SaveRequestFor(old(profile), old(editNickname), old(editEmoji))
      ensures request.None? ==> profile == old(profile) && editing == old(editing) && saving == old(saving)
      ensures request.Some? && outcome.Some? ==> profile == outcome && !editing && !saving
      ensures request.Some? && outcome.None? ==> profile == old(profile) && editing == old(editing) && !saving
    {
      request := SaveRequestFor(profile, editNickname, editEmoji);
      if request.Some? {
        FinishSave(outcome);
      }
    }

    /** The `try`/`finally` of `handleSave`: a returned profile replaces the
        shown one and closes the form; `saving` is false at the end either
        way. `saving` is raised for the duration of the call; as one atomic
        step only its final value is visible. */
    method FinishSave(outcome: Option<Profile>)
      modifies this`profile, this`editing, this`saving
      ensures outcome.Some? ==> profile == outcome && !editing
      ensures outcome.None? ==> profile == old(profile) && editing == old(editing)
      ensures !saving
    {
      if outcome.Some? {
        profile := outcome;
        editing := false;
      }
      saving := false;
    }
  }

  /** The Save button cannot send anything while it is disabled: a blank
      nickname never produces a request. */
  lemma DisabledSaveSendsNothing(profile: Option<Profile>, nickname: string, emoji: string)
    requires Text.IsBlank(nickname)
    ensures SaveRequestFor(profile, nickname, emoji).None?
  {
  }
}
