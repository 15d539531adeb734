/** The discussion thread of a post: components/ui/PostThread.tsx and its
    copy components/feed/PostThread.tsx, which share every rule below. The
    feed copy adds the `likeActive`/`helpfulActive` flags of the action bar. */
module Thread {
  import opened Common
  import Text

  /** `MAX_REPLY_DEPTH`. */
  const MaxReplyDepth: nat := 3

  datatype Reply = Reply(
    id: string,
    avatarEmoji: Option<string>,
    name: string,
    timeAgo: string,
    content: string,
    likes: Option<int>,
    replies: Replies)

  /** An optional list of replies (`replies?: Reply[]`). */
  datatype Replies = Absent | Present(list: seq<Reply>)

  datatype Post = Post(
    id: string,
    avatarEmoji: Option<string>,
    name: string,
    timeAgo: string,
    title: string,
    content: string,
    hashtags: Option<seq<string>>,
    likes: Option<int>,
    helpful: Option<int>,
    comments: Replies)

  // ---------------------------------------------------------------------
  // countReplies
  // ---------------------------------------------------------------------

  /** `countReplies(replies)`: 0 for an absent list. */
  function CountReplies(replies: Replies): (n: nat)
    ensures n == 0 <==> replies.Absent? || replies.list == []
  {
    match replies
    case Absent => 0
    case Present(rs) => CountAll(rs)
  }

  /** `rs.reduce((sum, r) => sum + 1 + countReplies(r.replies), 0)`, folded
      from the left. */
  function CountAll(rs: seq<Reply>): (n: nat)
    ensures n >= |rs|
    decreases rs
  {
    if rs == [] then 0 else CountAll(rs[..|rs| - 1]) + CountOne(rs[|rs| - 1])
  }

  /** What one reply adds to the sum: `1 + countReplies(r.replies)`. */
  function CountOne(r: Reply): (n: nat)
    ensures n >= 1
    decreases r
  {
    1 + match r.replies
        case Absent => 0
        case Present(children) => CountAll(children)
  }

  /** Counting two lists one after the other adds their counts. */
  lemma {:induction false} CountAppend(a: seq<Reply>, b: seq<Reply>)
    ensures CountAll(a + b) == CountAll(a) + CountAll(b)
    decreases |b|
  {
    if b != [] {
      var pre := b[..|b| - 1];
      assert (a + b)[..|a + b| - 1] == a + pre;
      assert (a + b)[|a + b| - 1] == b[|b| - 1];
      CountAppend(a, pre);
    } else {
      assert a + b == a;
    }
  }

  /** Each reply adds one for itself and the count of its own replies, at
      every level. */
  lemma CountCons(r: Reply, rest: seq<Reply>)
    ensures CountAll([r] + rest) == 1 + CountReplies(r.replies) + CountAll(rest)
  {
    CountAppend([r], rest);
    assert [r][..0] == [];
  }

  // ---------------------------------------------------------------------
  // What the thread renders
  // ---------------------------------------------------------------------

  /** One rendered `ReplyNode`: the reply it shows, its depth, whether it
      offers a reply action, and the id its like button reports. */
  datatype Item = Item(replyId: string, depth: nat, canReply: bool, likeTarget: string)

  /** `depth < MAX_REPLY_DEPTH`. */
  predicate CanReply(depth: nat) {
    depth < MaxReplyDepth
  }

  /** The `ReplyNode`s rendered for `rs` at `depth`, in document order. */
  function Items(rs: seq<Reply>, depth: nat): (items: seq<Item>)
    ensures |items| >= |rs|
    decreases rs
  {
    if rs == [] then [] else Items(rs[..|rs| - 1], depth) + ItemsOf(rs[|rs| - 1], depth)
  }

  /** A `ReplyNode`: the reply itself, then its own replies one level deeper. */
  function ItemsOf(r: Reply, depth: nat): (items: seq<Item>)
    ensures |items| >= 1 && items[0].replyId == r.id && items[0].depth == depth
    decreases r
  {
    [Item(r.id, depth, CanReply(depth), r.id)] +
      match r.replies
      case Absent => []
      case Present(children) => Items(children, depth + 1)
  }

  /** The top-level comments, rendered at depth 0. */
  function PostItems(post: Post): (items: seq<Item>)
    ensures |items| == CountReplies(post.comments)
  {
    match post.comments
    case Absent => []
    case Present(comments) =>
      CountIsRenderedNodes(comments, 0);
      Items(comments, 0)
  }

  /** `countReplies` counts exactly the reply nodes the thread renders. */
  lemma {:induction false} CountIsRenderedNodes(rs: seq<Reply>, depth: nat)
    ensures |Items(rs, depth)| == CountAll(rs)
    decreases rs
  {
    if rs != [] {
      CountIsRenderedNodes(rs[..|rs| - 1], depth);
      CountOneIsRenderedNodes(rs[|rs| - 1], depth);
    }
  }

  lemma {:induction false} CountOneIsRenderedNodes(r: Reply, depth: nat)
    ensures |ItemsOf(r, depth)| == CountOne(r)
    decreases r
  {
    match r.replies
    case Absent =>
    case Present(children) =>
      CountIsRenderedNodes(children, depth + 1);
  }

  /** Every rendered node sits at least at the depth its list starts at, and
      offers a reply action exactly when its depth is below 3; its like
      button reports its own reply's id. */
  lemma {:induction false} ItemsDepth(rs: seq<Reply>, depth: nat)
    ensures forall k :: 0 <= k < |Items(rs, depth)| ==>
      Items(rs, depth)[k].depth >= depth &&
      (Items(rs, depth)[k].canReply <==> Items(rs, depth)[k].depth < MaxReplyDepth) &&
      Items(rs, depth)[k].likeTarget == Items(rs, depth)[k].replyId
    decreases rs
  {
    if rs != [] {
      ItemsDepth(rs[..|rs| - 1], depth);
      ItemsOfDepth(rs[|rs| - 1], depth);
    }
  }

  lemma {:induction false} ItemsOfDepth(r: Reply, depth: nat)
    ensures forall k :: 0 <= k < |ItemsOf(r, depth)| ==>
      ItemsOf(r, depth)[k].depth >= depth &&
      (ItemsOf(r, depth)[k].canReply <==> ItemsOf(r, depth)[k].depth < MaxReplyDepth) &&
      ItemsOf(r, depth)[k].likeTarget == ItemsOf(r, depth)[k].replyId
    decreases r
  {
    match r.replies
    case Absent =>
    case Present(children) =>
      ItemsDepth(children, depth + 1);
  }

  /** A reply is rendered at its list's depth, and its own replies follow
      one level deeper. */
  lemma NestingAddsOne(r: Reply, depth: nat)
    ensures ItemsOf(r, depth)[0] == Item(r.id, depth, depth < MaxReplyDepth, r.id)
    ensures r.replies.Present? ==> ItemsOf(r, depth)[1..] == Items(r.replies.list, depth + 1)
  {
  }

  /** The first top-level comment's node opens the thread, at depth 0. */
  lemma TopLevelAtDepthZero(post: Post)
    requires post.comments.Present? && post.comments.list != []
    ensures |PostItems(post)| > 0
    ensures PostItems(post)[0].depth == 0 && PostItems(post)[0].replyId == post.comments.list[0].id
  {
    var cs := post.comments.list;
    FirstItem(cs, 0);
  }

  lemma {:induction false} FirstItem(rs: seq<Reply>, depth: nat)
    requires rs != []
    ensures |Items(rs, depth)| > 0 && Items(rs, depth)[0] == Item(rs[0].id, depth, CanReply(depth), rs[0].id)
  {
    if |rs| > 1 {
      FirstItem(rs[..|rs| - 1], depth);
    } else {
      assert rs[..0] == [];
    }
  }

  // ---------------------------------------------------------------------
  // The action bar
  // ---------------------------------------------------------------------

  /** The post's action bar: the like, comment and helpful buttons with
      their counts and `active` flags. The ui copy passes no flags. */
  datatype ActionBar = ActionBar(
    likeCount: Option<int>, likeActive: Option<bool>,
    commentCount: nat,
    helpfulCount: Option<int>, helpfulActive: Option<bool>)

  function PostActionBar(post: Post, likeActive: Option<bool>, helpfulActive: Option<bool>): (bar: ActionBar)
    ensures bar.likeActive == likeActive && bar.helpfulActive == helpfulActive
    ensures bar.likeCount == post.likes && bar.helpfulCount == post.helpful
  {
    ActionBar(post.likes, likeActive, CountReplies(post.comments), post.helpful, helpfulActive)
  }

  /** The comment count on the action bar is the number of comment and
      reply nodes the thread renders below it. */
  lemma CommentCountShown(post: Post, likeActive: Option<bool>, helpfulActive: Option<bool>)
    ensures PostActionBar(post, likeActive, helpfulActive).commentCount == |PostItems(post)|
  {
    if post.comments.Present? {
      CountIsRenderedNodes(post.comments.list, 0);
    }
  }

  // ---------------------------------------------------------------------
  // The comment and reply boxes
  // ---------------------------------------------------------------------

  /** What `onReply` receives: the parent's id and the trimmed text. */
  datatype Submission = Submission(parentId: string, content: string)

  /** The outcome of submitting `text` to `parentId`: nothing for blank
      text, otherwise the trimmed text. */
  function SubmitOutcome(parentId: string, text: string): (s: Option<Submission>)
    ensures s.None? <==> Text.IsBlank(text)
    ensures s.Some? ==> s.value.parentId == parentId && s.value.content == Text.Trim(text)
  {
    var trimmed := Text.Trim(text);
    if trimmed == [] then None else Some(Submission(parentId, trimmed))
  }

  /** `e.key === "Enter" && !e.shiftKey`. */
  predicate SubmitsOnKey(key: string, shiftKey: bool) {
    key == "Enter" && !shiftKey
  }

  /** The state behind one input box: `replyOpen`/`replyText` of a
      `ReplyNode` (target: the reply's id), or `commentOpen`/`commentText`
      of `PostThread` (target: the post's id). `offered` says whether the
      Reply button has a click handler: the button is always drawn, but
      at depth 3 and beyond clicking it does nothing. The text field and
      its submit button are drawn only while the box is open, so typing
      and submitting need `open`. */
  class Composer {
    const target: string
    const offered: bool
    var open: bool
    var text: string

    /** A `ReplyNode` at `depth`: its Reply button opens or closes the box
        only below depth 3. */
    constructor ForReply(reply: Reply, depth: nat)
      ensures target == reply.id && offered == CanReply(depth)
      ensures !open && text == ""
    {
      target := reply.id;
      offered := CanReply(depth);
      open := false;
      text := "";
    }

    /** The post's own comment box, toggled by the Comment button. */
    constructor ForPost(post: Post)
      ensures target == post.id && offered
      ensures !open && text == ""
    {
      target := post.id;
      offered := true;
      open := false;
      text := "";
    }

    /** `setReplyOpen((prev) => !prev)` on the toggle, when it exists. */
    method Toggle()
      modifies this
      ensures open == (if offered then !old(open) else old(open))
      ensures text == old(text)
    {
      if offered {
        open := !open;
      }
    }

    /** `onChange`: the box shows what was typed. */
    method Type(t: string)
      requires open
      modifies this
      ensures text == t && open == old(open)
    {
      text := t;
    }

    /** `handleSubmitReply`/`handleSubmitComment`: blank text changes
      nothing; otherwise report the trimmed text, clear it and close. */
    method Submit() returns (sent: Option<Submission>)
      requires open
      modifies this
      ensures sent == SubmitOutcome(target, old(text))
      ensures sent.None? ==> text == old(text) && open == old(open)
      ensures sent.Some? ==> text == "" && !open
    {
      var trimmed := Text.Trim(text);
      if trimmed == [] {
        return None;
      }
      sent := Some(Submission(target, trimmed));
      text := "";
      open := false;
    }

    /** `handleKeyDown`: Enter without Shift submits; any other key does
      nothing. */
    method KeyDown(key: string, shiftKey: bool) returns (sent: Option<Submission>)
      requires open
      modifies this
      ensures SubmitsOnKey(key, shiftKey) ==> sent == SubmitOutcome(target, old(text))
      ensures !SubmitsOnKey(key, shiftKey) ==> sent.None?
      ensures sent.None? ==> text == old(text) && open == old(open)
      ensures sent.Some? ==> text == "" && !open
    {
      if key == "Enter" && !shiftKey {
        sent := Submit();
      } else {
        sent := None;
      }
    }
  }

  /** A submission never carries blank text, and resubmitting its own
      content would send the same content again. */
  lemma SubmittedTextIsTrimmed(parentId: string, text: string)
    requires SubmitOutcome(parentId, text).Some?
    ensures SubmitOutcome(parentId, SubmitOutcome(parentId, text).value.content) == SubmitOutcome(parentId, text)
  {
    Text.TrimIdempotent(text);
  }
}
