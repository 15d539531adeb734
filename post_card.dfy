/** The post card, components/feed/PostCard.tsx: the content snippet and
    the id its action buttons report. */
module PostCard {
  import opened Common
  import Text

  /** Content longer than this is cut. */
  const SnippetLimit: nat := 150

  /** `content.length > 150 ? content.slice(0, 150).trimEnd() + "..." : content`.
      Short content is shown as it is. Longer content is cut to its first
      150 characters, with only whitespace dropped after what is kept;
      what is kept does not end in whitespace, and "..." follows it. */
  function Snippet(content: string): (s: string)
    ensures |content| <= SnippetLimit ==> s == content
    ensures |content| > SnippetLimit ==>
      3 <= |s| <= SnippetLimit + 3 && s[|s| - 3..] == "..." &&
      s[..|s| - 3] == content[..|s| - 3] &&
      (|s| == 3 || !Text.IsSpace(s[|s| - 4])) &&
      (forall i :: |s| - 3 <= i < SnippetLimit ==> Text.IsSpace(content[i]))
  {
    if |content| > SnippetLimit then
      var kept := Text.TrimEnd(content[..SnippetLimit]);
      assert (kept + "...")[..|kept|] == kept;
      kept + "..."
    else content
  }

  /** The three buttons of the action bar. */
  datatype Button = LikeButton | CommentsButton | HelpfulButton

  /** What a click on a button reports: the like and helpful buttons report
      the card's own id; the comments button reports nothing. */
  function Report(id: string, button: Button): (r: Option<string>)
    ensures r.Some? <==> button != CommentsButton
    ensures r.Some? ==> r.value == id
  {
    match button
    case LikeButton => Some(id)
    case HelpfulButton => Some(id)
    case CommentsButton => None
  }

  /** The hashtag row is shown only for a present, non-empty list. */
  predicate ShowsHashtags(hashtags: Option<seq<string>>) {
    hashtags.Some? && hashtags.value != []
  }
}
