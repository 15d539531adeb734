/** The new-post dialog, components/ui/CreatePost.tsx: the dialog's
    open flag and its two fields, with the publish guard. */
module CreatePost {
  import opened Common
  import Text

  /** What `onPublish` receives. */
  datatype Publication = Publication(content: string, hashtag: string)

  /** `canPublish`: both trimmed fields non-empty, that is neither field is
      blank. */
  function CanPublish(content: string, hashtag: string): (ok: bool)
    ensures ok <==> !Text.IsBlank(content) && !Text.IsBlank(hashtag)
  {
    |Text.Trim(content)| > 0 && |Text.Trim(hashtag)| > 0
  }

  class CreatePostState {
    var open: bool
    var content: string
    var hashtag: string

    constructor()
      ensures !open && content == "" && hashtag == ""
    {
      open := false;
      content := "";
      hashtag := "";
    }

    /** The "New Post" button. */
    method OpenDialog()
      modifies this
      ensures open && content == old(content) && hashtag == old(hashtag)
    {
      open := true;
    }

    /** The dialog's `onClose`: only `open` changes; typed text stays. */
    method Close()
      modifies this
      ensures !open && content == old(content) && hashtag == old(hashtag)
    {
      open := false;
    }

    method SetContent(t: string)
      modifies this
      ensures content == t && open == old(open) && hashtag == old(hashtag)
    {
      content := t;
    }

    method SetHashtag(t: string)
      modifies this
      ensures hashtag == t && open == old(open) && content == old(content)
    {
      hashtag := t;
    }

    /** The Publish button is disabled exactly when publishing would do
        nothing. */
    predicate PublishDisabled(): (disabled: bool)
      reads this
      ensures disabled <==> PublishOutcome(content, hashtag).None?
      ensures disabled <==> Text.IsBlank(content) || Text.IsBlank(hashtag)
    {
      !CanPublish(content, hashtag)
    }

    /** `handlePublish`: nothing when `canPublish` is false; otherwise the
        trimmed fields are sent, both fields are emptied and the dialog
        closes. */
    method Publish() returns (sent: Option<Publication>)
      modifies this`open, this`content, this`hashtag
      ensures sent == PublishOutcome(old(content), old(hashtag))
      ensures sent.None? ==> open == old(open) && content == old(content) && hashtag == old(hashtag)
      ensures sent.Some? ==> !open && content == "" && hashtag == ""
    {
      sent := PublishOutcome(content, hashtag);
      if sent.Some? {
        content := "";
        hashtag := "";
        open := false;
      }
    }
  }

  /** What `handlePublish` hands to `onPublish`: nothing unless
      `canPublish`, otherwise both fields trimmed. */
  function PublishOutcome(content: string, hashtag: string): (p: Option<Publication>)
    ensures p.None? <==> !CanPublish(content, hashtag)
    ensures p.Some? ==> p.value.content == Text.Trim(content) && p.value.hashtag == Text.Trim(hashtag)
  {
    if CanPublish(content, hashtag) then Some(Publication(Text.Trim(content), Text.Trim(hashtag))) else None
  }

  /** A publication never carries a blank field, and its fields are already
      trimmed: they would be published again as they are. */
  lemma PublicationIsClean(content: string, hashtag: string)
    requires CanPublish(content, hashtag)
    ensures CanPublish(Text.Trim(content), Text.Trim(hashtag))
    ensures Text.Trim(Text.Trim(content)) == Text.Trim(content)
    ensures Text.Trim(Text.Trim(hashtag)) == Text.Trim(hashtag)
  {
    Text.TrimIdempotent(content);
    Text.TrimIdempotent(hashtag);
  }
}
