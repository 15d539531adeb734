/** The profile card, components/profile/ProfileCard.tsx: view and edit
    modes over a nickname and an emoji. */
module ProfileCard {
  import opened Common
  import Text

  /** The emoji used when none is passed. */
  const DefaultEmoji: string := "\U{1F464}"

  /** What `onSave` receives. */
  datatype SavedProfile = SavedProfile(nickname: string, avatarEmoji: string)

  /** The Save guard: a blank nickname is not saved. */
  function SaveOutcome(nickname: string, emoji: string): (r: Option<SavedProfile>)
    ensures r.None? <==> Text.IsBlank(nickname)
    ensures r.Some? ==> r.value.nickname == Text.Trim(nickname) && r.value.avatarEmoji == emoji
  {
    if Text.Trim(nickname) == [] then None else Some(SavedProfile(Text.Trim(nickname), emoji))
  }

  class ProfileCardState {
    var editing: bool
    var nickname: string
    var emoji: string

    /** The card starts in view mode with the given nickname, and the given
        emoji or the placeholder when none is passed. */
    constructor(initialNickname: string, initialEmoji: Option<string>)
      ensures !editing && nickname == initialNickname
      ensures emoji == if initialEmoji.Some? then initialEmoji.value else DefaultEmoji
    {
      editing := false;
      nickname := initialNickname;
      emoji := initialEmoji.GetOr(DefaultEmoji);
    }

    /** The edit button. */
    method Edit()
      modifies this
      ensures editing && nickname == old(nickname) && emoji == old(emoji)
    {
      editing := true;
    }

    /** Cancel leaves edit mode and keeps the edited nickname and emoji. */
    method Cancel()
      modifies this
      ensures !editing && nickname == old(nickname) && emoji == old(emoji)
    {
      editing := false;
    }

    method SetNickname(t: string)
      modifies this
      ensures nickname == t && editing == old(editing) && emoji == old(emoji)
    {
      nickname := t;
    }

    /** The avatar picker's `onSelect`. */
    method SetEmoji(e: string)
      modifies this
      ensures emoji == e && editing == old(editing) && nickname == old(nickname)
    {
      emoji := e;
    }

    /** The Save button is disabled exactly when saving would do nothing. */
    predicate SaveDisabled(): (disabled: bool)
      reads this
      ensures disabled <==> SaveOutcome(nickname, emoji).None?
    {
      Text.IsBlank(nickname)
    }

    /** `handleSave`: a blank nickname changes nothing; otherwise the
        trimmed nickname and the emoji are reported and the card leaves
        edit mode. The nickname as typed is what the card goes on
        showing. */
    method Save() returns (sent: Option<SavedProfile>)
      modifies this
      ensures sent == SaveOutcome(old(nickname), old(emoji))
      ensures sent.None? ==> editing == old(editing)
      ensures sent.Some? ==> !editing
      ensures nickname == old(nickname) && emoji == old(emoji)
    {
      if Text.Trim(nickname) == [] {
        return None;
      }
      sent := Some(SavedProfile(Text.Trim(nickname), emoji));
      editing := false;
    }
  }

  /** A nickname typed with a leading space is saved without it. */
  lemma SavedNicknameTrimmed()
    ensures SaveOutcome(" Ann", DefaultEmoji) == Some(SavedProfile("Ann", DefaultEmoji))
  {
    var s := " Ann";
    assert !Text.IsSpace(s[3]) && !Text.IsSpace(s[1]);
    assert |Text.TrimEnd(s)| == 4;
    Text.TrimSplit(s);
    var r := Text.Trim(s);
    assert r == Text.TrimStart(Text.TrimEnd(s));
    assert |r| == 3;
    assert r == s[1..4] == "Ann";
  }

  /** A card opened with " Ann", edited and saved: it reports "Ann", leaves
      edit mode and goes on showing " Ann". */
  method ShownNicknameNotTrimmed() returns (sent: Option<SavedProfile>, shown: string, editing: bool)
    ensures sent == Some(SavedProfile("Ann", DefaultEmoji))
    ensures shown == " Ann" && !editing
  {
    var card := new ProfileCardState(" Ann", None);
    card.Edit();
    sent := card.Save();
    SavedNicknameTrimmed();
    shown, editing := card.nickname, card.editing;
  }
}
