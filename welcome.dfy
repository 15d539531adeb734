/** The welcome page, app/welcome/page.tsx: choosing a nickname and an
    avatar, then creating the profile. The outcome of the database call is
    a parameter. */
module Welcome {
  import opened Common
  import Text

  /** The message shown when the profile could not be created. */
  const FailureMessage: string := "Failed to create profile. Please try again."

  /** The arguments of `createProfile`. */
  datatype ProfileDraft = ProfileDraft(nickname: string, avatar: string)

  /** `canContinue`: a nickname that is not blank and a chosen avatar. */
  function CanContinue(nickname: string, avatar: string): (ok: bool)
    ensures ok <==> !Text.IsBlank(nickname) && avatar != ""
  {
    |Text.Trim(nickname)| > 0 && |avatar| > 0
  }

  class WelcomeState {
    var nickname: string
    var avatar: string
    var loading: bool
    var error: string

    constructor()
      ensures nickname == "" && avatar == "" && !loading && error == ""
    {
      nickname := "";
      avatar := "";
      loading := false;
      error := "";
    }

    method SetNickname(t: string)
      modifies this
      ensures nickname == t && avatar == old(avatar) && loading == old(loading) && error == old(error)
    {
      nickname := t;
    }

    /** The avatar picker's `onSelect`. */
    method SetAvatar(a: string)
      modifies this
      ensures avatar == a && nickname == old(nickname) && loading == old(loading) && error == old(error)
    {
      avatar := a;
    }

    /** The Continue button is disabled exactly when `handleContinue` would
        do nothing. */
    predicate ContinueDisabled(): (disabled: bool)
      reads this
      ensures disabled <==> Text.IsBlank(nickname) || avatar == ""
    {
      !CanContinue(nickname, avatar)
    }

    /** `handleContinue`, given whether `createProfile` succeeded. Without
        `canContinue` nothing happens. Otherwise the trimmed nickname and
        the avatar are sent; success clears the error and goes to the feed,
        failure sets the fixed message; loading is off at the end either
        way. */
    method Continue(created: bool) returns (request: Option<ProfileDraft>, toFeed: bool)
      modifies this`loading, this`error
      ensures request.None? <==> !CanContinue(old(nickname), old(avatar))
      ensures request.None? ==> !toFeed && loading == old(loading) && error == old(error)
      ensures request.Some? ==> request.value == ProfileDraft(Text.Trim(old(nickname)), old(avatar))
      ensures request.Some? ==> !loading && toFeed == created
      ensures request.Some? ==> error == if created then "" else FailureMessage
      ensures nickname == old(nickname) && avatar == old(avatar)
    {
      var n, a := nickname, avatar;
      if !CanContinue(n, a) {
        return None, false;
      }
      // `loading` is raised for the duration of the call and lowered in
      // `finally`; as one atomic step only its final value is visible.
      request := Some(ProfileDraft(Text.Trim(n), a));
      toFeed := created;
      error := if created then "" else FailureMessage;
      loading := false;
    }
  }

  /** A request never carries a blank nickname or an empty avatar. */
  lemma DraftIsComplete(nickname: string, avatar: string)
    requires CanContinue(nickname, avatar)
    ensures CanContinue(Text.Trim(nickname), avatar)
  {
    Text.TrimIdempotent(nickname);
  }
}
