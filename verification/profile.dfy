/**
 * Confirming the categories a user follows, from their profile settings.
 */
module Profile {
  import opened Common

  /** The user's settings conversation: whether it is waiting for category
      choices, and the ids picked so far. */
  datatype ProfileSession = ProfileSession(waitingForCategories: bool, selected: seq<int>)

  const ProfileCleared := ProfileSession(false, [])

  /** The confirm button. Returns the next session and the category ids saved
      to the user's profile, if any. With nothing picked it refuses and
      changes nothing; outside the category step it is not handled. */
  function ConfirmCategories(s: ProfileSession): (r: (ProfileSession, Option<seq<int>>))
    ensures r.1.Some? <==> s.waitingForCategories && |s.selected| > 0
    ensures r.1.Some? ==> r.1.value == s.selected && r.0 == ProfileCleared
    ensures r.1.None? ==> r.0 == s
  {
    if !s.waitingForCategories || |s.selected| == 0 then (s, None)
    else (ProfileCleared, Some(s.selected))
  }

  /** Confirming is one-shot: once the ids are saved the settings
      conversation is over, so a second press saves nothing and changes
      nothing. A refused press can be repeated with the same result. */
  lemma ConfirmOnce(s: ProfileSession)
    ensures var (s1, saved) := ConfirmCategories(s);
            saved.Some? ==> ConfirmCategories(s1) == (s1, None)
    ensures var (s1, saved) := ConfirmCategories(s);
            saved.None? ==> ConfirmCategories(s1) == (s1, None)
  {
  }
}
