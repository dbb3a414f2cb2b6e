/**
 * The post-creation wizard: a per-user conversation that collects the
 * target cities, categories, title, content, link, event time, address and
 * image of a new event post, one step at a time, and finally hands a
 * complete post to the store and to moderation.
 *
 * A session is the FSM state plus the data dictionary the chat framework
 * keeps for the user. Every incoming event is one pure transition
 * `Step(session, event, now) = (session', outcome)`; "now" is the current
 * local wall-clock time as a minute count (see DateTime.ToMinutes).
 */
module Wizard {
  import opened Common
  import opened Text
  import opened Selection
  import opened DateTime
  import Screening

  /* ---------------------------------------------------------------------
   * Configuration
   * ------------------------------------------------------------------- */

  const MaxTitle := 100
  const MaxContent := 2000
  const MaxAddress := 200
  /** An event must start strictly more than this many minutes from now. */
  const MinLeadMinutes := 30
  /** The cities offered by "select all". */
  const AllCities: seq<string> := ["Москва", "Санкт-Петербург"]
  const SkipCommand := "/skip"
  /** Commands of the user settings handlers, which are registered before
      the wizard's and match in any state: these four answer without
      touching the session ... */
  const AnsweredCommands: seq<string> := ["/delete_user", "/liked_posts", "/my_posts", "/help"]
  /** ... and these two move the user into the profile settings flow. */
  const LeavingCommands: seq<string> := ["/change_university", "/change_category"]
  /** The prefix of the post deletion command. */
  const DeletePostPrefix := "/delete_post "

  /* ---------------------------------------------------------------------
   * Sessions, events, outcomes
   * ------------------------------------------------------------------- */

  datatype WizardState =
    | Idle                 // no creation in progress
    | SelectingCity
    | SelectingCategories
    | AwaitingTitle
    | AwaitingContent
    | AwaitingUrl
    | AwaitingEventTime
    | AwaitingAddress
    | AwaitingImage

  /** The data dictionary; absent keys are `None` (or the empty list for the
      two selections, which the handlers read with a `[]` default). */
  datatype Draft = Draft(
    selectedCities: seq<string>,
    categoryIds: seq<int>,
    postCity: Option<string>,
    title: Option<string>,
    content: Option<string>,
    url: Option<string>,
    eventAt: Option<Civil>,
    address: Option<string>,
    imageId: Option<string>)

  const EmptyDraft := Draft([], [], None, None, None, None, None, None, None)

  datatype Session = Session(state: WizardState, data: Draft)

  /** What `state.clear()` leaves behind. */
  const Cleared := Session(Idle, EmptyDraft)

  /** Incoming events, already decoded from the chat message or button. */
  datatype Event =
    | Start                     // the create button; typed "/create_post" decodes to it
    | Cancel                    // the cancel button; typed "/cancel" decodes to it
    | Answer                    // typed text one of the AnsweredCommands
    | Leave                     // typed text one of the LeavingCommands
    | ToggleCity(city: string)
    | SelectAllCities
    | ConfirmCities
    | ToggleCategory(id: int)
    | ConfirmCategories
    | SkipImageButton
    | Text(text: string)        // a plain text message
    | Photo(blobId: string)     // a photo message; the reference the blob store returned for it

  /** Why a step refused its input; the session is left as it was. */
  datatype Rejection =
    | NoCitySelected
    | NoCategorySelected
    | TitleTooLong
    | ContentTooLong
    | BadUrlScheme
    | BadDateFormat
    | TooSoon(now: int, earliest: int)    // both times are reported back
    | AddressTooLong
    | NotAnImage
    | NotText                             // a non-text message where text is read

  /** The post handed to the store at commit. */
  datatype NewPost = NewPost(
    title: string,
    content: string,
    categoryIds: seq<int>,
    city: string,
    imageId: Option<string>,
    eventAt: Option<Civil>,
    url: Option<string>,
    address: Option<string>)

  datatype Outcome =
    | Advanced                 // moved on to the next step
    | Updated                  // selection changed, same step
    | Rejected(why: Rejection)
    | Ignored                  // no handler for this event in this state
    | Cancelled
    | Incomplete               // the defensive re-check failed at commit
    | Submitted(post: NewPost)  // created and handed to moderation
    | Answered                 // another handler took the event; the session is kept
    | Diverted                 // the user left for the profile settings; the data is kept
    | Crashed                  // the handler raised; the session is kept

  /* ---------------------------------------------------------------------
   * The step order
   * ------------------------------------------------------------------- */

  function Rank(s: WizardState): nat
  {
    match s
    case Idle => 0
    case SelectingCity => 1
    case SelectingCategories => 2
    case AwaitingTitle => 3
    case AwaitingContent => 4
    case AwaitingUrl => 5
    case AwaitingEventTime => 6
    case AwaitingAddress => 7
    case AwaitingImage => 8
  }

  /* ---------------------------------------------------------------------
   * Individual steps
   * ------------------------------------------------------------------- */

  /** A link is acceptable when it is absent, blank, or has an explicit
      http or https scheme. */
  predicate UrlAcceptable(url: Option<string>)
  {
    url.None? || url.value == "" || StartsWith(url.value, "http://") || StartsWith(url.value, "https://")
  }

  /** The shape every step handler keeps: a refusal or an event without a
      handler leaves the session as it was, an update stays in the step, an
      advance moves one step on, a commit clears the session, and no step
      handler cancels. */
  predicate Follows(from: WizardState, d: Draft, r: (Session, Outcome))
  {
    && (r.1.Rejected? || r.1.Ignored? || r.1.Answered? ==> r.0 == Session(from, d))
    && (r.1.Updated? ==> r.0.state == from)
    && (r.1.Advanced? ==> Rank(r.0.state) == Rank(from) + 1)
    && (r.1.Submitted? || r.1.Incomplete? ==> r.0 == Cleared)
    && !r.1.Cancelled? && !r.1.Diverted? && !r.1.Crashed?
  }

  function StepCity(d: Draft, e: Event): (r: (Session, Outcome))
    ensures Follows(SelectingCity, d, r)
    ensures !r.1.Submitted? && !r.1.Incomplete? && !r.1.Answered?
    ensures r.1.Advanced? ==> r.0.data.postCity == Some(Join(d.selectedCities, ", ")) && |d.selectedCities| > 0
  {
    match e
    case ToggleCity(c) =>
      (Session(SelectingCity, d.(selectedCities := Toggle(d.selectedCities, c))), Updated)
    case SelectAllCities =>
      (Session(SelectingCity, d.(selectedCities := AllCities)), Updated)
    case ConfirmCities =>
      if |d.selectedCities| == 0 then (Session(SelectingCity, d), Rejected(NoCitySelected))
      else (Session(SelectingCategories, d.(postCity := Some(Join(d.selectedCities, ", ")))), Advanced)
    case _ => (Session(SelectingCity, d), Ignored)
  }

  function StepCategories(d: Draft, e: Event): (r: (Session, Outcome))
    ensures Follows(SelectingCategories, d, r)
    ensures !r.1.Submitted? && !r.1.Incomplete? && !r.1.Answered?
    ensures r.1.Advanced? ==> r.0.data == d && |d.categoryIds| > 0
  {
    match e
    case ToggleCategory(id) =>
      (Session(SelectingCategories, d.(categoryIds := Toggle(d.categoryIds, id))), Updated)
    case ConfirmCategories =>
      if |d.categoryIds| == 0 then (Session(SelectingCategories, d), Rejected(NoCategorySelected))
      else (Session(AwaitingTitle, d), Advanced)
    case _ => (Session(SelectingCategories, d), Ignored)
  }

  function StepTitle(d: Draft, t: string): (r: (Session, Outcome))
    ensures Follows(AwaitingTitle, d, r)
    ensures r.1.Advanced? <==> |t| <= MaxTitle
    ensures r.1.Advanced? || r.1 == Rejected(TitleTooLong)
  {
    if |t| > MaxTitle then (Session(AwaitingTitle, d), Rejected(TitleTooLong))
    else (Session(AwaitingContent, d.(title := Some(t))), Advanced)
  }

  function StepContent(d: Draft, t: string): (r: (Session, Outcome))
    ensures Follows(AwaitingContent, d, r)
    ensures r.1.Advanced? <==> |t| <= MaxContent
    ensures r.1.Advanced? || r.1 == Rejected(ContentTooLong)
  {
    if |t| > MaxContent then (Session(AwaitingContent, d), Rejected(ContentTooLong))
    else (Session(AwaitingUrl, d.(content := Some(t))), Advanced)
  }

  function StepUrl(d: Draft, t: string): (r: (Session, Outcome))
    ensures Follows(AwaitingUrl, d, r)
    ensures r.1.Advanced? ==> UrlAcceptable(r.0.data.url)
    ensures r.1.Advanced? || r.1 == Rejected(BadUrlScheme)
  {
    var url := if t == SkipCommand then None else Some(Strip(t));
    if !UrlAcceptable(url) then (Session(AwaitingUrl, d), Rejected(BadUrlScheme))
    else (Session(AwaitingEventTime, d.(url := url)), Advanced)
  }

  function StepEventTime(d: Draft, t: string, now: int): (r: (Session, Outcome))
    ensures Follows(AwaitingEventTime, d, r)
    ensures r.1.Advanced? || r.1.Rejected?
  {
    var parsed := ParseEventTime(Strip(t));
    if parsed.None? then (Session(AwaitingEventTime, d), Rejected(BadDateFormat))
    else if ToMinutes(parsed.value) <= now + MinLeadMinutes then
      (Session(AwaitingEventTime, d), Rejected(TooSoon(now, now + MinLeadMinutes)))
    else (Session(AwaitingAddress, d.(eventAt := parsed)), Advanced)
  }

  function StepAddress(d: Draft, t: string): (r: (Session, Outcome))
    ensures Follows(AwaitingAddress, d, r)
    ensures r.1.Advanced? ==> r.0.data.address.Some? && |r.0.data.address.value| <= MaxAddress
    ensures r.1.Advanced? || r.1 == Rejected(AddressTooLong)
  {
    var address := Strip(t);
    if |address| > MaxAddress then (Session(AwaitingAddress, d), Rejected(AddressTooLong))
    else (Session(AwaitingImage, d.(address := Some(address))), Advanced)
  }

  /** The final action: re-check the required fields, then build the post and
      screen it for moderation. Every exit clears the session. */
  function Commit(d: Draft): (r: (Session, Outcome))
    ensures r.0 == Cleared
    ensures r.1.Submitted? || r.1.Incomplete?
    ensures r.1.Submitted? <==> Truthy(d.title) && Truthy(d.content) && |d.categoryIds| > 0 && Truthy(d.postCity)
    ensures r.1.Submitted? ==>
              && r.1.post.title == d.title.value && r.1.post.content == d.content.value
              && r.1.post.categoryIds == d.categoryIds && r.1.post.city == d.postCity.value
              && r.1.post.imageId == d.imageId && r.1.post.eventAt == d.eventAt
              && r.1.post.url == d.url && r.1.post.address == d.address
  {
    if !(Truthy(d.title) && Truthy(d.content) && |d.categoryIds| > 0 && Truthy(d.postCity)) then
      (Cleared, Incomplete)
    else
      var post := NewPost(d.title.value, d.content.value, d.categoryIds, d.postCity.value,
                          d.imageId, d.eventAt, d.url, d.address);
      (Cleared, Submitted(post))
  }

  /** The arguments the commit hands to the store as written: the stored
      event time is re-read with a name that is never imported, the error is
      swallowed, and the post goes out without an event time. */
  function PostAsBuilt(d: Draft): (p: NewPost)
    requires Truthy(d.title) && Truthy(d.content) && Truthy(d.postCity)
    ensures p.eventAt.None?
    ensures p.title == d.title.value && p.content == d.content.value && p.categoryIds == d.categoryIds
  {
    NewPost(d.title.value, d.content.value, d.categoryIds, d.postCity.value, d.imageId, None, d.url, d.address)
  }

  /** The commit as written: the completeness re-check still clears the
      session, but a complete draft reaches a call on a repository name that
      is never imported, so the handler raises before the post is created and
      before the session is cleared. */
  function CommitAsWritten(d: Draft): (r: (Session, Outcome))
    ensures r.1.Incomplete? || r.1.Crashed?
    ensures r.1.Crashed? <==> Commit(d).1.Submitted?
    ensures r.1.Crashed? ==> r.0 == Session(AwaitingImage, d)
    ensures r.1.Incomplete? ==> r == Commit(d)
  {
    if !(Truthy(d.title) && Truthy(d.content) && |d.categoryIds| > 0 && Truthy(d.postCity)) then
      (Cleared, Incomplete)
    else (Session(AwaitingImage, d), Crashed)
  }

  /** As written no draft is ever submitted, and a complete one is never
      cleared: the user stays in the image step with everything entered. */
  lemma CommitAsWrittenNeverSubmits(d: Draft)
    requires Truthy(d.title) && Truthy(d.content) && |d.categoryIds| > 0 && Truthy(d.postCity)
    ensures CommitAsWritten(d) == (Session(AwaitingImage, d), Crashed)
    ensures Commit(d).1.Submitted? && Commit(d).0 == Cleared
  {
  }

  /** Even with the store call repaired, a post built as written loses the
      event time the wizard checked. */
  lemma EventTimeLostAsWritten(d: Draft)
    requires Truthy(d.title) && Truthy(d.content) && |d.categoryIds| > 0 && Truthy(d.postCity)
    requires d.eventAt.Some?
    ensures PostAsBuilt(d).eventAt != Commit(d).1.post.eventAt
  {
  }

  /** The banner moderators see for a created post: it is flagged exactly
      when its title, content or link trips the screening gate. */
  function ModerationVerdict(p: NewPost): (r: (bool, string))
    ensures r.0 <==> Screening.ContainsBannedWords(Screening.ScreenedText(p.title, p.content, p.url))
                     || Screening.ContainsSpamLinks(Screening.ScreenedText(p.title, p.content, p.url))
    ensures r.0 <==> r.1 != ""
  {
    Screening.IsSuspiciousPost(p.title, p.content, p.url)
  }

  function StepImage(d: Draft, e: Event): (r: (Session, Outcome))
    ensures Follows(AwaitingImage, d, r)
    ensures !r.1.Updated? && !r.1.Advanced?
  {
    match e
    case Text(t) =>
      // the deletion command is registered ahead of the image handler
      if StartsWith(t, DeletePostPrefix) then (Session(AwaitingImage, d), Answered)
      else if t == SkipCommand then Commit(d) else (Session(AwaitingImage, d), Rejected(NotAnImage))
    case Photo(b) => Commit(d.(imageId := Some(b)))
    case SkipImageButton => Commit(d)
    case _ => (Session(AwaitingImage, d), Ignored)
  }

  /** Typed commands are caught before any step handler sees the text:
      "/cancel" and "/create_post" by the wizard's own command handlers, the
      settings commands by the handlers registered ahead of the wizard. */
  function Decode(e: Event): Event
  {
    match e
    case Text(t) =>
      if t == "/cancel" then Cancel
      else if t == "/create_post" then Start
      else if t in AnsweredCommands then Answer
      else if t in LeavingCommands then Leave
      else e
    case _ => e
  }

  /** Hand text to the step that reads it. */
  function ReadText(s: Session, t: string, now: int): (r: (Session, Outcome))
    requires 3 <= Rank(s.state) <= 7
    ensures Follows(s.state, s.data, r)
    ensures r.1.Advanced? || r.1.Rejected?
  {
    match s.state
    case AwaitingTitle => StepTitle(s.data, t)
    case AwaitingContent => StepContent(s.data, t)
    case AwaitingUrl => StepUrl(s.data, t)
    case AwaitingEventTime => StepEventTime(s.data, t, now)
    case AwaitingAddress => StepAddress(s.data, t)
  }

  /** The answer of a step that reads text to an event without text: a photo
      is refused, anything else has no handler here. */
  function NoText(s: Session, e: Event): (r: (Session, Outcome))
    ensures r.0 == s && (r.1.Rejected? || r.1.Ignored?)
  {
    if e.Photo? then (s, Rejected(NotText)) else (s, Ignored)
  }

  /** Route an event that is not a command to the handler of the current
      step; in the idle state nothing handles it. */
  function Dispatch(s: Session, e: Event, now: int): (r: (Session, Outcome))
    ensures Follows(s.state, s.data, r)
    ensures r.1.Updated? ==> s.state == SelectingCity || s.state == SelectingCategories
    ensures r.1.Submitted? || r.1.Incomplete? ==> s.state == AwaitingImage
    ensures s.state == Idle ==> r == (s, Ignored)
  {
    match s.state
    case Idle => (s, Ignored)
    case SelectingCity => StepCity(s.data, e)
    case SelectingCategories => StepCategories(s.data, e)
    case AwaitingImage => StepImage(s.data, e)
    case AwaitingTitle | AwaitingContent | AwaitingUrl | AwaitingEventTime | AwaitingAddress =>
      if e.Text? then ReadText(s, e.text, now) else NoText(s, e)
  }

  /** One event delivered to the user's session. Cancel works from every
      state; a refused or unhandled event leaves the session untouched; an
      advance moves exactly one step along the fixed order; a commit only
      happens from the image step, only with every required field present,
      and always clears the session. */
  function Step(s: Session, e: Event, now: int): (r: (Session, Outcome))
    ensures Decode(e) == Cancel ==> r == (Cleared, Cancelled)
    ensures Decode(e) == Start ==> r == (Session(SelectingCity, s.data), Advanced)
    ensures Decode(e) == Leave ==> r == (Session(Idle, s.data), Diverted)
    ensures r.1.Rejected? || r.1.Ignored? || r.1.Answered? ==> r.0 == s
    ensures r.1.Answered? ==> Decode(e) == Answer || (s.state == AwaitingImage && e.Text? && StartsWith(e.text, DeletePostPrefix))
    ensures !r.1.Crashed?
    ensures r.1.Updated? ==>
              r.0.state == s.state && (s.state == SelectingCity || s.state == SelectingCategories)
    ensures r.1.Advanced? && Decode(e) != Start ==> Rank(r.0.state) == Rank(s.state) + 1
    ensures r.1.Submitted? || r.1.Incomplete? ==> r.0 == Cleared && s.state == AwaitingImage
    ensures r.1.Submitted? ==>
              && Truthy(s.data.title) && Truthy(s.data.content)
              && |s.data.categoryIds| > 0 && Truthy(s.data.postCity)
              && r.1.post.categoryIds == s.data.categoryIds
              && r.1.post.title == s.data.title.value && r.1.post.content == s.data.content.value
  {
    var d := s.data;
    match Decode(e)
    case Cancel => (Cleared, Cancelled)
    case Start => (Session(SelectingCity, d), Advanced)    // the data is kept, not cleared
    case Answer => (s, Answered)
    case Leave => (Session(Idle, d), Diverted)             // the profile flow takes over the state
    case e' => Dispatch(s, e', now)
  }

  /* ---------------------------------------------------------------------
   * Properties of single steps
   * ------------------------------------------------------------------- */

  /** Text that no command handler intercepts. */
  predicate Plain(t: string)
  {
    t != "/cancel" && t != "/create_post" && t !in AnsweredCommands && t !in LeavingCommands
  }

  /** In every state, including each step that reads text, the settings
      commands are never taken as input: four leave the session as it was,
      two leave the wizard keeping the data. */
  lemma CommandsPreempt(s: Session, t: string, now: int)
    ensures t in AnsweredCommands ==> Step(s, Text(t), now) == (s, Answered)
    ensures t in LeavingCommands ==> Step(s, Text(t), now) == (Session(Idle, s.data), Diverted)
    ensures Step(s, Text("/help"), now) == (s, Answered)
  {
  }

  /** Plain text in a step that reads text goes to that step's handler. */
  lemma TextReachesStep(s: Session, t: string, now: int)
    requires Plain(t)
    requires 3 <= Rank(s.state) <= 7
    ensures Step(s, Text(t), now) == ReadText(s, t, now)
  {
  }

  /** Confirming cities advances exactly when at least one is selected, and
      then stores them joined by ", " as the post's city. */
  lemma ConfirmCitiesIff(d: Draft, now: int)
    ensures var r := Step(Session(SelectingCity, d), ConfirmCities, now);
            if |d.selectedCities| == 0 then r == (Session(SelectingCity, d), Rejected(NoCitySelected))
            else r.1 == Advanced && r.0.state == SelectingCategories
                 && r.0.data == d.(postCity := Some(Join(d.selectedCities, ", ")))
  {
  }

  /** "Select all" selects exactly the two known cities, whatever was
      selected before, and confirming then stores both. */
  lemma SelectAllThenConfirm(d: Draft, now: int)
    ensures var s1 := Step(Session(SelectingCity, d), SelectAllCities, now).0;
            var s2 := Step(s1, ConfirmCities, now).0;
            && s1.data.selectedCities == AllCities
            && s2.state == SelectingCategories
            && s2.data.postCity == Some("Москва, Санкт-Петербург")
  {
    var s1 := Step(Session(SelectingCity, d), SelectAllCities, now).0;
    assert s1 == Session(SelectingCity, d.(selectedCities := AllCities));
    assert AllCities[..1] == ["Москва"];
    assert Join(AllCities, ", ") == "Москва" + ", " + "Санкт-Петербург";
    assert "Москва" + ", " + "Санкт-Петербург" == "Москва, Санкт-Петербург";
    ConfirmCitiesIff(s1.data, now);
    var s2 := Step(s1, ConfirmCities, now).0;
    assert s2.state == SelectingCategories;
    assert s2.data.postCity == Some(Join(AllCities, ", "));
  }

  /** A toggle press flips one entry of the matching selection and stays in
      the step. */
  lemma ToggleSteps(d: Draft, c: string, id: int, now: int)
    ensures Step(Session(SelectingCity, d), ToggleCity(c), now)
            == (Session(SelectingCity, d.(selectedCities := Toggle(d.selectedCities, c))), Updated)
    ensures Step(Session(SelectingCategories, d), ToggleCategory(id), now)
            == (Session(SelectingCategories, d.(categoryIds := Toggle(d.categoryIds, id))), Updated)
  {
  }

  /** Pressing the same city twice restores the selection's contents; a
      selected city comes back at the end, so the list itself is restored
      exactly when the city was unselected or already last. */
  lemma CityToggleTwice(d: Draft, c: string, now: int)
    requires NoDup(d.selectedCities)
    ensures var s2 := Step(Step(Session(SelectingCity, d), ToggleCity(c), now).0, ToggleCity(c), now).0;
            && s2.state == SelectingCity
            && multiset(s2.data.selectedCities) == multiset(d.selectedCities)
            && (c in d.selectedCities ==> s2.data.selectedCities == RemoveFirst(d.selectedCities, c) + [c])
            && (s2.data == d <==> c !in d.selectedCities || d.selectedCities[|d.selectedCities| - 1] == c)
  {
    var d1 := d.(selectedCities := Toggle(d.selectedCities, c));
    ToggleSteps(d, c, 0, now);
    ToggleSteps(d1, c, 0, now);
    ToggleTwice(d.selectedCities, c);
  }

  /** The same for categories: the restore is exact when the category was
      unselected or already last, and otherwise it moves to the end. */
  lemma CategoryToggleTwice(d: Draft, id: int, now: int)
    requires NoDup(d.categoryIds)
    ensures var s2 := Step(Step(Session(SelectingCategories, d), ToggleCategory(id), now).0,
                           ToggleCategory(id), now).0;
            && s2.state == SelectingCategories
            && multiset(s2.data.categoryIds) == multiset(d.categoryIds)
            && (id in d.categoryIds ==> s2.data.categoryIds == RemoveFirst(d.categoryIds, id) + [id])
            && (s2.data == d <==> id !in d.categoryIds || d.categoryIds[|d.categoryIds| - 1] == id)
  {
    var d1 := d.(categoryIds := Toggle(d.categoryIds, id));
    ToggleSteps(d, "", id, now);
    ToggleSteps(d1, "", id, now);
    ToggleTwice(d.categoryIds, id);
  }

  /** Confirming categories advances exactly when at least one is selected,
      changing no data. */
  lemma ConfirmCategoriesIff(d: Draft, now: int)
    ensures Step(Session(SelectingCategories, d), ConfirmCategories, now)
            == if |d.categoryIds| == 0 then (Session(SelectingCategories, d), Rejected(NoCategorySelected))
               else (Session(AwaitingTitle, d), Advanced)
  {
  }

  /** A title is stored exactly when it has at most 100 code points; a longer
      one changes nothing. */
  lemma TitleLimit(d: Draft, t: string, now: int)
    requires Plain(t)
    ensures Step(Session(AwaitingTitle, d), Text(t), now)
            == if |t| <= 100 then (Session(AwaitingContent, d.(title := Some(t))), Advanced)
               else (Session(AwaitingTitle, d), Rejected(TitleTooLong))
  {
  }

  /** Content is stored exactly when it has at most 2000 code points. */
  lemma ContentLimit(d: Draft, t: string, now: int)
    requires Plain(t)
    ensures Step(Session(AwaitingContent, d), Text(t), now)
            == if |t| <= 2000 then (Session(AwaitingUrl, d.(content := Some(t))), Advanced)
               else (Session(AwaitingContent, d), Rejected(ContentTooLong))
  {
  }

  /** The address is stripped, then stored exactly when at most 200 code
      points remain. */
  lemma AddressLimit(d: Draft, t: string, now: int)
    requires Plain(t)
    ensures Step(Session(AwaitingAddress, d), Text(t), now)
            == if |Strip(t)| <= 200 then (Session(AwaitingImage, d.(address := Some(Strip(t)))), Advanced)
               else (Session(AwaitingAddress, d), Rejected(AddressTooLong))
  {
  }

  /** "/skip" clears the link; otherwise the stripped text is stored when it
      is blank or starts with http:// or https://, and refused otherwise. */
  lemma UrlRule(d: Draft, t: string, now: int)
    requires Plain(t)
    ensures var r := Step(Session(AwaitingUrl, d), Text(t), now);
            if t == "/skip" then r == (Session(AwaitingEventTime, d.(url := None)), Advanced)
            else if Strip(t) == "" || StartsWith(Strip(t), "http://") || StartsWith(Strip(t), "https://") then
              r == (Session(AwaitingEventTime, d.(url := Some(Strip(t)))), Advanced)
            else r == (Session(AwaitingUrl, d), Rejected(BadUrlScheme))
  {
  }

  /** No intercepted command reads as a date, stripped or not. */
  lemma DatesArePlain(t: string)
    ensures ParseEventTime(Strip(t)).Some? ==> Plain(t)
  {
    if !Plain(t) {
      StripNoSpace(t);
    }
  }

  /** Text that reads as a date-time once stripped is accepted exactly when
      that time lies strictly more than 30 minutes after now; otherwise both
      times are reported. */
  lemma EventTimeRule(d: Draft, t: string, c: Civil, now: int)
    requires ParseEventTime(Strip(t)) == Some(c)
    ensures var r := Step(Session(AwaitingEventTime, d), Text(t), now);
            if ToMinutes(c) > now + 30 then r == (Session(AwaitingAddress, d.(eventAt := Some(c))), Advanced)
            else r == (Session(AwaitingEventTime, d), Rejected(TooSoon(now, now + 30)))
  {
    DatesArePlain(t);
    TextReachesStep(Session(AwaitingEventTime, d), t, now);
  }

  /** The boundary is exclusive: exactly now + 30 minutes is refused, one
      minute later is accepted. */
  lemma EventTimeBoundary(d: Draft, c: Civil, sep: char)
    requires Valid(c) && (sep == ':' || sep == '.')
    ensures Step(Session(AwaitingEventTime, d), Text(Format(c, sep)), ToMinutes(c) - 30).1.Rejected?
    ensures Step(Session(AwaitingEventTime, d), Text(Format(c, sep)), ToMinutes(c) - 31).1.Advanced?
  {
    var t := Format(c, sep);
    StripNoSpace(t);
    ParseFormat(c, sep);
    EventTimeRule(d, t, c, ToMinutes(c) - 30);
    EventTimeRule(d, t, c, ToMinutes(c) - 31);
  }

  /** Text that is not a date in either format is refused. */
  lemma EventTimeMalformed(d: Draft, t: string, now: int)
    requires Plain(t) && ParseEventTime(Strip(t)).None?
    ensures Step(Session(AwaitingEventTime, d), Text(t), now) == (Session(AwaitingEventTime, d), Rejected(BadDateFormat))
  {
  }

  /** In the image step, a post deletion command is answered by its own
      handler, other text than "/skip" is refused; "/skip", the skip button
      and a photo all commit. */
  lemma ImageStep(d: Draft, t: string, b: string, now: int)
    requires Plain(t)
    ensures StartsWith(t, DeletePostPrefix) ==>
              Step(Session(AwaitingImage, d), Text(t), now) == (Session(AwaitingImage, d), Answered)
    ensures t != "/skip" && !StartsWith(t, DeletePostPrefix) ==> Step(Session(AwaitingImage, d), Text(t), now) == (Session(AwaitingImage, d), Rejected(NotAnImage))
    ensures Step(Session(AwaitingImage, d), Text("/skip"), now) == Commit(d)
    ensures Step(Session(AwaitingImage, d), SkipImageButton, now) == Commit(d)
    ensures Step(Session(AwaitingImage, d), Photo(b), now) == Commit(d.(imageId := Some(b)))
  {
  }

  /* ---------------------------------------------------------------------
   * The session invariant
   * ------------------------------------------------------------------- */

  /** What every session reachable from a cleared one satisfies: each step
      past the one that collects a field has that field, within its limits. */
  predicate Inv(s: Session)
  {
    var d := s.data;
    var k := Rank(s.state);
    && NoDup(d.selectedCities) && NoDup(d.categoryIds)
    && (k >= 2 ==> d.postCity.Some?)
    && (k >= 3 ==> |d.categoryIds| > 0)
    && (k >= 4 ==> d.title.Some? && |d.title.value| <= MaxTitle)
    && (k >= 5 ==> d.content.Some? && |d.content.value| <= MaxContent)
    && (k >= 6 ==> UrlAcceptable(d.url))
    && (k >= 7 ==> d.eventAt.Some? && Valid(d.eventAt.value))
    && (k >= 8 ==> d.address.Some? && |d.address.value| <= MaxAddress)
  }

  /** A post the data model allows: bounded text, a non-empty category set
      without repeats, a city, an acceptable link, a real event time and a
      bounded address. */
  predicate WellFormedPost(p: NewPost)
  {
    && 0 < |p.title| <= MaxTitle
    && 0 < |p.content| <= MaxContent
    && |p.categoryIds| > 0 && NoDup(p.categoryIds)
    && p.city != ""
    && UrlAcceptable(p.url)
    && p.eventAt.Some? && Valid(p.eventAt.value)
    && p.address.Some? && |p.address.value| <= MaxAddress
  }

  lemma InvCleared()
    ensures Inv(Cleared)
  {
  }

  lemma {:induction false} InvAllCities()
    ensures NoDup(AllCities)
  {
    assert AllCities[0] != AllCities[1] by {
      assert |AllCities[0]| != |AllCities[1]|;
    }
  }

  /** Every step keeps the invariant. */
  lemma StepKeepsInv(s: Session, e: Event, now: int)
    requires Inv(s)
    ensures Inv(Step(s, e, now).0)
  {
    var d := s.data;
    var e' := Decode(e);
    if e' != Cancel && e' != Start {
      if s.state == SelectingCity && e'.ToggleCity? {
        ToggleMembership(d.selectedCities, e'.city);
      } else if s.state == SelectingCity && e' == SelectAllCities {
        InvAllCities();
      } else if s.state == SelectingCategories && e'.ToggleCategory? {
        ToggleMembership(d.categoryIds, e'.id);
      }
    }
  }

  /** Under the invariant a committed post is well formed. */
  lemma SubmittedIsWellFormed(s: Session, e: Event, now: int)
    requires Inv(s)
    requires Step(s, e, now).1.Submitted?
    ensures WellFormedPost(Step(s, e, now).1.post)
  {
  }

  /** Under the invariant the re-check can only fail on an empty title,
      content or city text: the fields themselves are always present. */
  lemma IncompleteOnlyOnEmptyText(s: Session, e: Event, now: int)
    requires Inv(s) && s.state == AwaitingImage
    requires Step(s, e, now).1.Incomplete?
    ensures s.data.title == Some("") || s.data.content == Some("") || s.data.postCity == Some("")
  {
  }

  /* ---------------------------------------------------------------------
   * Whole conversations
   * ------------------------------------------------------------------- */

  /** Feed a sequence of (event, now) pairs; returns the final session and
      every outcome in order. */
  function Run(s: Session, events: seq<(Event, int)>): (r: (Session, seq<Outcome>))
    ensures |r.1| == |events|
    decreases |events|
  {
    if |events| == 0 then (s, [])
    else
      var (s1, o) := Step(s, events[0].0, events[0].1);
      var (s2, os) := Run(s1, events[1..]);
      (s2, [o] + os)
  }

  /** Every session reached from a cleared one satisfies the invariant, and
      every post it submits is well formed. */
  lemma {:induction false} RunKeepsInv(s: Session, events: seq<(Event, int)>)
    requires Inv(s)
    ensures Inv(Run(s, events).0)
    ensures forall i :: 0 <= i < |events| && Run(s, events).1[i].Submitted? ==>
              WellFormedPost(Run(s, events).1[i].post)
    decreases |events|
  {
    if |events| > 0 {
      var (s1, o) := Step(s, events[0].0, events[0].1);
      StepKeepsInv(s, events[0].0, events[0].1);
      if o.Submitted? {
        SubmittedIsWellFormed(s, events[0].0, events[0].1);
      }
      RunKeepsInv(s1, events[1..]);
      var os := Run(s1, events[1..]).1;
      assert Run(s, events).1 == [o] + os;
      forall i | 0 <= i < |events| && Run(s, events).1[i].Submitted?
        ensures WellFormedPost(Run(s, events).1[i].post)
      {
        if i > 0 {
          assert Run(s, events).1[i] == os[i - 1];
        }
      }
    }
  }

  /* ---------------------------------------------------------------------
   * Routing as deployed
   * ------------------------------------------------------------------- */

  /** Events that arrive as button presses (callback queries). */
  predicate IsButton(e: Event)
  {
    e.Start? || e.Cancel? || e.ToggleCity? || e.SelectAllCities? || e.ConfirmCities?
    || e.ToggleCategory? || e.ConfirmCategories? || e.SkipImageButton?
  }

  /** One event as the deployed bot routes it: a catch-all button handler is
      registered on the dispatcher itself, which runs before any included
      router and stops propagation, so every button press is only
      acknowledged and the session never sees it. */
  function DeployedStep(s: Session, e: Event, now: int): (r: (Session, Outcome))
    ensures !r.1.Updated?
    ensures Rank(s.state) <= 1 ==> Rank(r.0.state) <= 1 && !r.1.Submitted?
  {
    if IsButton(e) then (s, Ignored) else Step(s, e, now)
  }

  function RunDeployed(s: Session, events: seq<(Event, int)>): (r: (Session, seq<Outcome>))
    ensures |r.1| == |events|
    decreases |events|
  {
    if |events| == 0 then (s, [])
    else
      var (s1, o) := DeployedStep(s, events[0].0, events[0].1);
      var (s2, os) := RunDeployed(s1, events[1..]);
      (s2, [o] + os)
  }

  /** As deployed, a creation that starts never gets past the city step:
      whatever the user sends, no city is ever confirmed and no post is
      ever submitted. */
  lemma {:induction false} DeployedNeverSubmits(s: Session, events: seq<(Event, int)>)
    requires Rank(s.state) <= 1
    ensures Rank(RunDeployed(s, events).0.state) <= 1
    ensures forall i :: 0 <= i < |events| ==> !RunDeployed(s, events).1[i].Submitted?
    decreases |events|
  {
    if |events| > 0 {
      var (s1, o) := DeployedStep(s, events[0].0, events[0].1);
      DeployedNeverSubmits(s1, events[1..]);
      var os := RunDeployed(s1, events[1..]).1;
      assert RunDeployed(s, events).1 == [o] + os;
      forall i | 0 <= i < |events| ensures !RunDeployed(s, events).1[i].Submitted? {
        if i > 0 {
          assert RunDeployed(s, events).1[i] == os[i - 1];
        }
      }
    }
  }

  /** The smallest case: "/create_post" starts a creation, and the city
      button that would select Moscow is swallowed. */
  lemma DeployedCityPressIgnored(d: Draft, now: int)
    ensures var s1 := DeployedStep(Session(Idle, d), Text("/create_post"), now).0;
            && s1 == Session(SelectingCity, d)
            && DeployedStep(s1, ToggleCity("Москва"), now) == (s1, Ignored)
            && Step(s1, ToggleCity("Москва"), now).1 == Updated
  {
  }
}
