# Post lifecycle of the events bot, in Dafny

This project models the logic of a Telegram bot that collects, screens, lists and
retires community event posts. The chat transport and the database are taken out;
what remains is pure state and arithmetic.

- **Screening gate** (`Screening`). Title, content and optional link are joined
  into one text and lower-cased. The text is searched for a fixed list of 32
  banned words and for eight link patterns: user handles, short links,
  messenger phone links and four literal messenger names. The result is a
  suspicious flag and a display string. The string names the matched reason
  categories, banned words always first.
- **Post-creation wizard** (`Wizard`). The steps run in order: city selection,
  category selection, title, content, link, event time, address, image, commit.
  A session is the FSM state plus the draft data. Every incoming event is one
  pure transition `Step(session, event, now)`, returning the next session and an
  outcome. `now` is the local wall-clock time as a minute count. Typed commands
  of the settings handlers, which are registered ahead of the wizard, are caught
  before any step reads text. `DeployedStep` is the routing as deployed, where a
  catch-all button handler on the dispatcher swallows every button press.
- **Supporting modules.**
  - `Selection`: the multi-select lists. Pressing an item removes its first
    occurrence, or appends it if absent.
  - `Text`: lower-casing, `strip`, substring search and `", ".join`.
  - `DateTime`: the two fixed-width date-time formats and a minute count that
    orders date-times the way naive `datetime` values compare.
- **Feed and liked-list windowing** (`Feed`). The store's ordered list of post
  ids is cut into pages of five with an offset/limit window. The page count is
  the ceiling of the separately queried total. An empty window shows the empty
  state. Entries carry 1-based rank numbers. prev/next/back navigation is
  covered too.
- **Likes** (`Likes`). The like relation is an abstract set of (user, post)
  pairs, toggled by the heart buttons. The liked flag a button shows is derived
  from the toggle result or from a re-query.
- **Profile categories** (`Profile`). The confirm button refuses an empty
  selection.
- **Retention reaper** (`Reaper`). One sweep of the background loop:
  1. snapshot the expired (id, image) rows;
  2. delete the expired posts, a second store call that decides expiry again;
  3. if that call deleted anything, try to delete each snapshotted image from
     the blob store, swallowing failures.

  Any error in a sweep is caught and logged, and the loop carries on.

Paths below are relative to the repository root of the bot.

## Model

| member | source | states |
|---|---|---|
| Screening.ContainsBannedWords | events_bot/bot/handlers/post_handlers.py:41-44 | true exactly when some word of the banned list occurs as a substring of the lower-cased text |
| Screening.ContainsSpamLinks | events_bot/bot/handlers/post_handlers.py:46-49 | true exactly when some link pattern matches somewhere in the lower-cased text |
| Screening.Search | events_bot/bot/handlers/post_handlers.py:33-39 | a left-to-right scan finds a match exactly when the pattern matches at some position (a `[\w]+`/`[\d]+` tail matches as soon as one class character follows the marker) |
| Screening.AnyOccurs | events_bot/bot/handlers/post_handlers.py:44 | `any(word in text …)` is true exactly when some listed word occurs in the text |
| Screening.AnySearch | events_bot/bot/handlers/post_handlers.py:49 | `any(re.search …)` is true exactly when some listed pattern matches at some position |
| Screening.ReasonList | events_bot/bot/handlers/post_handlers.py:53-60 | each reason is listed exactly when its check matched, at most two reasons, no repeats, banned words before spam links |
| Screening.Verdict | events_bot/bot/handlers/post_handlers.py:62 | the flag is set exactly when some reason was found, and the display string is empty exactly when the flag is clear |
| Screening.IsSuspiciousPost | events_bot/bot/handlers/post_handlers.py:51-62 | flagged exactly when the joined text trips either check; the reason string is empty exactly when not flagged and is the ", "-join of the reason names |
| Screening.BothReasonsShown | events_bot/bot/handlers/post_handlers.py:56-62 | with both checks matching, the display string is exactly "запрещённые слова, подозрительные ссылки" |
| Screening.BothReasonsInOrder | events_bot/bot/handlers/post_handlers.py:51-62 | a post that trips both checks yields (true, banned-words reason, then spam-links reason) |
| Screening.ChecksIgnoreCase | events_bot/bot/handlers/post_handlers.py:41-49 | two texts that differ only in letter case get the same answer from both checks |
| Screening.VerdictIgnoresCase | events_bot/bot/handlers/post_handlers.py:51-62 | changing the letter case of title, content or link does not change the verdict, with or without a link; a missing link screens like an empty one |
| Screening.BannedWordInUrlFlags | events_bot/bot/handlers/post_handlers.py:54-57 | a banned word that appears only in the link still flags the post with the banned-words reason |
| Screening.BannedWordInAnyCaseFlags | events_bot/bot/handlers/post_handlers.py:42-44 | any spelling that lower-cases to a banned word is caught |
| Text.Strip | events_bot/bot/handlers/post_handlers.py:443 | the result is a slice of the input with only whitespace cut from either end, and it neither starts nor ends with whitespace |
| Text.StripIdempotent | events_bot/bot/handlers/post_handlers.py:400 | stripping an already stripped text changes nothing |
| Text.Contains | events_bot/bot/handlers/post_handlers.py:44 | `w in s` is true exactly when `w` occurs at some index of `s` |
| Text.JoinNonEmpty | events_bot/bot/handlers/post_handlers.py:62 | a join with one non-empty part is non-empty |
| Selection.FirstIndex | events_bot/bot/handlers/post_handlers.py:241 | the position `list.remove` deletes: holds the item, and no earlier position does |
| Selection.RemoveFirst | events_bot/bot/handlers/post_handlers.py:240-241 | drops exactly one copy of the item, the first one, keeping everything before it and shifting everything after it |
| Selection.ToggleMembership | events_bot/bot/handlers/post_handlers.py:240-243 | on a duplicate-free list, a press flips membership of exactly the pressed item and keeps the list duplicate-free |
| Selection.ToggleTwiceAbsent | events_bot/bot/handlers/post_handlers.py:240-243 | pressing an unselected item twice restores the list exactly |
| Selection.ToggleTwice | events_bot/bot/handlers/post_handlers.py:273-276 | on a duplicate-free list, pressing any item twice restores the same items; a selected item comes back at the end, so the list is restored exactly when the item was unselected or already last |
| DateTime.ParseEventTime | events_bot/bot/handlers/post_handlers.py:401-403 | accepts exactly the texts that parse in the colon format or in the dotted format, and only ever returns real calendar date-times |
| DateTime.ParseFormat | events_bot/bot/handlers/post_handlers.py:401-403 | every real date-time written in either format parses back to itself |
| DateTime.FormatParse | events_bot/bot/handlers/post_handlers.py:401-403 | any accepted text is exactly the formatted form of the date-time it yields |
| DateTime.ToMinutesOrder | events_bot/bot/handlers/post_handlers.py:417 | comparing minute counts is comparing date-times field by field, and distinct date-times have distinct counts |
| Wizard.StepCity | events_bot/bot/handlers/post_handlers.py:166-260 | toggle and select-all stay in the step; confirm advances only with a non-empty selection and stores its ", "-join as the city; a refusal changes nothing |
| Wizard.StepCategories | events_bot/bot/handlers/post_handlers.py:262-341 | toggle stays in the step; confirm advances with the data unchanged, and only with a non-empty selection |
| Wizard.StepTitle | events_bot/bot/handlers/post_handlers.py:343-361 | advances exactly when the title has at most 100 code points; otherwise refuses with the session unchanged |
| Wizard.StepContent | events_bot/bot/handlers/post_handlers.py:363-374 | advances exactly when the content has at most 2000 code points; otherwise refuses with the session unchanged |
| Wizard.StepUrl | events_bot/bot/handlers/post_handlers.py:376-389 | a stored link is absent, blank or http(s); anything else is refused with the session unchanged |
| Wizard.StepEventTime | events_bot/bot/handlers/post_handlers.py:391-438 | either advances one step or refuses with the session unchanged |
| Wizard.StepAddress | events_bot/bot/handlers/post_handlers.py:440-452 | a stored address has at most 200 code points; otherwise refuses with the session unchanged |
| Wizard.Commit | events_bot/bot/handlers/post_handlers.py:498-553 | the commit as intended: submits exactly when title, content, city and category list are all non-empty; the post carries every draft field unchanged, the event time included; the session is cleared on every exit |
| Wizard.CommitAsWritten | events_bot/bot/handlers/post_handlers.py:518-539 | the commit as written: an incomplete draft is cleared as intended, but a complete one raises before the post is created and stays in the image step with its data |
| Wizard.CommitAsWrittenNeverSubmits | events_bot/bot/handlers/post_handlers.py:537 | a complete draft, which the intended commit submits and clears, is neither submitted nor cleared as written |
| Wizard.PostAsBuilt | events_bot/bot/handlers/post_handlers.py:526-538 | the post handed to the store as written has no event time, whatever was entered |
| Wizard.EventTimeLostAsWritten | events_bot/bot/handlers/post_handlers.py:531-535 | a draft with an event time yields, as written, a post whose event time differs from the one the intended commit stores |
| Wizard.ModerationVerdict | events_bot/bot/handlers/post_handlers.py:64-68 | the moderation banner is raised exactly when the created post's title, content or link trips a check, and then carries a non-empty reason |
| Wizard.StepImage | events_bot/bot/handlers/post_handlers.py:454-496 | never updates or advances: a post deletion command is answered by its own handler with the session kept; otherwise it commits, refuses with the session unchanged, or ignores the event |
| Wizard.ReadText | events_bot/bot/handlers/post_handlers.py:343-452 | each text-reading step either advances one step or refuses with the session unchanged |
| Wizard.NoText | events_bot/bot/handlers/post_handlers.py:351 | an event without text in a text-reading step leaves the session unchanged |
| Wizard.Dispatch | events_bot/bot/handlers/post_handlers.py:166-496 | every step handler keeps the step shape; only the selection steps update in place; only the image step commits; nothing handles events when idle |
| Wizard.Step | events_bot/bot/handlers/post_handlers.py:114-164 | cancel clears from any state; start goes to city selection keeping the data; the two profile commands leave the wizard keeping the data; a refusal or a command answered elsewhere changes nothing; an advance moves exactly one step; a submission comes only from the image step with the required fields present, and clears |
| Wizard.TextReachesStep | events_bot/bot/handlers/post_handlers.py:114-133 | text that no command handler intercepts reaches the current step's handler |
| Wizard.CommandsPreempt | events_bot/bot/handlers/user_handlers.py:56-240 | in every state, "/help", "/my_posts", "/liked_posts" and "/delete_user" are answered with the session unchanged, and "/change_university" and "/change_category" leave the wizard with the data kept: none is ever taken as a title or other input |
| Wizard.ConfirmCitiesIff | events_bot/bot/handlers/post_handlers.py:196-224 | confirming with no city refuses and changes nothing; otherwise stores the joined cities and moves to categories |
| Wizard.SelectAllThenConfirm | events_bot/bot/handlers/post_handlers.py:169-177 | select-all sets exactly the two known cities, and confirming stores "Москва, Санкт-Петербург" |
| Wizard.ToggleSteps | events_bot/bot/handlers/post_handlers.py:230-277 | a toggle press changes only the matching selection and stays in the step |
| Wizard.CityToggleTwice | events_bot/bot/handlers/post_handlers.py:230-246 | the same city pressed twice restores the selection's contents; a selected city comes back at the end; the draft is restored exactly when the city was unselected or already last |
| Wizard.CategoryToggleTwice | events_bot/bot/handlers/post_handlers.py:265-277 | the same category pressed twice restores the selection's contents; a selected one comes back at the end; the draft is restored exactly when the category was unselected or already last |
| Wizard.ConfirmCategoriesIff | events_bot/bot/handlers/post_handlers.py:299-337 | confirming with no category refuses; otherwise moves to the title step with the data unchanged |
| Wizard.TitleLimit | events_bot/bot/handlers/post_handlers.py:351-358 | titles up to and including 100 code points are stored; longer ones change nothing |
| Wizard.ContentLimit | events_bot/bot/handlers/post_handlers.py:366-374 | content up to and including 2000 code points is stored; longer content changes nothing |
| Wizard.AddressLimit | events_bot/bot/handlers/post_handlers.py:443-452 | the stripped address is stored when it has at most 200 code points; a longer one changes nothing |
| Wizard.UrlRule | events_bot/bot/handlers/post_handlers.py:379-389 | "/skip" clears the link; a stripped text that is blank or starts with http:// or https:// is stored; anything else is refused |
| Wizard.EventTimeRule | events_bot/bot/handlers/post_handlers.py:400-433 | any text that, once stripped, reads as a date-time in either format is stored exactly when that time is strictly more than 30 minutes after now; otherwise both times are reported and nothing changes |
| Wizard.DatesArePlain | events_bot/bot/handlers/post_handlers.py:400-403 | no intercepted command reads as a date-time, so date text always reaches the event-time step |
| Wizard.EventTimeBoundary | events_bot/bot/handlers/post_handlers.py:415-424 | exactly now + 30 minutes is refused; one minute later is accepted |
| Wizard.EventTimeMalformed | events_bot/bot/handlers/post_handlers.py:434-438 | text in neither format is refused with the session unchanged |
| Wizard.ImageStep | events_bot/bot/handlers/post_handlers.py:454-496 | in the image step a post deletion command is answered with the session kept; "/skip", the skip button and a photo commit (the photo's reference becomes the image); other text is refused |
| Wizard.StepKeepsInv | events_bot/bot/handlers/post_handlers.py:166-452 | every transition keeps the invariant: each field collected by an earlier step is present and within its limit, and both selections stay duplicate-free |
| Wizard.SubmittedIsWellFormed | events_bot/bot/handlers/post_handlers.py:508-539 | under the invariant, every submitted post has bounded non-empty text, a duplicate-free non-empty category list, a city, an acceptable link, a real event time and a bounded address |
| Wizard.IncompleteOnlyOnEmptyText | events_bot/bot/handlers/post_handlers.py:518-524 | under the invariant the defensive re-check fails only when the title, content or city text is the empty string |
| Wizard.RunKeepsInv | events_bot/bot/handlers/post_handlers.py:114-553 | over any sequence of events the invariant holds and every submitted post is well formed |
| Wizard.DeployedStep | main.py:80-93 | as deployed no button press changes a selection, and a session at or before the city step stays there and submits nothing |
| Wizard.DeployedNeverSubmits | main.py:80-87 | as deployed, from the city step or before it, no sequence of events gets past the city step or submits a post |
| Wizard.DeployedCityPressIgnored | main.py:80-87 | after "/create_post", a city button that the wizard would apply is swallowed as deployed |
| Feed.PageCount | events_bot/bot/handlers/feed_handlers.py:110 | the least page count whose pages hold all posts: zero exactly for no posts |
| Feed.Window | events_bot/bot/handlers/feed_handlers.py:92-94 | page `p` holds at most five posts, positions `5p`, `5p + 1`, … of the sequence in order; it is full when enough posts remain, and empty exactly past the end |
| Feed.ShowFeedPage | events_bot/bot/handlers/feed_handlers.py:122-167 | empty state exactly past the end; otherwise the whole window: five entries, or what is left on the last page; entry `i` ranked `5p + i + 1`, and that rank's post is the post at that 1-based position of the feed; the total is the count and the page count its ceiling |
| Feed.ShowLikedPage | events_bot/bot/handlers/user_handlers.py:114-138 | the liked list as intended: empty state exactly past the end; otherwise five entries, or what is left on the last page; entry `i` ranked `5p + i + 1`, the liked post at that 1-based position; the total is the count and the page count its ceiling |
| Feed.Target | events_bot/bot/handlers/feed_handlers.py:54-68 | prev goes one page back but never below 0; next goes one forward with no upper clamp; back reopens the same page |
| Feed.PagesArePrefix | events_bot/bot/handlers/feed_handlers.py:92-94 | the first `n` windows, concatenated, are the first `5n` posts |
| Feed.PagesCoverAll | events_bot/bot/handlers/feed_handlers.py:109-110 | the windows of all counted pages, in order, are exactly the whole feed |
| Feed.WindowsDisjoint | events_bot/bot/handlers/feed_handlers.py:128-130 | windows of distinct pages share no post when the feed lists each post once |
| Feed.LastPageSize | events_bot/bot/handlers/feed_handlers.py:151-152 | the last page holds what is left after the full pages, and the page after it is empty |
| Feed.PageCountExamples | events_bot/bot/handlers/feed_handlers.py:25 | no posts gives no pages; five posts one page; six posts two |
| Feed.PastEndIsEmptyFeed | events_bot/bot/handlers/feed_handlers.py:131-149 | a page past the end shows exactly what an empty feed shows |
| Feed.EmptyPageIgnoresCount | events_bot/bot/handlers/feed_handlers.py:95-107 | the empty-state path does not depend on the count query's answer |
| Feed.RanksContinueAcrossPages | events_bot/bot/handlers/feed_handlers.py:114 | the first rank of a page follows the last rank of the full page before it |
| Feed.SecondPageRanks | events_bot/bot/handlers/feed_handlers.py:155 | page index 1 of a feed of at least ten posts shows ranks 6 to 10 |
| Feed.PrevNext | events_bot/bot/handlers/feed_handlers.py:57-59 | prev on page 0 stays at 0; prev after next, and next after prev from a page above 0, return to the page |
| Feed.NextPastLastPageIsEmpty | events_bot/bot/handlers/feed_handlers.py:366-368 | next on the last page requests a page that shows the empty state, in the feed and in the liked list |
| Feed.LikedPageAsWrittenMisnumbers | events_bot/bot/handlers/feed_handlers.py:407 | the button path numbers the sixth liked post 2, and number 2 appears on both of the first two pages; the command path numbers it 6 |
| Feed.LikedListedLikeFeed | events_bot/bot/handlers/user_handlers.py:131 | the liked list is paged and numbered exactly as the feed; it differs from the button path exactly on the non-empty pages after the first |
| Likes.Toggle | events_bot/bot/handlers/user_handlers.py:32-34 | "added" exactly when the pair was absent; afterwards the pair is present exactly when added; no other pair changes; the count is the recount, one more or one less than before |
| Likes.ToggleTwice | events_bot/bot/handlers/feed_handlers.py:251 | two presses restore the likes and the count, and report opposite actions |
| Likes.HeartStatesAgree | events_bot/bot/handlers/user_handlers.py:33-34 | the notification button's flag (`action == "added"`) equals the feed button's re-queried flag, and both are the opposite of the state before the press |
| Profile.ConfirmCategories | events_bot/bot/handlers/user_handlers.py:141-185 | saves exactly when the category step is waiting and something is selected, saving that selection and clearing; otherwise nothing changes |
| Profile.ConfirmOnce | events_bot/bot/handlers/user_handlers.py:146-151 | after a save a second press saves nothing; a refused press is refused again |
| Reaper.ExpiredRows | main.py:108 | the snapshot holds exactly the rows whose id is expired |
| Reaper.Survivors | main.py:109 | the rows left are exactly those whose id is not expired |
| Reaper.ImageRefs | main.py:113-115 | an image is listed exactly when some snapshot row carries it as a non-empty reference |
| Reaper.Sweep | main.py:104-121 | the sweep as written, with the snapshot and the delete deciding expiry separately: a failing store call changes nothing and is logged; otherwise the delete's expired posts are gone, the snapshot's images are tried only if the delete removed something, and only the images whose deletion succeeded leave the blob store |
| Reaper.SnapshotSweep | main.py:108-117 | the sweep with one expiry decision: a failing store call changes nothing and is logged; otherwise exactly the expired posts are gone, and an image deletion is attempted exactly for the images of the deleted posts |
| Reaper.PartitionRows | main.py:108-109 | kept rows and snapshot rows together are the table before the sweep |
| Reaper.EveryDeletedImageAttempted | main.py:108-117 | when expiry only grows between the two calls, every snapshot post with an image is removed and has its image deletion attempted |
| Reaper.ImageOutsideSnapshot | main.py:113-115 | with one image per post, the image of a post outside the snapshot is not among the snapshot's images |
| Reaper.LateExpiryOrphansImage | main.py:108-117 | a post that expires between the snapshot and the delete is deleted, its image is never attempted, and its blob stays |
| Reaper.LateExpiryExample | main.py:108-110 | one post with an image, expired only at the delete: the post is gone, nothing is attempted, the blob stays |
| Reaper.FailuresDoNotStopAttempts | main.py:116-119 | the attempts do not depend on which deletions fail, and a failed deletion leaves its blob |
| Reaper.NoDeletionNoAttempts | main.py:110 | when the delete removes nothing, the sweep changes nothing and attempts nothing, whatever the snapshot saw |
| Reaper.SurvivorsKeepImages | main.py:113-117 | with one image per post and expiry only growing between the two calls, no surviving post loses its image |
| Reaper.AttemptsOncePerImage | main.py:113-117 | with one image per post, each image deletion is attempted once |
| Reaper.SweepIdempotent | main.py:108-110 | a second sweep whose delete makes the same decision does nothing |
| Reaper.FailedSweepIsContained | main.py:120-122 | a failing sweep is logged and the loop continues as if that period were skipped |

## Left out

- Telegram transport is not modelled: answers, edits, keyboards, gif sending and the swallowing of "message is not modified". These are user-interface I/O.
- The database and services are abstract.
  - The feed and liked list are ordered id sequences with a separate count.
  - Likes are a set of pairs, and expiry is a set of ids.
  - The SQL behind them is not visible.
- The feed or liked-list total is a parameter of the page views. The model does not relate it to the list when concurrent writes make it drift.
- Store failures inside handlers are not modelled. That covers post creation returning nothing at commit and exceptions from `toggle_like`.
- Callback-data parsing (`split("_")`, `int(...)`) is not modelled, nor the "open", "heart" and post-detail routes of the navigation handlers. Only page selection is modelled.
- The post deletion command itself is not modelled. Only its routing is: in the image step it is caught before the image handler, and in the text steps the step handler takes it as input.
- The start handlers are registered before everything else and are not part of this model. Any command they catch is not routed here.
- Button presses meant for other routers are not modelled in the wizard. As deployed, every press is swallowed by the catch-all handler anyway (see Findings).
- The moderation send beyond its verdict is a foreign call. That includes the group lookup, the photo and the post's author id.
- The clock and the Moscow time zone are replaced by `now`, a minute count of local wall-clock time.
- Wizard.StepEventTime: strptime leniency is not modelled. Only the canonical fixed-width forms with two-digit fields and a four-digit year are accepted; single-digit fields, which strptime also takes, are refused.
- Unicode is covered only partly.
  - `lower()` maps only A-Z and U+0400-U+042F. Other capitals, such as Ѡ (U+0460), Ґ (U+0490) or Greek letters, stay unchanged in the model.
  - `\w` covers ASCII letters, digits and underscore, and the Cyrillic block U+0400-U+04FF without U+0482-U+0489. Python's `\w` also matches letters and digits of every other script.
  - `\d` covers only the ASCII digits. Python's `\d` on text matches every Unicode decimal digit.
  - `isspace` is the fixed list of Unicode whitespace.
- Wizard.NoText: a photo sent where text is read makes the source raise on `message.text` being absent. The model refuses it and leaves the session unchanged, which matches the visible effect: the FSM state and data stay as they were.
- Wizard.StepCategories: the model does not cover a confirm whose ids no longer match any stored category. The source then hits an unbound name after the guard and stays in the step. The category table is not visible.
- The image blob saved for a photo is not removed when the commit is refused. That orphan lives in the blob store, which is not modelled here.
- Negative page numbers cannot arise from the buttons and are not modelled; pages are `nat`.
- The cascade of likes when the reaper deletes a post is not modelled.
- The ten-minute sleep and the concurrency between handlers and the reaper are not modelled. Sweeps are sequential, one per input.
- The source has breakage that is not reproduced. The model follows the evident intent.
  - events_bot/bot/handlers/feed_handlers.py:410-411: a comma is missing between two arguments of the liked-page edit call. That is a syntax error, so main.py cannot import the feed handlers and the bot does not start as written.
  - events_bot/bot/handlers/feed_handlers.py:202-205: the feed-card conditional binds to the implicitly concatenated strings around it. With an event time the card stops after the event line, dropping the hearts and position lines. Without one, only those two lines are shown. Card text is user-interface output and is not modelled.
  - events_bot/bot/handlers/post_handlers.py:70-84: the moderation send uses `os`, `ModerationService` and `get_moderation_keyboard`, none of which is imported. It would raise before anything is sent. The send is a foreign call, and only its verdict is modelled.
  - The two breaks in the commit are in "## Findings".
- `/create_post` leaves the draft data of an unfinished post in place, so the model keeps it; the session is cleared only by cancel and commit. This follows the code.

## Findings

| source | as written | input that shows it | evidently intended | confidence | as-written member | corrected member |
|---|---|---|---|---|---|---|
| events_bot/bot/handlers/feed_handlers.py:407 | the liked list opened from a button numbers page `p` from `p + 1` | a liked list of six posts, page index 1: the sixth post is shown as number 2, and number 2 also appears on page 0 | number from `p * 5 + 1`, as the feed and the command path (events_bot/bot/handlers/user_handlers.py:131) do | high, not executed | Feed.LikedPageAsWritten (exhibited by Feed.LikedPageAsWrittenMisnumbers) | Feed.ShowLikedPage |
| main.py:80-87 | a catch-all button handler is registered on the dispatcher itself; it runs before every included router and ends propagation, so no button press reaches the wizard (nor the feed, heart or profile buttons) | "/create_post", then the Moscow city button: the wizard never sees the press, and no city can ever be selected or confirmed | the catch-all handles only presses no router claims, for example registered last on its own router | high, not executed | Wizard.DeployedStep (exhibited by Wizard.DeployedNeverSubmits and Wizard.DeployedCityPressIgnored) | Wizard.Step |
| events_bot/bot/handlers/post_handlers.py:537 | the commit calls `create_post` on a repository name that is never imported, so it raises before the post is created and before the session is cleared | any complete draft at the image step, then "/skip": no post is created and the user stays in the image step | create the post through the imported post service, then clear the session | high, not executed | Wizard.CommitAsWritten (exhibited by Wizard.CommitAsWrittenNeverSubmits) | Wizard.Commit |
| events_bot/bot/handlers/post_handlers.py:531 | the stored event time is re-read with `datetime`, which this module never imports (only `timezone`); the error is swallowed, so the post is built without an event time | a complete draft with event time 25.12.2030 18:30: the post handed to the store has no event time | parse the stored event time and keep it on the post | high, not executed | Wizard.PostAsBuilt (exhibited by Wizard.EventTimeLostAsWritten) | Wizard.Commit |
| main.py:108-117 | the snapshot of expired posts and the delete are two store calls that each decide expiry; only the snapshot's images are deleted | post 7 with image "img", not expired at the snapshot and expired at the delete: post 7 is deleted, nothing is attempted, "img" stays in the blob store | delete exactly the snapshotted posts, or snapshot and delete in one decision | medium, not executed | Reaper.Sweep (exhibited by Reaper.LateExpiryOrphansImage and Reaper.LateExpiryExample) | Reaper.SnapshotSweep |
