/**
 * The like ("heart") relation as an abstract store: a set of (user, post)
 * pairs, where membership is the liked state. Toggling inserts the pair if
 * absent and deletes it otherwise, and reports the recomputed count of likes
 * on the post. The handlers derive the liked flag they show from it.
 */
module Likes {

  datatype Like = Like(user: int, post: int)

  datatype Action = Added | Removed

  datatype ToggleResult = ToggleResult(action: Action, likesCount: nat)

  /** `is_post_liked_by_user`. */
  predicate IsLiked(likes: set<Like>, user: int, post: int)
  {
    Like(user, post) in likes
  }

  /** Likes on `post`, always recounted from the rows. */
  function LikesCount(likes: set<Like>, post: int): nat
  {
    |set l | l in likes && l.post == post|
  }

  /** `toggle_like`: insert if absent, else delete. */
  function Toggle(likes: set<Like>, user: int, post: int): (r: (set<Like>, ToggleResult))
    ensures r.1.action == Added <==> !IsLiked(likes, user, post)
    ensures IsLiked(r.0, user, post) <==> r.1.action == Added
    ensures forall l :: l != Like(user, post) ==> (l in r.0 <==> l in likes)
    ensures r.1.likesCount == LikesCount(r.0, post)
    ensures r.1.action == Added ==> r.1.likesCount == LikesCount(likes, post) + 1
    ensures r.1.action == Removed ==> r.1.likesCount + 1 == LikesCount(likes, post)
  {
    var me := Like(user, post);
    var before := set l | l in likes && l.post == post;
    if me in likes then
      var after := likes - {me};
      assert (set l | l in after && l.post == post) == before - {me};
      (after, ToggleResult(Removed, LikesCount(after, post)))
    else
      var after := likes + {me};
      assert (set l | l in after && l.post == post) == before + {me};
      (after, ToggleResult(Added, LikesCount(after, post)))
  }

  /** Two toggles in a row restore the likes and the count. */
  lemma ToggleTwice(likes: set<Like>, user: int, post: int)
    ensures var (once, r1) := Toggle(likes, user, post);
            var (twice, r2) := Toggle(once, user, post);
            twice == likes && r2.likesCount == LikesCount(likes, post) && r1.action != r2.action
  {
    var (once, _) := Toggle(likes, user, post);
    var (twice, _) := Toggle(once, user, post);
    assert forall l :: l in twice <==> l in likes;
  }

  /** The flag the notification button shows (`action == "added"`). */
  function NotifyHeartShown(likes: set<Like>, user: int, post: int): bool
  {
    Toggle(likes, user, post).1.action == Added
  }

  /** The flag the feed's heart button shows: an existence check after the
      toggle. */
  function FeedHeartShown(likes: set<Like>, user: int, post: int): bool
  {
    IsLiked(Toggle(likes, user, post).0, user, post)
  }

  /** Both ways of deriving the shown state agree with the stored state, and
      the shown state is the opposite of the state before the press. */
  lemma HeartStatesAgree(likes: set<Like>, user: int, post: int)
    ensures NotifyHeartShown(likes, user, post) == FeedHeartShown(likes, user, post)
    ensures NotifyHeartShown(likes, user, post) == IsLiked(Toggle(likes, user, post).0, user, post)
    ensures NotifyHeartShown(likes, user, post) == !IsLiked(likes, user, post)
  {
  }
}
