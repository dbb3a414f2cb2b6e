/**
 * Feed and liked-list windowing. The store returns an ordered sequence of
 * post ids (the feed of approved posts matching the user's preferences, or
 * the posts the user liked); a page is an offset/limit window of it, shown
 * with 1-based rank numbers, together with a separately queried total count
 * from which the number of pages is derived.
 */
module Feed {
  import opened Selection

  type PostId = nat

  /** Posts shown per page. */
  const PostsPerPage := 5

  /** `(total + K - 1) // K`: the number of pages for `total` posts. */
  function PageCount(total: nat): (n: nat)
    ensures n * PostsPerPage >= total
    ensures n > 0 ==> (n - 1) * PostsPerPage < total
    ensures n == 0 <==> total == 0
  {
    (total + PostsPerPage - 1) / PostsPerPage
  }

  /** The rows the store returns for `limit K, offset page * K`. */
  function Window(posts: seq<PostId>, page: nat): (w: seq<PostId>)
    ensures |w| <= PostsPerPage
    ensures w == [] <==> page * PostsPerPage >= |posts|
    ensures forall i :: 0 <= i < |w| ==> page * PostsPerPage + i < |posts| && w[i] == posts[page * PostsPerPage + i]
    ensures page * PostsPerPage + PostsPerPage <= |posts| ==> |w| == PostsPerPage
  {
    var lo := page * PostsPerPage;
    if lo >= |posts| then []
    else if lo + PostsPerPage <= |posts| then posts[lo..lo + PostsPerPage]
    else posts[lo..]
  }

  /** One listed line: its rank number and the post. */
  datatype Entry = Entry(rank: int, post: PostId)

  /** What a page request shows. */
  datatype ListView =
    | EmptyState    // the "nothing here yet" message
    | Listing(entries: seq<Entry>, page: nat, totalPages: nat, total: nat)

  /** `enumerate(posts, start=start)`. */
  function Number(items: seq<PostId>, start: int): (es: seq<Entry>)
    ensures |es| == |items|
    ensures forall i :: 0 <= i < |items| ==> es[i] == Entry(start + i, items[i])
  {
    seq(|items|, i requires 0 <= i < |items| => Entry(start + i, items[i]))
  }

  /** Build the page view: an empty window takes the empty-state path without
      using the count; otherwise entries are numbered from `start` and the
      page count is derived from the count query's answer. */
  function PageView(window: seq<PostId>, page: nat, count: nat, start: int): ListView
  {
    if window == [] then EmptyState
    else Listing(Number(window, start), page, PageCount(count), count)
  }

  /** `show_feed_page` / `show_feed_page_cmd`. Each listed rank is the post's
      1-based position in the whole feed. */
  function ShowFeedPage(posts: seq<PostId>, page: nat, count: nat): (v: ListView)
    ensures v.EmptyState? <==> page * PostsPerPage >= |posts|
    ensures v.Listing? ==>
              && 0 < |v.entries| <= PostsPerPage && v.page == page && v.totalPages == PageCount(count)
              && v.total == count
              && |v.entries| == (if (page + 1) * PostsPerPage <= |posts| then PostsPerPage else |posts| - page * PostsPerPage)
              && forall i :: 0 <= i < |v.entries| ==>
                   v.entries[i].rank == page * PostsPerPage + i + 1
                   && 1 <= v.entries[i].rank <= |posts| && posts[v.entries[i].rank - 1] == v.entries[i].post
  {
    PageView(Window(posts, page), page, count, page * PostsPerPage + 1)
  }

  /** The liked list as the command path shows it (`show_liked_page_cmd`),
      numbering from `page * K + 1`. The button path uses it too in this
      model: see LikedPageAsWritten for what that path does instead. */
  function ShowLikedPage(liked: seq<PostId>, page: nat, count: nat): (v: ListView)
    ensures v.EmptyState? <==> page * PostsPerPage >= |liked|
    ensures v.Listing? ==>
              && 0 < |v.entries| <= PostsPerPage && v.page == page && v.totalPages == PageCount(count)
              && v.total == count
              && |v.entries| == (if (page + 1) * PostsPerPage <= |liked| then PostsPerPage else |liked| - page * PostsPerPage)
              && forall i :: 0 <= i < |v.entries| ==>
                   v.entries[i].rank == page * PostsPerPage + i + 1
                   && 1 <= v.entries[i].rank <= |liked| && liked[v.entries[i].rank - 1] == v.entries[i].post
  {
    PageView(Window(liked, page), page, count, page * PostsPerPage + 1)
  }

  /** The liked list as the button path writes it (`show_liked_page`): the
      numbering starts at `page + 1`. */
  function LikedPageAsWritten(liked: seq<PostId>, page: nat, count: nat): ListView
  {
    PageView(Window(liked, page), page, count, page + 1)
  }

  /* ---------------------------------------------------------------------
   * Navigation
   * ------------------------------------------------------------------- */

  /** Page-changing buttons; each carries the page it was pressed on. */
  datatype Nav = Prev(page: nat) | Next(page: nat) | Back(page: nat)

  /** The page shown after a button: "prev" is clamped at 0, "next" is not
      clamped against the page count, "back" reopens the same page. */
  function Target(n: Nav): (p: nat)
    ensures n.Prev? ==> p <= n.page && (n.page > 0 ==> p == n.page - 1)
    ensures n.Next? ==> p == n.page + 1
    ensures n.Back? ==> p == n.page
  {
    match n
    case Prev(p) => if p - 1 > 0 then p - 1 else 0
    case Next(p) => p + 1
    case Back(p) => p
  }

  /* ---------------------------------------------------------------------
   * Properties
   * ------------------------------------------------------------------- */

  /** Windows of pages 0 .. n-1, concatenated in page order. */
  function Pages(posts: seq<PostId>, n: nat): seq<PostId>
  {
    if n == 0 then [] else Pages(posts, n - 1) + Window(posts, n - 1)
  }

  /** The first `n` pages are exactly the first `n * K` posts (or all of them). */
  lemma {:induction false} PagesArePrefix(posts: seq<PostId>, n: nat)
    ensures Pages(posts, n) == posts[..if n * PostsPerPage <= |posts| then n * PostsPerPage else |posts|]
  {
    if n > 0 {
      PagesArePrefix(posts, n - 1);
      var lo := (n - 1) * PostsPerPage;
      if lo < |posts| {
        var hi := if n * PostsPerPage <= |posts| then n * PostsPerPage else |posts|;
        assert Window(posts, n - 1) == posts[lo..hi];
        assert posts[..lo] + posts[lo..hi] == posts[..hi];
      }
    }
  }

  /** The windows of all pages, in order, are the whole sequence: nothing is
      skipped and nothing is shown twice. */
  lemma PagesCoverAll(posts: seq<PostId>)
    ensures Pages(posts, PageCount(|posts|)) == posts
  {
    PagesArePrefix(posts, PageCount(|posts|));
  }

  /** Windows of distinct pages share no post when the feed lists each post
      once. */
  lemma WindowsDisjoint(posts: seq<PostId>, p: nat, q: nat)
    requires NoDup(posts) && p != q
    ensures forall x :: x in Window(posts, p) ==> x !in Window(posts, q)
  {
    var wp, wq := Window(posts, p), Window(posts, q);
    forall i, j | 0 <= i < |wp| && 0 <= j < |wq| ensures wp[i] != wq[j] {
      assert p * PostsPerPage + i != q * PostsPerPage + j;
    }
  }

  /** The last page holds `N - (pages - 1) * K` posts and the page after it is
      empty. */
  lemma LastPageSize(posts: seq<PostId>)
    requires |posts| > 0
    ensures var n := PageCount(|posts|);
            |Window(posts, n - 1)| == |posts| - (n - 1) * PostsPerPage
            && Window(posts, n) == []
  {
  }

  /** The examples: no posts means no pages; K posts one full page; K + 1
      posts two pages, the second with one post. */
  lemma PageCountExamples()
    ensures PageCount(0) == 0 && PageCount(5) == 1 && PageCount(6) == 2
  {
  }

  /** A page past the end looks exactly like an empty feed. */
  lemma PastEndIsEmptyFeed(posts: seq<PostId>, page: nat, count: nat, count': nat)
    requires page >= PageCount(|posts|)
    ensures ShowFeedPage(posts, page, count) == ShowFeedPage([], 0, count') == EmptyState
  {
  }

  /** The empty-state path never uses the count query's answer. */
  lemma EmptyPageIgnoresCount(posts: seq<PostId>, page: nat, count: nat, count': nat)
    requires Window(posts, page) == []
    ensures ShowFeedPage(posts, page, count) == ShowFeedPage(posts, page, count')
    ensures ShowLikedPage(posts, page, count) == ShowLikedPage(posts, page, count')
  {
  }

  /** Ranks run on across pages: the first rank of a page follows the last
      rank of the full page before it. */
  lemma RanksContinueAcrossPages(posts: seq<PostId>, page: nat, count: nat)
    requires (page + 1) * PostsPerPage < |posts|
    ensures var a := ShowFeedPage(posts, page, count);
            var b := ShowFeedPage(posts, page + 1, count);
            a.Listing? && b.Listing? && |a.entries| == PostsPerPage
            && b.entries[0].rank == a.entries[PostsPerPage - 1].rank + 1
  {
  }

  /** Page 2 (index 1) of a feed with at least ten posts shows ranks 6..10. */
  lemma SecondPageRanks(posts: seq<PostId>, count: nat)
    requires |posts| >= 10
    ensures var v := ShowFeedPage(posts, 1, count);
            v.Listing? && |v.entries| == 5
            && forall i :: 0 <= i < 5 ==> v.entries[i].rank == 6 + i
  {
  }

  /** "prev" never goes below page 0, and after "next" it returns to the
      page it was pressed on. */
  lemma PrevNext(p: nat)
    ensures Target(Prev(0)) == 0
    ensures Target(Prev(Target(Next(p)))) == p
    ensures p > 0 ==> Target(Next(Target(Prev(p)))) == p
  {
  }

  /** "next" on the last page is not clamped: it requests the page after the
      end, which shows the empty state. */
  lemma NextPastLastPageIsEmpty(posts: seq<PostId>, count: nat)
    requires |posts| > 0
    ensures var last := PageCount(|posts|) - 1;
            ShowFeedPage(posts, Target(Next(last)), count) == EmptyState
            && ShowLikedPage(posts, Target(Next(last)), count) == EmptyState
  {
  }

  /** The button path of the liked list numbers page `p` from `p + 1`, so on
      the second page of a list of at least six posts the first entry is
      shown as number 2 although it is the sixth post, and number 2 is shown
      twice across the first two pages. */
  lemma LikedPageAsWrittenMisnumbers(liked: seq<PostId>, count: nat)
    requires |liked| >= 6
    ensures var first := LikedPageAsWritten(liked, 0, count);
            var second := LikedPageAsWritten(liked, 1, count);
            && second.Listing? && second.entries[0] == Entry(2, liked[5])
            && first.Listing? && first.entries[1].rank == 2
    ensures ShowLikedPage(liked, 1, count).entries[0] == Entry(6, liked[5])
  {
  }

  /** The liked list is paged and numbered exactly as the feed is: every
      property of feed pages carries over. */
  lemma LikedListedLikeFeed(liked: seq<PostId>, page: nat, count: nat)
    ensures ShowLikedPage(liked, page, count) == ShowFeedPage(liked, page, count)
    ensures ShowLikedPage(liked, page, count) != LikedPageAsWritten(liked, page, count)
            <==> page > 0 && page * PostsPerPage < |liked|
  {
    if page > 0 && page * PostsPerPage < |liked| {
      assert ShowLikedPage(liked, page, count).entries[0].rank != LikedPageAsWritten(liked, page, count).entries[0].rank;
    }
  }
}
