/**
 * The home page's pagination: the first post of the listing is featured, the
 * rest form a grid of which only the first `postsToShow` are drawn, and a
 * "Load more posts" button raises `postsToShow` by three, capped at the number
 * of remaining posts.
 */
module HomePage {
  import opened Wrappers
  import opened Schema
  import OrderedMaps
  import Storage

  /** How many grid posts are shown before the first "Load more". */
  const InitialPostsToShow: nat := 6

  /** How many more grid posts each "Load more" reveals. */
  const LoadMoreStep: nat := 3

  /** What the page draws once the query has finished without error. */
  datatype View =
    | NoPosts
    | Listing(featured: Post, grid: seq<Post>, showLoadMore: bool)

  function Min(a: int, b: int): int {
    if a <= b then a else b
  }

  /**
   * The page for the fetched `posts` (nothing when the query returned no data)
   * with `postsToShow` grid posts requested.
   */
  function Render(posts: Option<seq<Post>>, postsToShow: nat): (v: View)
    ensures v.NoPosts? <==> posts.None? || |posts.value| == 0
    ensures v.Listing? ==> v.featured == posts.value[0]
    ensures v.Listing? ==> |v.grid| == Min(postsToShow, |posts.value| - 1)
    ensures v.Listing? ==> forall i :: 0 <= i < |v.grid| ==> v.grid[i] == posts.value[i + 1]
    ensures v.Listing? ==> (v.showLoadMore <==> postsToShow < |posts.value| - 1)
  {
    if posts.None? || |posts.value| == 0 then NoPosts
    else
      var remaining := posts.value[1..];
      var visible := remaining[..Min(postsToShow, |remaining|)];
      Listing(posts.value[0], visible, postsToShow < |remaining|)
  }

  /** `loadMorePosts`: three more grid posts, but never more than there are. */
  function LoadMore(postsToShow: nat, remaining: nat): (r: nat)
    ensures r <= remaining && r <= postsToShow + LoadMoreStep
    ensures r == remaining || r == postsToShow + LoadMoreStep
    ensures postsToShow < remaining ==> postsToShow < r
  {
    Min(postsToShow + LoadMoreStep, remaining)
  }

  /**
   * When the listing's ids are distinct, the featured post never reappears in
   * the grid.
   */
  lemma FeaturedNotInGrid(posts: seq<Post>, postsToShow: nat)
    requires forall i, j :: 0 <= i < j < |posts| ==> posts[i].id != posts[j].id
    requires posts != []
    ensures forall p :: p in Render(Some(posts), postsToShow).grid ==> p.id != posts[0].id
  {
    var v := Render(Some(posts), postsToShow);
    forall p | p in v.grid ensures p.id != posts[0].id {
      var i :| 0 <= i < |v.grid| && v.grid[i] == p;
      assert p == posts[i + 1];
    }
  }

  /**
   * Rendering the store's listing: the featured post is the newest post (created
   * last, the smallest id among equally new ones) and no grid post is it.
   */
  lemma FeaturedIsNewest(s: Storage.Store, listing: seq<Post>, postsToShow: nat)
    requires OrderedMaps.Wf(s.blogPosts)
    requires Storage.IsListing(s, listing) && listing != []
    ensures var v := Render(Some(listing), postsToShow);
      forall p :: p in v.grid ==> Storage.ListedBefore(v.featured, p) && p != v.featured
  {
    var v := Render(Some(listing), postsToShow);
    forall p | p in v.grid ensures Storage.ListedBefore(v.featured, p) && p != v.featured {
      var i :| 0 <= i < |v.grid| && v.grid[i] == p;
      assert p == listing[i + 1];
    }
  }

  /**
   * `postsToShow` after the user presses "Load more" up to `clicks` times; the
   * button is only there, and so can only be pressed, while
   * `postsToShow < remaining`.
   */
  function AfterClicks(postsToShow: nat, remaining: nat, clicks: nat): (r: nat)
    decreases clicks
  {
    if clicks == 0 || remaining <= postsToShow then postsToShow
    else AfterClicks(LoadMore(postsToShow, remaining), remaining, clicks - 1)
  }

  /**
   * Pressing "Load more" never hides a post already shown, and enough presses
   * (one per three hidden posts, rounded up) show every remaining post, after
   * which the button is gone.
   */
  lemma {:induction false} ClicksRevealAll(postsToShow: nat, remaining: nat, clicks: nat)
    ensures Min(postsToShow, remaining) <= AfterClicks(postsToShow, remaining, clicks)
    ensures postsToShow < remaining ==> AfterClicks(postsToShow, remaining, clicks) <= remaining
    ensures LoadMoreStep * clicks >= remaining - postsToShow ==>
              Min(AfterClicks(postsToShow, remaining, clicks), remaining) == remaining
    decreases clicks
  {
    if clicks > 0 && postsToShow < remaining {
      ClicksRevealAll(LoadMore(postsToShow, remaining), remaining, clicks - 1);
    }
  }

  /** The page's own `postsToShow` state. */
  class HomeState {
    var postsToShow: nat

    constructor ()
      ensures postsToShow == InitialPostsToShow
    {
      postsToShow := InitialPostsToShow;
    }

    /** `loadMorePosts`, with `remaining` posts in the grid's source. */
    method LoadMorePosts(remaining: nat)
      modifies this
      ensures postsToShow == LoadMore(old(postsToShow), remaining)
    {
      postsToShow := Min(postsToShow + LoadMoreStep, remaining);
    }
  }
}
