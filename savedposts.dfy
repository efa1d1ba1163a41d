/** The Saved Posts screen: a carousel over the stored bookmarks, reloaded from storage
    when the screen mounts and every time it regains focus. */
module SavedPosts {
  import opened Posts
  import opened Storage
  import Carousel

  /** What the screen renders below its header. */
  datatype SavedView = NoSavedPosts | Cards(posts: seq<Post>)

  /** "No saved posts yet." for an empty list, the carousel over the list otherwise. */
  function Render(savedPosts: seq<Post>): (v: SavedView)
    ensures v == NoSavedPosts <==> savedPosts == []
    ensures v.Cards? ==> v.posts == savedPosts && |v.posts| > 0
  {
    if |savedPosts| == 0 then NoSavedPosts else Cards(savedPosts)
  }

  /** The mutable state of the screen. `springTarget` records the target of the last
      carousel spring started, `None` while none has been. */
  class SavedPostsScreen {
    var savedPosts: seq<Post>
    var index: int
    var isAnimating: bool
    var springTarget: Option<int>

    /** The index is never negative. It is not bounded by the list: a reload that
        shrinks the list leaves it where it was. */
    ghost predicate Valid()
      reads this
    {
      0 <= index
    }

    constructor ()
      ensures Valid()
      ensures savedPosts == [] && index == 0 && !isAnimating && springTarget == None
    {
      savedPosts := [];
      index := 0;
      isAnimating := false;
      springTarget := None;
    }

    /** `loadSavedPosts`, run on mount and by the focus listener on every focus: the list
        becomes the stored one (an absent value loads as []); the index is left alone.
        `readOk` is false when reading or parsing throws; the error is only logged. */
    method LoadSavedPosts(store: Store, readOk: bool)
      modifies this`savedPosts
      ensures readOk ==> savedPosts == StoredList(store.savedPosts)
      ensures !readOk ==> savedPosts == old(savedPosts)
      ensures index == old(index) && isAnimating == old(isAnimating)
    {
      if !readOk {
        return;
      }
      var posts := StoredList(store.savedPosts);
      savedPosts := posts;
    }

    /** A pan gesture ends with horizontal velocity `v`. */
    method PanEnd(v: Carousel.Velocity)
      requires Valid()
      modifies this`index
      ensures Valid()
      ensures index == Carousel.SwipeStep(old(index), |savedPosts|, isAnimating, v)
      ensures Carousel.InRange(old(index), |savedPosts|) ==> Carousel.InRange(index, |savedPosts|)
      ensures old(index) >= |savedPosts| && old(index) > 0 ==> index <= old(index)
    {
      if Carousel.InRange(index, |savedPosts|) {
        Carousel.SwipeStaysInRange(index, |savedPosts|, isAnimating, v);
      }
      index := Carousel.SwipeStep(index, |savedPosts|, isAnimating, v);
    }

    /** The index effect: with an empty list it returns at once; otherwise it starts the
        spring toward the current card and raises the guard. */
    method StartSpring()
      modifies this`isAnimating, this`springTarget
      ensures savedPosts == [] ==> isAnimating == old(isAnimating) && springTarget == old(springTarget)
      ensures savedPosts != [] ==> isAnimating && springTarget == Some(index)
    {
      if |savedPosts| == 0 {
        return;
      }
      isAnimating := true;
      springTarget := Some(index);
    }

    /** The spring's completion callback lowers the guard. */
    method SpringFinished()
      modifies this`isAnimating
      ensures !isAnimating
    {
      isAnimating := false;
    }

    /** What the screen renders in its current state. */
    function View(): (v: SavedView)
      reads this
      ensures v.Cards? <==> savedPosts != []
    {
      Render(savedPosts)
    }
  }
}
