/** The on-device key-value store, reduced to the one key the app uses, 'savedPosts',
    whose value is the JSON text of a list of posts. The text and its parsing are not
    modelled: the key holds either nothing or the list itself. */
module Storage {
  import opened Posts

  class Store {
    /** The value under 'savedPosts': `None` when the key was never written. */
    var savedPosts: Option<seq<Post>>

    constructor (initial: Option<seq<Post>>)
      ensures savedPosts == initial
    {
      savedPosts := initial;
    }
  }

  /** `saved ? JSON.parse(saved) : []`: an absent value reads as the empty list,
      a present one as the stored list, verbatim and in order. */
  function StoredList(value: Option<seq<Post>>): (r: seq<Post>)
    ensures value.None? ==> r == []
    ensures value.Some? ==> r == value.value
  {
    match value
    case None => []
    case Some(posts) => posts
  }
}
