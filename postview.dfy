/** The Post View screen's bookmark button: whether the viewed post is saved, and the
    toggle that removes it from, or appends it to, the stored list of saved posts. */
module PostView {
  import opened Posts
  import opened Storage

  /** `savedPosts.some((p) => p.id === id)`. */
  predicate IsSavedIn(list: seq<Post>, id: string)
  {
    exists k :: 0 <= k < |list| && list[k].id == id
  }

  /** The list `toggleSave` writes back: while saved, every entry with the post's id is
      dropped; otherwise the post is pushed on the end. */
  function Toggled(list: seq<Post>, post: Post, isSaved: bool): (r: seq<Post>)
    ensures isSaved ==> |r| <= |list| && forall k :: 0 <= k < |r| ==> r[k].id != post.id
    ensures !isSaved ==> |r| == |list| + 1 && r[|list|] == post
  {
    if isSaved then Filter(list, (p: Post) => p.id != post.id) else list + [post]
  }

  /** Unsaving removes every entry with the post's id and keeps every other entry,
      in order and as often as before. */
  lemma UnsaveRemovesAll(list: seq<Post>, post: Post, q: Post)
    ensures !IsSavedIn(Toggled(list, post, true), post.id)
    ensures IsSubsequence(Toggled(list, post, true), list)
    ensures q.id != post.id ==> multiset(Toggled(list, post, true))[q] == multiset(list)[q]
  {
    FilterIsSubsequence(list, (p: Post) => p.id != post.id);
    FilterMultiplicity(list, (p: Post) => p.id != post.id, q);
  }

  /** Saving appends the post after the existing entries, which are left as they were. */
  lemma SaveAppends(list: seq<Post>, post: Post)
    ensures |Toggled(list, post, false)| == |list| + 1
    ensures Toggled(list, post, false)[..|list|] == list
    ensures Toggled(list, post, false)[|list|] == post
    ensures IsSavedIn(Toggled(list, post, false), post.id)
  {
    assert Toggled(list, post, false)[|list|].id == post.id;
  }

  /** A stale "not saved" flag for a post already in the list makes the toggle append a
      second entry with the same id, which is why unsaving drops every such entry. */
  lemma StaleFlagDuplicates(list: seq<Post>, post: Post)
    requires IsSavedIn(list, post.id)
    ensures exists k :: 0 <= k < |list| && Toggled(list, post, false)[k].id == post.id
    ensures Toggled(list, post, false)[|list|].id == post.id
  {
    var k :| 0 <= k < |list| && list[k].id == post.id;
    assert Toggled(list, post, false)[k] == list[k];
  }

  /** If the flag agreed with the stored list before a toggle, the flipped flag agrees
      with the list the toggle writes. */
  lemma ToggleKeepsAgreement(list: seq<Post>, post: Post, isSaved: bool)
    requires isSaved == IsSavedIn(list, post.id)
    ensures !isSaved == IsSavedIn(Toggled(list, post, isSaved), post.id)
  {
    if isSaved {
      UnsaveRemovesAll(list, post, post);
    } else {
      SaveAppends(list, post);
    }
  }

  /** Saving a post that is not in the list and then unsaving it restores the list exactly. */
  lemma SaveThenUnsaveRestores(list: seq<Post>, post: Post)
    requires !IsSavedIn(list, post.id)
    ensures Toggled(Toggled(list, post, false), post, true) == list
  {
    var keep := (p: Post) => p.id != post.id;
    FilterAppend(list, [post], keep);
    FilterKeepsAll(list, keep);
    assert Filter([post], keep) == [];
  }

  /** One open Post View screen. */
  class PostViewScreen {
    const post: Post
    var isSaved: bool

    /** The bookmark flag agrees with the stored list. */
    ghost predicate Agrees(store: Store)
      reads this, store
    {
      isSaved == IsSavedIn(StoredList(store.savedPosts), post.id)
    }

    /** Opening the screen: the flag starts false until the check has run. */
    constructor (post: Post)
      ensures this.post == post && !isSaved
    {
      this.post := post;
      isSaved := false;
    }

    /** `checkIfSaved`: read the stored list and set the flag to whether it holds the
        post's id. `readOk` is false when reading or parsing the value throws; the error
        is only logged. */
    method CheckIfSaved(store: Store, readOk: bool)
      modifies this`isSaved
      ensures readOk ==> Agrees(store)
      ensures !readOk ==> isSaved == old(isSaved)
    {
      if !readOk {
        return;
      }
      var savedPosts := StoredList(store.savedPosts);
      isSaved := IsSavedIn(savedPosts, post.id);
    }

    /** `toggleSave`: read the list, drop or append the post according to the flag, write
        the list back, and only then flip the flag. `readOk` and `writeOk` are false when
        the read (or parse) or the write throws; nothing changes then. */
    method ToggleSave(store: Store, readOk: bool, writeOk: bool)
      modifies this`isSaved, store
      ensures readOk && writeOk ==> store.savedPosts == Some(Toggled(StoredList(old(store.savedPosts)), post, old(isSaved)))
      ensures readOk && writeOk ==> isSaved == !old(isSaved)
      ensures !(readOk && writeOk) ==> store.savedPosts == old(store.savedPosts) && isSaved == old(isSaved)
      ensures old(Agrees(store)) ==> Agrees(store)
    {
      if !readOk {
        return;
      }
      var savedPosts := StoredList(store.savedPosts);
      if isSaved {
        var id := post.id;
        savedPosts := Filter(savedPosts, (p: Post) => p.id != id);
      } else {
        savedPosts := savedPosts + [post];
      }
      if !writeOk {
        return;
      }
      if Agrees(store) {
        ToggleKeepsAgreement(StoredList(store.savedPosts), post, isSaved);
      }
      store.savedPosts := Some(savedPosts);
      isSaved := !isSaved;
    }
  }
}
