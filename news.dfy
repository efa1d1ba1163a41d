/** The News screen of the main page: the fetched posts, the subset shown for the
    selected topic, the carousel index over that subset, and which of its four
    states the screen renders. */
module News {
  import opened Posts
  import opened Text
  import Carousel

  /** The topic under which no filtering happens. */
  const AllTopic: string := "ALL"

  /** `post.type && post.type.toUpperCase() === selectedTopic`: a missing or empty type is falsy,
      so a matching post has a type as long as the topic, and the empty topic matches nothing. */
  predicate HasTopic(p: Post, topic: string)
    ensures HasTopic(p, topic) ==> p.kind.Some? && |p.kind.value| == |topic| > 0
  {
    p.kind.Some? && p.kind.value != "" && ToUpper(p.kind.value) == topic
  }

  /** The posts the carousel shows for `topic`: never more than were fetched, and under
      a specific topic only posts of that topic. */
  function TopicFilter(data: seq<Post>, topic: string): (r: seq<Post>)
    ensures |r| <= |data|
    ensures topic != AllTopic ==> forall k :: 0 <= k < |r| ==> HasTopic(r[k], topic)
  {
    if topic == AllTopic then data else Filter(data, (p: Post) => HasTopic(p, topic))
  }

  /** Under 'ALL' the carousel shows the fetched list exactly, duplicates and order included. */
  lemma AllTopicShowsEverything(data: seq<Post>)
    ensures TopicFilter(data, AllTopic) == data
  {
  }

  /** Under any other topic the carousel shows, in their original order, exactly the posts
      whose type upper-cases to the topic, each as often as it was fetched. */
  lemma TopicFilterExact(data: seq<Post>, topic: string, p: Post)
    requires topic != AllTopic
    ensures IsSubsequence(TopicFilter(data, topic), data)
    ensures multiset(TopicFilter(data, topic))[p] == if HasTopic(p, topic) then multiset(data)[p] else 0
    ensures p in TopicFilter(data, topic) <==> p in data && HasTopic(p, topic)
  {
    FilterIsSubsequence(data, (q: Post) => HasTopic(q, topic));
    FilterMultiplicity(data, (q: Post) => HasTopic(q, topic), p);
  }

  /** A post whose type is missing or empty is never shown under a specific topic,
      not even under the empty topic name. */
  lemma UntypedPostHidden(data: seq<Post>, topic: string, p: Post)
    requires topic != AllTopic
    requires p.kind == None || p.kind == Some("")
    ensures p !in TopicFilter(data, topic)
  {
    TopicFilterExact(data, topic, p);
  }

  /** A type matches regardless of how it is capitalised: 'sports' and 'Sports' both show under 'SPORTS'. */
  lemma TypeCaseIgnored(p: Post, q: Post, topic: string)
    requires p.kind.Some? && q.kind.Some? && ToUpper(p.kind.value) == ToUpper(q.kind.value)
    ensures HasTopic(p, topic) <==> HasTopic(q, topic)
  {
    assert |p.kind.value| == |ToUpper(p.kind.value)| == |ToUpper(q.kind.value)| == |q.kind.value|;
  }

  /** A topic name holding an ASCII lower-case letter matches nothing, since upper-cased types never hold one. */
  lemma LowerCaseTopicMatchesNothing(data: seq<Post>, topic: string, i: int)
    requires topic != AllTopic
    requires 0 <= i < |topic| && 'a' <= topic[i] <= 'z'
    ensures TopicFilter(data, topic) == []
  {
    forall p: Post ensures !HasTopic(p, topic) {
      if p.kind.Some? && |p.kind.value| == |topic| {
        assert ToUpper(p.kind.value)[i] == UpperChar(p.kind.value[i]);
      }
    }
    FilterKeepsNone(data, (p: Post) => HasTopic(p, topic));
  }

  /** What the screen renders. */
  datatype NewsView = Spinner | ErrorText(message: string) | NoPosts | Cards(posts: seq<Post>)

  /** The screen's choice of what to render: the spinner while loading, then the error,
      then "No posts available for this topic." for an empty subset, and the carousel otherwise. */
  function Render(loading: bool, error: Option<string>, filteredData: seq<Post>): (v: NewsView)
    ensures loading <==> v == Spinner
    ensures v.ErrorText? <==> !loading && error.Some?
    ensures v.ErrorText? ==> v.message == error.value
    ensures v == NoPosts <==> !loading && error.None? && filteredData == []
    ensures v.Cards? ==> v.posts == filteredData && filteredData != []
  {
    if loading then Spinner
    else if error.Some? then ErrorText(error.value)
    else if |filteredData| == 0 && !loading then NoPosts
    else Cards(filteredData)
  }

  /** The mutable state of one News screen. `selectedTopic` is the prop passed by the main
      page; `isAnimating` is the flag set while the carousel spring runs; `springTarget`
      records the target of the last spring started, `None` while none has been. */
  class NewsScreen {
    var selectedTopic: string
    var data: seq<Post>
    var filteredData: seq<Post>
    var loading: bool
    var error: Option<string>
    var index: int
    var isAnimating: bool
    var springTarget: Option<int>

    /** The filtered list is always the topic filter of the fetched list, and the index
        always names a card (or is the 0 of an empty carousel). */
    ghost predicate Valid()
      reads this
    {
      filteredData == TopicFilter(data, selectedTopic) && Carousel.InRange(index, |filteredData|)
    }

    /** Mounting: nothing fetched yet, the spinner showing, the first card selected. */
    constructor (topic: string)
      ensures Valid()
      ensures selectedTopic == topic && data == [] && filteredData == []
      ensures loading && error == None && index == 0 && !isAnimating && springTarget == None
    {
      selectedTopic := topic;
      data := [];
      filteredData := [];
      loading := true;
      error := None;
      index := 0;
      isAnimating := false;
      springTarget := None;
    }

    /** The effect that runs whenever the topic or the fetched data changes:
        recompute the subset and go back to the first card. */
    method RefilterAndReset()
      modifies this
      ensures Valid()
      ensures filteredData == TopicFilter(data, selectedTopic) && index == 0
      ensures selectedTopic == old(selectedTopic) && data == old(data)
      ensures loading == old(loading) && error == old(error) && isAnimating == old(isAnimating)
      ensures springTarget == old(springTarget)
    {
      if selectedTopic == AllTopic {
        filteredData := data;
      } else {
        var topic := selectedTopic;
        filteredData := Filter(data, (p: Post) => HasTopic(p, topic));
      }
      index := 0;
    }

    /** The fetch on mount settles. A response replaces `data` (a new array, so the
        filter effect runs); a failure records the error. Either way loading ends. */
    method ReceiveFetch(outcome: FetchOutcome)
      requires Valid()
      modifies this
      ensures Valid()
      ensures !loading && selectedTopic == old(selectedTopic)
      ensures isAnimating == old(isAnimating) && springTarget == old(springTarget)
      ensures outcome.Fetched? ==> data == outcome.posts && index == 0 && error == old(error)
      ensures outcome.FetchFailed? ==> error == Some(LoadError) && data == old(data) && index == old(index)
    {
      match outcome {
        case Fetched(posts) =>
          data := posts;
          loading := false;
          RefilterAndReset();
        case FetchFailed =>
          error := Some(LoadError);
          loading := false;
      }
    }

    /** The main page passes a new topic. Setting the same topic again is not a change,
        so the filter effect does not run and the index is kept. */
    method SetTopic(topic: string)
      requires Valid()
      modifies this
      ensures Valid()
      ensures selectedTopic == topic && data == old(data)
      ensures loading == old(loading) && error == old(error)
      ensures isAnimating == old(isAnimating) && springTarget == old(springTarget)
      ensures topic != old(selectedTopic) ==> index == 0
      ensures topic == old(selectedTopic) ==> index == old(index) && filteredData == old(filteredData)
    {
      if topic != selectedTopic {
        selectedTopic := topic;
        RefilterAndReset();
      }
    }

    /** A pan gesture ends with horizontal velocity `v`. */
    method PanEnd(v: Carousel.Velocity)
      requires Valid()
      modifies this`index
      ensures Valid()
      ensures index == Carousel.SwipeStep(old(index), |filteredData|, isAnimating, v)
    {
      Carousel.SwipeStaysInRange(index, |filteredData|, isAnimating, v);
      index := Carousel.SwipeStep(index, |filteredData|, isAnimating, v);
    }

    /** The index effect starts the spring toward the current card and raises the guard. */
    method StartSpring()
      modifies this`isAnimating, this`springTarget
      ensures isAnimating && springTarget == Some(index)
    {
      isAnimating := true;
      springTarget := Some(index);
    }

    /** The spring's completion callback lowers the guard. */
    method SpringFinished()
      modifies this`isAnimating
      ensures !isAnimating
    {
      isAnimating := false;
    }

    /** What the screen renders in its current state. */
    function View(): (v: NewsView)
      reads this
      requires Valid()
      ensures v.Cards? ==> v.posts == filteredData && 0 <= index < |v.posts|
    {
      Render(loading, error, filteredData)
    }
  }
}
