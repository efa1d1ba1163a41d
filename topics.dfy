/** The topic selector above the News carousel: five topic buttons, the selected one,
    and the animation target (0 or 1) each button's background colour moves toward. */
module Topics {
  import opened Text

  /** The topics, in display order. */
  const TopicList: seq<string> := ["ALL", "POLITICS", "SPORTS", "MUSIC", "GAMES"]

  /** The topics as a set: the keys of the animation-target table. */
  function TopicSet(): set<string>
  {
    set t | t in TopicList
  }

  /** No two buttons share a topic, so each topic has exactly one animated value. */
  lemma TopicsDistinct(i: int, j: int)
    requires 0 <= i < |TopicList| && 0 <= j < |TopicList| && i != j
    ensures TopicList[i] != TopicList[j]
  {
  }

  /** Every topic is written in capitals, so a post whose type upper-cases to it can match it. */
  lemma TopicsUpperCase(t: string)
    requires t in TopicList
    ensures ToUpper(t) == t
  {
    UpperOfUpperCase(t);
  }

  /** The targets `handlePress(topic)` leaves behind: 1 for the pressed topic, 0 for every other. */
  function PressedTargets(topic: string): (m: map<string, int>)
    ensures m.Keys == TopicSet()
    ensures forall t :: t in m ==> (m[t] == 1 <==> t == topic) && (m[t] == 0 <==> t != topic)
  {
    map t | t in TopicList :: if t == topic then 1 else 0
  }

  /** After a press, the pressed topic is the one and only topic targeted 1. */
  lemma ExactlyOneTargeted(topic: string)
    requires topic in TopicList
    ensures (set t | t in TopicList && PressedTargets(topic)[t] == 1) == {topic}
  {
  }

  /** The text style a button gets: the selected style exactly for the selected topic. */
  predicate HasSelectedStyle(selected: string, topic: string)
  {
    selected == topic
  }

  /** At most one button of the list carries the selected text style. */
  lemma OneSelectedStyle(selected: string, i: int, j: int)
    requires 0 <= i < |TopicList| && 0 <= j < |TopicList|
    requires HasSelectedStyle(selected, TopicList[i]) && HasSelectedStyle(selected, TopicList[j])
    ensures i == j
  {
    if i != j {
      TopicsDistinct(i, j);
    }
  }

  /** The mutable state of the selector. */
  class TopicSelector {
    var selectedTopic: string
    var targets: map<string, int>

    /** There is one animated value per topic. */
    ghost predicate Valid()
      reads this
    {
      targets.Keys == TopicSet()
    }

    /** The background targets agree with the selection. */
    ghost predicate Settled()
      reads this
    {
      targets == PressedTargets(selectedTopic)
    }

    /** Mounting: 'ALL' is selected, yet every animated value, ALL's included, starts at 0,
        so the selection and the backgrounds disagree until the first press. */
    constructor ()
      ensures Valid() && selectedTopic == "ALL"
      ensures forall t :: t in targets ==> targets[t] == 0
      ensures !Settled()
    {
      selectedTopic := "ALL";
      targets := map t | t in TopicList :: 0;
      new;
      assert "ALL" in TopicList && targets["ALL"] == 0;
    }

    /** `handlePress(topic)`: select the topic, report it through `onTopicChange`
        (`notified`), target 1 for it and then 0 for every other topic, one by one. */
    method HandlePress(topic: string) returns (notified: string)
      requires Valid() && topic in TopicList
      modifies this
      ensures Valid() && Settled()
      ensures selectedTopic == topic && notified == topic
      ensures old(Settled()) && old(selectedTopic) == topic ==> targets == old(targets)
    {
      selectedTopic := topic;
      notified := topic;
      var values := targets[topic := 1];
      var i := 0;
      while i < |TopicList|
        invariant 0 <= i <= |TopicList|
        invariant values.Keys == TopicSet()
        invariant values[topic] == 1
        invariant forall j :: 0 <= j < i && TopicList[j] != topic ==> values[TopicList[j]] == 0
      {
        var t := TopicList[i];
        if t != topic {
          values := values[t := 0];
        }
        i := i + 1;
      }
      PressedTargetsUnique(values, topic);
      targets := values;
    }
  }

  /** A table over the topics that targets 1 for `topic` and 0 for every other topic is `PressedTargets(topic)`. */
  lemma PressedTargetsUnique(m: map<string, int>, topic: string)
    requires m.Keys == TopicSet() && topic in m && m[topic] == 1
    requires forall j :: 0 <= j < |TopicList| && TopicList[j] != topic ==> m[TopicList[j]] == 0
    ensures m == PressedTargets(topic)
  {
    var p := PressedTargets(topic);
    forall t | t in m
      ensures m[t] == p[t]
    {
      var j :| 0 <= j < |TopicList| && TopicList[j] == t;
    }
  }
}
