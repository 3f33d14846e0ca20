/** Putting a course's lessons under its topics: two result sets stitched in one pass. */
module Curriculum {
  import opened Prelude
  import opened Quiz

  datatype Lesson = Lesson(id: Id, topic: Id, position: int)

  datatype Topic = Topic(id: Id, position: int, lessons: seq<Lesson>)

  /** The lessons of one topic, in the order they came. */
  function Of(lessons: seq<Lesson>, topic: Id): seq<Lesson> {
    if lessons == [] then []
    else
      var last := lessons[|lessons| - 1];
      Of(lessons[..|lessons| - 1], topic) + (if last.topic == topic then [last] else [])
  }

  function Stitched(topics: seq<Topic>, lessons: seq<Lesson>): seq<Topic> {
    Each(topics, (t: Topic) => t.(lessons := Of(lessons, t.id)))
  }

  // ---- The stitching ----

  /** Appends each lesson to its topic's list; a topic without lessons has no entry. */
  method ByTopic(lessons: seq<Lesson>) returns (byTopic: map<Id, seq<Lesson>>)
    ensures forall topic :: Under(byTopic, topic) == Of(lessons, topic)
  {
    byTopic := map[];
    for i := 0 to |lessons|
      invariant forall topic :: Under(byTopic, topic) == Of(lessons[..i], topic)
    {
      var l := lessons[i];
      assert lessons[..i + 1][..i] == lessons[..i];
      ghost var before := byTopic;
      byTopic := byTopic[l.topic := Under(byTopic, l.topic) + [l]];
      forall topic ensures Under(byTopic, topic) == Of(lessons[..i + 1], topic) {
        assert Under(before, topic) == Of(lessons[..i], topic);
      }
    }
    assert lessons[..|lessons|] == lessons;
  }

  /** Go's nil slice for a missing key. */
  function Under(byTopic: map<Id, seq<Lesson>>, topic: Id): seq<Lesson> {
    if topic in byTopic then byTopic[topic] else []
  }

  method Stitch(topics: array<Topic>, lessons: seq<Lesson>)
    modifies topics
    ensures topics[..] == Stitched(old(topics[..]), lessons)
  {
    var byTopic := ByTopic(lessons);
    for i := 0 to topics.Length
      invariant forall k :: 0 <= k < i ==> topics[k] == Stitched(old(topics[..]), lessons)[k]
      invariant forall k :: i <= k < topics.Length ==> topics[k] == old(topics[..])[k]
    {
      topics[i] := topics[i].(lessons := Under(byTopic, topics[i].id));
    }
  }

  // ---- What it keeps ----

  /** A topic's lessons keep the order the query gave them. */
  lemma {:induction false} LessonsStayInOrder(lessons: seq<Lesson>, topic: Id)
    requires forall i, j :: 0 <= i < j < |lessons| && lessons[i].topic == lessons[j].topic ==>
      lessons[i].position < lessons[j].position
    ensures forall i, j :: 0 <= i < j < |Of(lessons, topic)| ==>
      Of(lessons, topic)[i].position < Of(lessons, topic)[j].position
    ensures forall i :: 0 <= i < |Of(lessons, topic)| ==>
      Of(lessons, topic)[i].topic == topic && Of(lessons, topic)[i] in lessons
  {
    if lessons != [] {
      var init := lessons[..|lessons| - 1];
      LessonsStayInOrder(init, topic);
      forall i | 0 <= i < |Of(init, topic)|
        ensures Of(init, topic)[i] in lessons
        ensures lessons[|lessons| - 1].topic == topic ==>
          Of(init, topic)[i].position < lessons[|lessons| - 1].position
      {
        var k :| 0 <= k < |init| && init[k] == Of(init, topic)[i];
        assert lessons[k] == init[k];
      }
    }
  }

  /** Every lesson shown, topic by topic. */
  function Shown(topics: seq<Topic>): seq<Lesson> {
    if topics == [] then [] else topics[0].lessons + Shown(topics[1..])
  }

  function Within(lessons: seq<Lesson>, ids: set<Id>): seq<Lesson> {
    if lessons == [] then []
    else
      var last := lessons[|lessons| - 1];
      Within(lessons[..|lessons| - 1], ids) + (if last.topic in ids then [last] else [])
  }

  lemma {:induction false} OneTopicMore(lessons: seq<Lesson>, ids: set<Id>, topic: Id)
    requires topic !in ids
    ensures multiset(Within(lessons, ids + {topic})) == multiset(Within(lessons, ids)) + multiset(Of(lessons, topic))
  {
    if lessons != [] {
      OneTopicMore(lessons[..|lessons| - 1], ids, topic);
    }
  }

  lemma {:induction false} AllWithin(lessons: seq<Lesson>, ids: set<Id>)
    requires forall l :: l in lessons ==> l.topic in ids
    ensures Within(lessons, ids) == lessons
  {
    if lessons != [] {
      var init, last := lessons[..|lessons| - 1], lessons[|lessons| - 1];
      assert lessons == init + [last];
      AllWithin(init, ids);
    }
  }

  lemma {:induction false} NoneWithin(lessons: seq<Lesson>)
    ensures Within(lessons, {}) == []
  {
    if lessons != [] {
      NoneWithin(lessons[..|lessons| - 1]);
    }
  }

  function TopicIds(topics: seq<Topic>): seq<Id> {
    Each(topics, (t: Topic) => t.id)
  }

  lemma {:induction false} ShownAreWithin(topics: seq<Topic>, lessons: seq<Lesson>)
    requires Distinct(TopicIds(topics))
    ensures multiset(Shown(Stitched(topics, lessons))) == multiset(Within(lessons, Elements(TopicIds(topics))))
  {
    if topics == [] {
      NoneWithin(lessons);
      assert Elements(TopicIds(topics)) == {};
    } else {
      var rest := topics[1..];
      assert TopicIds(topics) == [topics[0].id] + TopicIds(rest);
      assert forall i :: 0 <= i < |rest| ==> TopicIds(rest)[i] == TopicIds(topics)[i + 1];
      ShownAreWithin(rest, lessons);
      assert Stitched(topics, lessons)[1..] == Stitched(rest, lessons);
      assert Elements(TopicIds(topics)) == Elements(TopicIds(rest)) + {topics[0].id};
      OneTopicMore(lessons, Elements(TopicIds(rest)), topics[0].id);
    }
  }

  /** Under distinct topics every lesson is shown once: none is lost, and none twice. */
  lemma EveryLessonIsShownOnce(topics: seq<Topic>, lessons: seq<Lesson>)
    requires Distinct(TopicIds(topics))
    requires forall l :: l in lessons ==> l.topic in TopicIds(topics)
    ensures multiset(Shown(Stitched(topics, lessons))) == multiset(lessons)
  {
    ShownAreWithin(topics, lessons);
    AllWithin(lessons, Elements(TopicIds(topics)));
  }
}
