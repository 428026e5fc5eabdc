/**
 * The topic list of frontend/src/GameRoom/Dashboard/HandsOnLearning/TopicsGrid.tsx: the fetched
 * lesson entries are filtered by subject and level, mapped to their topics, and passed through
 * `Array.from(new Set(...))`, which keeps the first occurrence of each topic in order.
 */
module TopicsGrid {
  datatype LessonEntry = LessonEntry(id: string, subject: string, topic: string, level: int)

  /** `data.filter(subject and level match).map(topic)`. */
  function MatchingTopics(data: seq<LessonEntry>, subject: string, level: int): (r: seq<string>)
    ensures |r| <= |data|
    decreases |data|
  {
    if data == [] then []
    else
      var rest := MatchingTopics(data[..|data| - 1], subject, level);
      var e := data[|data| - 1];
      if e.subject == subject && e.level == level then rest + [e.topic] else rest
  }

  /** A topic is matched exactly when some entry of the requested subject and level has it. */
  lemma {:induction false} MatchingTopicsExactly(data: seq<LessonEntry>, subject: string, level: int, t: string)
    ensures t in MatchingTopics(data, subject, level) <==>
      exists k :: 0 <= k < |data| && data[k].subject == subject && data[k].level == level && data[k].topic == t
    decreases |data|
  {
    if data != [] {
      var init := data[..|data| - 1];
      MatchingTopicsExactly(init, subject, level, t);
      if exists k :: 0 <= k < |init| && init[k].subject == subject && init[k].level == level && init[k].topic == t {
        var k :| 0 <= k < |init| && init[k].subject == subject && init[k].level == level && init[k].topic == t;
        assert data[k] == init[k];
      }
      if exists k :: 0 <= k < |data| && data[k].subject == subject && data[k].level == level && data[k].topic == t {
        var k :| 0 <= k < |data| && data[k].subject == subject && data[k].level == level && data[k].topic == t;
        if k < |init| {
          assert init[k] == data[k];
        }
      }
    }
  }

  /** The distinct elements in order of first occurrence, as a `Set` iterates them. */
  function Dedupe(s: seq<string>): (r: seq<string>)
    ensures |r| <= |s|
    decreases |s|
  {
    if s == [] then []
    else
      var rest := Dedupe(s[..|s| - 1]);
      if s[|s| - 1] in rest then rest else rest + [s[|s| - 1]]
  }

  predicate NoDuplicates(s: seq<string>)
  {
    forall i, j :: 0 <= i < j < |s| ==> s[i] != s[j]
  }

  /** The position of the first occurrence of `x` in `s`. */
  function FirstIndex(s: seq<string>, x: string): (i: nat)
    requires x in s
    ensures i < |s| && s[i] == x && x !in s[..i]
    decreases |s|
  {
    if s[0] == x then 0
    else
      assert x in s[1..];
      var j := FirstIndex(s[1..], x);
      assert s[..j + 1] == [s[0]] + s[1..][..j];
      j + 1
  }

  /** The first occurrence of `x` in `s` is also its first occurrence in any extension of `s`. */
  lemma FirstIndexPrefix(s: seq<string>, y: string, x: string)
    requires x in s
    ensures x in s + [y] && FirstIndex(s + [y], x) == FirstIndex(s, x)
  {
    var i := FirstIndex(s, x);
    assert (s + [y])[i] == x && (s + [y])[..i] == s[..i];
  }

  /** `Dedupe` keeps exactly the elements of its input, each once. */
  lemma {:induction false} DedupeElements(s: seq<string>)
    ensures forall x :: x in Dedupe(s) <==> x in s
    ensures NoDuplicates(Dedupe(s))
    decreases |s|
  {
    if s != [] {
      var init := s[..|s| - 1];
      DedupeElements(init);
      assert s == init + [s[|s| - 1]];
    }
  }

  /** The kept elements appear in the order of their first occurrences in the input. */
  lemma {:induction false} DedupeOrder(s: seq<string>)
    ensures forall x :: x in Dedupe(s) ==> x in s
    ensures forall i, j :: 0 <= i < j < |Dedupe(s)| ==> FirstIndex(s, Dedupe(s)[i]) < FirstIndex(s, Dedupe(s)[j])
    decreases |s|
  {
    DedupeElements(s);
    if s != [] {
      var init := s[..|s| - 1];
      var last := s[|s| - 1];
      DedupeOrder(init);
      DedupeElements(init);
      assert s == init + [last];
      var rest := Dedupe(init);
      var r := Dedupe(s);
      forall k | 0 <= k < |rest| ensures FirstIndex(s, rest[k]) == FirstIndex(init, rest[k]) {
        FirstIndexPrefix(init, last, rest[k]);
      }
      forall i, j | 0 <= i < j < |r| ensures FirstIndex(s, r[i]) < FirstIndex(s, r[j]) {
        if j < |rest| {
          assert r[i] == rest[i] && r[j] == rest[j];
        } else {
          // r[j] is `last`, met for the first time at the end of `s`
          assert r[j] == last && last !in init;
          assert FirstIndex(s, last) == |s| - 1;
          assert r[i] == rest[i] && r[i] in init;
          assert FirstIndex(s, r[i]) == FirstIndex(init, r[i]);
        }
      }
    }
  }

  /** The topics the grid shows. */
  function Topics(data: seq<LessonEntry>, subject: string, level: int): (r: seq<string>)
  {
    Dedupe(MatchingTopics(data, subject, level))
  }

  /**
   * Every shown topic belongs to an entry of the requested subject and level, every such
   * entry's topic is shown, no topic is shown twice, and there are at most as many topics as
   * matching entries.
   */
  lemma TopicsSound(data: seq<LessonEntry>, subject: string, level: int)
    ensures var r := Topics(data, subject, level);
      && NoDuplicates(r)
      && |r| <= |MatchingTopics(data, subject, level)|
      && (forall t :: t in r <==>
            exists k :: 0 <= k < |data| && data[k].subject == subject && data[k].level == level && data[k].topic == t)
  {
    var m := MatchingTopics(data, subject, level);
    DedupeElements(m);
    forall t ensures t in Dedupe(m) <==>
      exists k :: 0 <= k < |data| && data[k].subject == subject && data[k].level == level && data[k].topic == t
    {
      MatchingTopicsExactly(data, subject, level, t);
    }
  }

  /** The topics appear in the order their first matching entries appear. */
  lemma TopicsInFirstSeenOrder(data: seq<LessonEntry>, subject: string, level: int)
    ensures var m := MatchingTopics(data, subject, level);
      var r := Topics(data, subject, level);
      (forall x :: x in r ==> x in m) &&
      forall i, j :: 0 <= i < j < |r| ==> FirstIndex(m, r[i]) < FirstIndex(m, r[j])
  {
    DedupeOrder(MatchingTopics(data, subject, level));
  }
}
