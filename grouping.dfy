/**
 * The clustering loop shared by the line grouping and the margin grouping
 * of the extractor: elements are taken in order and each one joins the
 * current group when it is close enough to the group's FIRST element;
 * otherwise it starts a new group.
 */
module Grouping {

  function Flatten<T>(ss: seq<seq<T>>): seq<T>
  {
    if |ss| == 0 then [] else ss[0] + Flatten(ss[1..])
  }

  lemma {:induction false} FlattenAppend<T>(a: seq<seq<T>>, b: seq<seq<T>>)
    ensures Flatten(a + b) == Flatten(a) + Flatten(b)
    decreases |a|
  {
    if |a| > 0 {
      assert (a + b)[0] == a[0];
      assert (a + b)[1..] == a[1..] + b;
      FlattenAppend(a[1..], b);
    } else {
      assert a + b == b;
    }
  }

  /** Every member of a group is an element of the flattened list. */
  lemma {:induction false} FlattenMember<T>(groups: seq<seq<T>>, k: nat, j: nat)
    requires k < |groups| && j < |groups[k]|
    ensures groups[k][j] in Flatten(groups)
    decreases k
  {
    if k > 0 {
      FlattenMember(groups[1..], k - 1, j);
      assert groups[1..][k - 1] == groups[k];
    }
  }

  lemma {:induction false} FlattenLength<T>(groups: seq<seq<T>>)
    requires forall k :: 0 <= k < |groups| ==> |groups[k]| > 0
    ensures |groups| <= |Flatten(groups)|
    ensures |groups| == 0 <==> |Flatten(groups)| == 0
    decreases |groups|
  {
    if |groups| > 0 {
      FlattenLength(groups[1..]);
    }
  }

  /** The groups produced from `rest` while `cur` is the open group. */
  function ChunksFrom<T>(cur: seq<T>, rest: seq<T>, joins: (T, T) -> bool): (r: seq<seq<T>>)
    requires |cur| > 0
    ensures |r| > 0 && |r[0]| > 0 && r[0][0] == cur[0]
    ensures forall k :: 0 <= k < |r| ==> |r[k]| > 0
    decreases |rest|
  {
    if |rest| == 0 then [cur]
    else if joins(cur[0], rest[0]) then ChunksFrom(cur + [rest[0]], rest[1..], joins)
    else [cur] + ChunksFrom([rest[0]], rest[1..], joins)
  }

  /** One turn of a clustering loop that extends the open group. */
  lemma ChunksFromExtend<T>(cur: seq<T>, rest: seq<T>, joins: (T, T) -> bool)
    requires |cur| > 0 && |rest| > 0 && joins(cur[0], rest[0])
    ensures ChunksFrom(cur, rest, joins) == ChunksFrom(cur + [rest[0]], rest[1..], joins)
  {
  }

  /** One turn of a clustering loop that closes the open group. */
  lemma ChunksFromClose<T>(cur: seq<T>, rest: seq<T>, joins: (T, T) -> bool)
    requires |cur| > 0 && |rest| > 0 && !joins(cur[0], rest[0])
    ensures ChunksFrom(cur, rest, joins) == [cur] + ChunksFrom([rest[0]], rest[1..], joins)
  {
  }

  /** The groups of `s`, in order. */
  function Chunks<T>(s: seq<T>, joins: (T, T) -> bool): (r: seq<seq<T>>)
    ensures forall k :: 0 <= k < |r| ==> |r[k]| > 0
  {
    if |s| == 0 then [] else ChunksFrom([s[0]], s[1..], joins)
  }

  /** A correct clustering of `s`: the groups partition `s` in order, every member joins its group's head and every head was refused by the previous group. */
  ghost predicate IsClustering<T>(groups: seq<seq<T>>, s: seq<T>, joins: (T, T) -> bool)
  {
    Flatten(groups) == s
    && (forall k :: 0 <= k < |groups| ==> |groups[k]| > 0)
    && (forall k, j :: 0 <= k < |groups| && 1 <= j < |groups[k]| ==> joins(groups[k][0], groups[k][j]))
    && (forall k :: 1 <= k < |groups| ==> !joins(groups[k - 1][0], groups[k][0]))
  }

  lemma {:induction false} ChunksFromClustering<T>(cur: seq<T>, rest: seq<T>, joins: (T, T) -> bool)
    requires |cur| > 0
    requires forall j :: 1 <= j < |cur| ==> joins(cur[0], cur[j])
    ensures IsClustering(ChunksFrom(cur, rest, joins), cur + rest, joins)
    decreases |rest|
  {
    if |rest| == 0 {
      assert cur + rest == cur;
      assert Flatten([cur]) == cur + Flatten([cur][1..]);
    } else if joins(cur[0], rest[0]) {
      ChunksFromClustering(cur + [rest[0]], rest[1..], joins);
      assert cur + [rest[0]] + rest[1..] == cur + rest;
    } else {
      var tail := ChunksFrom([rest[0]], rest[1..], joins);
      ChunksFromClustering([rest[0]], rest[1..], joins);
      assert [rest[0]] + rest[1..] == rest;
      var r := [cur] + tail;
      assert r[1..] == tail;
      assert Flatten(r) == cur + Flatten(tail);
      forall k, j | 0 <= k < |r| && 1 <= j < |r[k]|
        ensures joins(r[k][0], r[k][j])
      {
        if k > 0 {
          assert r[k] == tail[k - 1];
        }
      }
      forall k | 1 <= k < |r|
        ensures !joins(r[k - 1][0], r[k][0])
      {
        if k > 1 {
          assert r[k - 1] == tail[k - 2] && r[k] == tail[k - 1];
        }
      }
    }
  }

  /** The chunking is a correct clustering of its input. */
  lemma ChunksClustering<T>(s: seq<T>, joins: (T, T) -> bool)
    ensures IsClustering(Chunks(s, joins), s, joins)
  {
    if |s| > 0 {
      ChunksFromClustering([s[0]], s[1..], joins);
      assert [s[0]] + s[1..] == s;
    }
  }

  /** When every element joins the head, there is a single group. */
  lemma {:induction false} ChunksFromAllJoin<T>(cur: seq<T>, rest: seq<T>, joins: (T, T) -> bool)
    requires |cur| > 0
    requires forall j :: 0 <= j < |rest| ==> joins(cur[0], rest[j])
    ensures ChunksFrom(cur, rest, joins) == [cur + rest]
    decreases |rest|
  {
    if |rest| > 0 {
      assert joins(cur[0], rest[0]);
      assert (cur + [rest[0]])[0] == cur[0];
      ChunksFromAllJoin(cur + [rest[0]], rest[1..], joins);
      assert cur + [rest[0]] + rest[1..] == cur + rest;
    } else {
      assert cur + rest == cur;
    }
  }
  /** When every element joins the first, the whole sequence is one group. */
  lemma ChunksAllJoin<T>(s: seq<T>, joins: (T, T) -> bool)
    requires |s| > 0
    requires forall j :: 0 < j < |s| ==> joins(s[0], s[j])
    ensures Chunks(s, joins) == [s]
  {
    forall j | 0 <= j < |s[1..]|
      ensures joins([s[0]][0], s[1..][j])
    {
      assert s[1..][j] == s[j + 1];
    }
    ChunksFromAllJoin([s[0]], s[1..], joins);
    assert [s[0]] + s[1..] == s;
  }

}
