/**
 * The tag index `Store` (src/storage.rs): one map from tag to the sequence of
 * `Metadata` inserted under it, in insertion order.
 */
module Storage {

  import opened Wrappers
  import opened Domain

  type Index = map<Tag, seq<Metadata>>

  /** Number of occurrences of `t` in `tags`. */
  function Count(tags: seq<Tag>, t: Tag): (n: nat)
    ensures n <= |tags|
    ensures n > 0 <==> t in tags
  {
    if tags == [] then 0
    else Count(tags[..|tags| - 1], t) + (if tags[|tags| - 1] == t then 1 else 0)
  }

  /** `n` copies of `m`. */
  function Repeat(m: Metadata, n: nat): (r: seq<Metadata>)
    ensures |r| == n
    ensures forall i :: 0 <= i < n ==> r[i] == m
  {
    if n == 0 then [] else Repeat(m, n - 1) + [m]
  }

  /** The bucket of `t`, the empty sequence when `t` is not a key. */
  function Bucket(idx: Index, t: Tag): seq<Metadata> {
    if t in idx then idx[t] else []
  }

  /**
   * Closed form of the index after `m` has been appended once to the bucket of
   * each element of `tags`: every bucket grows by as many copies of `m` as its
   * tag occurs in `tags`, and a bucket is created for each new tag.
   */
  function Indexed(idx: Index, tags: seq<Tag>, m: Metadata): Index {
    map t | t in idx.Keys + Elements(tags) :: Bucket(idx, t) + Repeat(m, Count(tags, t))
  }

  /** The bucket of a key of `Indexed`. */
  lemma IndexedAt(idx: Index, tags: seq<Tag>, m: Metadata, u: Tag)
    requires u in idx || u in tags
    ensures u in Indexed(idx, tags, m)
    ensures Indexed(idx, tags, m)[u] == Bucket(idx, u) + Repeat(m, Count(tags, u))
  {
  }

  /** One step of the insert loop: append `m` to the bucket of `t`, creating it if missing. */
  function Push(idx: Index, t: Tag, m: Metadata): (r: Index)
    ensures r.Keys == idx.Keys + {t}
    ensures r[t] == Bucket(idx, t) + [m]
    ensures forall u :: u in idx && u != t ==> r[u] == idx[u]
  {
    if t in idx then idx[t := idx[t] + [m]] else idx[t := [m]]
  }

  /** Every key holds a non-empty bucket. */
  ghost predicate NonEmptyBuckets(idx: Index) {
    forall t :: t in idx ==> |idx[t]| > 0
  }

  lemma IndexedEmpty(idx: Index, m: Metadata)
    ensures Indexed(idx, [], m) == idx
  {
    var r := Indexed(idx, [], m);
    assert Elements<Tag>([]) == {};
    assert r.Keys == idx.Keys;
    forall u | u in idx
      ensures r[u] == idx[u]
    {
      assert Repeat(m, Count([], u)) == [];
    }
  }

  lemma CountSnoc(tags: seq<Tag>, t: Tag, u: Tag)
    ensures Count(tags + [t], u) == Count(tags, u) + (if t == u then 1 else 0)
  {
    assert (tags + [t])[..|tags|] == tags;
  }

  lemma ElementsSnoc(tags: seq<Tag>, t: Tag)
    ensures Elements(tags + [t]) == Elements(tags) + {t}
  {
  }

  /** `Push` appends `m` to the bucket of `t` and leaves the other buckets alone. */
  lemma PushBucket(idx: Index, t: Tag, m: Metadata, u: Tag)
    ensures Bucket(Push(idx, t, m), u) == if u == t then Bucket(idx, t) + [m] else Bucket(idx, u)
  {
  }

  /** Handling one more tag of the loop, for the bucket of that tag. */
  lemma StepAtSame(idx: Index, tags: seq<Tag>, t: Tag, m: Metadata)
    ensures Bucket(Indexed(idx, tags + [t], m), t) == Bucket(Push(Indexed(idx, tags, m), t, m), t)
  {
    var n := Count(tags, t);
    CountSnoc(tags, t, t);
    calc {
      Bucket(Indexed(idx, tags + [t], m), t);
      { IndexedBucket(idx, tags + [t], m, t); }
      Bucket(idx, t) + Repeat(m, n + 1);
      { assert Repeat(m, n + 1) == Repeat(m, n) + [m]; }
      (Bucket(idx, t) + Repeat(m, n)) + [m];
      { IndexedBucket(idx, tags, m, t); }
      Bucket(Indexed(idx, tags, m), t) + [m];
      { PushBucket(Indexed(idx, tags, m), t, m, t); }
      Bucket(Push(Indexed(idx, tags, m), t, m), t);
    }
  }

  /** Handling one more tag of the loop, for the buckets of the other tags. */
  lemma StepAtOther(idx: Index, tags: seq<Tag>, t: Tag, m: Metadata, u: Tag)
    requires u != t
    ensures Bucket(Indexed(idx, tags + [t], m), u) == Bucket(Push(Indexed(idx, tags, m), t, m), u)
  {
    CountSnoc(tags, t, u);
    IndexedBucket(idx, tags + [t], m, u);
    IndexedBucket(idx, tags, m, u);
    PushBucket(Indexed(idx, tags, m), t, m, u);
  }

  /** Handling one more tag of the loop is one `Push`. */
  lemma {:induction false} IndexedStep(idx: Index, tags: seq<Tag>, t: Tag, m: Metadata)
    ensures Indexed(idx, tags + [t], m) == Push(Indexed(idx, tags, m), t, m)
  {
    var lhs, rhs := Indexed(idx, tags + [t], m), Push(Indexed(idx, tags, m), t, m);
    ElementsSnoc(tags, t);
    assert lhs.Keys == rhs.Keys;
    forall u | u in lhs
      ensures lhs[u] == rhs[u]
    {
      if u == t {
        StepAtSame(idx, tags, t, m);
      } else {
        StepAtOther(idx, tags, t, m, u);
      }
    }
  }

  /** The index after pushing `m` under each element of `tags`, one at a time, from the first. */
  function Pushed(idx: Index, tags: seq<Tag>, m: Metadata): Index {
    if tags == [] then idx else Push(Pushed(idx, tags[..|tags| - 1], m), tags[|tags| - 1], m)
  }

  /** The loop invariant of `Insert` is kept by one iteration. */
  lemma PushedPrefixStep(idx: Index, tags: seq<Tag>, i: nat, m: Metadata)
    requires i < |tags|
    ensures Pushed(idx, tags[..i + 1], m) == Push(Pushed(idx, tags[..i], m), tags[i], m)
  {
    assert tags[..i + 1][..i] == tags[..i];
  }

  /** Pushing tag by tag yields the closed form. */
  lemma {:induction false} PushedIsIndexed(idx: Index, tags: seq<Tag>, m: Metadata)
    ensures Pushed(idx, tags, m) == Indexed(idx, tags, m)
  {
    if tags == [] {
      IndexedEmpty(idx, m);
    } else {
      var init := tags[..|tags| - 1];
      PushedIsIndexed(idx, init, m);
      assert init + [tags[|tags| - 1]] == tags;
      IndexedStep(idx, init, tags[|tags| - 1], m);
    }
  }

  /** What an insert into a store with non-empty buckets leaves behind. */
  lemma InsertOutcome(idx: Index, m: Metadata)
    requires NonEmptyBuckets(idx)
    ensures Pushed(idx, m.tags, m) == Indexed(idx, m.tags, m)
    ensures NonEmptyBuckets(Indexed(idx, m.tags, m))
    ensures EachEndsWith(Indexed(idx, m.tags, m), m.tags, m)
  {
    PushedIsIndexed(idx, m.tags, m);
    IndexedNonEmpty(idx, m.tags, m);
    IndexedLast(idx, m.tags, m);
  }

  /** Inserting under one or two tags is one or two pushes. */
  lemma IndexedShort(idx: Index, t1: Tag, t2: Tag, m: Metadata)
    ensures Indexed(idx, [t1], m) == Push(idx, t1, m)
    ensures Indexed(idx, [t1, t2], m) == Push(Push(idx, t1, m), t2, m)
  {
    IndexedEmpty(idx, m);
    IndexedStep(idx, [], t1, m);
    assert [] + [t1] == [t1];
    IndexedStep(idx, [t1], t2, m);
    assert [t1] + [t2] == [t1, t2];
  }

  /** The keys after an insert are the old keys together with the inserted tags. */
  lemma IndexedKeys(idx: Index, tags: seq<Tag>, m: Metadata)
    ensures Indexed(idx, tags, m).Keys == idx.Keys + Elements(tags)
  {
  }

  /** Each bucket keeps its old contents as a prefix and grows by one copy of `m` per occurrence of its tag. */
  lemma IndexedBucket(idx: Index, tags: seq<Tag>, m: Metadata, t: Tag)
    ensures Bucket(Indexed(idx, tags, m), t) == Bucket(idx, t) + Repeat(m, Count(tags, t))
    ensures |Bucket(Indexed(idx, tags, m), t)| == |Bucket(idx, t)| + Count(tags, t)
    ensures Bucket(idx, t) <= Bucket(Indexed(idx, tags, m), t)
  {
  }

  /** Tags that are not inserted keep their bucket, or stay absent. */
  lemma IndexedUntouched(idx: Index, tags: seq<Tag>, m: Metadata, t: Tag)
    requires t !in tags
    ensures t in Indexed(idx, tags, m) <==> t in idx
    ensures t in idx ==> Indexed(idx, tags, m)[t] == idx[t]
  {
  }

  /** Every tag of `tags` has a bucket in `idx` whose last element is `m`. */
  ghost predicate EachEndsWith(idx: Index, tags: seq<Tag>, m: Metadata) {
    forall t :: t in tags ==> t in idx && |idx[t]| > 0 && idx[t][|idx[t]| - 1] == m
  }

  /** After an insert every inserted tag is present and its bucket ends with `m`. */
  lemma IndexedLast(idx: Index, tags: seq<Tag>, m: Metadata)
    ensures EachEndsWith(Indexed(idx, tags, m), tags, m)
  {
    forall t | t in tags
      ensures t in Indexed(idx, tags, m)
      ensures Indexed(idx, tags, m)[t] == Bucket(idx, t) + Repeat(m, Count(tags, t))
    {
      IndexedAt(idx, tags, m, t);
    }
  }

  /** Inserting keeps every bucket non-empty. */
  lemma IndexedNonEmpty(idx: Index, tags: seq<Tag>, m: Metadata)
    requires NonEmptyBuckets(idx)
    ensures NonEmptyBuckets(Indexed(idx, tags, m))
  {
  }

  /** No deduplication: inserting the same metadata twice stores it twice under each of its tags. */
  lemma {:induction false} InsertTwiceStoresTwice(idx: Index, m: Metadata, t: Tag)
    requires t in m.tags
    ensures var twice := Indexed(Indexed(idx, m.tags, m), m.tags, m);
            |twice[t]| == |Bucket(idx, t)| + 2 * Count(m.tags, t) &&
            twice[t][|twice[t]| - 1] == m && twice[t][|twice[t]| - 1 - Count(m.tags, t)] == m
  {
    var once := Indexed(idx, m.tags, m);
    var twice := Indexed(once, m.tags, m);
    var n := Count(m.tags, t);
    IndexedBucket(idx, m.tags, m, t);
    IndexedBucket(once, m.tags, m, t);
    assert twice[t] == Bucket(idx, t) + Repeat(m, n) + Repeat(m, n);
  }

  class Store {
    var metaIndex: Index

    ghost predicate Valid()
      reads this
    {
      NonEmptyBuckets(metaIndex)
    }

    /** `Store::new`: no tags at all. */
    constructor ()
      ensures Valid()
      ensures metaIndex == map[]
      ensures forall t :: GetByTag(t) == None
    {
      metaIndex := map[];
    }

    /** `Store::insert`: append `m` to the bucket of each of its tags, in order. */
    method Insert(m: Metadata)
      requires Valid()
      modifies this
      ensures Valid()
      ensures metaIndex == Indexed(old(metaIndex), m.tags, m)
      ensures EachEndsWith(metaIndex, m.tags, m)
    {
      var i := 0;
      while i < |m.tags|
        invariant 0 <= i <= |m.tags|
        invariant metaIndex == Pushed(old(metaIndex), m.tags[..i], m)
      {
        var t := m.tags[i];
        PushedPrefixStep(old(metaIndex), m.tags, i, m);
        if t in metaIndex {
          metaIndex := metaIndex[t := metaIndex[t] + [m]];
        } else {
          metaIndex := metaIndex[t := [m]];
        }
        i := i + 1;
      }
      assert m.tags[..i] == m.tags;
      InsertOutcome(old(metaIndex), m);
    }

    /** `Store::get_by_tag`: a copy of the bucket of `tag`, or `None` when it is not a key. */
    function GetByTag(tag: Tag): (r: Option<seq<Metadata>>)
      reads this
      ensures r.None? <==> tag !in metaIndex
      ensures r.Some? ==> r.value == Bucket(metaIndex, tag)
      ensures Valid() && r.Some? ==> |r.value| > 0
    {
      if tag in metaIndex then Some(metaIndex[tag]) else None
    }
  }
}
