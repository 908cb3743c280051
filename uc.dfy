/**
 * Tag search (src/uc.rs): a `Query` tree is lowered to an `Exp<Metadata>`
 * whose leaves are the store's buckets, then reduced and collected.
 */
module Uc {

  import opened Wrappers
  import D = Domain
  import opened Storage

  /** A boolean tag query: a single tag, or two queries combined by an operator. */
  datatype Query = Sing(tag: D.Tag) | Comb(op: D.Op, l: Query, r: Query)

  /** Reference semantics over the store contents: `x` is indexed under the tags the query asks for. */
  ghost predicate Matches(idx: Index, q: Query, x: D.Metadata) {
    match q
    case Sing(t) => t in idx && x in idx[t]
    case Comb(op, a, b) =>
      if op == D.And then Matches(idx, a, x) && Matches(idx, b, x)
      else Matches(idx, a, x) || Matches(idx, b, x)
  }

  /** The tags at the leaves of a query. */
  function LeafTags(q: Query): set<D.Tag> {
    match q
    case Sing(t) => {t}
    case Comb(_, a, b) => LeafTags(a) + LeafTags(b)
  }

  /** `new_exp`: each leaf becomes the set of its tag's bucket, or the empty set for an unknown tag. */
  function NewExp(s: Store, q: Query): (e: D.Exp<D.Metadata>)
    reads s
    ensures forall x :: D.Member(e, x) <==> Matches(s.metaIndex, q, x)
  {
    match q
    case Sing(tag) =>
      D.Sing(match s.GetByTag(tag)
             case Some(res) => D.Elements(res)
             case None => {})
    case Comb(op, q1, q2) => D.Comb(op, NewExp(s, q1), NewExp(s, q2))
  }

  /** The set `search_by_tag` collects its result from. */
  function Evaluate(s: Store, q: Query): (r: set<D.Metadata>)
    reads s
    ensures forall x :: x in r <==> Matches(s.metaIndex, q, x)
  {
    D.Reduce(NewExp(s, q))
  }

  predicate NoDuplicates(r: seq<D.Metadata>) {
    forall i, j :: 0 <= i < j < |r| ==> r[i] != r[j]
  }

  /**
   * `search_by_tag`: the elements of the reduced expression, each once, in an
   * order the model leaves open. The store is only read.
   */
  method SearchByTag(q: Query, s: Store) returns (r: seq<D.Metadata>)
    ensures forall x :: x in r <==> Matches(s.metaIndex, q, x)
    ensures NoDuplicates(r)
    ensures |r| == |Evaluate(s, q)|
  {
    var all := Evaluate(s, q);
    var rest := all;
    r := [];
    while rest != {}
      invariant rest <= all
      invariant forall x :: x in r <==> x in all && x !in rest
      invariant NoDuplicates(r)
      invariant |r| + |rest| == |all|
      decreases rest
    {
      var x :| x in rest;
      r := r + [x];
      rest := rest - {x};
    }
  }

  lemma SearchAbsentTag(s: Store, t: D.Tag)
    requires t !in s.metaIndex
    ensures Evaluate(s, Sing(t)) == {}
  {
  }

  /** A known tag yields exactly the elements of its bucket, duplicates merged. */
  lemma SearchPresentTag(s: Store, t: D.Tag)
    requires t in s.metaIndex
    ensures Evaluate(s, Sing(t)) == D.Elements(s.metaIndex[t])
  {
  }

  lemma SearchOr(s: Store, a: Query, b: Query)
    ensures Evaluate(s, Comb(D.Or, a, b)) == Evaluate(s, a) + Evaluate(s, b)
  {
    D.ReduceOr(NewExp(s, a), NewExp(s, b));
  }

  lemma SearchAnd(s: Store, a: Query, b: Query)
    ensures Evaluate(s, Comb(D.And, a, b)) == Evaluate(s, a) * Evaluate(s, b)
  {
    D.ReduceAnd(NewExp(s, a), NewExp(s, b));
  }

  /** Every result lies in the bucket of some tag at a leaf of the query. */
  lemma {:induction false} ResultInLeafBucket(idx: Index, q: Query, x: D.Metadata)
    requires Matches(idx, q, x)
    ensures exists t :: t in LeafTags(q) && t in idx && x in idx[t]
  {
    match q
    case Sing(t) =>
      assert t in LeafTags(q);
    case Comb(op, a, b) =>
      if Matches(idx, a, x) {
        ResultInLeafBucket(idx, a, x);
      } else {
        ResultInLeafBucket(idx, b, x);
      }
  }

  lemma SearchWithinLeafBuckets(s: Store, q: Query, x: D.Metadata)
    requires x in Evaluate(s, q)
    ensures exists t :: t in LeafTags(q) && t in s.metaIndex && x in s.metaIndex[t]
  {
    ResultInLeafBucket(s.metaIndex, q, x);
  }

  function Meta(title: string, tags: seq<D.Tag>): D.Metadata {
    D.Metadata(D.ArticleRef("", title), tags)
  }

  /** The documents of the tests `search_sing` and `search_comb`. */
  const M0 := Meta("title_0", ["tag_0"])
  const M1 := Meta("title_1", ["tag_1"])
  const M2 := Meta("title_2", ["tag_0", "tag_1"])

  /** The store of the test `search_sing`: `M0` and `M1` inserted in that order. */
  function SingIndex(): Index {
    Indexed(Indexed(map[], M0.tags, M0), M1.tags, M1)
  }

  /** The store of the test `search_comb`: `M0`, `M1` and `M2` inserted in that order. */
  function CombIndex(): Index {
    Indexed(SingIndex(), M2.tags, M2)
  }

  lemma SingIndexContents()
    ensures SingIndex() == map["tag_0" := [M0], "tag_1" := [M1]]
  {
    CombIndexFirst();
    CombIndexSecond();
  }

  lemma SingBuckets(s: Store)
    requires s.metaIndex == map["tag_0" := [M0], "tag_1" := [M1]]
    ensures Evaluate(s, Sing("bla")) == {}
    ensures Evaluate(s, Sing("tag_0")) == {M0}
    ensures Evaluate(s, Sing("tag_1")) == {M1}
  {
    SearchAbsentTag(s, "bla");
    SearchPresentTag(s, "tag_0");
    SearchPresentTag(s, "tag_1");
    assert D.Elements([M0]) == {M0};
    assert D.Elements([M1]) == {M1};
  }

  /** The test `search_sing`, on sets: an unknown tag finds nothing, each known tag its one document. */
  lemma SearchSingExample(s: Store)
    requires s.metaIndex == SingIndex()
    ensures Evaluate(s, Sing("bla")) == {}
    ensures Evaluate(s, Sing("tag_0")) == {M0}
    ensures Evaluate(s, Sing("tag_1")) == {M1}
  {
    SingIndexContents();
    SingBuckets(s);
  }

  /** Searches on a store holding the buckets that `M0` and `M1` produce. */
  method SearchSingOn(s: Store) returns (nothing: seq<D.Metadata>, r0: seq<D.Metadata>, r1: seq<D.Metadata>)
    requires s.metaIndex == map["tag_0" := [M0], "tag_1" := [M1]]
    ensures nothing == []
    ensures r0 == [M0]
    ensures r1 == [M1]
  {
    SingBuckets(s);
    nothing := SearchByTag(Sing("bla"), s);
    r0 := SearchByTag(Sing("tag_0"), s);
    r1 := SearchByTag(Sing("tag_1"), s);
    assert r0[0] in r0 && r1[0] in r1;
  }

  /**
   * The test `search_sing`: after inserting `M0` and `M1` into a new store, an
   * unknown tag finds nothing and each known tag finds exactly its one document.
   */
  method SearchSingResults() returns (nothing: seq<D.Metadata>, r0: seq<D.Metadata>, r1: seq<D.Metadata>)
    ensures nothing == []
    ensures r0 == [M0]
    ensures r1 == [M1]
  {
    var s := new Store();
    s.Insert(M0);
    s.Insert(M1);
    SingIndexContents();
    nothing, r0, r1 := SearchSingOn(s);
  }

  lemma CombIndexFirst()
    ensures Indexed(map[], M0.tags, M0) == map["tag_0" := [M0]]
  {
    IndexedShort(map[], "tag_0", "tag_0", M0);
  }

  lemma CombIndexSecond()
    ensures Indexed(map["tag_0" := [M0]], M1.tags, M1) == map["tag_0" := [M0], "tag_1" := [M1]]
  {
    IndexedShort(map["tag_0" := [M0]], "tag_1", "tag_1", M1);
  }

  lemma CombPushes()
    ensures Push(map["tag_0" := [M0], "tag_1" := [M1]], "tag_0", M2) == map["tag_0" := [M0, M2], "tag_1" := [M1]]
    ensures Push(map["tag_0" := [M0, M2], "tag_1" := [M1]], "tag_1", M2) == map["tag_0" := [M0, M2], "tag_1" := [M1, M2]]
  {
    assert [M0] + [M2] == [M0, M2];
    assert [M1] + [M2] == [M1, M2];
  }

  lemma CombIndexThird()
    ensures Indexed(map["tag_0" := [M0], "tag_1" := [M1]], M2.tags, M2) == map["tag_0" := [M0, M2], "tag_1" := [M1, M2]]
  {
    IndexedShort(map["tag_0" := [M0], "tag_1" := [M1]], "tag_0", "tag_1", M2);
    CombPushes();
  }

  lemma CombIndexContents()
    ensures CombIndex() == map["tag_0" := [M0, M2], "tag_1" := [M1, M2]]
  {
    SingIndexContents();
    CombIndexThird();
  }

  lemma CombBuckets(s: Store)
    requires s.metaIndex == map["tag_0" := [M0, M2], "tag_1" := [M1, M2]]
    ensures Evaluate(s, Sing("bla")) == {}
    ensures Evaluate(s, Sing("tag_0")) == {M0, M2}
    ensures Evaluate(s, Sing("tag_1")) == {M1, M2}
  {
    SearchAbsentTag(s, "bla");
    SearchPresentTag(s, "tag_0");
    SearchPresentTag(s, "tag_1");
    assert D.Elements([M0, M2]) == {M0, M2};
    assert D.Elements([M1, M2]) == {M1, M2};
  }

  /** The test `search_comb`: `Or` finds all three documents. */
  lemma SearchCombOrExample(s: Store)
    requires s.metaIndex == CombIndex()
    ensures Evaluate(s, Comb(D.Or, Sing("tag_0"), Sing("tag_1"))) == {M0, M1, M2}
  {
    CombIndexContents();
    CombBuckets(s);
    SearchOr(s, Sing("tag_0"), Sing("tag_1"));
  }

  /** The test `search_comb`: `And` finds only the document under both tags. */
  lemma SearchCombAndExample(s: Store)
    requires s.metaIndex == CombIndex()
    ensures Evaluate(s, Comb(D.And, Sing("tag_0"), Sing("tag_1"))) == {M2}
  {
    assert M0 != M1 && M0.tags != M2.tags && M1.tags != M2.tags;
    CombIndexContents();
    CombBuckets(s);
    SearchAnd(s, Sing("tag_0"), Sing("tag_1"));
  }
}
