/**
 * The record types shared by the indexing pipeline and the boolean tag-query
 * algebra `Exp` with its bottom-up evaluation `Reduce` (src/domain.rs).
 */
module Domain {

  import opened Wrappers

  type Path = string
  type Tag = string

  /** A document's identity: its path and its title. */
  datatype ArticleRef = ArticleRef(path: Path, title: string)

  /** A document together with the tags of its header, in header order. */
  datatype Metadata = Metadata(art: ArticleRef, tags: seq<Tag>)

  /** The instruction a parsed file change produces for the index. */
  datatype MetadataEvent =
    | Create(created: Metadata)
    | Move(src: Path, dst: Path)
    | Remove(removed: Path)
    | Changed(changed: Metadata)

  /** The kind of a raw file change. */
  datatype FileOp = Create | Remove | Write | Move

  /** A raw file change; `dst` is the new path of a move. */
  datatype FileEvent = FileEvent(op: FileOp, path: Path, dst: Option<Path>)

  datatype Op = And | Or

  /** The distinct elements of a sequence: what collecting it into a set keeps. */
  function Elements<T>(xs: seq<T>): set<T> {
    set x | x in xs
  }

  /** A query tree whose leaves are already-resolved sets. */
  datatype Exp<A> = Sing(s: set<A>) | Comb(op: Op, l: Exp<A>, r: Exp<A>)

  /** Number of nodes; the termination measure of the mutual recursion below. */
  function Size<A>(e: Exp<A>): (n: nat)
    ensures n >= 1
  {
    match e
    case Sing(_) => 1
    case Comb(_, a, b) => 1 + Size(a) + Size(b)
  }

  /** Reference semantics: `x` satisfies the boolean formula `e`. */
  predicate Member<A>(e: Exp<A>, x: A) {
    match e
    case Sing(s) => x in s
    case Comb(And, a, b) => Member(a, x) && Member(b, x)
    case Comb(Or, a, b) => Member(a, x) || Member(b, x)
  }

  /** `Exp::reduce`: a leaf evaluates to its set, an inner node through `Union` or `Inter`. */
  function Reduce<A(!new)>(e: Exp<A>): (r: set<A>)
    ensures forall x :: x in r <==> Member(e, x)
    decreases Size(e), 1
  {
    match e
    case Sing(s) => s
    case Comb(op, a, b) =>
      match op
      case Or => Union(a, b)
      case And => Inter(a, b)
  }

  /**
   * `Exp::inter`: two leaves are intersected; otherwise both sides are first
   * reduced to leaves and the leaf/leaf case is entered once.
   */
  function Inter<A(!new)>(a: Exp<A>, b: Exp<A>): (r: set<A>)
    ensures forall x :: x in r <==> Member(a, x) && Member(b, x)
    decreases Size(a) + Size(b), 0
  {
    match (a, b)
    case (Sing(x), Sing(y)) => x * y
    case _ => Inter(Sing(Reduce(a)), Sing(Reduce(b)))
  }

  /** `Exp::union`, shaped like `Inter`. */
  function Union<A(!new)>(a: Exp<A>, b: Exp<A>): (r: set<A>)
    ensures forall x :: x in r <==> Member(a, x) || Member(b, x)
    decreases Size(a) + Size(b), 0
  {
    match (a, b)
    case (Sing(x), Sing(y)) => x + y
    case _ => Union(Sing(Reduce(a)), Sing(Reduce(b)))
  }

  /**
   * `PartialEq for Exp`: two leaves compare their sets; any other pair is
   * compared through the leaves of their reductions.
   */
  function Equal<A(!new)>(a: Exp<A>, b: Exp<A>): (r: bool)
    ensures r <==> Reduce(a) == Reduce(b)
    decreases Size(a) + Size(b)
  {
    match (a, b)
    case (Sing(x), Sing(y)) => x == y
    case _ => Equal(Sing(Reduce(a)), Sing(Reduce(b)))
  }

  lemma ReduceSing<A(!new)>(s: set<A>)
    ensures Reduce(Sing(s)) == s
  {
  }

  lemma ReduceOr<A(!new)>(a: Exp<A>, b: Exp<A>)
    ensures Reduce(Comb(Or, a, b)) == Reduce(a) + Reduce(b)
  {
    assert forall x :: x in Reduce(Comb(Or, a, b)) <==> x in Reduce(a) + Reduce(b);
  }

  lemma ReduceAnd<A(!new)>(a: Exp<A>, b: Exp<A>)
    ensures Reduce(Comb(And, a, b)) == Reduce(a) * Reduce(b)
  {
    assert forall x :: x in Reduce(Comb(And, a, b)) <==> x in Reduce(a) * Reduce(b);
  }

  /** `union` and `inter` on any arguments equal their leaf/leaf case on the reductions. */
  lemma CombinatorsRecurseOnce<A(!new)>(a: Exp<A>, b: Exp<A>)
    ensures Union(a, b) == Union(Sing(Reduce(a)), Sing(Reduce(b))) == Reduce(a) + Reduce(b)
    ensures Inter(a, b) == Inter(Sing(Reduce(a)), Sing(Reduce(b))) == Reduce(a) * Reduce(b)
  {
    ReduceOr(a, b);
    ReduceAnd(a, b);
  }

  /** The test `eq_to_union_inter_reduce`: {1,3} or ({3,1,2} and {3,2,4}) is {1,2,3}. */
  lemma NestedExample()
    ensures Reduce(Comb(Or, Sing({1, 3}), Comb(And, Sing({3, 1, 2}), Sing({3, 2, 4})))) == {1, 2, 3}
  {
    var inner := Comb(And, Sing({3, 1, 2}), Sing({3, 2, 4}));
    ReduceAnd(Sing({3, 1, 2}), Sing({3, 2, 4}));
    assert Reduce(inner) == {2, 3};
    ReduceOr(Sing({1, 3}), inner);
  }

  /** An `And` result lies in each operand's result; each operand's result lies in the `Or` result. */
  lemma AndOrBounds<A(!new)>(a: Exp<A>, b: Exp<A>)
    ensures Reduce(Comb(And, a, b)) <= Reduce(a) && Reduce(Comb(And, a, b)) <= Reduce(b)
    ensures Reduce(a) <= Reduce(Comb(Or, a, b)) && Reduce(b) <= Reduce(Comb(Or, a, b))
  {
    ReduceAnd(a, b);
    ReduceOr(a, b);
  }

  lemma Commutative<A(!new)>(op: Op, a: Exp<A>, b: Exp<A>)
    ensures Equal(Comb(op, a, b), Comb(op, b, a))
  {
    ReduceOr(a, b);
    ReduceOr(b, a);
    ReduceAnd(a, b);
    ReduceAnd(b, a);
  }

  lemma Associative<A(!new)>(op: Op, a: Exp<A>, b: Exp<A>, c: Exp<A>)
    ensures Equal(Comb(op, Comb(op, a, b), c), Comb(op, a, Comb(op, b, c)))
  {
    ReduceOr(a, b);
    ReduceOr(Comb(Or, a, b), c);
    ReduceOr(b, c);
    ReduceOr(a, Comb(Or, b, c));
    ReduceAnd(a, b);
    ReduceAnd(Comb(And, a, b), c);
    ReduceAnd(b, c);
    ReduceAnd(a, Comb(And, b, c));
  }

  /** `Equal` is an equivalence relation. */
  lemma EqualIsEquivalence<A(!new)>(a: Exp<A>, b: Exp<A>, c: Exp<A>)
    ensures Equal(a, a)
    ensures Equal(a, b) ==> Equal(b, a)
    ensures Equal(a, b) && Equal(b, c) ==> Equal(a, c)
  {
  }

  /** On two leaves `Equal` is set equality. */
  lemma EqualOnLeaves<A(!new)>(x: set<A>, y: set<A>)
    ensures Equal(Sing(x), Sing(y)) <==> x == y
  {
  }

  /** Trees of different shape can be equal. */
  lemma ShapesCanDiffer()
    ensures Comb(Or, Sing({1}), Sing({2})) != Sing({1, 2})
    ensures Equal(Comb(Or, Sing({1}), Sing({2})), Sing({1, 2}))
  {
    ReduceOr(Sing({1}), Sing({2}));
  }
}
