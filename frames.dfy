/** `spConstraintHelper::bodyTrans`: the world transform of a rigid body,
    obtained by walking the scene graph's parent links and composing the
    transform of every `NiAVObject` met on the way.

    Blocks live in an arena indexed by block number; `parent` is what
    `NifModel::getParent` answers for that block (negative for a root).
    Transforms are an abstract type `T` with an abstract composition
    `compose(outer, inner)` standing for `Transform * Transform`. */
module Frames {

  datatype Block<T> = Block(parent: int, isAVObject: bool, isRigidBodyT: bool, local: T)

  /** `getParent(l)`: the parent link of block `l`, or -1 for a number that
      names no block. */
  function Parent<T>(arena: seq<Block<T>>, l: int): int {
    if 0 <= l < |arena| then arena[l].parent else -1
  }

  /** `getBlock(l, "NiAVObject")` is valid. */
  predicate AvAt<T>(arena: seq<Block<T>>, l: int) {
    0 <= l < |arena| && arena[l].isAVObject
  }

  /** Following parent links from `p` reaches a negative number within
      `fuel` links: the walk stops. */
  ghost predicate Reaches<T>(arena: seq<Block<T>>, p: int, fuel: nat)
    decreases fuel
  {
    p < 0 || (fuel > 0 && Reaches(arena, Parent(arena, p), fuel - 1))
  }

  /** The block numbers met by the walk from `p` on, `p` first. */
  ghost function Walk<T>(arena: seq<Block<T>>, p: int, fuel: nat): (w: seq<int>)
    ensures |w| <= fuel
    ensures forall k :: 0 <= k < |w| ==> w[k] >= 0
    decreases fuel
  {
    if p < 0 || fuel == 0 then [] else [p] + Walk(arena, Parent(arena, p), fuel - 1)
  }

  /** The ancestors of `body`, nearest first. */
  ghost function Ancestors<T>(arena: seq<Block<T>>, body: int, fuel: nat): seq<int> {
    Walk(arena, Parent(arena, body), fuel)
  }

  /** The transforms of the `NiAVObject` blocks among `ps`, in the order of `ps`. */
  function AvTransforms<T>(arena: seq<Block<T>>, ps: seq<int>): (ts: seq<T>)
    ensures |ts| <= |ps|
  {
    if ps == [] then []
    else
      var last := ps[|ps| - 1];
      AvTransforms(arena, ps[..|ps| - 1]) + (if AvAt(arena, last) then [arena[last].local] else [])
  }

  /** `ts[k-1] * ... * ts[0] * t0`: every transform of `ts` composed on the
      left, in order. */
  function Stack<T>(compose: (T, T) -> T, t0: T, ts: seq<T>): T {
    if ts == [] then t0 else compose(ts[|ts| - 1], Stack(compose, t0, ts[..|ts| - 1]))
  }

  /** Where the walk starts: the body's own transform for a `bhkRigidBodyT`,
      the identity otherwise. */
  function Start<T>(b: Block<T>, identity: T): T {
    if b.isRigidBodyT then b.local else identity
  }

  /** The `while ((l = getParent(l)) >= 0)` loop. `fuel` bounds the number of
      links followed; a cyclic parent chain, on which the loop never stops,
      has no such bound. */
  method BodyTrans<T>(arena: seq<Block<T>>, body: nat, identity: T, compose: (T, T) -> T, ghost fuel: nat)
    returns (t: T)
    requires body < |arena|
    requires Reaches(arena, Parent(arena, body), fuel)
    ensures t == Stack(compose, Start(arena[body], identity), AvTransforms(arena, Ancestors(arena, body, fuel)))
  {
    t := if arena[body].isRigidBodyT then arena[body].local else identity;
    ghost var t0 := t;
    ghost var f := fuel;
    ghost var visited: seq<int> := [];
    var l := Parent(arena, body);
    while l >= 0
      invariant Reaches(arena, l, f)
      invariant Ancestors(arena, body, fuel) == visited + Walk(arena, l, f)
      invariant t == Stack(compose, t0, AvTransforms(arena, visited))
      decreases f
    {
      ghost var ts := AvTransforms(arena, visited);
      assert (visited + [l])[..|visited|] == visited;
      if AvAt(arena, l) {
        t := compose(arena[l].local, t);
        assert AvTransforms(arena, visited + [l]) == ts + [arena[l].local];
        assert (ts + [arena[l].local])[..|ts|] == ts;
      } else {
        assert AvTransforms(arena, visited + [l]) == ts + [];
        assert ts + [] == ts;
      }
      visited := visited + [l];
      l := Parent(arena, l);
      f := f - 1;
    }
    assert visited + Walk(arena, l, f) == visited;
  }

  /** Composing outer transforms one by one equals composing their product
      with the start, when composition is associative with a left identity:
      the result is `A_k * ... * A_1 * t0`. */
  lemma {:induction false} StackIsProduct<T>(compose: (T, T) -> T, identity: T, t0: T, ts: seq<T>)
    requires forall a, b, c :: compose(compose(a, b), c) == compose(a, compose(b, c))
    requires forall a :: compose(identity, a) == a
    ensures Stack(compose, t0, ts) == compose(Stack(compose, identity, ts), t0)
  {
    if ts != [] {
      var init := ts[..|ts| - 1];
      StackIsProduct(compose, identity, t0, init);
      assert compose(ts[|ts| - 1], compose(Stack(compose, identity, init), t0))
          == compose(compose(ts[|ts| - 1], Stack(compose, identity, init)), t0);
    }
  }

  /** Blocks that are not `NiAVObject`s contribute nothing but do not stop
      the walk: the AV transforms of a walk are those of its AV blocks. */
  lemma {:induction false} AvTransformsSkipOthers<T>(arena: seq<Block<T>>, ps: seq<int>, qs: seq<int>)
    ensures AvTransforms(arena, ps + qs) == AvTransforms(arena, ps) + AvTransforms(arena, qs)
    decreases |qs|
  {
    if qs == [] {
      assert ps + qs == ps;
    } else {
      var init := qs[..|qs| - 1];
      assert (ps + qs)[..|ps + qs| - 1] == ps + init;
      AvTransformsSkipOthers(arena, ps, init);
    }
  }

  /** The walk visits each ancestor through one parent link: the first
      ancestor is the body's parent and each next one is the parent of the one
      before. */
  lemma {:induction false} WalkFollowsParents<T>(arena: seq<Block<T>>, p: int, fuel: nat)
    requires Reaches(arena, p, fuel)
    ensures var w := Walk(arena, p, fuel);
      && (p >= 0 ==> |w| > 0 && w[0] == p)
      && (forall k :: 0 < k < |w| ==> w[k] == Parent(arena, w[k - 1]))
      && (w != [] ==> Parent(arena, w[|w| - 1]) < 0)
    decreases fuel
  {
    if p >= 0 {
      WalkFollowsParents(arena, Parent(arena, p), fuel - 1);
    }
  }

  /** The fuel is only a bound: any bound that suffices gives the same walk. */
  lemma {:induction false} WalkFuelIrrelevant<T>(arena: seq<Block<T>>, p: int, fuel: nat, more: nat)
    requires Reaches(arena, p, fuel) && fuel <= more
    ensures Reaches(arena, p, more)
    ensures Walk(arena, p, fuel) == Walk(arena, p, more)
    decreases fuel
  {
    if p >= 0 {
      WalkFuelIrrelevant(arena, Parent(arena, p), fuel - 1, more - 1);
    }
  }
}
