/** `HavokMoppCode`: the interface to the external MOPP generator library,
    and the rule that decides whether a decomposition gets a MOPP tree.

    The library itself is not modelled: loading it is an input (the set of
    entry points it exports, or nothing when it does not load), and what it
    computes from the vertices it was given is a function parameter. */
module Mopp {
  import opened Wrappers
  import opened Geometry

  newtype byte = x: int | 0 <= x < 256

  /** The library's entry points the spells use. */
  datatype EntryPoint = GetMoppCodeEntry | AddVerticesEntry | ComputeMoppCodeEntry | FinalizeEntry

  class MoppGenerator {
    /** The library handle is set. */
    var loaded: bool
    /** The entry points that resolved when the library was loaded. */
    var resolved: set<EntryPoint>
    /** The vertex batches handed to `AddVertices`, in order. */
    var batches: seq<seq<Vec4>>

    constructor ()
      ensures !loaded && resolved == {} && batches == []
    {
      loaded := false;
      resolved := {};
      batches := [];
    }

    /** The three entry points a decomposition needs are all resolved. */
    predicate Ready()
      reads this
    {
      AddVerticesEntry in resolved && ComputeMoppCodeEntry in resolved && FinalizeEntry in resolved
    }

    /** Load the library if it is not loaded yet, resolving its entry points,
        and say whether the three entry points a decomposition needs are
        there. `library` is what loading yields this time: the exported entry
        points, or `None` when the library cannot be loaded, in which case no
        entry point resolves and the next call tries again. */
    method Initialize(library: Option<set<EntryPoint>>) returns (ok: bool)
      modifies this
      ensures old(loaded) ==> loaded && resolved == old(resolved)
      ensures !old(loaded) ==> loaded == library.Some? && resolved == (if library.Some? then library.value else {})
      ensures batches == old(batches)
      ensures ok == Ready()
    {
      if !loaded {
        loaded := library.Some?;
        resolved := if library.Some? then library.value else {};
      }
      ok := Ready();
    }

    /** `AddVertex`: hand one hull's vertices to the library. */
    method AddVertex(vertexIn: seq<Vec4>)
      requires AddVerticesEntry in resolved
      modifies this
      ensures batches == old(batches) + [vertexIn]
      ensures loaded == old(loaded) && resolved == old(resolved)
    {
      batches := batches + [vertexIn];
    }

    /** `RetrieveMoppCode`: ask the library for the code of the vertices it
        was given. `compute` is the code the library produces, whose length
        is the `nCodeOut` of `ComputeMoppCode`; a zero length yields an empty
        byte array, any other a buffer of exactly that length filled by
        `Finalize`. */
    method RetrieveMoppCode(compute: seq<seq<Vec4>> -> seq<byte>) returns (code: seq<byte>)
      requires ComputeMoppCodeEntry in resolved && FinalizeEntry in resolved
      ensures code == compute(batches)
    {
      var generated := compute(batches);
      var moppLen := |generated|;
      if moppLen > 0 {
        // `code.resize(moppLen)` and `Finalize` filling the buffer
        code := generated[..moppLen];
        return;
      }
      code := [];
    }
  }

  /** What became of the MOPP tree of a decomposition. */
  datatype MoppStatus =
    | NotRequested                 // four hull shapes or fewer
    | GenerationFailed             // "Failed to generate MOPP code"
    | Tree(code: seq<byte>)        // a bhkMoppBvTreeShape holding the code

  /** A MOPP tree is requested only for more than four hull shapes. */
  predicate WantsMopp(shapeCount: nat) {
    shapeCount > 4
  }

  /** The outcome of the MOPP step given the number of shapes and the code
      the library would return. */
  function MoppOutcome(shapeCount: nat, code: seq<byte>): (m: MoppStatus)
    ensures m.NotRequested? <==> shapeCount <= 4
    ensures m.GenerationFailed? <==> shapeCount > 4 && code == []
    ensures m.Tree? ==> m.code == code && |m.code| > 0
  {
    if !WantsMopp(shapeCount) then NotRequested
    else if |code| == 0 then GenerationFailed
    else Tree(code)
  }

  /** An entry point missing from the library makes every later
      `Initialize` fail: a loaded library is never reloaded. */
  method InitializeTwice(g: MoppGenerator, first: Option<set<EntryPoint>>, second: Option<set<EntryPoint>>)
    returns (ok1: bool, ok2: bool)
    requires !g.loaded && first.Some?
    modifies g
    ensures ok1 == ok2
    ensures ok1 <==> {AddVerticesEntry, ComputeMoppCodeEntry, FinalizeEntry} <= first.value
  {
    ok1 := g.Initialize(first);
    ok2 := g.Initialize(second);
  }
}
