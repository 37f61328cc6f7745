/** The texture-assignment pass of the generate handler: every mesh is matched
    against the four name lists through a first-match `else if` chain, receives at
    most one map, and the number of assignments is counted. */
module Texturing {
  import opened Base
  import opened Textures
  import opened Meshes

  /** The prepared textures at click time: a category is absent while its texture
      variable is `null`. */
  type TextureTable = map<Category, Texture>

  /** The `else if` chain as written: a list is tried only if its texture is present,
      and a miss falls through to the next list. */
  function ChainCategory(name: string, tex: TextureTable): (r: Option<Category>)
    ensures r.Some? ==> name in ListOf(r.value) && r.value in tex
  {
    if name in LMeshes && L in tex then Some(L)
    else if name in DMeshes && D in tex then Some(D)
    else if name in HLMeshes && HL in tex then Some(HL)
    else if name in FMeshes && F in tex then Some(F)
    else None
  }

  /** Because the lists are disjoint, the chain picks category `c` exactly when the
      name is in `c`'s list and `c`'s texture is present. */
  lemma ChainCategoryExact(name: string, tex: TextureTable, c: Category)
    ensures ChainCategory(name, tex) == Some(c) <==> name in ListOf(c) && c in tex
  {
    if name in ListOf(c) {
      OnlyList(name, c);
    }
  }

  lemma ChainCategoryAll(name: string, tex: TextureTable)
    ensures forall c :: ChainCategory(name, tex) == Some(c) <==> name in ListOf(c) && c in tex
  {
    forall c | true
      ensures ChainCategory(name, tex) == Some(c) <==> name in ListOf(c) && c in tex
    {
      ChainCategoryExact(name, tex, c);
    }
  }

  /** The chain equals "classify the name, then look the category's texture up". */
  lemma ChainIsClassifyThenLookup(name: string, tex: TextureTable)
    ensures ChainCategory(name, tex) ==
              (var k := Classify(name); if k.Some? && k.value in tex then k else None)
  {
    var k := Classify(name);
    if k.Some? {
      OnlyList(name, k.value);
    }
  }

  predicate Receives(n: Node, tex: TextureTable)
  {
    n.Mesh? && ChainCategory(n.name, tex).Some?
  }

  /** One step of the traversal: a mesh the chain picks gets that category's
      texture as its map and is marked for update; every other node is left as
      it was. */
  function Retexture(n: Node, tex: TextureTable): (r: Node)
    ensures r.name == n.name && r.Mesh? == n.Mesh?
  {
    match ChainCategory(n.name, tex)
    case Some(c) =>
      if n.Mesh? then Mesh(n.name, n.material.(surface := Some(tex[c]), needsUpdate := true)) else n
    case None => n
  }

  /** What one traversal step does to a node, stated through the lists: a mesh in
      `c`'s list gets `c`'s texture when it is present; a node whose name is in no
      list, or whose category has no texture, is untouched. */
  lemma RetextureEffect(n: Node, tex: TextureTable)
    ensures forall c :: n.Mesh? && n.name in ListOf(c) && c in tex ==>
              Retexture(n, tex).material == n.material.(surface := Some(tex[c]), needsUpdate := true)
    ensures n.Group? || Classify(n.name).None? ==> Retexture(n, tex) == n
    ensures n.Mesh? && (var k := Classify(n.name); k.Some? && k.value !in tex) ==> Retexture(n, tex) == n
  {
    ChainCategoryAll(n.name, tex);
    ChainIsClassifyThenLookup(n.name, tex);
  }

  /** What the generate traversal does to the `i`-th node of the model. */
  lemma RetextureAllEffect(nodes: seq<Node>, tex: TextureTable, i: int)
    requires 0 <= i < |nodes|
    ensures RetextureAll(nodes, tex)[i].name == nodes[i].name
    ensures RetextureAll(nodes, tex)[i].Mesh? == nodes[i].Mesh?
    ensures forall c :: nodes[i].Mesh? && nodes[i].name in ListOf(c) && c in tex ==>
              RetextureAll(nodes, tex)[i].material ==
                nodes[i].material.(surface := Some(tex[c]), needsUpdate := true)
    ensures nodes[i].Group? || Classify(nodes[i].name).None? ==> RetextureAll(nodes, tex)[i] == nodes[i]
    ensures nodes[i].Mesh? && (var k := Classify(nodes[i].name); k.Some? && k.value !in tex) ==>
              RetextureAll(nodes, tex)[i] == nodes[i]
  {
    RetextureEffect(nodes[i], tex);
  }

  function RetextureAll(nodes: seq<Node>, tex: TextureTable): (r: seq<Node>)
    ensures |r| == |nodes|
    ensures forall i :: 0 <= i < |nodes| ==> r[i] == Retexture(nodes[i], tex)
  {
    seq(|nodes|, i requires 0 <= i < |nodes| => Retexture(nodes[i], tex))
  }

  /** Names of the meshes in traversal order. */
  function MeshNames(nodes: seq<Node>): (r: seq<string>)
    ensures |r| <= |nodes|
  {
    if nodes == [] then []
    else
      var last := nodes[|nodes| - 1];
      MeshNames(nodes[..|nodes| - 1]) + (if last.Mesh? then [last.name] else [])
  }

  /** Names of the meshes that receive a map, in traversal order: the filter whose
      length the handler's `appliedCount` must equal. */
  function Matching(nodes: seq<Node>, tex: TextureTable): (r: seq<string>)
    ensures |r| <= |MeshNames(nodes)|
  {
    if nodes == [] then []
    else
      var last := nodes[|nodes| - 1];
      Matching(nodes[..|nodes| - 1], tex) + (if Receives(last, tex) then [last.name] else [])
  }

  /** The body of the traversal for one node: the `else if` chain over the four
      lists, each tried only when its texture is present. */
  method ApplyToNode(n: Node, tex: TextureTable) returns (next: Node, applied: bool)
    ensures next == Retexture(n, tex)
    ensures applied == Receives(n, tex)
  {
    next := n;
    applied := false;
    if n.Mesh? {
      var m := n.material;
      if n.name in LMeshes && L in tex {
        next := Mesh(n.name, m.(surface := Some(tex[L]), needsUpdate := true));
        applied := true;
      } else if n.name in DMeshes && D in tex {
        next := Mesh(n.name, m.(surface := Some(tex[D]), needsUpdate := true));
        applied := true;
      } else if n.name in HLMeshes && HL in tex {
        next := Mesh(n.name, m.(surface := Some(tex[HL]), needsUpdate := true));
        applied := true;
      } else if n.name in FMeshes && F in tex {
        next := Mesh(n.name, m.(surface := Some(tex[F]), needsUpdate := true));
        applied := true;
      }
    }
  }

  /** Extending the traversed prefix by one node adds one match iff that node is picked. */
  lemma MatchingSnoc(nodes: seq<Node>, tex: TextureTable, i: int)
    requires 0 <= i < |nodes|
    ensures |Matching(nodes[..i + 1], tex)| == |Matching(nodes[..i], tex)| + (if Receives(nodes[i], tex) then 1 else 0)
  {
    var prefix := nodes[..i + 1];
    assert prefix[..i] == nodes[..i] && prefix[i] == nodes[i];
  }

  /** The traversal of the generate handler, with its `appliedCount` counter: the
      counter ends equal to the number of matched meshes. */
  method ApplyTextures(nodes: seq<Node>, tex: TextureTable) returns (out: seq<Node>, appliedCount: nat)
    ensures out == RetextureAll(nodes, tex)
    ensures appliedCount == |Matching(nodes, tex)|
    ensures appliedCount <= |MeshNames(nodes)|
  {
    out := [];
    appliedCount := 0;
    var i := 0;
    while i < |nodes|
      invariant 0 <= i <= |nodes|
      invariant |out| == i
      invariant forall j :: 0 <= j < i ==> out[j] == Retexture(nodes[j], tex)
      invariant appliedCount == |Matching(nodes[..i], tex)|
    {
      MatchingSnoc(nodes, tex, i);
      var next, applied := ApplyToNode(nodes[i], tex);
      if applied {
        appliedCount := appliedCount + 1;
      }
      out := out + [next];
      i := i + 1;
    }
    assert nodes[..i] == nodes;
  }

  /** A name is in the matched list exactly when some mesh of that name has a
      category whose texture is present. */
  lemma {:induction false} MatchingMembers(nodes: seq<Node>, tex: TextureTable, x: string)
    ensures x in Matching(nodes, tex) <==>
              exists i :: 0 <= i < |nodes| && Receives(nodes[i], tex) && nodes[i].name == x
    decreases |nodes|
  {
    if nodes != [] {
      var init := nodes[..|nodes| - 1];
      var last := nodes[|nodes| - 1];
      var tail := if Receives(last, tex) then [last.name] else [];
      assert Matching(nodes, tex) == Matching(init, tex) + tail;
      MatchingMembers(init, tex, x);
      if x in Matching(init, tex) {
        var i :| 0 <= i < |init| && Receives(init[i], tex) && init[i].name == x;
        assert nodes[i] == init[i];
      } else if x in tail {
        assert Receives(nodes[|nodes| - 1], tex) && nodes[|nodes| - 1].name == x;
      } else {
        forall i | 0 <= i < |nodes| && Receives(nodes[i], tex)
          ensures nodes[i].name != x
        {
          if i < |nodes| - 1 {
            assert nodes[i] == init[i];
          }
        }
      }
    }
  }

  /** Every matched name is in the list of a category whose texture is present. */
  lemma {:induction false} MatchedNamesAreClassified(nodes: seq<Node>, tex: TextureTable)
    ensures forall k :: 0 <= k < |Matching(nodes, tex)| ==>
              Classify(Matching(nodes, tex)[k]).Some? && Classify(Matching(nodes, tex)[k]).value in tex
    decreases |nodes|
  {
    if nodes != [] {
      var last := nodes[|nodes| - 1];
      MatchedNamesAreClassified(nodes[..|nodes| - 1], tex);
      ChainIsClassifyThenLookup(last.name, tex);
    }
  }

  /** Names that are in no list are never textured. */
  lemma UnknownNamesNeverTextured(nodes: seq<Node>, tex: TextureTable, x: string)
    requires Classify(x).None?
    ensures x !in Matching(nodes, tex)
    ensures forall i :: 0 <= i < |nodes| && nodes[i].name == x ==> RetextureAll(nodes, tex)[i] == nodes[i]
  {
    MatchingMembers(nodes, tex, x);
  }

  /** With no texture prepared nothing matches. */
  lemma {:induction false} NoTexturesNoMatches(nodes: seq<Node>)
    ensures Matching(nodes, map[]) == []
    ensures RetextureAll(nodes, map[]) == nodes
    decreases |nodes|
  {
    if nodes != [] {
      NoTexturesNoMatches(nodes[..|nodes| - 1]);
    }
  }

  /** Names of the meshes whose name is in `names`, in traversal order. */
  function MeshesIn(nodes: seq<Node>, names: seq<string>): (r: seq<string>)
    ensures forall k :: 0 <= k < |r| ==> r[k] in names
  {
    if nodes == [] then []
    else
      var last := nodes[|nodes| - 1];
      MeshesIn(nodes[..|nodes| - 1], names) + (if last.Mesh? && last.name in names then [last.name] else [])
  }

  /** With exactly one category's texture prepared, the matched meshes are exactly
      the meshes in that category's list. */
  lemma {:induction false} SingleCategoryMatches(nodes: seq<Node>, tex: TextureTable, c: Category)
    requires tex.Keys == {c}
    ensures Matching(nodes, tex) == MeshesIn(nodes, ListOf(c))
    decreases |nodes|
  {
    if nodes != [] {
      var last := nodes[|nodes| - 1];
      SingleCategoryMatches(nodes[..|nodes| - 1], tex, c);
      ChainCategoryExact(last.name, tex, c);
      var r := ChainCategory(last.name, tex);
      if r.Some? {
        assert r.value in tex.Keys;
      }
    }
  }

  /** Applying the same textures twice yields the same materials as applying them once. */
  lemma RetextureIdempotent(nodes: seq<Node>, tex: TextureTable)
    ensures RetextureAll(RetextureAll(nodes, tex), tex) == RetextureAll(nodes, tex)
    ensures Matching(RetextureAll(nodes, tex), tex) == Matching(nodes, tex)
  {
    var once := RetextureAll(nodes, tex);
    forall i | 0 <= i < |nodes|
      ensures Retexture(once[i], tex) == once[i]
    {
      ChainIsClassifyThenLookup(nodes[i].name, tex);
    }
    MatchingSameNames(nodes, once, tex);
  }

  /** Matching depends only on which nodes are meshes and on their names. */
  lemma {:induction false} MatchingSameNames(a: seq<Node>, b: seq<Node>, tex: TextureTable)
    requires |a| == |b|
    requires forall i :: 0 <= i < |a| ==> a[i].name == b[i].name && a[i].Mesh? == b[i].Mesh?
    ensures Matching(a, tex) == Matching(b, tex)
    decreases |a|
  {
    if a != [] {
      MatchingSameNames(a[..|a| - 1], b[..|b| - 1], tex);
    }
  }
}
