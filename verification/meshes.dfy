/** The mesh classification tables of index.js and the material preparation the
    model-load callback runs on every mesh. Meshes are known by name only. */
module Meshes {
  import opened Base
  import opened Textures

  /** Names the generate handler textures with the L (wall tile) image. */
  const LMeshes: seq<string> := ["L001", "L002", "L003", "L004", "L005", "L006", "L007", "L008",
                                 "L009", "L010", "L011", "L012", "L013", "L014", "L015", "L016",
                                 "L017", "L018", "L019", "L020", "L021", "L022", "L023", "L024",
                                 "L025", "L026", "L027", "L028", "L029", "L030", "L031", "L032"]

  const DMeshes: seq<string> := ["D001", "D002", "D003", "D004", "D005", "D006", "D007", "D008"]

  const HLMeshes: seq<string> := ["HL001", "HL002", "HL003", "HL004", "HL005", "HL006", "HL007", "HL008",
                                  "HL009", "HL010"]

  const FMeshes: seq<string> := ["F001", "F002", "F003", "F004", "F005", "F006", "F007", "F008"]

  /** The 48 names the model-load callback prepares as tiles; no HL name is among them. */
  const TileNames: seq<string> := ["D001", "D002", "D003", "D004", "D005", "D006", "D007", "D008",
                                   "L001", "L002", "L003", "L004", "L005", "L006", "L007", "L008",
                                   "L009", "L010", "L011", "L012", "L013", "L014", "L015", "L016",
                                   "L017", "L018", "L019", "L020", "L021", "L022", "L023", "L024",
                                   "L025", "L026", "L027", "L028", "L029", "L030", "L031", "L032",
                                   "F001", "F002", "F003", "F004", "F005", "F006", "F007", "F008"]

  function ListOf(c: Category): seq<string>
  {
    match c
    case L => LMeshes
    case D => DMeshes
    case HL => HLMeshes
    case F => FMeshes
  }

  /** The first letter every name of a category's list starts with. */
  function Initial(c: Category): char
  {
    match c
    case L => 'L'
    case D => 'D'
    case HL => 'H'
    case F => 'F'
  }

  lemma ListNamesStartWithInitial(c: Category, name: string)
    requires name in ListOf(c)
    ensures |name| > 0 && name[0] == Initial(c)
  {
    match c
    case L => LNamesStartWithL(name);
    case D => DNamesStartWithD(name);
    case HL => HLNamesStartWithH(name);
    case F => FNamesStartWithF(name);
  }

  lemma LNamesStartWithL(name: string)
    requires name in LMeshes
    ensures |name| > 0 && name[0] == 'L'
  {
  }

  lemma DNamesStartWithD(name: string)
    requires name in DMeshes
    ensures |name| > 0 && name[0] == 'D'
  {
  }

  lemma HLNamesStartWithH(name: string)
    requires name in HLMeshes
    ensures |name| > 0 && name[0] == 'H'
  {
  }

  lemma FNamesStartWithF(name: string)
    requires name in FMeshes
    ensures |name| > 0 && name[0] == 'F'
  {
  }

  /** No name belongs to two categories' lists. */
  lemma ListsDisjoint(c1: Category, c2: Category, name: string)
    requires name in ListOf(c1) && name in ListOf(c2)
    ensures c1 == c2
  {
    ListNamesStartWithInitial(c1, name);
    ListNamesStartWithInitial(c2, name);
  }

  /** A name in category `c`'s list is in no other list. */
  lemma OnlyList(name: string, c: Category)
    requires name in ListOf(c)
    ensures name in LMeshes <==> c == L
    ensures name in DMeshes <==> c == D
    ensures name in HLMeshes <==> c == HL
    ensures name in FMeshes <==> c == F
  {
    ListNamesStartWithInitial(c, name);
    if name in LMeshes { ListNamesStartWithInitial(L, name); }
    if name in DMeshes { ListNamesStartWithInitial(D, name); }
    if name in HLMeshes { ListNamesStartWithInitial(HL, name); }
    if name in FMeshes { ListNamesStartWithInitial(F, name); }
  }

  /** The tile list is exactly the D, L and F lists, in that order. */
  lemma TileNamesAreDLF()
    ensures TileNames == DMeshes + LMeshes + FMeshes
  {
  }

  lemma TileNameIff(name: string)
    ensures name in TileNames <==> name in LMeshes || name in DMeshes || name in FMeshes
  {
    TileNamesAreDLF();
  }

  /** The category whose list holds `name`, if any. */
  function Classify(name: string): (r: Option<Category>)
    ensures r.Some? ==> name in ListOf(r.value)
    ensures r.None? <==> forall c :: name !in ListOf(c)
  {
    if name in LMeshes then Some(L)
    else if name in DMeshes then Some(D)
    else if name in HLMeshes then Some(HL)
    else if name in FMeshes then Some(F)
    else None
  }

  /** Every name that is in some list classifies as exactly that list's category. */
  lemma ClassifyExact(name: string, c: Category)
    ensures Classify(name) == Some(c) <==> name in ListOf(c)
  {
    if name in ListOf(c) {
      ListsDisjoint(Classify(name).value, c, name);
    }
  }

  /** How the load callback left a material: untouched as authored in the model
      file, or prepared along the "tile" or the "wall" branch. */
  datatype Finish = Authored | Tile | Wall

  /** A mesh material. `standard` is true when its `type` is exactly
      "MeshStandardMaterial" (a subclass such as MeshPhysicalMaterial is not
      standard by that test); `surface` is its `map` property, the surface
      texture. Colours and reflectance constants are not modelled. */
  datatype Material = Material(standard: bool, finish: Finish, surface: Option<Texture>, needsUpdate: bool)

  /** A node of the loaded scene graph: only meshes carry a material. */
  datatype Node = Group(name: string) | Mesh(name: string, material: Material)

  /** One branch of the load callback: a MeshStandardMaterial is cloned and keeps
      its map; any other material is replaced by a fresh MeshStandardMaterial,
      which has none. Either way the material is marked for update. */
  function PrepareMaterial(tile: bool, m: Material): (r: Material)
    ensures r.standard && r.needsUpdate
    ensures r.finish == (if tile then Tile else Wall)
    ensures m.standard ==> r.surface == m.surface
    ensures !m.standard ==> r.surface.None?
  {
    var kept := if m.standard then m.surface else None;
    Material(true, if tile then Tile else Wall, kept, true)
  }

  function PrepareNode(n: Node): (r: Node)
    ensures r.name == n.name && r.Mesh? == n.Mesh?
    ensures r.Group? ==> r == n
  {
    match n
    case Group(_) => n
    case Mesh(name, m) => Mesh(name, PrepareMaterial(name in TileNames, m))
  }

  /** The `traverse` of the model-load callback. */
  function PrepareModel(nodes: seq<Node>): (r: seq<Node>)
    ensures |r| == |nodes|
    ensures forall i :: 0 <= i < |nodes| ==> r[i] == PrepareNode(nodes[i])
  {
    seq(|nodes|, i requires 0 <= i < |nodes| => PrepareNode(nodes[i]))
  }

  /** A mesh takes the tile branch exactly when its name is an L, D or F name;
      every mesh ends up a standard material marked for update. */
  lemma PreparedFinish(nodes: seq<Node>, i: int)
    requires 0 <= i < |nodes| && nodes[i].Mesh?
    ensures PrepareModel(nodes)[i].material.standard
    ensures PrepareModel(nodes)[i].material.needsUpdate
    ensures PrepareModel(nodes)[i].material.finish == Tile <==>
              (var c := Classify(nodes[i].name); c.Some? && c.value != HL)
    ensures PrepareModel(nodes)[i].material.finish == Wall <==>
              (var c := Classify(nodes[i].name); c.None? || c.value == HL)
  {
    TileNameIff(nodes[i].name);
  }

  /** HL meshes are never prepared as tiles. */
  lemma HLMeshesAreWalls(name: string, m: Material)
    requires name in HLMeshes
    ensures PrepareNode(Mesh(name, m)).material.finish == Wall
  {
    TileNameIff(name);
    ListNamesStartWithInitial(HL, name);
    if name in LMeshes { ListNamesStartWithInitial(L, name); }
    if name in DMeshes { ListNamesStartWithInitial(D, name); }
    if name in FMeshes { ListNamesStartWithInitial(F, name); }
  }
}
