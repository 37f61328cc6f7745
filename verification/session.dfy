/** The page's mutable state and the events that change it: per-category upload
    slots, the loaded model, and the generate button. Every asynchronous callback
    of index.js (FileReader, TextureLoader, GLTFLoader) is one discrete event. */
module Session {
  import opened Base
  import opened Upload
  import opened Textures
  import opened Meshes
  import opened Texturing

  const NotLoadedAlert: string := "Please ensure the model is loaded."

  const NoMatchAlert: string := "No matching meshes found or no textures uploaded. Check mesh names in console."

  /** What an upload slot displays: nothing selected, the preview of the stored
      image, or the inline validation error. */
  datatype View = Blank | Showing | Rejected(message: string)

  /** One category's upload slot: the stored image (`uploadedImages[c]`, a data
      URL), the prepared texture (`uploadedTexture<c>`), the view, and how many
      file reads and texture loads are still in flight. */
  datatype Slot = Slot(image: Option<string>, texture: Option<Texture>, view: View,
                       readsPending: nat, loadsPending: nat)

  const EmptySlot: Slot := Slot(None, None, Blank, 0, 0)

  datatype Slots = Slots(l: Slot, d: Slot, hl: Slot, f: Slot) {

    function Get(c: Category): Slot
    {
      match c
      case L => l
      case D => d
      case HL => hl
      case F => f
    }

    function With(c: Category, s: Slot): (r: Slots)
      ensures r.Get(c) == s
      ensures forall c' :: c' != c ==> r.Get(c') == Get(c')
    {
      match c
      case L => this.(l := s)
      case D => this.(d := s)
      case HL => this.(hl := s)
      case F => this.(f := s)
    }

    /** The non-null texture variables, as the generate handler reads them. */
    function PresentTextures(): (r: TextureTable)
      ensures forall c :: c in r <==> Get(c).texture.Some?
      ensures forall c :: c in r ==> r[c] == Get(c).texture.value
    {
      map c | c in AllCategories && Get(c).texture.Some? :: Get(c).texture.value
    }
  }

  /** The model load: in flight, succeeded with its (prepared) scene graph, or failed. */
  datatype ModelState = Loading | Ready(nodes: seq<Node>) | Failed

  /** Everything the page's script keeps between events. */
  datatype Page = Page(slots: Slots, model: ModelState, inScene: bool,
                       canvasVisible: bool, alerts: seq<string>)
  {
    /** The `modelLoaded` flag. */
    predicate ModelLoaded()
    {
      model.Ready?
    }
  }

  /** The page right after the script ran: nothing uploaded, the model load in
      flight, the model not in the scene, the canvas hidden. */
  const Start: Page := Page(Slots(EmptySlot, EmptySlot, EmptySlot, EmptySlot), Loading, false, false, [])

  /** Only category `c`'s slot may differ between `s` and `r`. */
  predicate OnlySlotChanged(s: Page, r: Page, c: Category)
  {
    && (forall c' :: c' != c ==> r.slots.Get(c') == s.slots.Get(c'))
    && r.model == s.model
    && r.inScene == s.inScene
    && r.canvasVisible == s.canvasVisible
    && r.alerts == s.alerts
  }

  /** `processFile`: a missing file does nothing; a valid one starts a read; an
      invalid one shows the error and hides the preview, but keeps the stored
      image and texture. */
  function ProcessFile(s: Page, c: Category, file: Option<File>): (r: Page)
    ensures OnlySlotChanged(s, r, c)
    ensures r.slots.Get(c).image == s.slots.Get(c).image
    ensures r.slots.Get(c).texture == s.slots.Get(c).texture
    ensures r.slots.Get(c).loadsPending == s.slots.Get(c).loadsPending
    ensures r.slots.Get(c).readsPending ==
              s.slots.Get(c).readsPending + (if file.Some? && Validate(file.value).Accept? then 1 else 0)
    ensures r.slots.Get(c).view ==
              (if file.Some? && Validate(file.value).Reject? then Rejected(InvalidImageMessage)
               else s.slots.Get(c).view)
  {
    var slot := s.slots.Get(c);
    match file
    case None => s
    case Some(f) =>
      match Validate(f)
      case Accept => s.(slots := s.slots.With(c, slot.(readsPending := slot.readsPending + 1)))
      case Reject(message) => s.(slots := s.slots.With(c, slot.(view := Rejected(message))))
  }

  /** The texture `change` handler of category `c`: any selected file starts a
      texture load; the validator is not consulted. */
  function StartTextureLoad(s: Page, c: Category, file: Option<File>): (r: Page)
    ensures OnlySlotChanged(s, r, c)
    ensures r.slots.Get(c) ==
              s.slots.Get(c).(loadsPending := s.slots.Get(c).loadsPending + (if file.Some? then 1 else 0))
  {
    if file.Some? then
      var slot := s.slots.Get(c);
      s.(slots := s.slots.With(c, slot.(loadsPending := slot.loadsPending + 1)))
    else s
  }

  /** The FileReader `onload` callback: store the data URL and show the preview. */
  function ReadComplete(s: Page, c: Category, dataUrl: string): (r: Page)
    requires s.slots.Get(c).readsPending > 0
    ensures OnlySlotChanged(s, r, c)
    ensures r.slots.Get(c).image == Some(dataUrl) && r.slots.Get(c).view == Showing
    ensures r.slots.Get(c).texture == s.slots.Get(c).texture
    ensures r.slots.Get(c).readsPending + 1 == s.slots.Get(c).readsPending
  {
    var slot := s.slots.Get(c);
    s.(slots := s.slots.With(c, slot.(image := Some(dataUrl), view := Showing,
                                      readsPending := slot.readsPending - 1)))
  }

  /** The TextureLoader success callback: the decoded texture, oriented, becomes
      category `c`'s texture, whatever was there before. */
  function TextureComplete(s: Page, c: Category, decoded: Texture): (r: Page)
    requires s.slots.Get(c).loadsPending > 0
    ensures OnlySlotChanged(s, r, c)
    ensures r.slots.Get(c).texture.Some?
    ensures Oriented(r.slots.Get(c).texture.value)
    ensures r.slots.Get(c).texture.value.bitmap == decoded.bitmap
    ensures r.slots.Get(c).image == s.slots.Get(c).image && r.slots.Get(c).view == s.slots.Get(c).view
    ensures r.slots.Get(c).loadsPending + 1 == s.slots.Get(c).loadsPending
  {
    var slot := s.slots.Get(c);
    s.(slots := s.slots.With(c, slot.(texture := Some(Orient(decoded)),
                                      loadsPending := slot.loadsPending - 1)))
  }

  /** The clear button: forget the image and the texture and show the blank
      slot. Reads and loads already in flight are not cancelled. */
  function Clear(s: Page, c: Category): (r: Page)
    ensures OnlySlotChanged(s, r, c)
    ensures r.slots.Get(c).image.None? && r.slots.Get(c).texture.None? && r.slots.Get(c).view == Blank
    ensures r.slots.Get(c).readsPending == s.slots.Get(c).readsPending
    ensures r.slots.Get(c).loadsPending == s.slots.Get(c).loadsPending
  {
    var slot := s.slots.Get(c);
    s.(slots := s.slots.With(c, slot.(image := None, texture := None, view := Blank)))
  }

  /** The click handler of the generate button. */
  function Generate(s: Page): (r: Page)
    ensures !s.ModelLoaded() ==> r == s.(alerts := s.alerts + [NotLoadedAlert])
    ensures s.ModelLoaded() ==>
              && r.slots == s.slots
              && r.inScene
              && r.model == Ready(RetextureAll(s.model.nodes, s.slots.PresentTextures()))
    ensures s.ModelLoaded() ==>
              var nodes := s.model.nodes;
              var hit := exists i :: 0 <= i < |nodes| && nodes[i].Mesh? &&
                           Classify(nodes[i].name).Some? && Classify(nodes[i].name).value in s.slots.PresentTextures();
              && (hit ==> r.canvasVisible && r.alerts == s.alerts)
              && (!hit ==> r.canvasVisible == s.canvasVisible && r.alerts == s.alerts + [NoMatchAlert])
  {
    match s.model
    case Ready(nodes) =>
      var tex := s.slots.PresentTextures();
      var shown := s.(model := Ready(RetextureAll(nodes, tex)), inScene := true);
      AppliedCountZeroIff(nodes, tex);
      if |Matching(nodes, tex)| == 0 then shown.(alerts := s.alerts + [NoMatchAlert])
      else shown.(canvasVisible := true)
    case _ => s.(alerts := s.alerts + [NotLoadedAlert])
  }

  /** No mesh matches exactly when no mesh's name is in the list of a category whose
      texture is present. */
  lemma AppliedCountZeroIff(nodes: seq<Node>, tex: TextureTable)
    ensures |Matching(nodes, tex)| == 0 <==>
              !exists i :: 0 <= i < |nodes| && nodes[i].Mesh? &&
                Classify(nodes[i].name).Some? && Classify(nodes[i].name).value in tex
  {
    var m := Matching(nodes, tex);
    if exists i :: 0 <= i < |nodes| && nodes[i].Mesh? &&
         Classify(nodes[i].name).Some? && Classify(nodes[i].name).value in tex {
      var i :| 0 <= i < |nodes| && nodes[i].Mesh? &&
                Classify(nodes[i].name).Some? && Classify(nodes[i].name).value in tex;
      ChainIsClassifyThenLookup(nodes[i].name, tex);
      MatchingMembers(nodes, tex, nodes[i].name);
    } else if |m| > 0 {
      MatchedNamesAreClassified(nodes, tex);
      MatchingMembers(nodes, tex, m[0]);
    }
  }

  /** The inputs the page reacts to, including the completion of every
      asynchronous request. */
  datatype Event =
    | InputChange(c: Category, file: Option<File>)   // a file chosen in c's file input
    | Drop(c: Category, file: Option<File>)          // a file dropped on c's container
    | ReadDone(c: Category, dataUrl: string)         // FileReader onload
    | ReadFailed(c: Category)                        // a read that never calls onload
    | TextureDone(c: Category, decoded: Texture)     // TextureLoader success
    | TextureFailed(c: Category)                     // TextureLoader error (logged only)
    | ClearClick(c: Category)
    | ModelDone(nodes: seq<Node>)                    // GLTFLoader success
    | ModelFailed                                    // GLTFLoader error (logged only)
    | GenerateClick

  /** A completion can only happen for a request still in flight. */
  predicate Enabled(s: Page, e: Event)
  {
    match e
    case ReadDone(c, _) => s.slots.Get(c).readsPending > 0
    case ReadFailed(c) => s.slots.Get(c).readsPending > 0
    case TextureDone(c, _) => s.slots.Get(c).loadsPending > 0
    case TextureFailed(c) => s.slots.Get(c).loadsPending > 0
    case ModelDone(_) => s.model.Loading?
    case ModelFailed => s.model.Loading?
    case _ => true
  }

  function Step(s: Page, e: Event): (r: Page)
    requires Enabled(s, e)
  {
    match e
    // Both `change` listeners run: processFile, then the texture load.
    case InputChange(c, file) => StartTextureLoad(ProcessFile(s, c, file), c, file)
    // Assigning `input.files` fires no `change` event, so no texture load starts.
    case Drop(c, file) => ProcessFile(s, c, file)
    case ReadDone(c, url) => ReadComplete(s, c, url)
    case ReadFailed(c) =>
      var slot := s.slots.Get(c);
      s.(slots := s.slots.With(c, slot.(readsPending := slot.readsPending - 1)))
    case TextureDone(c, t) => TextureComplete(s, c, t)
    case TextureFailed(c) =>
      var slot := s.slots.Get(c);
      s.(slots := s.slots.With(c, slot.(loadsPending := slot.loadsPending - 1)))
    case ClearClick(c) => Clear(s, c)
    case ModelDone(nodes) => s.(model := Ready(PrepareModel(nodes)))
    case ModelFailed => s.(model := Failed)
    case GenerateClick => Generate(s)
  }

  predicate Feasible(s: Page, trace: seq<Event>)
    decreases |trace|
  {
    trace == [] || (Enabled(s, trace[0]) && Feasible(Step(s, trace[0]), trace[1..]))
  }

  function Run(s: Page, trace: seq<Event>): Page
    requires Feasible(s, trace)
    decreases |trace|
  {
    if trace == [] then s else Run(Step(s, trace[0]), trace[1..])
  }
}
