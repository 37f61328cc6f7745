/** Properties of the page that span several events: what uploads, drops,
    clears and late completions do to a category's slot, and what the generate
    button reports. */
module Behaviour {
  import opened Base
  import opened Upload
  import opened Textures
  import opened Meshes
  import opened Texturing
  import opened Session

  /** `modelLoaded` is raised only by the model-load success callback and is
      never lowered again. */
  lemma ModelLoadedOnlyByLoadSuccess(s: Page, e: Event)
    requires Enabled(s, e)
    ensures Step(s, e).ModelLoaded() && !s.ModelLoaded() ==> e.ModelDone?
    ensures s.ModelLoaded() ==> Step(s, e).ModelLoaded()
  {
  }

  /** The event that starts a texture load: a file chosen through an input. */
  predicate StartsTextureLoad(e: Event)
  {
    e.InputChange? && e.file.Some?
  }

  /** No texture is prepared and none is being loaded. */
  predicate NoTextures(s: Page)
  {
    forall c :: s.slots.Get(c).texture.None? && s.slots.Get(c).loadsPending == 0
  }

  /** Without a file chosen through an input, no texture ever appears: drops,
      reads, clears, model loads and generate clicks start no texture load. */
  lemma {:induction false} NoTextureWithoutInputChange(s: Page, trace: seq<Event>)
    requires Feasible(s, trace) && NoTextures(s)
    requires forall k :: 0 <= k < |trace| ==> !StartsTextureLoad(trace[k])
    ensures NoTextures(Run(s, trace))
    decreases |trace|
  {
    if trace != [] {
      var e := trace[0];
      var next := Step(s, e);
      assert !StartsTextureLoad(trace[0]);
      assert NoTextures(next) by {
        forall c ensures next.slots.Get(c).texture.None? && next.slots.Get(c).loadsPending == 0 {
          assert s.slots.Get(c).texture.None? && s.slots.Get(c).loadsPending == 0;
        }
      }
      NoTextureWithoutInputChange(next, trace[1..]);
    }
  }

  /** A drop reads the file but starts no texture load in any category. */
  lemma DropStartsNoTextureLoad(s: Page, c: Category, file: Option<File>)
    ensures forall c' :: Step(s, Drop(c, file)).slots.Get(c').texture == s.slots.Get(c').texture
    ensures forall c' :: Step(s, Drop(c, file)).slots.Get(c').loadsPending == s.slots.Get(c').loadsPending
  {
  }

  /** Choosing a valid file, letting its read and texture load finish, and then
      clearing leaves the slot with no image, no texture and the blank view. */
  lemma UploadThenClearIsEmpty(s: Page, c: Category, f: File, dataUrl: string, decoded: Texture)
    requires Validate(f).Accept?
    ensures var s1 := Step(s, InputChange(c, Some(f)));
            && Enabled(s1, ReadDone(c, dataUrl))
            && var s2 := Step(s1, ReadDone(c, dataUrl));
               && s2.slots.Get(c).image == Some(dataUrl)
               && Enabled(s2, TextureDone(c, decoded))
               && var s3 := Step(s2, TextureDone(c, decoded));
                  && s3.slots.Get(c).texture == Some(Orient(decoded))
                  && var s4 := Step(s3, ClearClick(c));
                     && s4.slots.Get(c).image.None? && s4.slots.Get(c).texture.None?
                     && s4.slots.Get(c).view == Blank
                     && forall c' :: c' != c ==> s4.slots.Get(c') == s.slots.Get(c')
  {
  }

  /** The texture listener ignores the validator: an image over 5 MiB is rejected
      with the error message, keeps no new stored image, yet its texture is
      prepared and will be applied by the next generate. */
  lemma OversizeImageIsStillTextured(s: Page, c: Category, decoded: Texture)
    ensures var s1 := Step(s, InputChange(c, Some(File("image/png", 5242881))));
            && s1.slots.Get(c).view == Rejected(InvalidImageMessage)
            && s1.slots.Get(c).image == s.slots.Get(c).image
            && s1.slots.Get(c).readsPending == s.slots.Get(c).readsPending
            && Enabled(s1, TextureDone(c, decoded))
            && Step(s1, TextureDone(c, decoded)).slots.Get(c).texture == Some(Orient(decoded))
  {
    assert StartsWith("image/png", "image/") by { assert "image/png"[..6] == "image/"; }
  }

  /** A rejected file keeps whatever image and texture the slot already had. */
  lemma RejectionKeepsStoredImage(s: Page, c: Category, f: File)
    requires Validate(f).Reject?
    ensures Step(s, Drop(c, Some(f))).slots.Get(c).image == s.slots.Get(c).image
    ensures Step(s, Drop(c, Some(f))).slots.Get(c).texture == s.slots.Get(c).texture
    ensures Step(s, InputChange(c, Some(f))).slots.Get(c).image == s.slots.Get(c).image
    ensures Step(s, InputChange(c, Some(f))).slots.Get(c).texture == s.slots.Get(c).texture
  {
  }

  /** Clear does not cancel a texture load in flight: a load that completes after
      the clear puts a texture back into the cleared slot. */
  lemma LateTextureSurvivesClear(s: Page, c: Category, f: File, decoded: Texture)
    ensures var s1 := Step(Step(s, InputChange(c, Some(f))), ClearClick(c));
            && s1.slots.Get(c).texture.None?
            && Enabled(s1, TextureDone(c, decoded))
            && Step(s1, TextureDone(c, decoded)).slots.Get(c).texture == Some(Orient(decoded))
  {
  }

  /** Two uploads for one category: the stored image is the data URL carried by
      the last read completion, whichever of the two reads it belongs to. The
      reads are not matched to the files that started them. */
  lemma LastCompletedReadWins(s: Page, c: Category, f1: File, f2: File, url1: string, url2: string)
    requires Validate(f1).Accept? && Validate(f2).Accept?
    ensures var s2 := Step(Step(s, Drop(c, Some(f1))), Drop(c, Some(f2)));
            && Enabled(s2, ReadDone(c, url2))
            && var s3 := Step(s2, ReadDone(c, url2));
               && Enabled(s3, ReadDone(c, url1))
               && Step(s3, ReadDone(c, url1)).slots.Get(c).image == Some(url1)
  {
  }

  /** Generate with the model loaded but no texture prepared: nothing matches,
      the no-match alert is raised and the canvas stays as it was. */
  lemma GenerateWithoutTextures(s: Page)
    requires s.ModelLoaded()
    requires forall c :: s.slots.Get(c).texture.None?
    ensures Generate(s).canvasVisible == s.canvasVisible
    ensures Generate(s).alerts == s.alerts + [NoMatchAlert]
    ensures Generate(s).model == s.model
  {
    assert s.slots.PresentTextures() == map[];
    NoTexturesNoMatches(s.model.nodes);
  }

  /** Generate with exactly one category's texture prepared: the meshes textured
      are exactly that category's meshes. The canvas is made visible when there is
      at least one; otherwise the no-match alert is raised and the canvas is left
      as it was. */
  lemma GenerateSingleCategory(s: Page, c: Category)
    requires s.ModelLoaded()
    requires s.slots.Get(c).texture.Some?
    requires forall c' :: c' != c ==> s.slots.Get(c').texture.None?
    ensures Matching(s.model.nodes, s.slots.PresentTextures()) == MeshesIn(s.model.nodes, ListOf(c))
    ensures |MeshesIn(s.model.nodes, ListOf(c))| > 0 ==> Generate(s).canvasVisible
    ensures |MeshesIn(s.model.nodes, ListOf(c))| == 0 ==>
              Generate(s).canvasVisible == s.canvasVisible && Generate(s).alerts == s.alerts + [NoMatchAlert]
  {
    var tex := s.slots.PresentTextures();
    assert tex.Keys == {c};
    SingleCategoryMatches(s.model.nodes, tex, c);
    AppliedCountZeroIff(s.model.nodes, tex);
  }

  /** A second click re-applies the same textures: the model, the canvas and the
      slots end as they were after the first click (while the model is not loaded,
      both clicks only raise the alert). */
  lemma GenerateIdempotent(s: Page)
    ensures Generate(Generate(s)).model == Generate(s).model
    ensures Generate(Generate(s)).canvasVisible == Generate(s).canvasVisible
    ensures Generate(Generate(s)).slots == s.slots
  {
    if s.ModelLoaded() {
      var tex := s.slots.PresentTextures();
      var nodes := s.model.nodes;
      RetextureIdempotent(nodes, tex);
      AppliedCountZeroIff(nodes, tex);
      AppliedCountZeroIff(RetextureAll(nodes, tex), tex);
    }
  }
}
