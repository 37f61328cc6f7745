/** Prepared textures: the orientation and tiling settings every texture-load
    completion handler in index.js writes onto a freshly decoded texture. */
module Textures {

  /** three.js wrapping modes. */
  datatype Wrap = ClampToEdge | Repeat | MirroredRepeat

  /** A decoded texture. `bitmap` is an opaque handle for the decoded pixels;
      rotation is counted in quarter turns (the source writes pi/2, one quarter
      turn); `centered` is true when the rotation pivot is (0.5, 0.5). */
  datatype Texture = Texture(
    bitmap: nat,
    quarterTurns: int,
    flipY: bool,
    centered: bool,
    wrapS: Wrap,
    wrapT: Wrap,
    repeatU: int,
    repeatV: int)

  /** The settings a category's texture must carry before it is applied. */
  predicate Oriented(t: Texture)
  {
    && t.quarterTurns == 1
    && !t.flipY
    && t.centered
    && t.wrapS == Repeat
    && t.wrapT == Repeat
    && t.repeatU == 1 && t.repeatV == 1
  }

  /** The body of a texture-load success callback: keep the pixels, overwrite
      every orientation and wrapping setting. */
  function Orient(t: Texture): (r: Texture)
    ensures Oriented(r)
    ensures r.bitmap == t.bitmap
    ensures Oriented(t) ==> r == t
  {
    t.(quarterTurns := 1, flipY := false, centered := true,
       wrapS := Repeat, wrapT := Repeat, repeatU := 1, repeatV := 1)
  }

  /** The outcome depends on the pixels alone, never on the decoder's settings. */
  lemma OrientIgnoresSettings(a: Texture, b: Texture)
    requires a.bitmap == b.bitmap
    ensures Orient(a) == Orient(b)
  {
  }

  lemma OrientIdempotent(t: Texture)
    ensures Orient(Orient(t)) == Orient(t)
  {
  }
}
