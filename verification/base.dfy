/** Shared vocabulary of the visualizer: the optional-value wrapper used for the
    source's `null`/`undefined`, and the four texture categories. */
module Base {

  /** `None` stands for a JavaScript `null` or `undefined` value. */
  datatype Option<+T> = None | Some(value: T)

  /** The four upload slots, each also a texture role (wall tiles, decor tiles,
      highlight tiles, floor tiles). */
  datatype Category = L | D | HL | F

  const AllCategories: set<Category> := {L, D, HL, F}

  /** JavaScript's `String.prototype.startsWith`. */
  predicate StartsWith(s: string, prefix: string)
  {
    |prefix| <= |s| && s[..|prefix|] == prefix
  }
}
