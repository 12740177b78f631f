/** A bitmap with a diff layer: a base, pending sets and clears, and whether the
    base is in memory at all. */
module VersionedBitmap {
  import opened Base

  datatype Versioned = Versioned(base: Bitmap, sets: Bitmap, clears: Bitmap, loaded: bool) {

    /** The diff never both sets and clears a bit, and a placeholder has no base. */
    predicate Valid() {
      && sets !! clears
      && (!loaded ==> base == {})
    }

    predicate IsDirty() {
      sets != {} || clears != {}
    }

    /** base | sets - clears */
    function Fused(): Bitmap {
      base + sets - clears
    }

    function Insert(xs: Bitmap): Versioned {
      this.(sets := sets + xs, clears := clears - xs)
    }

    function Remove(xs: Bitmap): Versioned {
      this.(sets := sets - xs, clears := clears + xs)
    }

    /** Compacts the diff into the base; does nothing on a placeholder. */
    function Merge(): Versioned {
      if !IsDirty() || !loaded then this
      else Versioned(Fused(), {}, {}, loaded)
    }

    /** ORs a persisted bitmap into the base. */
    function LoadBase(disk: Bitmap): Versioned {
      this.(base := base + disk, loaded := true)
    }

    function MarkLoaded(): Versioned {
      this.(loaded := true)
    }

    function Unload(): Versioned {
      this.(base := {}, loaded := false)
    }

    /** `fused_contains`: sets win over clears, clears over the base. */
    predicate Contains(x: U32) {
      if x in sets then true else if x in clears then false else x in base
    }

    /** `apply_diff`: fuses only what the candidates need. */
    function ApplyDiff(candidates: Bitmap): Bitmap {
      candidates * base + candidates * sets - clears
    }

    /** The contents once the persisted bitmap is taken into account. */
    function Logical(disk: Bitmap): Bitmap {
      if loaded then Fused() else disk + sets - clears
    }
  }

  const EMPTY: Versioned := Versioned({}, {}, {}, true)
  const PLACEHOLDER: Versioned := Versioned({}, {}, {}, false)

  /** The point query, the narrowed read and the fused bitmap tell the same story. */
  lemma ReadsAgree(v: Versioned, candidates: Bitmap, x: U32)
    requires v.Valid()
    ensures v.Contains(x) <==> x in v.Fused()
    ensures v.ApplyDiff(candidates) == candidates * v.Fused()
  {
  }

  /** Merging never changes the contents; on a loaded bitmap it leaves no diff. */
  lemma MergeKeepsContents(v: Versioned, disk: Bitmap)
    requires v.Valid()
    ensures v.Merge().Valid()
    ensures v.Merge().Fused() == v.Fused()
    ensures v.Merge().Logical(disk) == v.Logical(disk)
    ensures v.loaded ==> !v.Merge().IsDirty()
    ensures v.IsDirty() && !v.loaded ==> v.Merge() == v
  {
  }

  /** Mutations act on the contents, loaded or not. */
  lemma MutationsActOnContents(v: Versioned, xs: Bitmap, disk: Bitmap)
    requires v.Valid()
    ensures v.Insert(xs).Valid() && v.Insert(xs).Logical(disk) == v.Logical(disk) + xs
    ensures v.Remove(xs).Valid() && v.Remove(xs).Logical(disk) == v.Logical(disk) - xs
  {
    assert v.base + (v.sets + xs) - (v.clears - xs) == v.base + v.sets - v.clears + xs;
    assert disk + (v.sets + xs) - (v.clears - xs) == disk + v.sets - v.clears + xs;
  }

  /** Loading keeps the contents exactly when the bitmap was a placeholder, or the persisted bits
      it ORs in are already in the base or decided by the diff. */
  lemma LoadKeepsContents(v: Versioned, disk: Bitmap)
    requires v.Valid()
    ensures v.LoadBase(disk).Valid()
    ensures v.LoadBase(disk).Logical(disk) == v.Logical(disk) <==> !v.loaded || disk <= v.base + v.sets + v.clears
  {
    if v.loaded {
      if disk <= v.base + v.sets + v.clears {
        assert v.base + disk + v.sets - v.clears == v.base + v.sets - v.clears;
      } else {
        var x :| x in disk && x !in v.base + v.sets + v.clears;
        assert x in v.LoadBase(disk).Fused() && x !in v.Fused();
      }
    }
  }

  /** Unloading keeps the contents exactly when base and disk agree outside the diff. */
  lemma UnloadKeepsContents(v: Versioned, disk: Bitmap)
    requires v.Valid() && v.loaded
    ensures v.Unload().Valid()
    ensures v.Unload().Logical(disk) == v.Logical(disk) <==> disk - v.sets - v.clears == v.base - v.sets - v.clears
  {
    var d := v.sets + v.clears;
    forall x ensures (x in disk + v.sets - v.clears <==> x in v.base + v.sets - v.clears)
                     <==> (x in disk - v.sets - v.clears <==> x in v.base - v.sets - v.clears)
    {
    }
  }
}
