/** The bit layers of a sort field as they are written: inserts, updates by difference, removals, and the fused
    view that every write drops. */
module SortLayers {
  import opened Base
  import opened SortOrder
  import opened SortField
  import opened VersionedBitmap
  import opened PageMeaning

  // ---- Layers and values ----

  /** A slot's layers spell out the low bits of a value exactly when they hold it bit for bit. */
  lemma {:induction false} SpelledExactly(layers: seq<Bitmap>, n: nat, x: U32, value: nat)
    requires n <= |layers|
    ensures LowValue(layers, n, x) == LowBits(value, n) <==> forall b :: 0 <= b < n ==> (x in layers[b] <==> Bit(value, b))
  {
    if n > 0 {
      SpelledExactly(layers, n - 1, x, value);
    }
  }

  lemma {:induction false} SameLayersSameValue(a: seq<Bitmap>, b: seq<Bitmap>, n: nat, x: U32)
    requires n <= |a| == |b| && forall i :: 0 <= i < n ==> (x in a[i] <==> x in b[i])
    ensures LowValue(a, n, x) == LowValue(b, n, x)
  {
    if n > 0 {
      SameLayersSameValue(a, b, n - 1, x);
    }
  }

  // ---- Writes ----

  /** Each bit of the value that is set puts the slot into its layer. */
  function AfterInsert(layers: seq<Bitmap>, x: U32, value: U32): seq<Bitmap> {
    seq(|layers|, b requires 0 <= b < |layers| => if Bit(value, b) then layers[b] + {x} else layers[b])
  }

  function AfterRemove(layers: seq<Bitmap>, x: U32): seq<Bitmap> {
    seq(|layers|, b requires 0 <= b < |layers| => layers[b] - {x})
  }

  /** Where the two values differ, the layer is told by the former one; elsewhere it is left alone. */
  function AfterUpdate(layers: seq<Bitmap>, x: U32, former: U32, value: U32): seq<Bitmap> {
    seq(|layers|, b requires 0 <= b < |layers| => UpdatedLayer(layers[b], x, Bit(former, b), Bit(value, b)))
  }

  function UpdatedLayer(layer: Bitmap, x: U32, was: bool, will: bool): Bitmap {
    if was == will then layer else if was then layer - {x} else layer + {x}
  }

  /** An insert gives the slot its value exactly when the slot had no other bit. */
  lemma InsertSets(layers: seq<Bitmap>, x: U32, value: U32)
    ensures Value(AfterInsert(layers, x, value), x) == LowBits(value, |layers|) <==>
            forall b :: 0 <= b < |layers| && x in layers[b] ==> Bit(value, b)
  {
    var after := AfterInsert(layers, x, value);
    SpelledExactly(after, |layers|, x, value);
    assert forall b :: 0 <= b < |layers| ==> (x in after[b] <==> Bit(value, b) || x in layers[b]);
  }

  /** An update gives the slot its new value exactly when the slot holds the former value in every layer where
      the two agree. */
  lemma UpdateSets(layers: seq<Bitmap>, x: U32, former: U32, value: U32)
    ensures Value(AfterUpdate(layers, x, former, value), x) == LowBits(value, |layers|) <==>
            forall b :: 0 <= b < |layers| && Bit(former, b) == Bit(value, b) ==> (x in layers[b] <==> Bit(former, b))
  {
    var after := AfterUpdate(layers, x, former, value);
    SpelledExactly(after, |layers|, x, value);
    assert forall b :: 0 <= b < |layers| ==> after[b] == UpdatedLayer(layers[b], x, Bit(former, b), Bit(value, b));
  }

  lemma RemoveClears(layers: seq<Bitmap>, x: U32)
    ensures Value(AfterRemove(layers, x), x) == 0
  {
    var after := AfterRemove(layers, x);
    forall b | 0 <= b < |layers| ensures x in after[b] <==> Bit(0, b) {
      NoBits(b);
    }
    SpelledExactly(after, |layers|, x, 0);
    LowBitsKeep(0, |layers|);
  }

  lemma {:induction false} NoBits(b: nat)
    ensures !Bit(0, b)
  {
    if b > 0 {
      NoBits(b - 1);
    }
  }

  // ---- Runs ----

  datatype Op = Insert(slot: U32, value: U32) | Update(slot: U32, former: U32, value: U32) | Remove(slot: U32)

  function AfterOp(layers: seq<Bitmap>, op: Op): seq<Bitmap> {
    match op
    case Insert(x, value) => AfterInsert(layers, x, value)
    case Update(x, former, value) => AfterUpdate(layers, x, former, value)
    case Remove(x) => AfterRemove(layers, x)
  }

  /** The layers after a run that starts with a new field of `n` bits. */
  function Run(n: nat, ops: seq<Op>): (layers: seq<Bitmap>)
    ensures |layers| == n
  {
    if ops == [] then seq(n, _ => {}) else AfterOp(Run(n, ops[..|ops| - 1]), ops[|ops| - 1])
  }

  /** What was last written to a slot. */
  function Written(ops: seq<Op>, x: U32): U32 {
    if ops == [] then 0
    else
      var op := ops[|ops| - 1];
      if op.slot != x then Written(ops[..|ops| - 1], x) else if op.Remove? then 0 else op.value
  }

  /** Inserts go to slots without a value and updates name the value they replace, as far as `n` bits show. */
  ghost predicate Truthful(n: nat, ops: seq<Op>) {
    ops != [] ==>
      var (before, op) := (ops[..|ops| - 1], ops[|ops| - 1]);
      && Truthful(n, before)
      && (op.Insert? ==> LowBits(Written(before, op.slot), n) == 0)
      && (op.Update? ==> LowBits(Written(before, op.slot), n) == LowBits(op.former, n))
  }

  lemma {:induction false} OthersKeep(layers: seq<Bitmap>, op: Op, x: U32)
    requires x != op.slot
    ensures Value(AfterOp(layers, op), x) == Value(layers, x)
  {
    SameLayersSameValue(AfterOp(layers, op), layers, |layers|, x);
  }

  lemma ZeroMeansNoBits(layers: seq<Bitmap>, x: U32)
    requires Value(layers, x) == 0
    ensures forall b :: 0 <= b < |layers| ==> x !in layers[b]
  {
    LowBitsKeep(0, |layers|);
    SpelledExactly(layers, |layers|, x, 0);
    forall b | 0 <= b < |layers| ensures x !in layers[b] {
      NoBits(b);
    }
  }

  /** A write to a slot that holds what the write expects leaves the value it names. */
  lemma {:induction false} WriteTakesHold(layers: seq<Bitmap>, op: Op)
    requires op.Insert? ==> Value(layers, op.slot) == 0
    requires op.Update? ==> Value(layers, op.slot) == LowBits(op.former, |layers|)
    ensures Value(AfterOp(layers, op), op.slot) == if op.Remove? then 0 else LowBits(op.value, |layers|)
  {
    match op
    case Insert(x, value) =>
      ZeroMeansNoBits(layers, x);
      InsertSets(layers, x, value);
    case Update(x, former, value) =>
      SpelledExactly(layers, |layers|, x, former);
      UpdateSets(layers, x, former, value);
    case Remove(x) =>
      RemoveClears(layers, x);
  }

  lemma {:induction false} NothingWritten(n: nat, x: U32)
    ensures Value(Run(n, []), x) == 0
  {
    var layers := Run(n, []);
    forall b | 0 <= b < n ensures x in layers[b] <==> Bit(0, b) {
      NoBits(b);
    }
    SpelledExactly(layers, n, x, 0);
    LowBitsKeep(0, n);
  }

  /** After every truthful run each slot has the value last written to it, as far as the layers reach. */
  lemma {:induction false} RunsSpellWhatWasWritten(n: nat, ops: seq<Op>, x: U32)
    requires Truthful(n, ops)
    ensures Value(Run(n, ops), x) == LowBits(Written(ops, x), n)
    decreases |ops|
  {
    if ops == [] {
      NothingWritten(n, x);
      LowBitsKeep(0, n);
    } else {
      var (before, op) := (ops[..|ops| - 1], ops[|ops| - 1]);
      RunsSpellWhatWasWritten(n, before, op.slot);
      LowBitsKeep(0, n);
      if op.slot == x {
        WriteTakesHold(Run(n, before), op);
      } else {
        RunsSpellWhatWasWritten(n, before, x);
        OthersKeep(Run(n, before), op, x);
      }
    }
  }

  /** Values that fit the layers are kept whole, so slots compare by what was written. */
  lemma {:induction false} RunsOrderByWhatWasWritten(n: nat, ops: seq<Op>, dir: Direction, a: U32, b: U32)
    requires Truthful(n, ops) && Written(ops, a) < Pow2(n) && Written(ops, b) < Pow2(n)
    ensures Before(dir, Run(n, ops), a, b) <==> ComesBefore(dir, Written(ops, a), a, Written(ops, b), b)
  {
    RunsSpellWhatWasWritten(n, ops, a);
    RunsSpellWhatWasWritten(n, ops, b);
    LowBitsKeep(Written(ops, a), n);
    LowBitsKeep(Written(ops, b), n);
  }

  /** Inserting again without a removal loses exactly the values that lack a bit of the former one. */
  lemma {:induction false} ReinsertExactly(n: nat, x: U32, former: U32, value: U32)
    ensures Value(Run(n, [Insert(x, former), Insert(x, value)]), x) == LowBits(value, n) <==>
            forall b :: 0 <= b < n && Bit(former, b) ==> Bit(value, b)
  {
    var ops := [Insert(x, former), Insert(x, value)];
    assert ops[..1] == [Insert(x, former)] && ops[..1][..0] == [];
    var (none, first) := (Run(n, []), Run(n, ops[..1]));
    assert forall b :: 0 <= b < n ==> (x in first[b] <==> Bit(former, b));
    InsertSets(first, x, value);
  }

  // ---- The field ----

  function Contents(vs: seq<Versioned>): (layers: seq<Bitmap>)
    ensures |layers| == |vs|
  {
    seq(|vs|, b requires 0 <= b < |vs| => vs[b].Fused())
  }

  class Field {
    var layers: seq<Versioned>
    var fused: Option<seq<Bitmap>>

    /** The fused view, where there is one, shows the layers as they are. */
    ghost predicate Valid()
      reads this
    {
      && (forall b :: 0 <= b < |layers| ==> layers[b].Valid())
      && (fused.Some? ==> fused.value == Contents(layers))
    }

    constructor (bits: nat)
      ensures Valid() && fused.None? && Contents(layers) == Run(bits, [])
    {
      layers := seq(bits, _ => EMPTY);
      fused := None;
    }

    method Insert(x: U32, value: U32)
      requires Valid()
      modifies this
      ensures Valid() && fused.None? && Contents(layers) == AfterOp(old(Contents(layers)), Op.Insert(x, value))
    {
      fused := None;
      for bit := 0 to |layers|
        invariant Valid() && fused.None? && |layers| == |old(layers)|
        invariant forall b :: bit <= b < |layers| ==> layers[b] == old(layers)[b]
        invariant forall b :: 0 <= b < bit ==> layers[b].Fused() == AfterInsert(old(Contents(layers)), x, value)[b]
      {
        if Bit(value, bit) {
          layers := layers[bit := layers[bit].Insert({x})];
        }
      }
    }

    method Remove(x: U32)
      requires Valid()
      modifies this
      ensures Valid() && fused.None? && Contents(layers) == AfterOp(old(Contents(layers)), Op.Remove(x))
    {
      fused := None;
      for bit := 0 to |layers|
        invariant Valid() && fused.None? && |layers| == |old(layers)|
        invariant forall b :: bit <= b < |layers| ==> layers[b] == old(layers)[b]
        invariant forall b :: 0 <= b < bit ==> layers[b].Fused() == AfterRemove(old(Contents(layers)), x)[b]
      {
        layers := layers[bit := layers[bit].Remove({x})];
      }
    }

    method Update(x: U32, former: U32, value: U32)
      requires Valid()
      modifies this
      ensures Valid() && fused.None? && Contents(layers) == AfterOp(old(Contents(layers)), Op.Update(x, former, value))
    {
      fused := None;
      for bit := 0 to |layers|
        invariant Valid() && fused.None? && |layers| == |old(layers)|
        invariant forall b :: bit <= b < |layers| ==> layers[b] == old(layers)[b]
        invariant forall b :: 0 <= b < bit ==> layers[b].Fused() == AfterUpdate(old(Contents(layers)), x, former, value)[b]
      {
        if Bit(former, bit) != Bit(value, bit) {
          if Bit(former, bit) {
            layers := layers[bit := layers[bit].Remove({x})];
          } else {
            layers := layers[bit := layers[bit].Insert({x})];
          }
        }
      }
    }

    /** Builds the fused view once and hands it out until the next write. */
    method FusedLayers() returns (view: seq<Bitmap>)
      requires Valid()
      modifies this`fused
      ensures Valid() && fused == Some(view) && view == Contents(layers)
    {
      if fused.Some? {
        return fused.value;
      }
      view := Contents(layers);
      fused := Some(view);
    }

    /** A page over the layers as they are, whether the view was built for it or found. */
    method TopN(dir: Direction, candidates: Bitmap, limit: nat, cursor: Option<Cursor>) returns (ids: seq<U32>)
      requires Valid()
      modifies this`fused
      ensures Valid() && IsPage(dir, Contents(layers), candidates, limit, MaskCursor(Contents(layers), cursor), ids)
    {
      var view := FusedLayers();
      ids := SortField.TopN(dir, view, candidates, limit, cursor);
      PageIsPage(dir, view, candidates, limit, MaskCursor(view, cursor));
    }
  }
}
