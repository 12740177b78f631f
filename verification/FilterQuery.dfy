/** Filter clauses, the index snapshot they are evaluated against, and what each
    clause means for one slot. The meaning is the reference for every way the
    executor evaluates clauses. */
module FilterQuery {
  import opened Base

  /** A query value. Integers are 64-bit and signed; a float only matters as not being a key. */
  datatype Value = Integer(v: I64) | Float(bits: U64) | Bool(b: bool) | Str(s: string)

  datatype RangeOp = Gt | Gte | Lt | Lte

  datatype Clause =
    | Eq(field: string, value: Value)
    | NotEq(field: string, value: Value)
    | In(field: string, values: seq<Value>)
    | NotIn(field: string, values: seq<Value>)
    | Range(op: RangeOp, field: string, value: Value)
    | Not(inner: Clause)
    | And(clauses: seq<Clause>)
    | Or(clauses: seq<Clause>)
    | IsNull(field: string)
    | IsNotNull(field: string)
    | BucketBitmap(field: string, bucketName: string, bitmap: Bitmap)

  /** The key under which a field keeps the slots whose value is null. */
  const NULL_KEY: U64 := 0xFFFF_FFFF_FFFF_FFFF

  /** A filter field: the fused bitmap of every value, and the range scan cap. */
  datatype Field = Field(values: map<U64, Bitmap>, rangeCap: Option<nat>)

  /** Pre-computed recency buckets of one timestamp field; `snap` picks a bucket for a duration. */
  datatype TimeBuckets = TimeBuckets(field: string, now: U64, snap: U64 -> Option<Bitmap>)

  /** What a query reads. `names` resolves strings to keys, `estimate` is the planner's cost model. */
  datatype Snapshot = Snapshot(
    alive: Bitmap,
    fields: map<string, Field>,
    names: map<(string, string), U64>,
    buckets: Option<TimeBuckets>,
    estimate: Clause -> nat)

  /** `value_to_bitmap_key`: integers as two's complement, booleans as 0 and 1. */
  function DirectKey(value: Value): Option<U64> {
    match value
    case Integer(v) => Some(v % 0x1_0000_0000_0000_0000)
    case Bool(b) => Some(if b then 1 else 0)
    case _ => None
  }

  /** `resolve_value_key` */
  function ResolveKey(s: Snapshot, field: string, value: Value): Option<U64> {
    match value
    case Str(name) => if (field, name) in s.names then Some(s.names[(field, name)]) else None
    case _ => DirectKey(value)
  }

  /** The slots a field holds under a key. */
  function Stored(s: Snapshot, field: string, key: U64): Bitmap {
    if field in s.fields && key in s.fields[field].values then s.fields[field].values[key] else {}
  }

  /** The slots a field holds under a value. */
  function Hits(s: Snapshot, field: string, value: Value): Bitmap {
    match ResolveKey(s, field, value)
    case Some(key) => Stored(s, field, key)
    case None => {}
  }

  /** `ts_secs_u64`: a timestamp that is too large for seconds is in milliseconds. */
  function Seconds(ts: U64): U64 {
    if ts > 100_000_000_000 then ts / 1000 else ts
  }

  function SaturatingSub(a: U64, b: U64): U64 {
    if a >= b then a - b else 0
  }

  predicate Compares(op: RangeOp, key: U64, target: U64) {
    match op
    case Gt => key > target
    case Gte => key >= target
    case Lt => key < target
    case Lte => key <= target
  }

  /** The slots whose stored key compares with the target; null is no value. */
  function Scanned(s: Snapshot, op: RangeOp, field: string, target: U64): Bitmap {
    if field in s.fields then
      var values := s.fields[field].values;
      set key, x | key in values && key != NULL_KEY && Compares(op, key, target) && x in values[key] :: x
    else {}
  }

  /** The bitmap a range clause on the bucketed field snaps to, if it does. */
  function Snapped(s: Snapshot, op: RangeOp, field: string, value: Value): Option<Bitmap> {
    if s.buckets.None? || field != s.buckets.value.field || DirectKey(value).None? then None
    else
      var tb := s.buckets.value;
      var threshold := Seconds(DirectKey(value).value);
      var older := op == Lt || op == Lte;
      if older && threshold >= tb.now then Some(s.alive)
      else
        match tb.snap(SaturatingSub(tb.now, threshold))
        case None => None
        case Some(bucket) => Some(if older then s.alive - bucket else bucket)
  }

  // ---- Meaning ----

  /** Whether a slot matches a clause. An empty conjunction matches nothing. */
  predicate Matches(s: Snapshot, c: Clause, x: U32)
    decreases c, 1
  {
    match c
    case Eq(field, value) => MatchesValue(s, field, value, x)
    case NotEq(field, value) =>
      x in s.alive && !MatchesValue(s, field, value, x) && x !in Stored(s, field, NULL_KEY)
    case In(field, values) => exists i :: 0 <= i < |values| && MatchesValue(s, field, values[i], x)
    case NotIn(field, values) =>
      && x in s.alive
      && !(exists i :: 0 <= i < |values| && MatchesValue(s, field, values[i], x))
      && x !in Stored(s, field, NULL_KEY)
    case Range(op, field, value) =>
      (match Snapped(s, op, field, value)
       case Some(bucket) => x in bucket
       case None => DirectKey(value).Some? && x in Scanned(s, op, field, DirectKey(value).value))
    case Not(inner) => x in s.alive && !Matches(s, inner, x)
    case And(cs) => cs != [] && MatchesAll(s, cs, x)
    case Or(cs) => MatchesAny(s, cs, x)
    case IsNull(field) => x in Stored(s, field, NULL_KEY)
    case IsNotNull(field) => x in s.alive && x !in Stored(s, field, NULL_KEY)
    case BucketBitmap(_, _, bitmap) => x in bitmap
  }

  /** The field `id` means the slot itself. */
  predicate MatchesValue(s: Snapshot, field: string, value: Value, x: U32) {
    if field == "id" then value.Integer? && x == value.v % 0x1_0000_0000 && x in s.alive
    else x in Hits(s, field, value)
  }

  predicate MatchesAll(s: Snapshot, cs: seq<Clause>, x: U32)
    decreases cs, 0
  {
    forall i :: 0 <= i < |cs| ==> Matches(s, cs[i], x)
  }

  predicate MatchesAny(s: Snapshot, cs: seq<Clause>, x: U32)
    decreases cs, 0
  {
    exists i :: 0 <= i < |cs| && Matches(s, cs[i], x)
  }
}
