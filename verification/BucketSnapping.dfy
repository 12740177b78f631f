/** Range filters answered from a time bucket instead of a scan. */
module BucketSnapping {
  import opened Base
  import opened FilterQuery
  import opened Executor
  import opened FilterAnswers

  ghost predicate TimedAt(s: Snapshot, field: string, x: U32, time: U64) {
    time != NULL_KEY && x in Stored(s, field, time)
  }

  ghost predicate Timed(s: Snapshot, field: string, x: U32) {
    exists time: U64 :: TimedAt(s, field, x, time)
  }

  /** Only alive slots have times, and none has two. */
  ghost predicate TimesAreClean(s: Snapshot, field: string) {
    && (forall x, t :: TimedAt(s, field, x, t) ==> x in s.alive)
    && (forall x, t, u :: TimedAt(s, field, x, t) && TimedAt(s, field, x, u) ==> t == u)
  }

  /** The bucket holds exactly the slots at or after the cutoff. */
  ghost predicate HoldsSince(s: Snapshot, field: string, bucket: Bitmap, cutoff: U64) {
    forall x :: x in bucket <==> exists time: U64 :: TimedAt(s, field, x, time) && time >= cutoff
  }

  lemma ScannedAt(s: Snapshot, op: RangeOp, field: string, target: U64, x: U32)
    ensures x in Scanned(s, op, field, target) <==> exists time: U64 :: TimedAt(s, field, x, time) && Compares(op, time, target)
  {
    if x in Scanned(s, op, field, target) {
      var key :| key in s.fields[field].values && key != NULL_KEY && Compares(op, key, target) && x in s.fields[field].values[key];
      assert TimedAt(s, field, x, key);
    }
  }

  /** The slots at the cutoff itself. */
  function OnCutoff(s: Snapshot, field: string, cutoff: U64): Bitmap {
    if cutoff == NULL_KEY then {} else Stored(s, field, cutoff)
  }

  /** The duration between the named point in time and now. */
  function Ago(s: Snapshot, v: Value): nat
    requires s.buckets.Some? && IsKey(v)
  {
    var (now, at) := (s.buckets.value.now, SecondsNamed(v));
    if at < now then now - at else 0
  }

  lemma SnapsToBucket(s: Snapshot, op: RangeOp, field: string, v: Value, bucket: Bitmap)
    requires s.buckets.Some? && s.buckets.value.field == field && IsKey(v) && Ago(s, v) > 0
    requires s.buckets.value.snap(Ago(s, v)) == Some(bucket)
    ensures Snapped(s, op, field, v) == Some(if op.Gt? || op.Gte? then bucket else s.alive - bucket)
  {
  }

  /** For each operator, what the bucket answers is the scan at the bucket's cutoff: the slots on the cutoff
      count as newer whatever the operator says of them, and slots without a time count as older. */
  lemma BucketIsScan(s: Snapshot, op: RangeOp, field: string, v: Value, bucket: Bitmap, cutoff: U64, x: U32)
    requires s.buckets.Some? && s.buckets.value.field == field && IsKey(v) && Ago(s, v) > 0
    requires s.buckets.value.snap(Ago(s, v)) == Some(bucket) && HoldsSince(s, field, bucket, cutoff) && TimesAreClean(s, field)
    ensures Evaluate(s, Range(op, field, v)).Ok?
    ensures var (answer, scan, on) := (Evaluate(s, Range(op, field, v)).value, Scanned(s, op, field, cutoff), OnCutoff(s, field, cutoff));
            match op {
              case Gt => x in answer <==> x in scan || x in on
              case Gte => x in answer <==> x in scan
              case Lt => x in answer <==> x in scan || (x in s.alive && !Timed(s, field, x))
              case Lte => x in answer <==> (x in scan && x !in on) || (x in s.alive && !Timed(s, field, x))
            }
  {
    SnapsToBucket(s, op, field, v, bucket);
    ScannedAt(s, op, field, cutoff, x);
    if time: U64 :| TimedAt(s, field, x, time) {
      OneTimeDecides(s, op, field, bucket, cutoff, x, time);
    } else {
      assert x in OnCutoff(s, field, cutoff) ==> TimedAt(s, field, x, cutoff);
    }
  }

  lemma OneTimeDecides(s: Snapshot, op: RangeOp, field: string, bucket: Bitmap, cutoff: U64, x: U32, time: U64)
    requires TimesAreClean(s, field) && HoldsSince(s, field, bucket, cutoff) && TimedAt(s, field, x, time)
    ensures x in s.alive && Timed(s, field, x) && (x in bucket <==> time >= cutoff)
    ensures x in Scanned(s, op, field, cutoff) <==> Compares(op, time, cutoff)
    ensures x in OnCutoff(s, field, cutoff) <==> time == cutoff
  {
    ScannedAt(s, op, field, cutoff, x);
    if x in OnCutoff(s, field, cutoff) {
      assert TimedAt(s, field, x, cutoff);
    }
  }

  /** A bound that lies ahead of now leaves everything alive older than it. */
  lemma NothingIsNewer(s: Snapshot, op: RangeOp, field: string, v: Value)
    requires s.buckets.Some? && s.buckets.value.field == field && IsKey(v) && (op.Lt? || op.Lte?)
    requires SecondsNamed(v) >= s.buckets.value.now
    ensures Evaluate(s, Range(op, field, v)) == Ok(s.alive)
  {
  }
}
