/** The append-only log of bucket diffs and the pending diffs it restores. */
module BucketDiffLog {
  import opened Base
  import opened Bytes

  datatype Diff = Diff(before: U64, after: U64, expired: Bitmap)

  /** The roaring encoding and the checksum, which the log only calls. */
  datatype Codec = Codec(encode: Bitmap -> Data, decode: Data -> Option<Bitmap>, crc: Data -> U32)

  /** A bitmap decodes from its own encoding, which is shorter than 4 GiB. */
  ghost predicate Sound(c: Codec) {
    forall b :: c.decode(c.encode(b)) == Some(b) && |c.encode(b)| < 0x1_0000_0000
  }

  // ---- The file format ----

  function Payload(c: Codec, d: Diff): Data {
    ToLe(d.before, 8) + ToLe(d.after, 8) + ToLe(|c.encode(d.expired)|, 4) + c.encode(d.expired)
  }

  function Encoded(c: Codec, d: Diff): Data {
    Payload(c, d) + ToLe(c.crc(Payload(c, d)), 4)
  }

  function EncodedAll(c: Codec, diffs: seq<Diff>): Data {
    if diffs == [] then [] else Encoded(c, diffs[0]) + EncodedAll(c, diffs[1..])
  }

  /** The entry at the start of the bytes and its length, if a whole and undamaged one is there. */
  function FirstEntry(c: Codec, data: Data): (r: Option<(Diff, nat)>)
    ensures r.Some? ==> 24 <= r.value.1 <= |data|
  {
    if |data| < 20 then None
    else
      var len := Le32(data[16..20]);
      if 24 + len > |data| then None
      else if Le32(data[20 + len..24 + len]) != c.crc(data[..20 + len]) then None
      else
        match c.decode(data[20..20 + len])
        case None => None
        case Some(b) => Some((Diff(Le64(data[..8]), Le64(data[8..16]), b), 24 + len))
  }

  /** Entries up to the first one that is cut short or damaged. */
  function Decoded(c: Codec, data: Data): seq<Diff>
    decreases |data|
  {
    match FirstEntry(c, data)
    case None => []
    case Some((d, n)) => [d] + Decoded(c, data[n..])
  }

  lemma PayloadParts(c: Codec, d: Diff, rest: Data)
    requires |c.encode(d.expired)| < 0x1_0000_0000
    ensures var (p, len) := (Payload(c, d), |c.encode(d.expired)|);
            && |p| == 20 + len
            && (p + rest)[..8] == ToLe(d.before, 8) && (p + rest)[8..16] == ToLe(d.after, 8)
            && (p + rest)[16..20] == ToLe(len, 4) && (p + rest)[20..20 + len] == c.encode(d.expired)
            && (p + rest)[..20 + len] == p && (p + rest)[20 + len..] == rest
  {
  }

  /** Where each part of an entry lies: two cutoffs, the length of the bitmap, the bitmap, and the checksum of
      everything before it. */
  lemma EntryLayout(c: Codec, d: Diff)
    requires |c.encode(d.expired)| < 0x1_0000_0000
    ensures var e := Encoded(c, d); var end := |e| - 4;
            && end == 20 + |c.encode(d.expired)|
            && Le64(e[..8]) == d.before && Le64(e[8..16]) == d.after && Le32(e[16..20]) == end - 20
            && e[20..end] == c.encode(d.expired) && Le32(e[end..]) == c.crc(e[..end])
  {
    var (p, len) := (Payload(c, d), |c.encode(d.expired)|);
    PayloadParts(c, d, ToLe(c.crc(p), 4));
    Reads64(d.before);
    Reads64(d.after);
    Reads32(len);
    Reads32(c.crc(p));
  }

  /** A whole entry is read back, whatever follows it. */
  lemma ReadsEntry(c: Codec, d: Diff, rest: Data)
    requires Sound(c)
    ensures FirstEntry(c, Encoded(c, d) + rest) == Some((d, |Encoded(c, d)|))
  {
    var (p, len) := (Payload(c, d), |c.encode(d.expired)|);
    var tail := ToLe(c.crc(p), 4) + rest;
    assert Encoded(c, d) + rest == p + tail;
    PayloadParts(c, d, tail);
    Reads64(d.before);
    Reads64(d.after);
    Reads32(len);
    assert (p + tail)[20 + len..24 + len] == ToLe(c.crc(p), 4) by {
      assert (p + tail)[20 + len..24 + len] == (p + tail)[20 + len..][..4];
    }
    Reads32(c.crc(p));
  }

  /** A proper prefix of an entry is never taken for an entry. */
  lemma TornEntryIsIgnored(c: Codec, d: Diff, n: nat)
    requires Sound(c) && n < |Encoded(c, d)|
    ensures Decoded(c, Encoded(c, d)[..n]) == []
  {
    var (p, len) := (Payload(c, d), |c.encode(d.expired)|);
    var torn := Encoded(c, d)[..n];
    if n >= 20 {
      PayloadParts(c, d, ToLe(c.crc(p), 4));
      assert torn[16..20] == Encoded(c, d)[16..20];
      Reads32(len);
    }
  }

  lemma {:induction false} DecodesEntry(c: Codec, d: Diff, rest: Data)
    requires Sound(c)
    ensures Decoded(c, Encoded(c, d) + rest) == [d] + Decoded(c, rest)
  {
    ReadsEntry(c, d, rest);
    assert (Encoded(c, d) + rest)[|Encoded(c, d)|..] == rest;
  }

  /** Reading what was appended gives it back and goes on with what follows. */
  lemma {:induction false} ReadsAppended(c: Codec, diffs: seq<Diff>, rest: Data)
    requires Sound(c)
    ensures Decoded(c, EncodedAll(c, diffs) + rest) == diffs + Decoded(c, rest)
    decreases |diffs|
  {
    if diffs == [] {
      assert EncodedAll(c, diffs) + rest == rest;
    } else {
      var more := EncodedAll(c, diffs[1..]) + rest;
      assert EncodedAll(c, diffs) + rest == Encoded(c, diffs[0]) + more;
      DecodesEntry(c, diffs[0], more);
      ReadsAppended(c, diffs[1..], rest);
      HeadFirst(diffs, Decoded(c, rest));
    }
  }

  lemma ReadsBack(c: Codec, diffs: seq<Diff>)
    requires Sound(c)
    ensures Decoded(c, EncodedAll(c, diffs)) == diffs
  {
    ReadsAppended(c, diffs, []);
    assert EncodedAll(c, diffs) + [] == EncodedAll(c, diffs);
    assert diffs + [] == diffs;
  }

  // ---- Truncation ----

  /** How many entries lie wholly inside the first `n` bytes. */
  function WholeEntries(c: Codec, diffs: seq<Diff>, n: nat): (k: nat)
    ensures k <= |diffs|
  {
    if diffs == [] || n < |Encoded(c, diffs[0])| then 0
    else 1 + WholeEntries(c, diffs[1..], n - |Encoded(c, diffs[0])|)
  }

  /** The count is the one that the byte lengths dictate. */
  lemma {:induction false} WholeEntriesFit(c: Codec, diffs: seq<Diff>, n: nat)
    requires n <= |EncodedAll(c, diffs)|
    ensures var k := WholeEntries(c, diffs, n);
            && |EncodedAll(c, diffs[..k])| <= n
            && (k < |diffs| ==> n < |EncodedAll(c, diffs[..k + 1])|)
    decreases |diffs|
  {
    var k := WholeEntries(c, diffs, n);
    if diffs != [] {
      var len := |Encoded(c, diffs[0])|;
      if n < len {
        assert diffs[..1][1..] == [];
      } else {
        WholeEntriesFit(c, diffs[1..], n - len);
        assert diffs[..k][1..] == diffs[1..][..k - 1];
        assert k < |diffs| ==> diffs[..k + 1][1..] == diffs[1..][..k];
      }
    }
  }

  lemma TakeMore<T>(s: seq<T>, k: nat)
    requires s != [] && k < |s|
    ensures s[..k + 1] == [s[0]] + s[1..][..k]
  {
  }

  /** Cutting the log at any byte loses exactly the entries that are not wholly inside. */
  lemma {:induction false} TruncationLosesOnlyTheTail(c: Codec, diffs: seq<Diff>, n: nat)
    requires Sound(c) && n <= |EncodedAll(c, diffs)|
    ensures Decoded(c, EncodedAll(c, diffs)[..n]) == diffs[..WholeEntries(c, diffs, n)]
    decreases |diffs|
  {
    if diffs != [] {
      var (first, more) := (Encoded(c, diffs[0]), EncodedAll(c, diffs[1..]));
      if n < |first| {
        assert (first + more)[..n] == first[..n];
        TornEntryIsIgnored(c, diffs[0], n);
      } else {
        var m := n - |first|;
        assert (first + more)[..n] == first + more[..m];
        DecodesEntry(c, diffs[0], more[..m]);
        TruncationLosesOnlyTheTail(c, diffs[1..], m);
        TakeMore(diffs, WholeEntries(c, diffs[1..], m));
      }
    }
  }

  // ---- Pending diffs ----

  /** The newest `n` of a list. */
  function Newest<T>(s: seq<T>, n: nat): seq<T> {
    if |s| <= n then s else s[|s| - n..]
  }

  /** The last entries of a list, as many as allowed. */
  predicate IsNewest<T(==)>(r: seq<T>, s: seq<T>, n: nat) {
    (|r| == n < |s| || |r| == |s| <= n) && r == s[|s| - |r|..]
  }

  function Merged(diffs: seq<Diff>): Bitmap {
    if diffs == [] then {} else Merged(diffs[..|diffs| - 1]) + diffs[|diffs| - 1].expired
  }

  function LastCutoff(diffs: seq<Diff>): U64 {
    if diffs == [] then 0 else diffs[|diffs| - 1].after
  }

  method ComputeMerged(diffs: seq<Diff>) returns (merged: Bitmap)
    ensures merged == Merged(diffs)
    ensures forall x :: x in merged <==> exists i :: 0 <= i < |diffs| && x in diffs[i].expired
  {
    merged := {};
    for i := 0 to |diffs|
      invariant merged == Merged(diffs[..i])
      invariant forall x :: x in merged <==> exists j :: 0 <= j < i && x in diffs[j].expired
    {
      merged := merged + diffs[i].expired;
      assert diffs[..i + 1][..i] == diffs[..i];
    }
    assert diffs[..|diffs|] == diffs;
  }

  class PendingBucketDiffs {
    const maxDiffs: nat
    var diffs: seq<Diff>
    var merged: Bitmap
    var cutoff: U64

    ghost predicate Valid()
      reads this
    {
      merged == Merged(diffs) && (diffs != [] ==> cutoff == LastCutoff(diffs))
    }

    constructor (maxDiffs: nat)
      ensures Valid() && this.maxDiffs == maxDiffs && diffs == [] && cutoff == 0
    {
      this.maxDiffs := maxDiffs;
      diffs, merged, cutoff := [], {}, 0;
    }

    constructor FromDiffs(diffs: seq<Diff>, maxDiffs: nat)
      ensures Valid() && this.maxDiffs == maxDiffs && this.diffs == diffs && cutoff == LastCutoff(diffs)
    {
      this.maxDiffs, this.diffs, cutoff := maxDiffs, diffs, LastCutoff(diffs);
      new;
      merged := ComputeMerged(diffs);
    }

    method Push(d: Diff)
      modifies this
      ensures Valid()
      ensures diffs == Newest(old(diffs) + [d], maxDiffs) && cutoff == d.after
      ensures IsNewest(diffs, old(diffs) + [d], maxDiffs)
      ensures forall x :: x in merged <==> exists i :: 0 <= i < |diffs| && x in diffs[i].expired
    {
      cutoff := d.after;
      diffs := diffs + [d];
      while |diffs| > maxDiffs
        invariant Newest(diffs, maxDiffs) == Newest(old(diffs) + [d], maxDiffs)
        invariant cutoff == d.after && (diffs != [] ==> LastCutoff(diffs) == d.after)
      {
        diffs := diffs[1..];
      }
      merged := ComputeMerged(diffs);
    }
  }

  // ---- The log ----

  /** The entry count above which the log is rewritten; the cast to an integer saturates at zero. */
  function Threshold(maxDiffs: nat, pct: real): nat {
    var t := maxDiffs as real * (1.0 + pct);
    if t < 0.0 then 0 else t.Floor
  }

  lemma AboveThreshold(n: nat, maxDiffs: nat, pct: real)
    ensures n > Threshold(maxDiffs, pct) <==> n > 0 && n as real > maxDiffs as real * (1.0 + pct)
  {
  }

  function AfterCompact(c: Codec, file: Data, maxDiffs: nat, pct: real): Data {
    var all := Decoded(c, file);
    if |all| <= Threshold(maxDiffs, pct) then file else EncodedAll(c, Newest(all, maxDiffs))
  }

  /** The log is rewritten above the threshold only, and then holds its newest entries. */
  lemma CompactedInWords(c: Codec, file: Data, maxDiffs: nat, pct: real)
    ensures var (n, r) := (|Decoded(c, file)|, AfterCompact(c, file, maxDiffs, pct));
            && (n > Threshold(maxDiffs, pct) <==> n > 0 && n as real > maxDiffs as real * (1.0 + pct))
            && (n <= Threshold(maxDiffs, pct) ==> r == file)
            && (n > Threshold(maxDiffs, pct) && Sound(c) ==> IsNewest(Decoded(c, r), Decoded(c, file), maxDiffs))
  {
    var all := Decoded(c, file);
    AboveThreshold(|all|, maxDiffs, pct);
    if Sound(c) {
      ReadsBack(c, Newest(all, maxDiffs));
    }
  }

  class DiffLog {
    const codec: Codec
    const maxDiffs: nat
    const pct: real
    var file: Data

    /** A missing file reads as an empty one. */
    constructor (codec: Codec, maxDiffs: nat, pct: real)
      ensures this.codec == codec && this.maxDiffs == maxDiffs && this.pct == pct && file == []
    {
      this.codec, this.maxDiffs, this.pct, file := codec, maxDiffs, pct, [];
    }

    method Append(d: Diff)
      modifies this
      ensures file == old(file) + Encoded(codec, d)
    {
      var buf := Serialize(codec, d);
      file := file + buf;
    }

    method ReadAll() returns (diffs: seq<Diff>)
      ensures diffs == Decoded(codec, file)
    {
      diffs := DecodeLoop(codec, file);
    }

    method ReadRetained() returns (diffs: seq<Diff>)
      ensures diffs == Newest(Decoded(codec, file), maxDiffs)
      ensures IsNewest(diffs, Decoded(codec, file), maxDiffs)
    {
      var all := ReadAll();
      var start := if |all| < maxDiffs then 0 else |all| - maxDiffs;
      diffs := all[start..];
    }

    /** Rewrites the log with the newest entries when it has grown past the threshold. */
    method CompactIfNeeded() returns (compacted: bool)
      modifies this
      ensures file == AfterCompact(codec, old(file), maxDiffs, pct)
      ensures compacted <==> |Decoded(codec, old(file))| > Threshold(maxDiffs, pct)
      ensures var n := |Decoded(codec, old(file))|; compacted <==> n > 0 && n as real > maxDiffs as real * (1.0 + pct)
      ensures !compacted ==> file == old(file)
      ensures compacted && Sound(codec) ==> IsNewest(Decoded(codec, file), Decoded(codec, old(file)), maxDiffs)
    {
      var all := ReadAll();
      CompactedInWords(codec, file, maxDiffs, pct);
      if |all| <= Threshold(maxDiffs, pct) {
        return false;
      }
      var start := if |all| < maxDiffs then 0 else |all| - maxDiffs;
      file := SerializeAll(codec, all[start..]);
      compacted := true;
    }
  }

  ghost predicate ReadSoFar(c: Codec, all: seq<Diff>, diffs: seq<Diff>, rest: Data) {
    all == diffs + Decoded(c, rest)
  }

  lemma ReadOneMore(c: Codec, all: seq<Diff>, diffs: seq<Diff>, rest: Data, d: Diff, n: nat)
    requires ReadSoFar(c, all, diffs, rest) && FirstEntry(c, rest) == Some((d, n))
    ensures ReadSoFar(c, all, diffs + [d], rest[n..])
  {
    LastMoves(diffs, d, Decoded(c, rest[n..]));
  }

  lemma ReadNoMore(c: Codec, all: seq<Diff>, diffs: seq<Diff>, rest: Data)
    requires ReadSoFar(c, all, diffs, rest) && FirstEntry(c, rest).None?
    ensures diffs == all
  {
  }

  lemma TooShort(c: Codec, rest: Data)
    requires |rest| < 20
    ensures FirstEntry(c, rest).None?
  {
  }

  /** Reads entries in a loop, stopping at the first that is cut short or damaged. */
  method DecodeLoop(c: Codec, data: Data) returns (diffs: seq<Diff>)
    ensures diffs == Decoded(c, data)
  {
    diffs := [];
    var pos := 0;
    ghost var rest := data;
    while pos + 20 <= |data|
      invariant pos <= |data| && rest == data[pos..] && ReadSoFar(c, Decoded(c, data), diffs, rest)
      decreases |data| - pos
    {
      var entry := ParseEntry(c, data[pos..]);
      if entry.None? {
        ReadNoMore(c, Decoded(c, data), diffs, rest);
        return;
      }
      var (d, n) := entry.value;
      ReadOneMore(c, Decoded(c, data), diffs, rest, d, n);
      diffs, pos, rest := diffs + [d], pos + n, rest[n..];
    }
    TooShort(c, rest);
    ReadNoMore(c, Decoded(c, data), diffs, rest);
  }

  /** Reads the header, checks the length and the checksum, then decodes the bitmap. */
  method ParseEntry(c: Codec, data: Data) returns (r: Option<(Diff, nat)>)
    requires |data| >= 20
    ensures r == FirstEntry(c, data)
  {
    var before := Le64(data[..8]);
    var after := Le64(data[8..16]);
    var len: nat := Le32(data[16..20]);
    var end := 24 + len;
    if end > |data| {
      return None;
    }
    if Le32(data[20 + len..end]) != c.crc(data[..20 + len]) {
      return None;
    }
    var bitmap := c.decode(data[20..20 + len]);
    r := if bitmap.Some? then Some((Diff(before, after, bitmap.value), end)) else None;
  }

  method Serialize(c: Codec, d: Diff) returns (buf: Data)
    ensures buf == Encoded(c, d)
  {
    var bitmap := c.encode(d.expired);
    buf := ToLe(d.before, 8);
    buf := buf + ToLe(d.after, 8);
    buf := buf + ToLe(|bitmap|, 4);
    buf := buf + bitmap;
    buf := buf + ToLe(c.crc(buf), 4);
  }

  method SerializeAll(c: Codec, diffs: seq<Diff>) returns (buf: Data)
    ensures buf == EncodedAll(c, diffs)
  {
    buf := [];
    for i := 0 to |diffs|
      invariant buf == EncodedAll(c, diffs[..i])
    {
      var entry := Serialize(c, diffs[i]);
      EncodedOneMore(c, diffs[..i], diffs[i]);
      assert diffs[..i + 1] == diffs[..i] + [diffs[i]];
      buf := buf + entry;
    }
    assert diffs[..|diffs|] == diffs;
  }

  lemma {:induction false} EncodedOneMore(c: Codec, diffs: seq<Diff>, d: Diff)
    ensures EncodedAll(c, diffs + [d]) == EncodedAll(c, diffs) + Encoded(c, d)
    decreases |diffs|
  {
    if diffs == [] {
      assert (diffs + [d])[1..] == [];
    } else {
      EncodedOneMore(c, diffs[1..], d);
      assert (diffs + [d])[1..] == diffs[1..] + [d];
    }
  }

  // ---- The log and memory agree over every run ----

  /** What push leaves in memory. */
  datatype Pending = Pending(diffs: seq<Diff>, merged: Bitmap, cutoff: U64)

  function Restored(diffs: seq<Diff>): Pending {
    Pending(diffs, Merged(diffs), LastCutoff(diffs))
  }

  function AfterPush(p: Pending, d: Diff, maxDiffs: nat): Pending {
    var diffs := Newest(p.diffs + [d], maxDiffs);
    Pending(diffs, Merged(diffs), d.after)
  }

  datatype Step = AppendAndPush(d: Diff) | Compact(pct: real) | Reboot

  function FileAfter(c: Codec, maxDiffs: nat, file: Data, step: Step): Data {
    match step
    case AppendAndPush(d) => file + Encoded(c, d)
    case Compact(pct) => AfterCompact(c, file, maxDiffs, pct)
    case Reboot => file
  }

  function MemoryAfter(c: Codec, maxDiffs: nat, file: Data, p: Pending, step: Step): Pending {
    match step
    case AppendAndPush(d) => AfterPush(p, d, maxDiffs)
    case Compact(pct) => p
    case Reboot => Restored(Newest(Decoded(c, file), maxDiffs))
  }

  /** File and memory after a run that boots from a file. */
  function Run(c: Codec, maxDiffs: nat, boot: Data, steps: seq<Step>): (Data, Pending) {
    if steps == [] then (boot, Restored(Newest(Decoded(c, boot), maxDiffs)))
    else
      var (file, p) := Run(c, maxDiffs, boot, steps[..|steps| - 1]);
      var step := steps[|steps| - 1];
      (FileAfter(c, maxDiffs, file, step), MemoryAfter(c, maxDiffs, file, p, step))
  }

  /** The file is what its entries are written as. */
  ghost predicate WrittenBack(c: Codec, file: Data) {
    file == EncodedAll(c, Decoded(c, file))
  }

  /** The file holds whole entries and memory holds the newest of them. */
  ghost predicate InStep(c: Codec, maxDiffs: nat, file: Data, p: Pending) {
    && WrittenBack(c, file)
    && p.diffs == Newest(Decoded(c, file), maxDiffs)
    && p.merged == Merged(p.diffs)
    && (p.diffs != [] ==> p.cutoff == LastCutoff(p.diffs))
    && (Decoded(c, file) == [] ==> p.cutoff == 0)
  }

  lemma NewestOfNewest<T>(s: seq<T>, x: T, n: nat)
    ensures Newest(Newest(s, n) + [x], n) == Newest(s + [x], n)
    ensures Newest(Newest(s, n), n) == Newest(s, n)
  {
  }

  lemma AppendKeepsStep(c: Codec, maxDiffs: nat, file: Data, p: Pending, d: Diff)
    requires Sound(c) && InStep(c, maxDiffs, file, p) && maxDiffs >= 1
    ensures InStep(c, maxDiffs, file + Encoded(c, d), AfterPush(p, d, maxDiffs))
  {
    var all := Decoded(c, file);
    EncodedOneMore(c, all, d);
    ReadsBack(c, all + [d]);
    NewestOfNewest(all, d, maxDiffs);
  }

  lemma CompactKeepsStep(c: Codec, maxDiffs: nat, file: Data, p: Pending, pct: real)
    requires Sound(c) && InStep(c, maxDiffs, file, p) && maxDiffs >= 1
    ensures InStep(c, maxDiffs, AfterCompact(c, file, maxDiffs, pct), p)
  {
    var all := Decoded(c, file);
    ReadsBack(c, Newest(all, maxDiffs));
    assert Newest(Newest(all, maxDiffs), maxDiffs) == Newest(all, maxDiffs);
  }

  lemma {:induction false} RunsStayInStep(c: Codec, maxDiffs: nat, boot: Data, steps: seq<Step>)
    requires Sound(c) && maxDiffs >= 1 && WrittenBack(c, boot)
    ensures InStep(c, maxDiffs, Run(c, maxDiffs, boot, steps).0, Run(c, maxDiffs, boot, steps).1)
    decreases |steps|
  {
    if steps != [] {
      RunsStayInStep(c, maxDiffs, boot, steps[..|steps| - 1]);
      var (file, p) := Run(c, maxDiffs, boot, steps[..|steps| - 1]);
      match steps[|steps| - 1]
      case AppendAndPush(d) => AppendKeepsStep(c, maxDiffs, file, p, d);
      case Compact(pct) => CompactKeepsStep(c, maxDiffs, file, p, pct);
      case Reboot =>
    }
  }

  /** After any run of appends, compactions and reboots, what the log restores is what memory holds. */
  lemma {:induction false} RebuildMatchesMemory(c: Codec, maxDiffs: nat, boot: Data, steps: seq<Step>)
    requires Sound(c) && maxDiffs >= 1 && WrittenBack(c, boot)
    ensures var (file, p) := Run(c, maxDiffs, boot, steps);
            Restored(Newest(Decoded(c, file), maxDiffs)) == p
  {
    RunsStayInStep(c, maxDiffs, boot, steps);
  }

  /** Memory never keeps a diff when none may be retained, but it does keep the last cutoff. */
  lemma {:induction false} ZeroRetention(c: Codec, boot: Data, steps: seq<Step>)
    ensures Run(c, 0, boot, steps).1.diffs == [] && Run(c, 0, boot, steps).1.merged == {}
    decreases |steps|
  {
    if steps != [] {
      ZeroRetention(c, boot, steps[..|steps| - 1]);
      assert forall s: seq<Diff> :: Newest(s, 0) == [];
    }
  }

  /** The log restores what memory holds after every run exactly when a diff may be retained or
      no cutoff has been reached. */
  lemma {:induction false} RebuildMatchesExactly(c: Codec, maxDiffs: nat, boot: Data, steps: seq<Step>)
    requires Sound(c) && WrittenBack(c, boot)
    ensures var (file, p) := Run(c, maxDiffs, boot, steps);
            Restored(Newest(Decoded(c, file), maxDiffs)) == p <==> maxDiffs >= 1 || p.cutoff == 0
  {
    if maxDiffs >= 1 {
      RebuildMatchesMemory(c, maxDiffs, boot, steps);
    } else {
      ZeroRetention(c, boot, steps);
      assert Newest(Decoded(c, Run(c, maxDiffs, boot, steps).0), 0) == [];
    }
  }
}
