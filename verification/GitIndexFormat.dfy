/**
  The format of index files, from the writer's side: what is written parses back, and nothing else
  is accepted.
 */
module GitIndexFormat {
  import opened Layers
  import opened GitIndex

  // An entry: 24 bytes of times and identity, the mode, 32 bytes of owner, size and object name, the
  // flags, which may announce two bytes more, and the path.  Version 4 drops `strip` bytes of the
  // previous path; the others end in `pad`.
  datatype Record = Record(before: Bytes, mode: Word32, after: Bytes, flags: Bytes, extra: Bytes, path: Bytes,
                           strip: nat, pad: Bytes)

  datatype Extension = Extension(signature: Bytes, payload: Bytes)

  predicate Announces(flags: Bytes)
    requires |flags| == 2
  {
    var high: int, low: int := flags[0], flags[1];
    (high * 256 + low) / 0x4000 % 2 == 1
  }

  // NULs, at least one, to a multiple of eight bytes.  Only the first is looked at.
  predicate Padded(r: Record) {
    1 <= |r.pad| <= 8 && r.pad[0] == 0 && (62 + |r.extra| + |r.path| + |r.pad|) % 8 == 0
  }

  predicate Sharing(previous: Bytes, r: Record) {
    r.strip <= |previous| && r.strip < TWO64 && previous[..|previous| - r.strip] <= r.path
  }

  predicate ValidRecord(version: nat, previous: Bytes, r: Record) {
    && |r.before| == 24 && |r.after| == 32 && |r.flags| == 2 && 0 !in r.path
    && |r.extra| == (if Announces(r.flags) then 2 else 0) && (version == 2 ==> r.extra == [])
    && if version == 4 then Sharing(previous, r) else Padded(r)
  }

  predicate ValidRecords(version: nat, previous: Bytes, rs: seq<Record>)
    decreases |rs|
  {
    rs != [] ==> ValidRecord(version, previous, rs[0]) && ValidRecords(version, rs[0].path, rs[1..])
  }

  function WordText(v: Word32): (t: Bytes)
    ensures |t| == 4
  {
    [WordByte(v, 0), WordByte(v, 1), WordByte(v, 2), WordByte(v, 3)]
  }

  function FixedText(r: Record): Bytes {
    r.before + (WordText(r.mode) + (r.after + r.flags))
  }

  function PathText(version: nat, previous: Bytes, r: Record): Bytes
    requires ValidRecord(version, previous, r)
  {
    if version == 4 then EncodeStrip(r.strip) + (r.path[|previous| - r.strip..] + [0]) else r.path + r.pad
  }

  function RecordText(version: nat, previous: Bytes, r: Record): Bytes
    requires ValidRecord(version, previous, r)
  {
    FixedText(r) + (r.extra + PathText(version, previous, r))
  }

  function RecordsText(version: nat, previous: Bytes, rs: seq<Record>): Bytes
    requires ValidRecords(version, previous, rs)
    decreases |rs|
  {
    if rs == [] then [] else RecordText(version, previous, rs[0]) + RecordsText(version, rs[0].path, rs[1..])
  }

  predicate ValidExtension(e: Extension) {
    |e.signature| == 4 && e.signature != [0x6c, 0x69, 0x6e, 0x6b] && |e.payload| < TWO32
  }

  predicate ValidExtensions(exts: seq<Extension>) { forall i | 0 <= i < |exts| :: ValidExtension(exts[i]) }

  function ExtensionText(e: Extension): Bytes
    requires ValidExtension(e)
  {
    e.signature + (WordText(|e.payload|) + e.payload)
  }

  function ExtensionsText(exts: seq<Extension>): Bytes
    requires ValidExtensions(exts)
  {
    if exts == [] then [] else ExtensionText(exts[0]) + ExtensionsText(exts[1..])
  }

  // The entries that a parser should find.
  function Expected(version: nat, offset: nat, previous: Bytes, rs: seq<Record>): seq<IndexEntry>
    requires ValidRecords(version, previous, rs)
    decreases |rs|
  {
    if rs == [] then []
    else
      [IndexEntry(rs[0].path, rs[0].mode, offset)]
      + Expected(version, offset + |RecordText(version, previous, rs[0])|, rs[0].path, rs[1..])
  }

  predicate ValidFile(version: nat, rs: seq<Record>, exts: seq<Extension>) {
    2 <= version <= 4 && ValidRecords(version, [], rs) && |rs| < TWO32 && ValidExtensions(exts)
  }

  // "DIRC", version, count, entries, extensions, checksum.
  function FileText(version: nat, rs: seq<Record>, exts: seq<Extension>, checksum: Digest): Bytes
    requires ValidFile(version, rs, exts)
  {
    [0x44, 0x49, 0x52, 0x43] + (WordText(version) + (WordText(|rs|)
    + (RecordsText(version, [], rs) + (ExtensionsText(exts) + checksum))))
  }

  // x stands at position at.
  predicate At(b: Bytes, at: nat, x: Bytes) {
    at + |x| <= |b| && b[at..at + |x|] == x
  }

  lemma AtParts(b: Bytes, at: nat, x: Bytes, y: Bytes)
    ensures At(b, at, x + y) <==> At(b, at, x) && At(b, at + |x|, y)
  {
    if At(b, at, x + y) {
      assert b[at..at + |x + y|][..|x|] == x;
      assert b[at..at + |x + y|][|x|..] == y;
    }
    if At(b, at, x) && At(b, at + |x|, y) {
      assert b[at..at + |x + y|] == b[at..at + |x|] + b[at + |x|..at + |x| + |y|];
    }
  }

  lemma AtByte(b: Bytes, at: nat, x: Bytes, k: nat)
    requires At(b, at, x) && k < |x|
    ensures at + k < |b| && b[at + k] == x[k]
  {
    assert b[at..at + |x|][k] == x[k];
  }

  lemma WordReads(b: Bytes, at: nat, v: Word32)
    requires At(b, at, WordText(v))
    ensures at + 4 <= |b| && Read32(b, at) == v
  {
    WordOfBytes(v);
    AtByte(b, at, WordText(v), 0);
    AtByte(b, at, WordText(v), 1);
    AtByte(b, at, WordText(v), 2);
    AtByte(b, at, WordText(v), 3);
  }

  // The parts of an entry.
  lemma RecordParts(b: Bytes, at: nat, version: nat, previous: Bytes, r: Record)
    requires ValidRecord(version, previous, r)
    ensures |RecordText(version, previous, r)| == 62 + |r.extra| + |PathText(version, previous, r)|
    ensures At(b, at, RecordText(version, previous, r)) <==>
      && At(b, at, r.before) && At(b, at + 24, WordText(r.mode)) && At(b, at + 28, r.after) && At(b, at + 60, r.flags)
      && At(b, at + 62, r.extra) && At(b, at + 62 + |r.extra|, PathText(version, previous, r))
  {
    hide At, PathText, WordText;
    var path := PathText(version, previous, r);
    AtParts(b, at, FixedText(r), r.extra + path);
    AtParts(b, at + 62, r.extra, path);
    AtParts(b, at, r.before, WordText(r.mode) + (r.after + r.flags));
    AtParts(b, at + 24, WordText(r.mode), r.after + r.flags);
    AtParts(b, at + 28, r.after, r.flags);
  }

  // ----- what is written parses back -----

  lemma FlagsRead(b: Bytes, at: nat, flags: Bytes)
    requires |flags| == 2 && At(b, at + 60, flags)
    ensures Extended(b, at) <==> Announces(flags)
  {
    AtByte(b, at + 60, flags, 0);
    AtByte(b, at + 60, flags, 1);
    hide At;
    var high: int, low: int := flags[0], flags[1];
    assert (high * 256 + low) / 0x4000 == high / 0x40;
  }

  lemma NulFound(b: Bytes, from: nat, text: Bytes)
    requires At(b, from, text) && from + |text| < |b| && b[from + |text|] == 0 && 0 !in text
    ensures FindNul(b, from) == from + |text|
  {
    forall i | from <= i < from + |text| ensures b[i] != 0 { AtByte(b, from, text, i - from); }
  }

  lemma PaddedReads(b: Bytes, version: nat, at: nat, previous: Bytes, r: Record, end: nat)
    requires ValidRecord(version, previous, r) && version != 4 && end <= |b|
    requires At(b, at + 62 + |r.extra|, PathText(version, previous, r))
    requires at + |RecordText(version, previous, r)| <= end
    ensures var start := at + 62 + |r.extra|;
            && FindNul(b, start) == start + |r.path| && b[start..start + |r.path|] == r.path
            && at + (FindNul(b, start) - at + 8) / 8 * 8 == at + |RecordText(version, previous, r)|
  {
    hide At, RecordText, FindNul, Padded;
    var start, n := at + 62 + |r.extra|, 62 + |r.extra| + |r.path|;
    RecordParts(b, at, version, previous, r);
    AtParts(b, start, r.path, r.pad);
    PadRounds(r, n);
    AtByte(b, start + |r.path|, r.pad, 0);
    NulFound(b, start, r.path);
    AtSlice(b, start, r.path);
    assert FindNul(b, start) - at + 8 == n + 8;
  }

  lemma PadRounds(r: Record, n: nat)
    requires Padded(r) && n == 62 + |r.extra| + |r.path|
    ensures (n + 8) / 8 * 8 == n + |r.pad| && |r.pad| >= 1 && r.pad[0] == 0
  {
    RoundUp(n, |r.pad|);
  }

  lemma RoundUp(n: nat, pad: nat)
    requires 1 <= pad <= 8 && (n + pad) % 8 == 0
    ensures (n + 8) / 8 * 8 == n + pad
  {
  }

  lemma VarintReads(v: nat, b: Bytes, cursor: nat, end: nat)
    requires end <= |b| && v < TWO64 && cursor + |EncodeStrip(v)| <= end && At(b, cursor, EncodeStrip(v))
    ensures StripLength(b, cursor, end) == Some((v, cursor + |EncodeStrip(v)|))
  {
    StripDecodes(v, b, cursor, end);
  }

  lemma PrefixJoins(previous: Bytes, r: Record)
    requires Sharing(previous, r)
    ensures |previous| - r.strip <= |r.path|
      && previous[..|previous| - r.strip] + r.path[|previous| - r.strip..] == r.path
  {
  }

  lemma SharedReads(b: Bytes, at: nat, previous: Bytes, r: Record, end: nat)
    requires ValidRecord(4, previous, r) && end <= |b|
    requires At(b, at + 62 + |r.extra|, PathText(4, previous, r)) && at + |RecordText(4, previous, r)| <= end
    ensures var start, tail := at + 62 + |r.extra|, r.path[|previous| - r.strip..];
            var cursor := start + |EncodeStrip(r.strip)|;
            && StripLength(b, start, end) == Some((r.strip, cursor))
            && FindNul(b, cursor) == cursor + |tail| && b[cursor..cursor + |tail|] == tail
            && cursor + |tail| + 1 == at + |RecordText(4, previous, r)|
            && previous[..|previous| - r.strip] + tail == r.path
  {
    hide At, EncodeStrip, StripLength, FindNul, RecordText;
    PrefixJoins(previous, r);
    var start, tail := at + 62 + |r.extra|, r.path[|previous| - r.strip..];
    var cursor := start + |EncodeStrip(r.strip)|;
    RecordParts(b, at, 4, previous, r);
    AtParts(b, start, EncodeStrip(r.strip), tail + [0]);
    AtParts(b, cursor, tail, [0]);
    AtByte(b, cursor + |tail|, [0], 0);
    hide PathText;
    VarintReads(r.strip, b, start, end);
    NulFound(b, cursor, tail);
    AtSlice(b, cursor, tail);
  }

  lemma AtSlice(b: Bytes, at: nat, x: Bytes)
    requires At(b, at, x)
    ensures at + |x| <= |b| && b[at..at + |x|] == x
  {
  }

  lemma RecordReads(b: Bytes, version: nat, at: nat, previous: Bytes, r: Record, end: nat)
    requires 2 <= version <= 4 && ValidRecord(version, previous, r) && end <= |b|
    requires At(b, at, RecordText(version, previous, r)) && at + |RecordText(version, previous, r)| <= end
    ensures EntryAt(b, version, at, previous, end)
         == Some((IndexEntry(r.path, r.mode, at), at + |RecordText(version, previous, r)|))
  {
    hide At, Read32, Extended, Announces, FindNul, StripLength, RecordText, PathText, EncodeStrip;
    RecordParts(b, at, version, previous, r);
    FlagsRead(b, at, r.flags);
    WordReads(b, at + 24, r.mode);
    if version == 4 {
      SharedReads(b, at, previous, r, end);
    } else {
      PaddedReads(b, version, at, previous, r, end);
    }
  }

  lemma {:induction false} RecordsRead(b: Bytes, version: nat, at: nat, previous: Bytes, rs: seq<Record>, end: nat)
    requires 2 <= version <= 4 && ValidRecords(version, previous, rs) && end <= |b|
    requires At(b, at, RecordsText(version, previous, rs)) && at + |RecordsText(version, previous, rs)| <= end
    ensures EntriesFrom(b, version, |rs|, at, previous, end)
         == Some((Expected(version, at, previous, rs), at + |RecordsText(version, previous, rs)|))
    decreases |rs|
  {
    hide At, EntryAt, RecordText, ValidRecord;
    if rs != [] {
      var first := RecordText(version, previous, rs[0]);
      AtParts(b, at, first, RecordsText(version, rs[0].path, rs[1..]));
      RecordReads(b, version, at, previous, rs[0], end);
      RecordsRead(b, version, at + |first|, rs[0].path, rs[1..], end);
    }
  }

  lemma ExtensionReads(b: Bytes, at: nat, e: Extension, end: nat)
    requires ValidExtension(e) && At(b, at, ExtensionText(e)) && at + |ExtensionText(e)| <= end <= |b|
    ensures |ExtensionText(e)| == 8 + |e.payload|
      && ExtensionsFrom(b, at, end) == ExtensionsFrom(b, at + |ExtensionText(e)|, end)
  {
    AtParts(b, at, e.signature, WordText(|e.payload|) + e.payload);
    AtParts(b, at + 4, WordText(|e.payload|), e.payload);
    WordReads(b, at + 4, |e.payload|);
    hide Read32, WordText;
  }

  lemma {:induction false} ExtensionsRead(b: Bytes, at: nat, exts: seq<Extension>, end: nat)
    requires ValidExtensions(exts) && At(b, at, ExtensionsText(exts)) && at + |ExtensionsText(exts)| == end <= |b|
    ensures ExtensionsFrom(b, at, end)
    decreases |exts|
  {
    hide At, ExtensionText;
    if exts != [] {
      hide ExtensionsFrom;
      AtParts(b, at, ExtensionText(exts[0]), ExtensionsText(exts[1..]));
      ExtensionReads(b, at, exts[0], end);
      ExtensionsRead(b, at + |ExtensionText(exts[0])|, exts[1..], end);
    }
  }

  lemma FileParts(version: nat, rs: seq<Record>, exts: seq<Extension>, checksum: Digest)
    requires ValidFile(version, rs, exts)
    ensures var b, es, xs := FileText(version, rs, exts, checksum), RecordsText(version, [], rs), ExtensionsText(exts);
            && |b| == 12 + |es| + |xs| + 20 && At(b, 0, [0x44, 0x49, 0x52, 0x43])
            && At(b, 4, WordText(version)) && At(b, 8, WordText(|rs|)) && At(b, 12, es) && At(b, 12 + |es|, xs)
  {
    hide RecordsText, ExtensionsText, WordText;
    var b, es, xs := FileText(version, rs, exts, checksum), RecordsText(version, [], rs), ExtensionsText(exts);
    assert At(b, 0, b);
    hide At;
    AtParts(b, 0, [0x44, 0x49, 0x52, 0x43], WordText(version) + (WordText(|rs|) + (es + (xs + checksum))));
    AtParts(b, 4, WordText(version), WordText(|rs|) + (es + (xs + checksum)));
    AtParts(b, 8, WordText(|rs|), es + (xs + checksum));
    AtParts(b, 12, es, xs + checksum);
    AtParts(b, 12 + |es|, xs, checksum);
  }

  /**
    Round trip of versions 2, 3 and 4: any entries with NUL-free paths, padded or sharing with the
    previous path, and any extensions parse back to those paths, modes and offsets.
   */
  lemma WrittenParses(version: nat, rs: seq<Record>, exts: seq<Extension>, checksum: Digest)
    requires ValidFile(version, rs, exts)
    ensures Parse(FileText(version, rs, exts, checksum)) == Some(Expected(version, 12, [], rs))
  {
    hide At, EntriesFrom, ExtensionsFrom, RecordsText, ExtensionsText, Expected, Read32, FileText, WordText;
    var b := FileText(version, rs, exts, checksum);
    FileParts(version, rs, exts, checksum);
    WordReads(b, 4, version);
    WordReads(b, 8, |rs|);
    RecordsRead(b, version, 12, [], rs, |b| - 20);
    ExtensionsRead(b, 12 + |RecordsText(version, [], rs)|, exts, |b| - 20);
    StartsWith(b, [0x44, 0x49, 0x52, 0x43]);
  }

  lemma StartsWith(b: Bytes, x: Bytes)
    requires At(b, 0, x)
    ensures |x| <= |b| && b[..|x|] == x
  {
  }

  // ----- what parses was written -----

  lemma WordWritten(b: Bytes, at: nat)
    requires at + 4 <= |b|
    ensures At(b, at, WordText(Read32(b, at)))
  {
    var b0: int, b1: int, b2: int, b3: int := b[at], b[at + 1], b[at + 2], b[at + 3];
    var v: int := Read32(b, at);
    assert v == ((b0 * 256 + b1) * 256 + b2) * 256 + b3;
    assert v % 256 == b3 && v / 0x100 == (b0 * 256 + b1) * 256 + b2;
    assert v / 0x100 % 256 == b2 && v / 0x1_0000 == b0 * 256 + b1;
    assert v / 0x1_0000 % 256 == b1 && v / 0x100_0000 == b0;
    assert b[at..at + 4] == [b[at], b[at + 1], b[at + 2], b[at + 3]];
  }

  lemma SliceStands(b: Bytes, at: nat, end: nat)
    requires at <= end <= |b|
    ensures At(b, at, b[at..end])
  {
  }

  // The record that was read.
  ghost function RecordAt(b: Bytes, version: nat, at: nat, previous: Bytes, end: nat): Record
    requires end <= |b| && EntryAt(b, version, at, previous, end).Some?
  {
    var start, next := PathStart(b, at), EntryAt(b, version, at, previous, end).value.1;
    var strip := if version == 4 then StripLength(b, start, end).value.0 else 0;
    var pad := if version == 4 then [] else b[FindNul(b, start)..next];
    Record(b[at..at + 24], Read32(b, at + 24), b[at + 28..at + 60], b[at + 60..at + 62], b[at + 62..start],
           EntryAt(b, version, at, previous, end).value.0.path, strip, pad)
  }

  lemma FixedWritten(b: Bytes, version: nat, at: nat, previous: Bytes, end: nat)
    requires end <= |b| && EntryAt(b, version, at, previous, end).Some?
    ensures var r := RecordAt(b, version, at, previous, end);
            && |r.before| == 24 && |r.after| == 32 && |r.flags| == 2
            && |r.extra| == (if Announces(r.flags) then 2 else 0) && (version == 2 ==> r.extra == [])
            && PathStart(b, at) == at + 62 + |r.extra| && PathStart(b, at) < end
            && At(b, at, r.before) && At(b, at + 24, WordText(r.mode)) && At(b, at + 28, r.after)
            && At(b, at + 60, r.flags) && At(b, at + 62, r.extra)
            && EntryAt(b, version, at, previous, end).value.0.mode == r.mode
  {
    hide FindNul, StripLength, Read32, WordText, Announces, Extended;
    WordWritten(b, at + 24);
    FlagsRead(b, at, b[at + 60..at + 62]);
  }

  lemma PaddedWritten(b: Bytes, version: nat, at: nat, previous: Bytes, end: nat)
    requires end <= |b| && version != 4 && EntryAt(b, version, at, previous, end).Some?
    ensures var r, start := RecordAt(b, version, at, previous, end), PathStart(b, at);
            && 0 !in r.path && start == at + 62 + |r.extra| && Padded(r) && At(b, start, r.path + r.pad)
            && start + |r.path| + |r.pad| == EntryAt(b, version, at, previous, end).value.1
  {
    hide StripLength, Read32, Extended;
    var r, start := RecordAt(b, version, at, previous, end), PathStart(b, at);
    var terminator, next := FindNul(b, start), EntryAt(b, version, at, previous, end).value.1;
    assert 0 !in b[start..terminator];
    var n := terminator - at;
    assert next == at + (n + 8) / 8 * 8 && 1 <= (n + 8) / 8 * 8 - n <= 8;
    SliceStands(b, start, terminator);
    SliceStands(b, terminator, next);
    AtParts(b, start, r.path, r.pad);
    assert 62 + |r.extra| + |r.path| + |r.pad| == (n + 8) / 8 * 8;
  }

  lemma SharedWritten(b: Bytes, at: nat, previous: Bytes, end: nat)
    requires end <= |b| && EntryAt(b, 4, at, previous, end).Some? && 0 !in previous
    ensures var r, start := RecordAt(b, 4, at, previous, end), PathStart(b, at);
            && 0 !in r.path && Sharing(previous, r)
            && var tail := r.path[|previous| - r.strip..];
               && At(b, start, EncodeStrip(r.strip) + (tail + [0]))
               && start + |EncodeStrip(r.strip)| + |tail| + 1 == EntryAt(b, 4, at, previous, end).value.1
  {
    hide At, EncodeStrip;
    var r, start := RecordAt(b, 4, at, previous, end), PathStart(b, at);
    SharedRead(b, at, previous, end);
    var cursor := StripLength(b, start, end).value.1;
    var terminator := FindNul(b, cursor);
    var tail := b[cursor..terminator];
    StripIsEncoding(b, start, end);
    hide StripLength, FindNul, EntryAt, RecordAt, Read32, PathStart;
    PrefixDropped(previous, r, tail);
    SliceStands(b, start, cursor);
    SliceStands(b, cursor, terminator);
    SliceStands(b, terminator, terminator + 1);
    assert b[terminator..terminator + 1] == [0];
    AtParts(b, cursor, tail, [0]);
    AtParts(b, start, EncodeStrip(r.strip), tail + [0]);
  }

  // What the parser has seen of an entry of version 4.
  lemma SharedRead(b: Bytes, at: nat, previous: Bytes, end: nat)
    requires end <= |b| && EntryAt(b, 4, at, previous, end).Some?
    ensures var r, start := RecordAt(b, 4, at, previous, end), PathStart(b, at);
            && StripLength(b, start, end).Some? && r.strip == StripLength(b, start, end).value.0 <= |previous|
            && r.strip < TWO64
            && var cursor := StripLength(b, start, end).value.1;
               && start < cursor <= FindNul(b, cursor) < end && b[FindNul(b, cursor)] == 0
               && r.path == previous[..|previous| - r.strip] + b[cursor..FindNul(b, cursor)]
               && 0 !in b[cursor..FindNul(b, cursor)]
               && EntryAt(b, 4, at, previous, end).value.1 == FindNul(b, cursor) + 1
  {
    hide Read32, Extended;
  }

  lemma PrefixDropped(previous: Bytes, r: Record, tail: Bytes)
    requires r.strip <= |previous| && r.strip < TWO64 && r.path == previous[..|previous| - r.strip] + tail
    requires 0 !in previous && 0 !in tail
    ensures Sharing(previous, r) && r.path[|previous| - r.strip..] == tail && 0 !in r.path
  {
  }

  lemma RecordWritten(b: Bytes, version: nat, at: nat, previous: Bytes, end: nat)
    requires end <= |b| && 2 <= version <= 4 && EntryAt(b, version, at, previous, end).Some? && 0 !in previous
    ensures var r := RecordAt(b, version, at, previous, end);
            && ValidRecord(version, previous, r) && r.path == EntryAt(b, version, at, previous, end).value.0.path
            && At(b, at, RecordText(version, previous, r))
            && at + |RecordText(version, previous, r)| == EntryAt(b, version, at, previous, end).value.1
  {
    hide At, Announces, Padded, Sharing, EntryAt, PathStart, EncodeStrip, RecordText;
    var r := RecordAt(b, version, at, previous, end);
    FixedWritten(b, version, at, previous, end);
    SamePath(b, version, at, previous, end);
    hide RecordAt;
    if version == 4 {
      SharedWritten(b, at, previous, end);
    } else {
      PaddedWritten(b, version, at, previous, end);
    }
    RecordParts(b, at, version, previous, r);
  }

  lemma SamePath(b: Bytes, version: nat, at: nat, previous: Bytes, end: nat)
    requires end <= |b| && EntryAt(b, version, at, previous, end).Some?
    ensures RecordAt(b, version, at, previous, end).path == EntryAt(b, version, at, previous, end).value.0.path
  {
  }

  lemma {:induction false} RecordsWritten(b: Bytes, version: nat, count: nat, at: nat, previous: Bytes, end: nat)
    returns (rs: seq<Record>)
    requires at <= end <= |b| && 2 <= version <= 4 && EntriesFrom(b, version, count, at, previous, end).Some?
    requires 0 !in previous
    ensures |rs| == count && ValidRecords(version, previous, rs) && At(b, at, RecordsText(version, previous, rs))
    ensures at + |RecordsText(version, previous, rs)| == EntriesFrom(b, version, count, at, previous, end).value.1
    decreases count
  {
    hide At, EntryAt, RecordText, RecordAt, ValidRecord;
    rs := [];
    if count == 0 {
      NothingStands(b, at);
    } else {
      var (entry, next) := EntryAt(b, version, at, previous, end).value;
      var r := RecordAt(b, version, at, previous, end);
      RecordWritten(b, version, at, previous, end);
      PathIsClean(version, previous, r);
      EntriesSpaced(b, version, count - 1, next, entry.path, end);
      rs := RecordsWritten(b, version, count - 1, next, entry.path, end);
      AtParts(b, at, RecordText(version, previous, r), RecordsText(version, r.path, rs));
      rs := [r] + rs;
      assert rs[0] == r;
    }
  }

  lemma NothingStands(b: Bytes, at: nat)
    requires at <= |b|
    ensures At(b, at, [])
  {
  }

  lemma PathIsClean(version: nat, previous: Bytes, r: Record)
    requires ValidRecord(version, previous, r)
    ensures 0 !in r.path
  {
  }

  lemma {:induction false} ExtensionsWritten(b: Bytes, at: nat, end: nat) returns (exts: seq<Extension>)
    requires at <= end <= |b| && ExtensionsFrom(b, at, end)
    ensures ValidExtensions(exts) && At(b, at, ExtensionsText(exts)) && at + |ExtensionsText(exts)| == end
    decreases end - at
  {
    exts := [];
    if at + 8 > end {
      NothingStands(b, at);
    } else {
      var e := ExtensionWritten(b, at, end);
      hide At, ExtensionText;
      exts := ExtensionsWritten(b, at + |ExtensionText(e)|, end);
      AtParts(b, at, ExtensionText(e), ExtensionsText(exts));
      exts := [e] + exts;
      assert exts[0] == e;
    }
  }

  lemma ExtensionWritten(b: Bytes, at: nat, end: nat) returns (e: Extension)
    requires at + 8 <= end <= |b| && ExtensionsFrom(b, at, end)
    ensures ValidExtension(e) && At(b, at, ExtensionText(e)) && |ExtensionText(e)| > 0
    ensures at + |ExtensionText(e)| <= end && ExtensionsFrom(b, at + |ExtensionText(e)|, end)
  {
    var size := Read32(b, at + 4);
    e := Extension(b[at..at + 4], b[at + 8..at + 8 + size]);
    WordWritten(b, at + 4);
    SliceStands(b, at, at + 4);
    SliceStands(b, at + 8, at + 8 + size);
    hide At, Read32, WordText;
    AtParts(b, at + 4, WordText(size), e.payload);
    AtParts(b, at, e.signature, WordText(size) + e.payload);
  }

  lemma ParsedIsWritten(b: Bytes) returns (version: nat, rs: seq<Record>, exts: seq<Extension>, checksum: Digest)
    requires Parse(b).Some?
    ensures ValidFile(version, rs, exts) && b == FileText(version, rs, exts, checksum)
  {
    hide At, Read32, ExtensionsFrom, EntriesFrom, WordText;
    version := Read32(b, 4);
    var end, count := |b| - 20, Read32(b, 8);
    EntriesSpaced(b, version, count, 12, [], end);
    rs := RecordsWritten(b, version, count, 12, [], end);
    var last := EntriesFrom(b, version, count, 12, [], end).value.1;
    exts := ExtensionsWritten(b, last, end);
    checksum := b[end..];
    WordWritten(b, 4);
    WordWritten(b, 8);
    FileStands(b, version, rs, exts, checksum);
  }

  lemma FileStands(b: Bytes, version: nat, rs: seq<Record>, exts: seq<Extension>, checksum: Digest)
    requires ValidFile(version, rs, exts)
    requires var es, xs := RecordsText(version, [], rs), ExtensionsText(exts);
             && |b| == 12 + |es| + |xs| + 20 && b[..4] == [0x44, 0x49, 0x52, 0x43] && b[|b| - 20..] == checksum
             && At(b, 4, WordText(version)) && At(b, 8, WordText(|rs|)) && At(b, 12, es) && At(b, 12 + |es|, xs)
    ensures b == FileText(version, rs, exts, checksum)
  {
    hide RecordsText, ExtensionsText, WordText;
    var es, xs := RecordsText(version, [], rs), ExtensionsText(exts);
    assert At(b, |b| - 20, checksum) && At(b, 0, [0x44, 0x49, 0x52, 0x43]);
    hide At;
    AtParts(b, 12 + |es|, xs, checksum);
    AtParts(b, 12, es, xs + checksum);
    AtParts(b, 8, WordText(|rs|), es + (xs + checksum));
    AtParts(b, 4, WordText(version), WordText(|rs|) + (es + (xs + checksum)));
    AtParts(b, 0, [0x44, 0x49, 0x52, 0x43], WordText(version) + (WordText(|rs|) + (es + (xs + checksum))));
    StartsWith(b, FileText(version, rs, exts, checksum));
  }

  /** Exactly the files of this format are accepted; every other one is refused. */
  lemma AcceptedIffWritten(b: Bytes)
    ensures Parse(b).Some? <==>
      exists version, rs, exts, checksum: Digest ::
        ValidFile(version, rs, exts) && b == FileText(version, rs, exts, checksum)
  {
    hide Parse, ValidFile, FileText;
    if Parse(b).Some? {
      var version, rs, exts, checksum := ParsedIsWritten(b);
    }
    if version, rs, exts, checksum: Digest :|
      ValidFile(version, rs, exts) && b == FileText(version, rs, exts, checksum) {
      WrittenParses(version, rs, exts, checksum);
    }
  }
}
