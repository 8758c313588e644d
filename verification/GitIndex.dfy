/**
  Git index files, versions 2 to 4: parsing, and rewriting stat data in place
  (gitformat-index(5), index entry format).
 */
module GitIndex {
  import opened Layers
  import InodeMixer

  type Bytes = seq<Byte>

  const HEADER_SIZE := 12
  const CHECKSUM_SIZE := 20
  const MODE_OFFSET := 24
  const FLAGS_OFFSET := 60
  const PATH_OFFSET := 62

  const TWO32 := 0x1_0000_0000
  const TWO64 := 0x1_0000_0000_0000_0000

  type Word32 = x: int | 0 <= x < TWO32

  // ----- big-endian words -----

  function Read32(b: Bytes, at: nat): (v: Word32)
    requires at + 4 <= |b|
  {
    var b0: int, b1: int, b2: int, b3: int := b[at], b[at + 1], b[at + 2], b[at + 3];
    ((b0 * 256 + b1) * 256 + b2) * 256 + b3
  }

  // The i-th byte of a word, most significant first.
  function WordByte(v: Word32, i: nat): (b: Byte)
    requires i < 4
  {
    var w: int := v;
    match i
    case 0 => w / 0x100_0000
    case 1 => w / 0x1_0000 % 256
    case 2 => w / 0x100 % 256
    case _ => w % 256
  }

  lemma WordOfBytes(v: Word32)
    ensures var b0: int, b1: int, b2: int, b3: int := WordByte(v, 0), WordByte(v, 1), WordByte(v, 2), WordByte(v, 3);
            ((b0 * 256 + b1) * 256 + b2) * 256 + b3 == v
  {
    var w: int := v;
    assert w / 0x100 == w / 0x1_0000 * 256 + w / 0x100 % 256;
    assert w / 0x1_0000 == w / 0x100_0000 * 256 + w / 0x1_0000 % 256;
  }

  // ----- the offset varint -----

  // From the bytes after the first: `value` is what they make of the ones before.
  function ContinueStrip(b: Bytes, cursor: nat, end: nat, value: nat): (r: Option<(nat, nat)>)
    requires end <= |b| && value < TWO64
    ensures r.Some? ==> r.value.0 < TWO64 && cursor < r.value.1 <= end
    decreases end - cursor
  {
    if cursor >= end || value >= (TWO64 - 1) / 128 then None
    else
      var byte: int := b[cursor];
      var value' := (value + 1) * 128 + byte % 128;
      if byte < 128 then Some((value', cursor + 1)) else ContinueStrip(b, cursor + 1, end, value')
  }

  // The number of bytes to drop, and where the varint ends.
  function StripLength(b: Bytes, cursor: nat, end: nat): (r: Option<(nat, nat)>)
    requires end <= |b|
    ensures r.Some? ==> r.value.0 < TWO64 && cursor < r.value.1 <= end
  {
    if cursor >= end then None
    else
      var byte: int := b[cursor];
      if byte < 128 then Some((byte, cursor + 1)) else ContinueStrip(b, cursor + 1, end, byte % 128)
  }

  // Git's encoder: the leading bytes of v, all with the continuation bit.
  function Leading(v: nat): Bytes {
    if v < 128 then [128 + v] else Leading(v / 128 - 1) + [128 + v % 128]
  }

  function EncodeStrip(v: nat): Bytes {
    if v < 128 then [v] else Leading(v / 128 - 1) + [v % 128]
  }

  // ----- one entry -----

  datatype IndexEntry = IndexEntry(path: Bytes, mode: Word32, offset: nat)

  function FindNul(b: Bytes, from: nat): (t: nat)
    ensures from <= t && (t < |b| ==> b[t] == 0) && (t > |b| ==> t == from)
    ensures forall i | from <= i < t && i < |b| :: b[i] != 0
    decreases |b| - from
  {
    if from >= |b| || b[from] == 0 then from else FindNul(b, from + 1)
  }

  function PathStart(b: Bytes, offset: nat): nat
    requires offset + PATH_OFFSET <= |b|
  {
    if Extended(b, offset) then offset + PATH_OFFSET + 2 else offset + PATH_OFFSET
  }

  predicate Extended(b: Bytes, offset: nat)
    requires offset + PATH_OFFSET <= |b|
  {
    var high: int := b[offset + FLAGS_OFFSET];
    high / 0x40 % 2 == 1
  }

  // The entry at offset, and where the next one starts.
  function EntryAt(b: Bytes, version: nat, offset: nat, previous: Bytes, end: nat): (r: Option<(IndexEntry, nat)>)
    requires end <= |b|
    ensures r.Some? ==> offset + PATH_OFFSET < r.value.1 <= end && r.value.0.offset == offset
  {
    if offset + PATH_OFFSET > end || (Extended(b, offset) && version < 3) then None
    else
      var start := PathStart(b, offset);
      if version == 4 then
        match StripLength(b, start, end)
        case None => None
        case Some((strip, cursor)) =>
          var terminator := FindNul(b, cursor);
          if strip > |previous| || terminator >= end then None
          else Some((IndexEntry(previous[..|previous| - strip] + b[cursor..terminator],
                                Read32(b, offset + MODE_OFFSET), offset), terminator + 1))
      else
        var terminator := FindNul(b, start);
        var next := offset + (terminator - offset + 8) / 8 * 8;
        if terminator >= end || next > end then None
        else Some((IndexEntry(b[start..terminator], Read32(b, offset + MODE_OFFSET), offset), next))
  }

  // `count` entries from offset on, and where they end.
  function EntriesFrom(b: Bytes, version: nat, count: nat, offset: nat, previous: Bytes,
                       end: nat): (r: Option<(seq<IndexEntry>, nat)>)
    requires end <= |b|
    decreases count
  {
    if count == 0 then Some(([], offset))
    else match EntryAt(b, version, offset, previous, end)
      case None => None
      case Some((entry, next)) =>
        match EntriesFrom(b, version, count - 1, next, entry.path, end)
        case None => None
        case Some((rest, last)) => Some(([entry] + rest, last))
  }

  const LINK: Bytes := [0x6c, 0x69, 0x6e, 0x6b]
  const DIRC: Bytes := [0x44, 0x49, 0x52, 0x43]

  // Extensions fill the rest exactly, and none of them is `link`.
  predicate ExtensionsFrom(b: Bytes, offset: nat, end: nat)
    requires end <= |b|
    decreases end - offset
  {
    if offset + 8 > end then offset == end
    else
      && b[offset..offset + 4] != LINK
      && Read32(b, offset + 4) <= end - offset - 8
      && ExtensionsFrom(b, offset + 8 + Read32(b, offset + 4), end)
  }

  function Parse(b: Bytes): Option<seq<IndexEntry>> {
    if |b| < HEADER_SIZE + CHECKSUM_SIZE || b[..4] != DIRC || !(2 <= Read32(b, 4) <= 4) then None
    else match EntriesFrom(b, Read32(b, 4), Read32(b, 8), HEADER_SIZE, [], |b| - CHECKSUM_SIZE)
      case None => None
      case Some((entries, offset)) => if ExtensionsFrom(b, offset, |b| - CHECKSUM_SIZE) then Some(entries) else None
  }

  // ----- the parser's loops -----

  method ReadPathStripLength(b: Bytes, start: nat, end: nat) returns (r: Option<(nat, nat)>)
    requires end <= |b|
    ensures r == StripLength(b, start, end)
  {
    var cursor := start;
    if cursor >= end { return None; }
    var byte: int := b[cursor];
    cursor := cursor + 1;
    var value: nat := byte % 128;
    while byte >= 128
      invariant start < cursor <= end && value < TWO64 && 0 <= byte < 256
      invariant if byte < 128 then StripLength(b, start, end) == Some((value, cursor))
                else StripLength(b, start, end) == ContinueStrip(b, cursor, end, value)
      decreases end - cursor, if byte >= 128 then 1 else 0
    {
      if cursor >= end || value >= (TWO64 - 1) / 128 { return None; }
      byte := b[cursor];
      cursor := cursor + 1;
      value := (value + 1) * 128 + byte % 128;
    }
    r := Some((value, cursor));
  }

  method ReadEntry(b: Bytes, version: nat, offset: nat, previous: Bytes, end: nat)
    returns (r: Option<(IndexEntry, nat)>)
    requires end <= |b|
    ensures r == EntryAt(b, version, offset, previous, end)
  {
    hide StripLength, FindNul;
    if offset + PATH_OFFSET > end { return None; }
    var high: int := b[offset + FLAGS_OFFSET];
    var pathStart := offset + PATH_OFFSET;
    if high / 0x40 % 2 == 1 {
      if version < 3 { return None; }
      pathStart := pathStart + 2;
    }
    var path, next;
    if version == 4 {
      var strip := ReadPathStripLength(b, pathStart, end);
      if strip.None? || strip.value.0 > |previous| { return None; }
      var terminator := FindNul(b, strip.value.1);
      if terminator >= end { return None; }
      path := previous[..|previous| - strip.value.0] + b[strip.value.1..terminator];
      next := terminator + 1;
    } else {
      var terminator := FindNul(b, pathStart);
      if terminator >= end { return None; }
      path := b[pathStart..terminator];
      next := offset + (pathStart - offset + |path| + 8) / 8 * 8;
      if next > end { return None; }
    }
    r := Some((IndexEntry(path, Read32(b, offset + MODE_OFFSET), offset), next));
  }

  lemma EntriesSnoc(b: Bytes, version: nat, i: nat, offset: nat, previous: Bytes, end: nat)
    requires end <= |b|
    ensures var r := EntriesFrom(b, version, i, offset, previous, end);
            EntriesFrom(b, version, i + 1, offset, previous, end) ==
            if r.None? then None
            else
              var (es, last) := r.value;
              var e := EntryAt(b, version, last, if es == [] then previous else es[|es| - 1].path, end);
              if e.None? then None else Some((es + [e.value.0], e.value.1))
    decreases i
  {
    hide EntryAt;
    var first := EntryAt(b, version, offset, previous, end);
    if first.Some? {
      var (entry, next) := first.value;
      if i == 0 {
        assert EntriesFrom(b, version, 0, next, entry.path, end) == Some(([], next));
        assert [entry] + [] == [] + [entry];
      } else {
        EntriesSnoc(b, version, i - 1, next, entry.path, end);
        var init := EntriesFrom(b, version, i - 1, next, entry.path, end);
        if init.Some? {
          var (rest, last) := init.value;
          var e := EntryAt(b, version, last, if rest == [] then entry.path else rest[|rest| - 1].path, end);
          if e.Some? { assert [entry] + (rest + [e.value.0]) == [entry] + rest + [e.value.0]; }
        }
      }
    }
  }

  // Once an entry cannot be read, more entries cannot either.
  lemma EntriesFail(b: Bytes, version: nat, i: nat, count: nat, offset: nat, previous: Bytes, end: nat)
    requires end <= |b| && i <= count && EntriesFrom(b, version, i, offset, previous, end).None?
    ensures EntriesFrom(b, version, count, offset, previous, end).None?
    decreases count - i
  {
    if i < count {
      EntriesSnoc(b, version, i, offset, previous, end);
      EntriesFail(b, version, i + 1, count, offset, previous, end);
    }
  }

  lemma NoEntries(b: Bytes, version: nat, end: nat)
    requires end <= |b|
    ensures EntriesFrom(b, version, 0, HEADER_SIZE, [], end) == Some(([], HEADER_SIZE))
  {
  }

  method ReadEntries(b: Bytes, version: nat, count: nat, end: nat) returns (r: Option<(seq<IndexEntry>, nat)>)
    requires end <= |b|
    ensures r == EntriesFrom(b, version, count, HEADER_SIZE, [], end)
  {
    hide EntriesFrom, EntryAt;
    var entries: seq<IndexEntry>, offset: nat, previous: Bytes := [], HEADER_SIZE, [];
    NoEntries(b, version, end);
    for i := 0 to count
      invariant EntriesFrom(b, version, i, HEADER_SIZE, [], end) == Some((entries, offset))
      invariant previous == if entries == [] then [] else entries[|entries| - 1].path
    {
      EntriesSnoc(b, version, i, HEADER_SIZE, [], end);
      var entry := ReadEntry(b, version, offset, previous, end);
      if entry.None? {
        EntriesFail(b, version, i + 1, count, HEADER_SIZE, [], end);
        return None;
      }
      entries, offset, previous := entries + [entry.value.0], entry.value.1, entry.value.0.path;
    }
    r := Some((entries, offset));
  }

  /** parse_git_index. */
  method ParseGitIndex(b: Bytes) returns (entries: Option<seq<IndexEntry>>)
    ensures entries == Parse(b)
  {
    hide EntriesFrom;
    if |b| < HEADER_SIZE + CHECKSUM_SIZE || b[..4] != DIRC { return None; }
    var version, count, end := Read32(b, 4), Read32(b, 8), |b| - CHECKSUM_SIZE;
    if version < 2 || version > 4 { return None; }
    var read := ReadEntries(b, version, count, end);
    if read.None? { return None; }
    var offset: nat := read.value.1;
    while offset + 8 <= end
      invariant Parse(b) == if ExtensionsFrom(b, offset, end) then Some(read.value.0) else None
      decreases end - offset
    {
      var size := Read32(b, offset + 4);
      if b[offset..offset + 4] == LINK || size > end - offset - 8 { return None; }
      offset := offset + 8 + size;
    }
    entries := if offset != end then None else Some(read.value.0);
  }

  // ----- the varint is a bijection -----

  lemma {:induction false} LeadingDecodes(w: nat, b: Bytes, cursor: nat, end: nat)
    requires end <= |b| && w < TWO64 / 128 && cursor + |Leading(w)| <= end
    requires b[cursor..cursor + |Leading(w)|] == Leading(w)
    ensures StripLength(b, cursor, end) == ContinueStrip(b, cursor + |Leading(w)|, end, w)
    decreases w
  {
    hide ContinueStrip;
    if w < 128 {
      assert b[cursor] == Leading(w)[0];
    } else {
      hide StripLength, Leading;
      LastLeading(w, b, cursor);
      LeadingDecodes(w / 128 - 1, b, cursor, end);
      ContinuesWith(b, cursor + |Leading(w)| - 1, end, w);
    }
  }

  lemma LastLeading(w: nat, b: Bytes, cursor: nat)
    requires w >= 128 && cursor + |Leading(w)| <= |b| && b[cursor..cursor + |Leading(w)|] == Leading(w)
    ensures var rest := Leading(w / 128 - 1);
            && |Leading(w)| == |rest| + 1 && b[cursor..cursor + |rest|] == rest
            && b[cursor + |rest|] as int == 128 + w % 128
  {
    var rest, whole: Bytes := Leading(w / 128 - 1), Leading(w);
    assert whole == rest + [128 + w % 128];
    hide Leading;
    assert b[cursor..cursor + |whole|][|rest|] == whole[|rest|] == 128 + w % 128;
    assert b[cursor..cursor + |whole|][..|rest|] == whole[..|rest|] == rest;
  }

  lemma ContinuesWith(b: Bytes, cursor: nat, end: nat, w: nat)
    requires cursor < end <= |b| && 128 <= w < TWO64 / 128 && b[cursor] as int == 128 + w % 128
    ensures ContinueStrip(b, cursor, end, w / 128 - 1) == ContinueStrip(b, cursor + 1, end, w)
  {
    var byte: int := b[cursor];
    assert byte % 128 == w % 128;
    assert (w / 128 - 1 + 1) * 128 + byte % 128 == w;
  }

  /** Decoding what the encoder wrote gives the number back, for every 64-bit number. */
  lemma StripDecodes(v: nat, b: Bytes, cursor: nat, end: nat)
    requires end <= |b| && v < TWO64 && cursor + |EncodeStrip(v)| <= end
    requires b[cursor..cursor + |EncodeStrip(v)|] == EncodeStrip(v)
    ensures StripLength(b, cursor, end) == Some((v, cursor + |EncodeStrip(v)|))
  {
    var n := |EncodeStrip(v)| - 1;
    assert b[cursor + n] == EncodeStrip(v)[n];
    if v >= 128 {
      assert b[cursor..cursor + n] == EncodeStrip(v)[..n] == Leading(v / 128 - 1);
      LeadingDecodes(v / 128 - 1, b, cursor, end);
      var byte: int := b[cursor + n];
      assert byte == v % 128 && (v / 128 - 1 + 1) * 128 + byte % 128 == v;
    }
  }

  lemma {:induction false} ContinuedIsEncoding(b: Bytes, start: nat, cursor: nat, end: nat, value: nat)
    requires end <= |b| && value < TWO64 && start <= cursor <= end && b[start..cursor] == Leading(value)
    requires ContinueStrip(b, cursor, end, value).Some?
    ensures var (v, stop) := ContinueStrip(b, cursor, end, value).value; b[start..stop] == EncodeStrip(v)
    decreases end - cursor
  {
    var byte: int := b[cursor];
    var value' := (value + 1) * 128 + byte % 128;
    assert value' / 128 - 1 == value && value' % 128 == byte % 128;
    assert b[start..cursor + 1] == b[start..cursor] + [b[cursor]];
    if byte >= 128 { ContinuedIsEncoding(b, start, cursor + 1, end, value'); }
  }

  /** ... and every varint the decoder accepts is the encoder's own. */
  lemma StripIsEncoding(b: Bytes, cursor: nat, end: nat)
    requires end <= |b| && StripLength(b, cursor, end).Some?
    ensures var (v, stop) := StripLength(b, cursor, end).value; b[cursor..stop] == EncodeStrip(v)
  {
    var byte: int := b[cursor];
    assert b[cursor..cursor + 1] == [b[cursor]];
    if byte >= 128 { ContinuedIsEncoding(b, cursor, cursor + 1, end, byte % 128); }
  }

  // ----- stat data -----

  // Git's cached stat data: ten words, of which the seventh, the mode, is not stat data.
  datatype Stat = Stat(ctimeSeconds: Word32, ctimeNanoseconds: Word32, mtimeSeconds: Word32, mtimeNanoseconds: Word32,
                       device: Word32, inode: Word32, uid: Word32, gid: Word32, size: Word32)

  function Field(s: Stat, i: nat): Word32 {
    match i
    case 0 => s.ctimeSeconds
    case 1 => s.ctimeNanoseconds
    case 2 => s.mtimeSeconds
    case 3 => s.mtimeNanoseconds
    case 4 => s.device
    case 5 => s.inode
    case 7 => s.uid
    case 8 => s.gid
    case _ => s.size
  }

  // The bytes of an entry that hold stat data.
  predicate StatByte(at: nat, k: nat) {
    at <= k < at + MODE_OFFSET || at + MODE_OFFSET + 4 <= k < at + 40
  }

  function Written(b: Bytes, at: nat, s: Stat): (r: Bytes)
    requires at + 40 <= |b|
    ensures |r| == |b|
    ensures forall k {:trigger r[k]} | 0 <= k < |b| ::
      r[k] == if StatByte(at, k) then WordByte(Field(s, (k - at) / 4), (k - at) % 4) else b[k]
  {
    seq(|b|, k requires 0 <= k < |b| =>
        if StatByte(at, k) then WordByte(Field(s, (k - at) / 4), (k - at) % 4) else b[k])
  }

  function StatAt(b: Bytes, at: nat): Stat
    requires at + 40 <= |b|
  {
    Stat(Read32(b, at), Read32(b, at + 4), Read32(b, at + 8), Read32(b, at + 12), Read32(b, at + 16),
         Read32(b, at + 20), Read32(b, at + 28), Read32(b, at + 32), Read32(b, at + 36))
  }

  lemma FieldReads(b: Bytes, at: nat, s: Stat, i: nat)
    requires at + 40 <= |b| && i < 10 && i != 6
    ensures Read32(Written(b, at, s), at + 4 * i) == Field(s, i)
  {
    var r := Written(b, at, s);
    WordOfBytes(Field(s, i));
    assert forall j | 0 <= j < 4 :: r[at + 4 * i + j] == WordByte(Field(s, i), j) by {
      forall j | 0 <= j < 4 ensures r[at + 4 * i + j] == WordByte(Field(s, i), j) {
        assert (4 * i + j) / 4 == i && (4 * i + j) % 4 == j;
      }
    }
  }

  /** What was written is read back. */
  lemma WrittenReadsBack(b: Bytes, at: nat, s: Stat)
    requires at + 40 <= |b|
    ensures StatAt(Written(b, at, s), at) == s
  {
    hide Written, Read32;
    FieldReads(b, at, s, 0);
    FieldReads(b, at, s, 1);
    FieldReads(b, at, s, 2);
    FieldReads(b, at, s, 3);
    FieldReads(b, at, s, 4);
    FieldReads(b, at, s, 5);
    FieldReads(b, at, s, 7);
    FieldReads(b, at, s, 8);
    FieldReads(b, at, s, 9);
  }

  // ----- non-interference -----

  // b and b' agree wherever entry and path parsing looks.
  ghost predicate SameEntry(b: Bytes, b': Bytes, offset: nat, next: nat)
    requires offset + PATH_OFFSET <= next <= |b| && |b'| == |b|
  {
    forall k | offset + MODE_OFFSET <= k < offset + MODE_OFFSET + 4 || offset + 40 <= k < next :: b[k] == b'[k]
  }

  lemma {:induction false} ContinueLocal(b: Bytes, b': Bytes, cursor: nat, end: nat, value: nat)
    requires end <= |b| == |b'| && value < TWO64 && ContinueStrip(b, cursor, end, value).Some?
    requires forall k | cursor <= k < ContinueStrip(b, cursor, end, value).value.1 :: b[k] == b'[k]
    ensures ContinueStrip(b', cursor, end, value) == ContinueStrip(b, cursor, end, value)
    decreases end - cursor
  {
    var byte: int := b[cursor];
    if byte >= 128 { ContinueLocal(b, b', cursor + 1, end, (value + 1) * 128 + byte % 128); }
  }

  lemma {:induction false} NulLocal(b: Bytes, b': Bytes, from: nat)
    requires |b| == |b'| && FindNul(b, from) < |b|
    requires forall k | from <= k <= FindNul(b, from) :: b[k] == b'[k]
    ensures FindNul(b', from) == FindNul(b, from)
    decreases |b| - from
  {
    if b[from] != 0 { NulLocal(b, b', from + 1); }
  }

  lemma EntryLocal(b: Bytes, b': Bytes, version: nat, offset: nat, previous: Bytes, end: nat)
    requires end <= |b| == |b'| && EntryAt(b, version, offset, previous, end).Some?
    requires SameEntry(b, b', offset, EntryAt(b, version, offset, previous, end).value.1)
    ensures EntryAt(b', version, offset, previous, end) == EntryAt(b, version, offset, previous, end)
  {
    hide StripLength, FindNul, Read32, Extended, PathStart, SameEntry;
    FixedLocal(b, b', version, offset, previous, end);
    if version == 4 {
      PrefixedLocal(b, b', offset, previous, end);
    } else {
      PlainLocal(b, b', version, offset, previous, end);
    }
  }

  // Flags and mode of an entry, and where its path starts.
  lemma FixedLocal(b: Bytes, b': Bytes, version: nat, offset: nat, previous: Bytes, end: nat)
    requires end <= |b| == |b'| && EntryAt(b, version, offset, previous, end).Some?
    requires SameEntry(b, b', offset, EntryAt(b, version, offset, previous, end).value.1)
    ensures PathStart(b', offset) == PathStart(b, offset) && Extended(b', offset) == Extended(b, offset)
    ensures Read32(b', offset + MODE_OFFSET) == Read32(b, offset + MODE_OFFSET)
  {
    hide StripLength, FindNul;
    assert b[offset + FLAGS_OFFSET] == b'[offset + FLAGS_OFFSET];
  }

  lemma PrefixedLocal(b: Bytes, b': Bytes, offset: nat, previous: Bytes, end: nat)
    requires end <= |b| == |b'| && EntryAt(b, 4, offset, previous, end).Some?
    requires SameEntry(b, b', offset, EntryAt(b, 4, offset, previous, end).value.1)
    ensures var start := PathStart(b, offset);
            && StripLength(b', start, end) == StripLength(b, start, end) && StripLength(b, start, end).Some?
            && var cursor := StripLength(b, start, end).value.1;
               && FindNul(b', cursor) == FindNul(b, cursor) < |b|
                    && b'[cursor..FindNul(b, cursor)] == b[cursor..FindNul(b, cursor)]
  {
    var start := PathStart(b, offset);
    var (strip, cursor) := StripLength(b, start, end).value;
    var byte: int := b[start];
    if byte >= 128 { ContinueLocal(b, b', start + 1, end, byte % 128); }
    assert StripLength(b', start, end) == StripLength(b, start, end);
    NulLocal(b, b', cursor);
  }

  lemma PlainLocal(b: Bytes, b': Bytes, version: nat, offset: nat, previous: Bytes, end: nat)
    requires end <= |b| == |b'| && version != 4 && EntryAt(b, version, offset, previous, end).Some?
    requires SameEntry(b, b', offset, EntryAt(b, version, offset, previous, end).value.1)
    ensures var start := PathStart(b, offset);
            FindNul(b', start) == FindNul(b, start) < |b| && b'[start..FindNul(b, start)] == b[start..FindNul(b, start)]
  {
    NulLocal(b, b', PathStart(b, offset));
  }

  ghost predicate Outside(entries: seq<IndexEntry>, k: nat) {
    forall i | 0 <= i < |entries| :: !StatByte(entries[i].offset, k)
  }

  // Entries follow one another, each longer than its fixed part.
  lemma {:induction false} EntriesSpaced(b: Bytes, version: nat, count: nat, offset: nat, previous: Bytes, end: nat)
    requires offset <= end <= |b| && EntriesFrom(b, version, count, offset, previous, end).Some?
    ensures var (es, last) := EntriesFrom(b, version, count, offset, previous, end).value;
            && |es| == count && offset <= last <= end
            && (forall i | 0 <= i < |es| :: offset <= es[i].offset && es[i].offset + PATH_OFFSET <= last)
            && (forall i, j | 0 <= i < j < |es| :: es[i].offset + PATH_OFFSET <= es[j].offset)
    decreases count
  {
    hide EntryAt;
    if count > 0 {
      var (entry, next) := EntryAt(b, version, offset, previous, end).value;
      EntriesSpaced(b, version, count - 1, next, entry.path, end);
    }
  }

  lemma {:induction false} EntriesLocal(b: Bytes, b': Bytes, version: nat, count: nat, offset: nat, previous: Bytes,
                                        end: nat)
    requires offset <= end <= |b| == |b'| && EntriesFrom(b, version, count, offset, previous, end).Some?
    requires forall k | offset <= k < end
      && Outside(EntriesFrom(b, version, count, offset, previous, end).value.0, k) :: b[k] == b'[k]
    ensures EntriesFrom(b', version, count, offset, previous, end) ==
      EntriesFrom(b, version, count, offset, previous, end)
    decreases count
  {
    hide EntryAt;
    if count > 0 {
      var es := EntriesFrom(b, version, count, offset, previous, end).value.0;
      var (entry, next) := EntryAt(b, version, offset, previous, end).value;
      var rest := EntriesFrom(b, version, count - 1, next, entry.path, end).value.0;
      EntriesSpaced(b, version, count - 1, next, entry.path, end);
      assert es == [entry] + rest && entry.offset == offset;
      forall k | offset + MODE_OFFSET <= k < offset + MODE_OFFSET + 4 || offset + 40 <= k < next ensures b[k] == b'[k] {
        forall i | 0 <= i < |es| ensures !StatByte(es[i].offset, k) {
          if i > 0 { assert es[i] == rest[i - 1]; }
        }
        assert Outside(es, k);
      }
      EntryLocal(b, b', version, offset, previous, end);
      forall k | next <= k < end && Outside(rest, k) ensures b[k] == b'[k] {
        forall i | 0 <= i < |es| ensures !StatByte(es[i].offset, k) {
          if i > 0 { assert es[i] == rest[i - 1]; }
        }
        assert Outside(es, k);
      }
      EntriesLocal(b, b', version, count - 1, next, entry.path, end);
    }
  }

  lemma {:induction false} ExtensionsLocal(b: Bytes, b': Bytes, offset: nat, end: nat)
    requires end <= |b| == |b'| && forall k | offset <= k < end :: b[k] == b'[k]
    ensures ExtensionsFrom(b', offset, end) == ExtensionsFrom(b, offset, end)
    decreases end - offset
  {
    if offset + 8 <= end {
      assert b[offset..offset + 4] == b'[offset..offset + 4];
      assert Read32(b', offset + 4) == Read32(b, offset + 4);
      if Read32(b, offset + 4) <= end - offset - 8 { ExtensionsLocal(b, b', offset + 8 + Read32(b, offset + 4), end); }
    }
  }

  lemma ParsedSpaced(b: Bytes)
    requires Parse(b).Some?
    ensures var es := Parse(b).value;
            && |b| >= HEADER_SIZE + CHECKSUM_SIZE
            && (forall i | 0 <= i < |es| ::
                HEADER_SIZE <= es[i].offset && es[i].offset + PATH_OFFSET <= |b| - CHECKSUM_SIZE)
            && (forall i, j | 0 <= i < j < |es| :: es[i].offset + PATH_OFFSET <= es[j].offset)
  {
    EntriesSpaced(b, Read32(b, 4), Read32(b, 8), HEADER_SIZE, [], |b| - CHECKSUM_SIZE);
  }

  /** An accepted file parses the same whatever its stat fields and its checksum hold. */
  lemma ParsingIgnoresStats(b: Bytes, b': Bytes)
    requires Parse(b).Some? && |b'| == |b|
    requires forall k | 0 <= k < |b| - CHECKSUM_SIZE && Outside(Parse(b).value, k) :: b[k] == b'[k]
    ensures Parse(b') == Parse(b)
  {
    hide EntriesFrom, ExtensionsFrom;
    var version, count, end := Read32(b, 4), Read32(b, 8), |b| - CHECKSUM_SIZE;
    var (es, last) := EntriesFrom(b, version, count, HEADER_SIZE, [], end).value;
    EntriesSpaced(b, version, count, HEADER_SIZE, [], end);
    forall k | 0 <= k < HEADER_SIZE || last <= k < end ensures b[k] == b'[k] { assert Outside(es, k); }
    EntriesLocal(b, b', version, count, HEADER_SIZE, [], end);
    ExtensionsLocal(b, b', last, end);
    HeaderLocal(b, b');
    hide Read32, Outside;
  }

  lemma HeaderLocal(b: Bytes, b': Bytes)
    requires |b| == |b'| >= HEADER_SIZE && forall k | 0 <= k < HEADER_SIZE :: b[k] == b'[k]
    ensures b'[..4] == b[..4] && Read32(b', 4) == Read32(b, 4) && Read32(b', 8) == Read32(b, 8)
  {
  }

  // ----- a sequence of writes, and the seal -----

  type Digest = d: Bytes | |d| == CHECKSUM_SIZE witness seq(CHECKSUM_SIZE, i => 0)

  // The last write to entry i, if any.
  function LastWrite(writes: seq<(nat, Stat)>, i: nat): Option<Stat> {
    if writes == [] then None
    else if writes[|writes| - 1].0 == i then Some(writes[|writes| - 1].1)
    else LastWrite(writes[..|writes| - 1], i)
  }

  function OrElse(written: Option<Stat>, before: Stat): Stat {
    if written.Some? then written.value else before
  }

  ghost predicate Fits(b: Bytes, entries: seq<IndexEntry>) {
    && |b| >= CHECKSUM_SIZE
    && (forall i | 0 <= i < |entries| :: entries[i].offset + PATH_OFFSET <= |b| - CHECKSUM_SIZE)
    && (forall i, j | 0 <= i < j < |entries| :: entries[i].offset + PATH_OFFSET <= entries[j].offset)
  }

  ghost predicate InRange(writes: seq<(nat, Stat)>, n: nat) { forall w | 0 <= w < |writes| :: writes[w].0 < n }

  function Rewritten(b: Bytes, entries: seq<IndexEntry>, writes: seq<(nat, Stat)>): (r: Bytes)
    requires Fits(b, entries) && InRange(writes, |entries|)
    ensures |r| == |b|
    decreases |writes|
  {
    if writes == [] then b
    else
      var n := |writes| - 1;
      Written(Rewritten(b, entries, writes[..n]), entries[writes[n].0].offset, writes[n].1)
  }

  function Sealed(b: Bytes, sha1: Bytes -> Digest): (r: Bytes)
    requires |b| >= CHECKSUM_SIZE
    ensures |r| == |b|
  {
    b[..|b| - CHECKSUM_SIZE] + sha1(b[..|b| - CHECKSUM_SIZE])
  }

  lemma OtherStats(b: Bytes, at: nat, other: nat, s: Stat)
    requires at + 40 <= |b| && other + 40 <= |b| && (at + 40 <= other || other + 40 <= at)
    ensures StatAt(Written(b, at, s), other) == StatAt(b, other)
  {
    var r := Written(b, at, s);
    assert forall k | other <= k < other + 40 :: r[k] == b[k];
  }

  lemma {:induction false} RewrittenStats(b: Bytes, entries: seq<IndexEntry>, writes: seq<(nat, Stat)>, i: nat)
    requires Fits(b, entries) && InRange(writes, |entries|) && i < |entries|
    ensures var at := entries[i].offset;
            StatAt(Rewritten(b, entries, writes), at) == OrElse(LastWrite(writes, i), StatAt(b, at))
    decreases |writes|
  {
    hide Written, StatAt;
    if writes != [] {
      var n := |writes| - 1;
      var r, w, s := Rewritten(b, entries, writes[..n]), writes[n].0, writes[n].1;
      if w == i {
        WrittenReadsBack(r, entries[i].offset, s);
      } else {
        OtherStats(r, entries[w].offset, entries[i].offset, s);
        RewrittenStats(b, entries, writes[..n], i);
      }
    }
  }

  // No byte changes but the stat fields of entries that are written.
  lemma {:induction false} RewrittenElsewhere(b: Bytes, entries: seq<IndexEntry>, writes: seq<(nat, Stat)>, k: nat)
    requires Fits(b, entries) && InRange(writes, |entries|) && k < |b|
    requires forall i | 0 <= i < |entries| && LastWrite(writes, i).Some? :: !StatByte(entries[i].offset, k)
    ensures Rewritten(b, entries, writes)[k] == b[k]
    decreases |writes|
  {
    if writes != [] {
      var n := |writes| - 1;
      assert LastWrite(writes, writes[n].0).Some?;
      forall i | 0 <= i < |entries| && LastWrite(writes[..n], i).Some? ensures LastWrite(writes, i).Some? {}
      RewrittenElsewhere(b, entries, writes[..n], k);
    }
  }

  /**
    Rewriting any sequence of stat data in an accepted file and sealing it gives a file of the same
    length that parses to the same entries, reads back the last stat written to each, and differs in
    no byte outside those stat fields and the checksum.
   */
  lemma RewritingDoesNotInterfere(b: Bytes, writes: seq<(nat, Stat)>, sha1: Bytes -> Digest)
    requires Parse(b).Some? && InRange(writes, |Parse(b).value|)
    ensures Fits(b, Parse(b).value)
    ensures var es := Parse(b).value;
            var r := Sealed(Rewritten(b, es, writes), sha1);
            && |r| == |b| && Parse(r) == Some(es)
            && r[|b| - CHECKSUM_SIZE..] == sha1(r[..|b| - CHECKSUM_SIZE])
            && (forall i | 0 <= i < |es| ::
                  StatAt(r, es[i].offset) == OrElse(LastWrite(writes, i), StatAt(b, es[i].offset)))
            && (forall k | 0 <= k < |b| - CHECKSUM_SIZE
                && (forall i | 0 <= i < |es| && LastWrite(writes, i).Some? :: !StatByte(es[i].offset, k)) ::
                     r[k] == b[k])
  {
    hide Parse, StatAt, Written, Rewritten, LastWrite;
    ParsedSpaced(b);
    var es, n := Parse(b).value, |b| - CHECKSUM_SIZE;
    var m := Rewritten(b, es, writes);
    var r := Sealed(m, sha1);
    assert r[..n] == m[..n];
    forall k | 0 <= k < n && forall i | 0 <= i < |es| && LastWrite(writes, i).Some? :: !StatByte(es[i].offset, k)
      ensures r[k] == b[k] {
      RewrittenElsewhere(b, es, writes, k);
      assert r[k] == m[k];
    }
    forall i | 0 <= i < |es| ensures StatAt(r, es[i].offset) == OrElse(LastWrite(writes, i), StatAt(b, es[i].offset)) {
      RewrittenStats(b, es, writes, i);
      SameStat(m, r, es[i].offset, n);
    }
    forall k | 0 <= k < n && Outside(es, k) ensures b[k] == r[k] {}
    ParsingIgnoresStats(b, r);
  }

  lemma SameStat(b: Bytes, b': Bytes, at: nat, n: nat)
    requires at + 40 <= n <= |b| && n <= |b'| && b[..n] == b'[..n]
    ensures StatAt(b', at) == StatAt(b, at)
  {
    assert forall k | 0 <= k < n :: b[k] == b[..n][k] && b'[k] == b'[..n][k];
  }

  // ----- the index file in memory -----

  // What lstat reports of a Base file, already cut to 32 bits.
  datatype FileStat = FileStat(ctimeSeconds: Word32, ctimeNanoseconds: Word32, mtimeSeconds: Word32,
                               mtimeNanoseconds: Word32, inode: InodeMixer.Word, uid: Word32, gid: Word32, size: Word32)

  const EMPTY_STAT := Stat(0, 0, 0, 0, 0, 0, 0, 0, 0)

  predicate Seedable(mode: Word32) {
    var m: int := mode;
    m / 0x1000 % 16 == 8 || m / 0x1000 % 16 == 10
  }

  // The stat data a Workspace reports for a Base file that Git verified; empty otherwise.
  function Translated(recorded: Stat, lstat: Option<FileStat>, salt: InodeMixer.Word, device: Word32, owner: Word32,
                      group: Word32): Stat {
    match lstat
    case None => EMPTY_STAT
    case Some(st) =>
      var base := Stat(st.ctimeSeconds, st.ctimeNanoseconds, st.mtimeSeconds, st.mtimeNanoseconds, 0, st.inode % TWO32,
                       st.uid, st.gid, st.size);
      if recorded.(device := 0) != base then EMPTY_STAT
      else Stat(st.ctimeSeconds, 0, st.mtimeSeconds, 0, device, InodeMixer.Salted(salt, st.inode) % TWO32, owner,
                group, st.size)
  }

  function Lstat(files: map<Bytes, FileStat>, path: Bytes): Option<FileStat> {
    if path in files then Some(files[path]) else None
  }

  // What is written to an entry that records this stat data.
  function Due(entry: IndexEntry, recorded: Stat, files: map<Bytes, FileStat>, salt: InodeMixer.Word, device: Word32,
               owner: Word32, group: Word32): Option<Stat> {
    if Seedable(entry.mode) then Some(Translated(recorded, Lstat(files, entry.path), salt, device, owner, group))
      else None
  }

  // ----- what a translated entry holds, word by word -----

  // The words at `at` are those that lstat reports; the device is not compared.
  predicate Verified(b: Bytes, at: nat, st: FileStat)
    requires at + 40 <= |b|
  {
    && Read32(b, at) == st.ctimeSeconds && Read32(b, at + 4) == st.ctimeNanoseconds
    && Read32(b, at + 8) == st.mtimeSeconds && Read32(b, at + 12) == st.mtimeNanoseconds
    && Read32(b, at + 20) == st.inode % TWO32
    && Read32(b, at + 28) == st.uid && Read32(b, at + 32) == st.gid && Read32(b, at + 36) == st.size
  }

  // Whole seconds, the Workspace's device, inode and owner.
  predicate Reported(b: Bytes, at: nat, st: FileStat, salt: InodeMixer.Word, device: Word32, owner: Word32,
                     group: Word32)
    requires at + 40 <= |b|
  {
    && Read32(b, at) == st.ctimeSeconds && Read32(b, at + 4) == 0
    && Read32(b, at + 8) == st.mtimeSeconds && Read32(b, at + 12) == 0
    && Read32(b, at + 16) == device && Read32(b, at + 20) == InodeMixer.Salted(salt, st.inode) % TWO32
    && Read32(b, at + 28) == owner && Read32(b, at + 32) == group && Read32(b, at + 36) == st.size
  }

  predicate Emptied(b: Bytes, at: nat)
    requires at + 40 <= |b|
  {
    && Read32(b, at) == 0 && Read32(b, at + 4) == 0 && Read32(b, at + 8) == 0 && Read32(b, at + 12) == 0
    && Read32(b, at + 16) == 0 && Read32(b, at + 20) == 0
    && Read32(b, at + 28) == 0 && Read32(b, at + 32) == 0 && Read32(b, at + 36) == 0
  }

  // Regular files and symlinks, by the type bits 0100000 and 0120000 of the mode.
  predicate FileOrLink(mode: Word32) {
    0x8000 <= mode % 0x1_0000 < 0x9000 || 0xA000 <= mode % 0x1_0000 < 0xB000
  }

  // A file whose recorded stat is verified gets what the Workspace reports, any other one an empty
  // stat, and entries of other types keep theirs.
  predicate Seeded(was: Bytes, now: Bytes, entry: IndexEntry, files: map<Bytes, FileStat>, salt: InodeMixer.Word,
                   device: Word32, owner: Word32, group: Word32)
    requires entry.offset + 40 <= |was| == |now|
  {
    if !FileOrLink(entry.mode) then now[entry.offset..entry.offset + 40] == was[entry.offset..entry.offset + 40]
    else if entry.path in files && Verified(was, entry.offset, files[entry.path])
      then Reported(now, entry.offset, files[entry.path], salt, device, owner, group)
    else Emptied(now, entry.offset)
  }

  lemma SeedableType(mode: Word32)
    ensures Seedable(mode) <==> FileOrLink(mode)
  {
    var m: int := mode;
    var q, low := m / 0x1_0000, m % 0x1_0000;
    assert m == 16 * q * 0x1000 + low && 0 <= low < 0x1_0000;
    assert m / 0x1000 == 16 * q + low / 0x1000;
    assert 0 <= low / 0x1000 < 16;
    assert m / 0x1000 % 16 == low / 0x1000;
  }

  lemma TranslatedWords(was: Bytes, now: Bytes, at: nat, lstat: Option<FileStat>, salt: InodeMixer.Word,
                        device: Word32, owner: Word32, group: Word32)
    requires at + 40 <= |was| == |now|
    requires StatAt(now, at) == Translated(StatAt(was, at), lstat, salt, device, owner, group)
    ensures if lstat.Some? && Verified(was, at, lstat.value)
              then Reported(now, at, lstat.value, salt, device, owner, group)
            else Emptied(now, at)
  {
    hide Read32, InodeMixer.Salted;
  }

  /** What rewriting every entry with its due stat, and sealing, leaves of each. */
  lemma SeededEntries(was: Bytes, entries: seq<IndexEntry>, writes: seq<(nat, Stat)>, i: nat, sha1: Bytes -> Digest,
                      files: map<Bytes, FileStat>, salt: InodeMixer.Word, device: Word32, owner: Word32, group: Word32)
    requires Parse(was) == Some(entries) && InRange(writes, |entries|) && Fits(was, entries) && i < |entries|
    requires LastWrite(writes, i) == Due(entries[i], StatAt(was, entries[i].offset), files, salt, device, owner, group)
    ensures Seeded(was, Sealed(Rewritten(was, entries, writes), sha1), entries[i], files, salt, device, owner, group)
  {
    hide Parse, StatAt, Translated, Written, Rewritten, LastWrite, Seedable, FileOrLink, Verified, Reported, Emptied;
    RewritingDoesNotInterfere(was, writes, sha1);
    var entry, now := entries[i], Sealed(Rewritten(was, entries, writes), sha1);
    var at := entry.offset;
    SeedableType(entry.mode);
    if Seedable(entry.mode) {
      TranslatedWords(was, now, at, Lstat(files, entry.path), salt, device, owner, group);
    } else {
      forall k | at <= k < at + 40 ensures now[k] == was[k] {
        forall j | 0 <= j < |entries| && LastWrite(writes, j).Some? ensures !StatByte(entries[j].offset, k) {
          assert j != i;
        }
      }
    }
  }

  method WriteBe32(a: array<Byte>, at: nat, v: Word32)
    requires at + 4 <= a.Length
    modifies a
    ensures forall k {:trigger a[k]} | 0 <= k < a.Length ::
      a[k] == if at <= k < at + 4 then WordByte(v, k - at) else old(a[k])
  {
    for i := 0 to 4
      invariant forall k {:trigger a[k]} | 0 <= k < a.Length ::
        a[k] == if at <= k < at + i then WordByte(v, k - at) else old(a[k])
    {
      a[at + i] := WordByte(v, i);
    }
  }

  class GitIndexFile {
    const bytes: array<Byte>
    const entries: seq<IndexEntry>

    constructor (b: Bytes, entries: seq<IndexEntry>)
      requires Parse(b) == Some(entries)
      ensures Valid() && this.entries == entries && bytes[..] == b && fresh(bytes)
    {
      bytes := new Byte[|b|](i requires 0 <= i < |b| => b[i]);
      this.entries := entries;
      new;
      assert bytes[..] == b;
    }

    ghost predicate Valid()
      reads bytes
    {
      Parse(bytes[..]) == Some(entries)
    }

    method ReadStat(i: nat) returns (stat: Stat)
      requires Valid() && i < |entries|
      ensures entries[i].offset + 40 <= bytes.Length && stat == StatAt(bytes[..], entries[i].offset)
    {
      ParsedSpaced(bytes[..]);
      stat := StatAt(bytes[..], entries[i].offset);
    }

    // Nine words in place: those before the mode, and those after it.
    method WriteWords(at: nat, s: Stat)
      requires at + 40 <= bytes.Length
      modifies bytes
      ensures bytes[..] == Written(old(bytes[..]), at, s)
    {
      hide WordByte;
      WriteBeforeMode(at, s);
      WriteAfterMode(at, s);
    }

    method WriteBeforeMode(at: nat, s: Stat)
      requires at + 40 <= bytes.Length
      modifies bytes
      ensures forall k {:trigger bytes[k]} | 0 <= k < bytes.Length ::
                bytes[k] == if at <= k < at + MODE_OFFSET then WordByte(Field(s, (k - at) / 4), (k - at) % 4)
                  else old(bytes[k])
    {
      hide WordByte;
      WriteBe32(bytes, at, s.ctimeSeconds);
      WriteBe32(bytes, at + 4, s.ctimeNanoseconds);
      WriteBe32(bytes, at + 8, s.mtimeSeconds);
      WriteBe32(bytes, at + 12, s.mtimeNanoseconds);
      WriteBe32(bytes, at + 16, s.device);
      WriteBe32(bytes, at + 20, s.inode);
    }

    method WriteAfterMode(at: nat, s: Stat)
      requires at + 40 <= bytes.Length
      modifies bytes
      ensures forall k {:trigger bytes[k]} | 0 <= k < bytes.Length ::
                bytes[k] == if at + MODE_OFFSET + 4 <= k < at + 40 then WordByte(Field(s, (k - at) / 4), (k - at) % 4)
                  else old(bytes[k])
    {
      hide WordByte;
      WriteBe32(bytes, at + 28, s.uid);
      WriteBe32(bytes, at + 32, s.gid);
      WriteBe32(bytes, at + 36, s.size);
    }

    /** write_git_index_stat: exactly the stat fields of this entry change, and the file parses as before. */
    method WriteStat(i: nat, s: Stat)
      requires Valid() && i < |entries|
      modifies bytes
      ensures Valid() && entries[i].offset + 40 <= bytes.Length
        && bytes[..] == Written(old(bytes[..]), entries[i].offset, s)
    {
      ghost var before := bytes[..];
      ParsedSpaced(before);
      WriteWords(entries[i].offset, s);
      forall k | 0 <= k < |before| - CHECKSUM_SIZE && Outside(entries, k) ensures before[k] == bytes[..][k] {}
      ParsingIgnoresStats(before, bytes[..]);
    }

    /** seal_git_index: only the checksum changes, and it is that of everything before it. */
    method Seal(sha1: Bytes -> Digest)
      requires Valid()
      modifies bytes
      ensures Valid() && |old(bytes[..])| >= CHECKSUM_SIZE && bytes[..] == Sealed(old(bytes[..]), sha1)
    {
      hide Parse;
      ghost var before := bytes[..];
      ParsedSpaced(before);
      var content := bytes.Length - CHECKSUM_SIZE;
      assert bytes[..content] == before[..content];
      CopyInto(bytes, content, sha1(bytes[..content]));
      assert before[content + CHECKSUM_SIZE..] == [];
      ParsingIgnoresStats(before, bytes[..]);
    }

    /**
      translate_verified_entries: every regular file's and symlink's stat becomes its translation, the
      others stay, and the file is sealed.  `writes` lists what was written.
     */
    method TranslateVerifiedEntries(files: map<Bytes, FileStat>, salt: InodeMixer.Word, device: Word32, owner: Word32,
                                    group: Word32, sha1: Bytes -> Digest)
      returns (ghost writes: seq<(nat, Stat)>)
      requires Valid()
      modifies bytes
      ensures Valid() && Fits(old(bytes[..]), entries) && InRange(writes, |entries|)
      ensures bytes[..] == Sealed(Rewritten(old(bytes[..]), entries, writes), sha1)
      ensures forall i | 0 <= i < |entries| ::
                LastWrite(writes, i) == Due(entries[i], StatAt(old(bytes[..]), entries[i].offset), files, salt, device,
                                            owner, group)
      ensures forall i | 0 <= i < |entries| ::
                Seeded(old(bytes[..]), bytes[..], entries[i], files, salt, device, owner, group)
    {
      hide Parse, Translated, Written, StatAt, Seeded;
      ghost var before := bytes[..];
      ParsedSpaced(before);
      writes := [];
      for i := 0 to |entries|
        invariant Valid() && InRange(writes, i) && bytes[..] == Rewritten(before, entries, writes)
        invariant forall j | 0 <= j < i ::
                    LastWrite(writes, j) == Due(entries[j], StatAt(before, entries[j].offset), files, salt, device,
                                                owner, group)
      {
        NotYetWritten(writes, i);
        if !Seedable(entries[i].mode) { continue; }
        var recorded := ReadStat(i);
        RewrittenStats(before, entries, writes, i);
        var stat := Translated(recorded, Lstat(files, entries[i].path), salt, device, owner, group);
        WriteStat(i, stat);
        assert (writes + [(i, stat)])[..|writes|] == writes;
        writes := writes + [(i, stat)];
      }
      Seal(sha1);
      forall i | 0 <= i < |entries| ensures Seeded(before, bytes[..], entries[i], files, salt, device, owner, group) {
        SeededEntries(before, entries, writes, i, sha1, files, salt, device, owner, group);
      }
    }
  }

  lemma {:induction false} NotYetWritten(writes: seq<(nat, Stat)>, i: nat)
    requires InRange(writes, i)
    ensures LastWrite(writes, i).None?
    decreases |writes|
  {
    if writes != [] { NotYetWritten(writes[..|writes| - 1], i); }
  }

  method CopyInto(a: array<Byte>, at: nat, text: Bytes)
    requires at + |text| <= a.Length
    modifies a
    ensures a[..] == old(a[..])[..at] + text + old(a[..])[at + |text|..]
  {
    for k := 0 to |text|
      invariant forall i {:trigger a[i]} | 0 <= i < a.Length ::
        a[i] == if at <= i < at + k then text[i - at] else old(a[i])
    {
      a[at + k] := text[k];
    }
  }
}
