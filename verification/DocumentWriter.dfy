/**
 The writer of input documents, and that the reader gets back what was written: the sections put into
 a document are exactly the ones the parser hands out, content for content.
 */
module DocumentWriter {
  import opened Bytes
  import opened Programs
  import opened Sorting
  import opened Varint
  import opened Writing
  import opened Rows
  import opened Document

  /** A section as the writer gets it. */
  datatype Item = Item(kind: nat, count: nat, payload: seq<byte>, alignment: nat)

  // ---------- Record formats ----------

  /** The widths of the fields of one record, added up, unless a section is not made of records. */
  function Width(kind: nat): Option<nat> {
    match kind
    case 2 => Some(1)  // strings
    case 3 => Some(1)  // blobs
    case 4 => Some(4)  // 32-bit pool
    case 5 => Some(12 * 4)  // program
    case 6 => Some(1 + 3 + 2 * 4)  // domains
    case 7 => Some(4 + 2 * 1 + 2 + 4 * 4)  // symbols
    case 8 => Some(4 + 2 * 2 + 10 * 4)  // predicates
    case 9 => Some(2 * 1 + 2 + 2 * 4)  // terms
    case 10 => Some(3 * 4)  // atoms
    case 11 => Some(5 * 4)  // ground atoms
    case 12 => Some(4 + 8 * 4)  // clauses
    case 13 => Some(4 + 4 * 4)  // disjunctions
    case 14 => Some(4 + 1 + 3 + 2 * 4)  // provenance
    case 15 => Some(32)  // digests
    case 16 => Some(10 * 4)  // role model
    case 17 => Some(1 + 3 + 2 * 4)  // role pairs
    case 18 => Some(3 * 4)  // role chains
    case 19 => Some(7 * 4)  // automata
    case 20 => Some(3 * 4)  // transitions
    case 21 => Some(6 * 4)  // literals
    case 22 => Some(4 * 4)  // datatype model
    case 23 => Some(2 * 4)  // expressivity
    case 24 => Some(5 * 4)  // entities
    case 25 => Some(4)  // named individuals
    case 26 => Some(2 * 4)  // datatype definitions
    case 32 => Some(32 + 2 * 8 + 4 + 2 + 6 * 1 + 4)  // configuration
    case 33 => Some(3 * 32 + 2 * 4 + 12 * 4)  // query
    case 34 => Some(2 * 32 + 1 + 3 + 10 * 4)  // delta
    case 35 => Some(3 * 4 + 1 + 3)  // delta facts
    case 36 => Some(2 * 4)  // string references
    case _ => None
  }

  /** The reader knows these kinds and metadata, and its record sizes are what the fields add up to. */
  lemma WidthsAgree(kind: nat)
    ensures KnownKind(kind) <==> kind == METADATA || Width(kind).Some?
    ensures RecordSize(kind) == Width(kind)
  {
  }

  // ---------- What is written ----------

  function Padding(cursor: nat, alignment: nat): nat
    requires alignment > 0
  {
    (alignment - cursor % alignment) % alignment
  }

  predicate Aligned(items: seq<Item>) {
    forall k :: 0 <= k < |items| ==> items[k].alignment in {1, 2, 4, 8, 16, 32, 64}
  }

  function Place(item: Item, cursor: nat): nat
    requires item.alignment > 0
  {
    cursor + Padding(cursor, item.alignment)
  }

  /** Where each section starts when the first may start at `cursor`. */
  ghost function Offsets(items: seq<Item>, cursor: nat): (offsets: seq<nat>)
    requires Aligned(items)
    ensures |offsets| == |items|
  {
    if items == [] then []
    else
      var offset := Place(items[0], cursor);
      [offset] + Offsets(items[1..], offset + |items[0].payload|)
  }

  function Filler(n: nat): (zeros: seq<byte>)
    ensures |zeros| == n
  {
    seq(n, _ => 0)
  }

  /** The sections one after another, each behind its padding. */
  ghost function Body(items: seq<Item>, cursor: nat): seq<byte>
    requires Aligned(items)
  {
    if items == [] then []
    else
      var offset := Place(items[0], cursor);
      Filler(offset - cursor) + items[0].payload + Body(items[1..], offset + |items[0].payload|)
  }

  function Record(item: Item, offset: nat): (record: seq<byte>)
    ensures |record| == RECORD_SIZE
  {
    FixedBytes(item.kind, 2) + FixedBytes(0, 2) + FixedBytes(0, 4) + FixedBytes(offset, 8)
    + FixedBytes(|item.payload|, 8) + FixedBytes(item.count, 4) + FixedBytes(item.alignment, 4)
  }

  ghost function Directory(items: seq<Item>, offsets: seq<nat>): (directory: seq<byte>)
    requires |offsets| == |items|
    ensures |directory| == RECORD_SIZE * |items|
  {
    if items == [] then [] else Record(items[0], offsets[0]) + Directory(items[1..], offsets[1..])
  }

  ghost function Tail(items: seq<Item>): seq<byte>
    requires Aligned(items)
  {
    var start := HEADER_SIZE + RECORD_SIZE * |items|;
    Directory(items, Offsets(items, start)) + Body(items, start)
  }

  /** `PYHMINP` and a zero byte. */
  function Spelled(text: string): (bytes: seq<byte>)
    requires forall i :: 0 <= i < |text| ==> text[i] as int < 256
    ensures |bytes| == |text|
  {
    seq(|text|, i requires 0 <= i < |text| => text[i] as int)
  }

  function Head(kind: nat, sections: nat, tail: seq<byte>, digest: seq<byte>): (head: seq<byte>)
    requires |digest| == 32
    ensures |head| == HEADER_SIZE
  {
    Spelled("PYHMINP\0") + FixedBytes(1, 2) + FixedBytes(kind, 2) + FixedBytes(0, 4)
    + FixedBytes(HEADER_SIZE + |tail|, 8) + FixedBytes(HEADER_SIZE, 8) + FixedBytes(sections, 4) + FixedBytes(0, 4)
    + digest
  }

  ghost function Written(kind: nat, items: seq<Item>, digest: seq<byte> -> seq<byte>): seq<byte>
    requires Aligned(items) && forall tail :: |digest(tail)| == 32
  {
    Head(kind, |items|, Tail(items), digest(Tail(items))) + Tail(items)
  }

  // ---------- Numbers are read back ----------

  lemma NextByte(bytes: seq<byte>, i: nat, j: nat)
    requires i < j <= |bytes|
    ensures LittleEndian(bytes[i..j]) == bytes[i] + 256 * LittleEndian(bytes[i + 1..j])
  {
    assert bytes[i..j][1..] == bytes[i + 1..j];
  }

  lemma NoByte(bytes: seq<byte>, i: nat)
    requires i <= |bytes|
    ensures LittleEndian(bytes[i..i]) == 0
  {
  }

  lemma ReadsTwo(bytes: seq<byte>, at: nat)
    requires at + 2 <= |bytes|
    ensures U16(bytes, at) == LittleEndian(bytes[at..at + 2])
  {
    hide LittleEndian;
    NextByte(bytes, at, at + 2);
    NextByte(bytes, at + 1, at + 2);
    NoByte(bytes, at + 2);
  }

  lemma ReadsFour(bytes: seq<byte>, at: nat)
    requires at + 4 <= |bytes|
    ensures U32(bytes, at) == LittleEndian(bytes[at..at + 4])
  {
    hide LittleEndian;
    NextByte(bytes, at, at + 4);
    NextByte(bytes, at + 1, at + 4);
    NextByte(bytes, at + 2, at + 4);
    NextByte(bytes, at + 3, at + 4);
    NoByte(bytes, at + 4);
  }

  lemma ReadsEight(bytes: seq<byte>, at: nat)
    requires at + 8 <= |bytes|
    ensures U64(bytes, at) == LittleEndian(bytes[at..at + 8])
  {
    hide LittleEndian, U16, U32;
    ReadsFour(bytes, at);
    ReadsFour(bytes, at + 4);
    NextByte(bytes, at, at + 8);
    NextByte(bytes, at + 1, at + 8);
    NextByte(bytes, at + 2, at + 8);
    NextByte(bytes, at + 3, at + 8);
    NextByte(bytes, at, at + 4);
    NextByte(bytes, at + 1, at + 4);
    NextByte(bytes, at + 2, at + 4);
    NextByte(bytes, at + 3, at + 4);
    NoByte(bytes, at + 4);
  }

  /** A number of 2, 4 or 8 bytes is read where it was written. */
  ghost predicate Stands(bytes: seq<byte>, at: nat, value: nat, width: nat) {
    at + width <= |bytes| && bytes[at..at + width] == FixedBytes(value, width) && value < Power(width)
  }

  lemma NumberReads(bytes: seq<byte>, at: nat, value: nat, width: nat)
    requires Stands(bytes, at, value, width)
    ensures width == 2 ==> U16(bytes, at) == value
    ensures width == 4 ==> U32(bytes, at) == value
    ensures width == 8 ==> U64(bytes, at) == value
  {
    hide U16, U32, U64, LittleEndian, FixedBytes;
    FixedReads(value, width);
    if width == 2 { ReadsTwo(bytes, at); }
    if width == 4 { ReadsFour(bytes, at); }
    if width == 8 { ReadsEight(bytes, at); }
  }

  /** The numbers of an item fit their fields. */
  predicate Storable(item: Item) {
    item.kind < 65536 && item.count < U32_LIMIT && |item.payload| < U64_LIMIT && item.alignment < U32_LIMIT
  }

  lemma SubSlice(bytes: seq<byte>, at: nat, length: nat, i: nat, j: nat)
    requires at + length <= |bytes| && i <= j <= length
    ensures bytes[at..at + length][i..j] == bytes[at + i..at + j]
  {
    var a, b := bytes[at..at + length][i..j], bytes[at + i..at + j];
    assert |a| == |b| && forall k :: 0 <= k < |a| ==> a[k] == b[k];
  }

  lemma RecordReads(bytes: seq<byte>, at: nat, item: Item, offset: nat)
    requires at + RECORD_SIZE <= |bytes| && bytes[at..at + RECORD_SIZE] == Record(item, offset)
    requires Storable(item) && offset < U64_LIMIT
    ensures RecordKind(bytes, at) == item.kind && U16(bytes, at + 2) == 0 && U32(bytes, at + 4) == 0
    ensures RecordSection(bytes, at) == Section(offset, |item.payload|, item.count)
    ensures U32(bytes, at + 28) == item.alignment
  {
    hide U16, U32, U64, FixedBytes;
    var r := Record(item, offset);
    Powers();
    assert r[0..2] == FixedBytes(item.kind, 2) && r[2..4] == FixedBytes(0, 2) && r[4..8] == FixedBytes(0, 4);
    assert r[8..16] == FixedBytes(offset, 8) && r[16..24] == FixedBytes(|item.payload|, 8);
    assert r[24..28] == FixedBytes(item.count, 4) && r[28..32] == FixedBytes(item.alignment, 4);
    forall i, j | 0 <= i <= j <= RECORD_SIZE ensures bytes[at + i..at + j] == r[i..j] {
      SubSlice(bytes, at, RECORD_SIZE, i, j);
    }
    assert bytes[at + 0..at + 2] == r[0..2];
    NumberReads(bytes, at, item.kind, 2);
    NumberReads(bytes, at + 2, 0, 2);
    NumberReads(bytes, at + 4, 0, 4);
    NumberReads(bytes, at + 8, offset, 8);
    NumberReads(bytes, at + 16, |item.payload|, 8);
    NumberReads(bytes, at + 24, item.count, 4);
    NumberReads(bytes, at + 28, item.alignment, 4);
  }

  // ---------- Where everything stands ----------

  lemma {:induction false} DirectorySlice(items: seq<Item>, offsets: seq<nat>, k: nat)
    requires |offsets| == |items| && k < |items|
    ensures Directory(items, offsets)[RECORD_SIZE * k..RECORD_SIZE * k + RECORD_SIZE] == Record(items[k], offsets[k])
    decreases k
  {
    hide Record;
    var d := Directory(items, offsets);
    if k > 0 {
      var rest := Directory(items[1..], offsets[1..]);
      DirectorySlice(items[1..], offsets[1..], k - 1);
      var a := RECORD_SIZE * (k - 1);
      assert d[RECORD_SIZE..] == rest;
      assert d[RECORD_SIZE + a..RECORD_SIZE + a + RECORD_SIZE] == rest[a..a + RECORD_SIZE];
    }
  }

  /** Section `k` stands at its offset, counted from the start of the body. */
  ghost predicate Holding(items: seq<Item>, cursor: nat, body: seq<byte>, k: nat)
    requires Aligned(items) && k < |items|
  {
    var offset := Offsets(items, cursor)[k];
    && cursor <= offset && offset - cursor + |items[k].payload| <= |body|
    && body[offset - cursor..offset - cursor + |items[k].payload|] == items[k].payload
  }

  lemma {:induction false} OffsetAligned(items: seq<Item>, cursor: nat, k: nat)
    requires Aligned(items) && k < |items|
    ensures Offsets(items, cursor)[k] % items[k].alignment == 0
    decreases k
  {
    hide Place;
    var first := Place(items[0], cursor);
    if k == 0 {
      PlaceAligned(items[0], cursor);
    } else {
      OffsetAligned(items[1..], first + |items[0].payload|, k - 1);
    }
  }

  /** The first section, and the others behind it. */
  lemma Opened(items: seq<Item>, cursor: nat)
    requires Aligned(items) && items != []
    ensures
      var first := Place(items[0], cursor);
      var next := first + |items[0].payload|;
      && cursor <= first && Offsets(items, cursor) == [first] + Offsets(items[1..], next)
      && Body(items, cursor) == Filler(first - cursor) + items[0].payload + Body(items[1..], next)
  {
    PlaceAligned(items[0], cursor);
  }

  lemma {:induction false} BodyHolds(items: seq<Item>, cursor: nat, k: nat)
    requires Aligned(items) && k < |items|
    ensures Holding(items, cursor, Body(items, cursor), k)
    decreases k
  {
    hide Place, Body, Offsets;
    var first := Place(items[0], cursor);
    var next := first + |items[0].payload|;
    Opened(items, cursor);
    var front, rest := Filler(first - cursor) + items[0].payload, Body(items[1..], next);
    if k == 0 {
      assert (front + rest)[first - cursor..|front|] == items[0].payload;
    } else {
      BodyHolds(items[1..], next, k - 1);
      var offset := Offsets(items[1..], next)[k - 1];
      Behind(front, rest, offset - next, offset - next + |items[k].payload|);
    }
  }

  lemma Behind(front: seq<byte>, back: seq<byte>, i: nat, j: nat)
    requires i <= j <= |back|
    ensures (front + back)[|front| + i..|front| + j] == back[i..j]
  {
  }

  lemma PlaceAligned(item: Item, cursor: nat)
    requires item.alignment > 0
    ensures cursor <= Place(item, cursor) < cursor + item.alignment && Place(item, cursor) % item.alignment == 0
  {
    var a := item.alignment;
    var q, r := cursor / a, cursor % a;
    if r == 0 {
      QuotientIs(a, a, 1, 0);
    } else {
      QuotientIs(a - r, a, 0, a - r);
      assert Place(item, cursor) == (q + 1) * a;
      QuotientIs((q + 1) * a, a, q + 1, 0);
    }
  }

  /** The spans of the sections as placed. */
  ghost function Spans(items: seq<Item>, cursor: nat): (spans: seq<Span>)
    requires Aligned(items)
    ensures |spans| == |items|
  {
    if items == [] then []
    else
      var offset := Place(items[0], cursor);
      var end := offset + |items[0].payload|;
      [(offset, end)] + Spans(items[1..], end)
  }

  lemma {:induction false} SpanIs(items: seq<Item>, cursor: nat, k: nat)
    requires Aligned(items) && k < |items|
    ensures Spans(items, cursor)[k] == (Offsets(items, cursor)[k], Offsets(items, cursor)[k] + |items[k].payload|)
    ensures cursor <= Spans(items, cursor)[k].0
    decreases k
  {
    PlaceAligned(items[0], cursor);
    if k > 0 {
      SpanIs(items[1..], Place(items[0], cursor) + |items[0].payload|, k - 1);
    }
  }

  lemma {:induction false} SpansFollow(items: seq<Item>, cursor: nat, i: nat, j: nat)
    requires Aligned(items) && i < j < |items|
    ensures Spans(items, cursor)[i].1 <= Spans(items, cursor)[j].0
    decreases i
  {
    var next := Place(items[0], cursor) + |items[0].payload|;
    if i == 0 {
      SpanIs(items[1..], next, j - 1);
    } else {
      SpansFollow(items[1..], next, i - 1, j - 1);
    }
  }

  lemma {:induction false} BodyChains(bytes: seq<byte>, items: seq<Item>, cursor: nat)
    requires Aligned(items) && cursor <= |bytes| && bytes[cursor..] == Body(items, cursor)
    ensures forall k :: 0 <= k < |items| ==> Spans(items, cursor)[k].1 <= |bytes|
    ensures Chain(bytes, cursor, Spans(items, cursor))
    decreases |items|
  {
    if items != [] {
      var item := items[0];
      var offset := Place(item, cursor);
      var end := offset + |item.payload|;
      PlaceAligned(item, cursor);
      var body, rest := Body(items, cursor), Body(items[1..], end);
      assert body[..offset - cursor] == Filler(offset - cursor) && body[end - cursor..] == rest;
      assert bytes[end..] == bytes[cursor..][end - cursor..];
      BodyChains(bytes, items[1..], end);
      forall k | cursor <= k < offset ensures bytes[k] == 0 {
        assert bytes[k] == bytes[cursor..][k - cursor] == body[..offset - cursor][k - cursor];
      }
      assert Spans(items, cursor)[1..] == Spans(items[1..], end);
    }
  }

  // ---------- What the reader makes of it ----------

  /** What a document can store at all. */
  ghost predicate Writable(kind: nat, items: seq<Item>, digest: seq<byte> -> seq<byte>) {
    && Aligned(items) && (forall tail :: |digest(tail)| == 32)
    && kind < 65536 && |items| < U32_LIMIT && HEADER_SIZE + |Tail(items)| < U64_LIMIT
    && forall k :: 0 <= k < |items| ==> Storable(items[k])
  }

  lemma HeadReads(kind: nat, items: seq<Item>, digest: seq<byte> -> seq<byte>)
    requires Writable(kind, items, digest)
    ensures
      var bytes := Written(kind, items, digest);
      && |bytes| == HEADER_SIZE + |Tail(items)| && bytes[..8] == MAGIC && bytes[HEADER_SIZE..] == Tail(items)
      && U16(bytes, 8) == 1 && U16(bytes, 10) == kind && U32(bytes, 12) == 0 && U64(bytes, 16) == |bytes|
      && U64(bytes, 24) == HEADER_SIZE && U32(bytes, 32) == |items| && U32(bytes, 36) == 0
      && bytes[40..72] == digest(Tail(items))
  {
    hide U16, U32, U64, FixedBytes, Tail;
    var tail := Tail(items);
    var h := Head(kind, |items|, tail, digest(tail));
    var bytes := h + tail;
    Powers();
    assert h[..8] == Spelled("PYHMINP\0") == MAGIC;
    assert h[8..10] == FixedBytes(1, 2) && h[10..12] == FixedBytes(kind, 2) && h[12..16] == FixedBytes(0, 4);
    assert h[16..24] == FixedBytes(HEADER_SIZE + |tail|, 8) && h[24..32] == FixedBytes(HEADER_SIZE, 8);
    assert h[32..36] == FixedBytes(|items|, 4) && h[36..40] == FixedBytes(0, 4) && h[40..72] == digest(tail);
    forall i, j | 0 <= i <= j <= HEADER_SIZE ensures bytes[i..j] == h[i..j] {
      assert bytes[..HEADER_SIZE] == h;
      SubSlice(bytes, 0, HEADER_SIZE, i, j);
    }
    NumberReads(bytes, 8, 1, 2);
    NumberReads(bytes, 10, kind, 2);
    NumberReads(bytes, 12, 0, 4);
    NumberReads(bytes, 16, HEADER_SIZE + |tail|, 8);
    NumberReads(bytes, 24, HEADER_SIZE, 8);
    NumberReads(bytes, 32, |items|, 4);
    NumberReads(bytes, 36, 0, 4);
  }

  /** Every record and every section is where the directory says. */
  lemma SectionReads(kind: nat, items: seq<Item>, digest: seq<byte> -> seq<byte>, k: nat)
    requires Writable(kind, items, digest) && k < |items|
    ensures
      var bytes := Written(kind, items, digest);
      var at, offset := RecordAt(k), Offsets(items, RecordAt(|items|))[k];
      && at + RECORD_SIZE <= RecordAt(|items|) <= |bytes|
      && RecordKind(bytes, at) == items[k].kind && U16(bytes, at + 2) == 0 && U32(bytes, at + 4) == 0
      && RecordSection(bytes, at) == Section(offset, |items[k].payload|, items[k].count)
      && U32(bytes, at + 28) == items[k].alignment
      && RecordAt(|items|) <= offset && offset + |items[k].payload| <= |bytes| && offset % items[k].alignment == 0
      && bytes[offset..offset + |items[k].payload|] == items[k].payload
  {
    hide U16, U32, U64, FixedBytes, RecordKind, RecordSection, Record, Offsets, Body, Directory, Storable;
    var start, bytes := RecordAt(|items|), Written(kind, items, digest);
    var head, offsets := bytes[..HEADER_SIZE], Offsets(items, start);
    var directory, body := Directory(items, offsets), Body(items, start);
    var offset := offsets[k];
    BodyHolds(items, start, k);
    OffsetAligned(items, start, k);
    DirectorySlice(items, offsets, k);
    assert bytes == head + (directory + body) by { HeadReads(kind, items, digest); }
    AppendAssociative(head, directory, body);
    Behind(head + directory, body, offset - start, offset - start + |items[k].payload|);
    var at := RECORD_SIZE * k;
    Behind(head, directory + body, at, at + RECORD_SIZE);
    assert (directory + body)[at..at + RECORD_SIZE] == directory[at..at + RECORD_SIZE];
    RecordReads(bytes, RecordAt(k), items[k], offset);
  }

  /** A section of a known kind (1 is metadata, 2 strings, 3 blobs) whose count fits its content and the limits. */
  predicate ItemReadable(item: Item, limits: Limits) {
    && (if item.kind == 1 then item.count == 1
        else Width(item.kind).Some? && item.count * Width(item.kind).value == |item.payload|)
    && (item.kind == 2 || item.kind == 3 || item.count <= limits.maxRecords)
    && (item.kind == 2 ==> |item.payload| <= limits.maxStringBytes)
  }

  predicate DistinctKinds(items: seq<Item>) {
    forall j, k :: 0 <= j < k < |items| ==> items[j].kind != items[k].kind
  }

  /** What the reader asks of a written document. */
  ghost predicate Readable(kind: nat, items: seq<Item>, limits: Limits)
    requires Aligned(items)
  {
    && 1 <= kind <= 4 && |items| <= limits.maxSections && |items| <= 64
    && HEADER_SIZE + |Tail(items)| <= limits.maxWireBytes && HEADER_SIZE + |Tail(items)| <= 512 * 1024 * 1024
    && (forall k :: 0 <= k < |items| ==> ItemReadable(items[k], limits))
    && DistinctKinds(items)
  }

  lemma RecordIff(kind: nat, items: seq<Item>, digest: seq<byte> -> seq<byte>, limits: Limits, k: nat)
    requires Writable(kind, items, digest) && k < |items|
    ensures
      var bytes := Written(kind, items, digest);
      && RecordAt(k) + RECORD_SIZE <= |bytes|
      && (RecordOk(bytes, RecordAt(k), RecordAt(|items|), limits) <==> ItemReadable(items[k], limits))
  {
    hide U16, U32, U64, FixedBytes, RecordKind, RecordSection, Record, Offsets, Body, Directory, Written, Tail,
      KnownKind, RecordSize, Width;
    SectionReads(kind, items, digest, k);
    WidthsAgree(items[k].kind);
    NoMetadataWidth();
  }

  lemma NoMetadataWidth()
    ensures Width(1).None?
  {
  }

  /** The sections tile the rest of the document. */
  lemma WrittenTiles(kind: nat, items: seq<Item>, digest: seq<byte> -> seq<byte>)
    requires Writable(kind, items, digest)
    ensures
      var bytes := Written(kind, items, digest);
      RecordAt(|items|) <= |bytes| && Tiled(bytes, RecordAt(|items|), Spans(items, RecordAt(|items|)))
  {
    hide FixedBytes, Record, Offsets, Directory, Head, Spans, Tiled, Storable, Within;
    var start, bytes := RecordAt(|items|), Written(kind, items, digest);
    var head, directory, body := bytes[..HEADER_SIZE], Directory(items, Offsets(items, start)), Body(items, start);
    assert bytes == head + (directory + body);
    AppendAssociative(head, directory, body);
    assert bytes[start..] == body;
    BodyChains(bytes, items, start);
    SpansSorted(items, start);
    SpansWithin(bytes, items, start);
    ChainTiles(bytes, start, Spans(items, start));
  }

  lemma SpansSorted(items: seq<Item>, cursor: nat)
    requires Aligned(items)
    ensures Sorted(Before, Spans(items, cursor))
  {
    hide Spans;
    forall i, j | 0 <= i < j < |items| ensures Before(Spans(items, cursor)[i], Spans(items, cursor)[j]) {
      SpansFollow(items, cursor, i, j);
    }
  }

  lemma SpansWithin(bytes: seq<byte>, items: seq<Item>, cursor: nat)
    requires Aligned(items) && forall k :: 0 <= k < |items| ==> Spans(items, cursor)[k].1 <= |bytes|
    ensures Document.Within(bytes, cursor, Spans(items, cursor))
  {
    hide Spans;
    forall k | 0 <= k < |items| ensures cursor <= Spans(items, cursor)[k].0 {
      SpanIs(items, cursor, k);
    }
  }

  /** The directory lists the spans in the order in which the sections stand. */
  lemma WrittenSpans(kind: nat, items: seq<Item>, digest: seq<byte> -> seq<byte>)
    requires Writable(kind, items, digest)
    ensures
      var bytes := Written(kind, items, digest);
      && |bytes| >= HEADER_SIZE && SectionCount(bytes) == |items| && DirectoryEnd(bytes) == RecordAt(|items|) <= |bytes|
      && SpansTo(bytes, |items|) == Spans(items, RecordAt(|items|))
  {
    hide U16, U32, U64, FixedBytes, RecordSection, Written, Tail, Spans, Offsets, Storable;
    var bytes := Written(kind, items, digest);
    HeadReads(kind, items, digest);
    WrittenTiles(kind, items, digest);
    var start := RecordAt(|items|);
    forall k | 0 <= k < |items|
      ensures RecordAt(k) + RECORD_SIZE <= |bytes|
      ensures SpanOf(RecordSection(bytes, RecordAt(k))) == Spans(items, start)[k]
    {
      SectionReads(kind, items, digest, k);
      SpanIs(items, RecordAt(|items|), k);
    }
  }

  /** The reader accepts exactly what is readable of what is written. */
  lemma ReaderAccepts(kind: nat, items: seq<Item>, digest: seq<byte> -> seq<byte>, limits: Limits)
    requires Writable(kind, items, digest)
    ensures Accepted(Written(kind, items, digest), kind, limits, digest) <==> Readable(kind, items, limits)
  {
    hide U16, U32, U64, FixedBytes, RecordSection, RecordKind, RecordOk, Written, Tail, Spans, Offsets, Storable, Tiled,
      SpansTo, ItemReadable;
    var bytes := Written(kind, items, digest);
    HeadReads(kind, items, digest);
    WrittenTiles(kind, items, digest);
    WrittenSpans(kind, items, digest);
    forall k | 0 <= k < |items|
      ensures RecordAt(k) + RECORD_SIZE <= |bytes| && RecordKind(bytes, RecordAt(k)) == items[k].kind
      ensures RecordOk(bytes, RecordAt(k), RecordAt(|items|), limits) <==> ItemReadable(items[k], limits)
    {
      SectionReads(kind, items, digest, k);
      RecordIff(kind, items, digest, limits, k);
    }
    if forall k :: 0 <= k < |items| ==> ItemReadable(items[k], limits) {
      forall k | 0 <= k < |items| ensures KnownKind(items[k].kind) {
        ReadableKnown(items[k], limits);
      }
    }
  }

  lemma ReadableKnown(item: Item, limits: Limits)
    requires ItemReadable(item, limits)
    ensures KnownKind(item.kind)
  {
    hide Width, KnownKind, RecordSize;
    WidthsAgree(item.kind);
  }

  /**
   The round trip: of a readable document the reader's table has exactly the kinds that were written, and
   for each the count, and at the place it names the content, that was written.
   */
  lemma RoundTrip(
    kind: nat, items: seq<Item>, digest: seq<byte> -> seq<byte>, limits: Limits, table: map<nat, Section>)
    requires Writable(kind, items, digest) && Readable(kind, items, limits)
    requires
      var bytes := Written(kind, items, digest);
      |bytes| >= HEADER_SIZE && DirectoryEnd(bytes) <= |bytes| && Document.Lists(bytes, table, SectionCount(bytes))
    ensures forall found :: found in table <==> exists k :: 0 <= k < |items| && items[k].kind == found
    ensures forall k :: 0 <= k < |items| ==>
      items[k].kind in table && Carries(Written(kind, items, digest), table[items[k].kind], items[k])
  {
    hide U16, U32, U64, FixedBytes, RecordSection, RecordKind, Written, Tail, Spans, Offsets, Storable, SpansTo,
      ItemReadable, KnownKind;
    var bytes := Written(kind, items, digest);
    WrittenSpans(kind, items, digest);
    forall k | 0 <= k < |items|
      ensures items[k].kind in table && Carries(bytes, table[items[k].kind], items[k])
      ensures RecordKind(bytes, RecordAt(k)) == items[k].kind
    {
      SectionReads(kind, items, digest, k);
      ReadableKnown(items[k], limits);
    }
  }

  /** The section has the item's count and, in the bytes, its content. */
  ghost predicate Carries(bytes: seq<byte>, section: Section, item: Item) {
    && section.count == item.count && section.offset + section.length <= |bytes|
    && bytes[section.offset..section.offset + section.length] == item.payload
  }

  // ---------- The writer ----------

  predicate KindOrder(a: Item, b: Item) {
    a.kind <= b.kind
  }

  /** The sections in the order in which they are written. */
  function ByKind(sections: seq<Item>): (ordered: seq<Item>)
    ensures multiset(ordered) == multiset(sections) && |ordered| == |sections|
  {
    InOrder(KindOrder, sections)
  }

  /** What the writer checks, of the sections in order. */
  ghost predicate Allowed(ordered: seq<Item>) {
    && |ordered| <= 64 && DistinctKinds(ordered) && Aligned(ordered)
    && HEADER_SIZE + |Tail(ordered)| <= 512 * 1024 * 1024
    && forall k :: 0 <= k < |ordered| ==> ordered[k].count < U32_LIMIT
  }

  /** Places the sections one after another behind the directory. */
  method WriteBody(ordered: seq<Item>, start: nat) returns (r: Wire<(seq<nat>, seq<byte>)>)
    ensures r.Ok? <==> Aligned(ordered)
    ensures r.Ok? ==> r.value == (Offsets(ordered, start), Body(ordered, start))
  {
    hide Place, Filler;
    var cursor, offsets: seq<nat>, body: seq<byte> := start, [], [];
    assert ordered[0..] == ordered;
    for n := 0 to |ordered|
      invariant forall k :: 0 <= k < n ==> ordered[k].alignment in {1, 2, 4, 8, 16, 32, 64}
      invariant cursor == start + |body| && |offsets| == n
      invariant Aligned(ordered) ==> offsets + Offsets(ordered[n..], cursor) == Offsets(ordered, start)
      invariant Aligned(ordered) ==> body + Body(ordered[n..], cursor) == Body(ordered, start)
    {
      var section := ordered[n];
      assert ordered[n..][1..] == ordered[n + 1..];
      if section.alignment !in {1, 2, 4, 8, 16, 32, 64} {
        return WireError;
      }
      var offset := Place(section, cursor);
      PlaceAligned(section, cursor);
      ghost var before, rest := body, ordered[n + 1..];
      var filler := Filler(offset - cursor);
      body := body + filler + section.payload;
      cursor := offset + |section.payload|;
      if Aligned(ordered) {
        AppendAssociative(before, filler + section.payload, Body(rest, cursor));
        AppendAssociative(before, filler, section.payload);
        AppendAssociative(offsets, [offset], Offsets(rest, cursor));
      }
      offsets := offsets + [offset];
    }
    assert ordered[|ordered|..] == [] && offsets + [] == offsets && body + [] == body;
    return Ok((offsets, body));
  }

  method WriteDirectory(ordered: seq<Item>, offsets: seq<nat>) returns (r: Wire<seq<byte>>)
    requires |offsets| == |ordered|
    ensures r.Ok? <==> forall k :: 0 <= k < |ordered| ==> ordered[k].count < U32_LIMIT
    ensures r.Ok? ==> r.value == Directory(ordered, offsets)
  {
    hide Record;
    var directory: seq<byte> := [];
    assert ordered[0..] == ordered && offsets[0..] == offsets;
    for n := 0 to |ordered|
      invariant forall k :: 0 <= k < n ==> ordered[k].count < U32_LIMIT
      invariant directory + Directory(ordered[n..], offsets[n..]) == Directory(ordered, offsets)
    {
      assert ordered[n..][1..] == ordered[n + 1..] && offsets[n..][1..] == offsets[n + 1..];
      if ordered[n].count >= U32_LIMIT {
        return WireError;
      }
      var record := Record(ordered[n], offsets[n]);
      AppendAssociative(directory, record, Directory(ordered[n + 1..], offsets[n + 1..]));
      directory := directory + record;
    }
    assert ordered[|ordered|..] == [];
    return Ok(directory);
  }

  /** Writes a document of the sections, ordered by kind. */
  method WriteDocument(kind: nat, sections: seq<Item>, digest: seq<byte> -> seq<byte>) returns (r: Wire<seq<byte>>)
    requires forall tail :: |digest(tail)| == 32
    ensures r.Ok? <==> Allowed(ByKind(sections))
    ensures r.Ok? ==> r.value == Written(kind, ByKind(sections), digest)
  {
    hide Offsets, Body, Directory, Head;
    var ordered := ByKind(sections);
    if |ordered| > 64 || !DistinctKinds(ordered) {
      return WireError;
    }
    var start := HEADER_SIZE + RECORD_SIZE * |ordered|;
    var placed :- WriteBody(ordered, start);
    if start + |placed.1| > 512 * 1024 * 1024 {
      return WireError;
    }
    var directory :- WriteDirectory(ordered, placed.0);
    var tail := directory + placed.1;
    return Ok(Head(kind, |ordered|, tail, digest(tail)) + tail);
  }

  lemma AllowedWritable(kind: nat, ordered: seq<Item>, digest: seq<byte> -> seq<byte>)
    requires Allowed(ordered) && kind < 65536 && forall k :: 0 <= k < |ordered| ==> ordered[k].kind < 65536
    requires forall tail :: |digest(tail)| == 32
    ensures Writable(kind, ordered, digest)
  {
    hide Offsets, Body, Directory;
    var start := RecordAt(|ordered|);
    forall k | 0 <= k < |ordered| ensures Storable(ordered[k]) {
      BodyHolds(ordered, start, k);
    }
  }

  /**
   Writer and reader together: whatever the writer accepts, the reader accepts exactly when every section
   is of a known kind and fits the reader's limits, and then it finds every section as it was given.
   */
  lemma WriterReader(
    kind: nat, sections: seq<Item>, digest: seq<byte> -> seq<byte>, limits: Limits, table: map<nat, Section>)
    requires Allowed(ByKind(sections)) && 1 <= kind <= 4 && forall tail :: |digest(tail)| == 32
    requires forall k :: 0 <= k < |sections| ==> sections[k].kind < 65536
    ensures
      var bytes := Written(kind, ByKind(sections), digest);
      && (Accepted(bytes, kind, limits, digest) <==>
          && |sections| <= limits.maxSections && |bytes| <= limits.maxWireBytes
          && forall k :: 0 <= k < |sections| ==> ItemReadable(sections[k], limits))
      && (Accepted(bytes, kind, limits, digest) && Document.Lists(bytes, table, SectionCount(bytes)) ==>
          && (forall found :: found in table <==> exists k :: 0 <= k < |sections| && sections[k].kind == found)
          && forall k :: 0 <= k < |sections| ==>
            sections[k].kind in table && Carries(bytes, table[sections[k].kind], sections[k]))
  {
    hide ByKind, Written, Tail, Accepted, ItemReadable, Carries, SectionCount, DirectoryEnd, Document.Lists;
    var ordered := ByKind(sections);
    forall item ensures item in ordered <==> item in sections {
      SameMembers(ordered, sections, item);
    }
    assert forall k :: 0 <= k < |ordered| ==> ordered[k] in ordered;
    assert forall k :: 0 <= k < |sections| ==> sections[k] in sections;
    AllowedWritable(kind, ordered, digest);
    ReaderAccepts(kind, ordered, digest, limits);
    HeadReads(kind, ordered, digest);
    WrittenSpans(kind, ordered, digest);
    var bytes := Written(kind, ordered, digest);
    if Accepted(bytes, kind, limits, digest) && Document.Lists(bytes, table, SectionCount(bytes)) {
      RoundTrip(kind, ordered, digest, limits, table);
    }
  }
}
