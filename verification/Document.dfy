/** The input document: a header, a section directory, the sections it lists, and zero padding. */
module Document {
  import opened Bytes
  import opened Programs
  import opened Sorting

  // ---------- Spans of bytes ----------

  /** A section's place: from its first byte up to its end. */
  type Span = s: (nat, nat) | s.0 <= s.1 witness (0, 0)

  predicate Before(a: Span, b: Span) {
    a.0 < b.0 || (a.0 == b.0 && a.1 <= b.1)
  }

  lemma BeforeIsTotalOrder()
    ensures TotalOrder(Before)
  {
  }

  predicate Apart(a: Span, b: Span) {
    a.1 <= b.0 || b.1 <= a.0
  }

  ghost predicate ApartFromAll(a: Span, spans: seq<Span>) {
    forall s :: s in spans ==> Apart(a, s)
  }

  /** No two of the spans overlap. */
  ghost predicate Disjoint(spans: seq<Span>) {
    spans == [] || (ApartFromAll(spans[0], spans[1..]) && Disjoint(spans[1..]))
  }

  lemma {:induction false} DisjointPairs(spans: seq<Span>, i: nat, j: nat)
    requires Disjoint(spans) && i < j < |spans|
    ensures Apart(spans[i], spans[j])
  {
    if i == 0 {
      assert spans[1..][j - 1] == spans[j];
    } else {
      DisjointPairs(spans[1..], i - 1, j - 1);
    }
  }

  predicate Holds(s: Span, k: nat) { s.0 <= k < s.1 }

  ghost predicate Inside(spans: seq<Span>, k: nat) {
    exists s :: s in spans && Holds(s, k)
  }

  /**
   The bytes from `from` on are exactly these spans, which do not overlap, and zero padding between
   them; the last span ends the buffer.
   */
  ghost predicate Tiled(bytes: seq<byte>, from: nat, spans: seq<Span>) {
    && Disjoint(spans)
    && (forall k :: from <= k < |bytes| && !Inside(spans, k) ==> bytes[k] == 0)
    && (if spans == [] then from == |bytes| else exists s :: s in spans && s.1 == |bytes|)
  }

  predicate Zeros(bytes: seq<byte>, from: nat, to: nat)
    requires from <= to <= |bytes|
  {
    forall k :: from <= k < to ==> bytes[k] == 0
  }

  /** What the scan over the sorted spans accepts. */
  predicate Chain(bytes: seq<byte>, cursor: nat, sorted: seq<Span>)
    requires forall k :: 0 <= k < |sorted| ==> sorted[k].1 <= |bytes|
    decreases |sorted|
  {
    if sorted == [] then cursor == |bytes|
    else cursor <= sorted[0].0 && Zeros(bytes, cursor, sorted[0].0) && Chain(bytes, sorted[0].1, sorted[1..])
  }

  ghost predicate Within(bytes: seq<byte>, from: nat, spans: seq<Span>) {
    forall k :: 0 <= k < |spans| ==> from <= spans[k].0 && spans[k].1 <= |bytes|
  }

  /** Among sorted spans the first is apart from the others exactly when they start after it. */
  lemma FirstApart(spans: seq<Span>)
    requires spans != [] && Sorted(Before, spans)
    ensures
      ApartFromAll(spans[0], spans[1..])
      <==> (forall k :: 0 <= k < |spans[1..]| ==> spans[0].1 <= spans[1..][k].0)
  {
    forall k | 0 <= k < |spans[1..]| ensures Apart(spans[0], spans[1..][k]) <==> spans[0].1 <= spans[1..][k].0 {
      assert Before(spans[0], spans[k + 1]);
    }
  }

  lemma InsideSplit(spans: seq<Span>, k: nat)
    requires spans != []
    ensures Inside(spans, k) <==> Holds(spans[0], k) || Inside(spans[1..], k)
  {
    assert spans == [spans[0]] + spans[1..];
    if Holds(spans[0], k) { assert spans[0] in spans; }
    if Inside(spans[1..], k) {
      var s :| s in spans[1..] && Holds(s, k);
      assert s in spans;
    }
  }

  lemma NothingInside(spans: seq<Span>, from: nat, k: nat)
    requires forall j :: 0 <= j < |spans| ==> from <= spans[j].0
    requires k < from
    ensures !Inside(spans, k)
  {
  }

  /** Taking the first of sorted spans off the tiling. */
  lemma TiledStep(bytes: seq<byte>, from: nat, spans: seq<Span>)
    requires spans != [] && Sorted(Before, spans) && Within(bytes, from, spans)
    ensures
      Tiled(bytes, from, spans) <==>
      Zeros(bytes, from, spans[0].0) && Within(bytes, spans[0].1, spans[1..]) && Tiled(bytes, spans[0].1, spans[1..])
  {
    var first, rest := spans[0], spans[1..];
    FirstApart(spans);
    assert spans == [first] + rest;
    if Within(bytes, first.1, rest) {
      forall k: nat | k < |bytes| ensures Inside(spans, k) <==> Holds(first, k) || Inside(rest, k) {
        InsideSplit(spans, k);
      }
      forall k: nat | k < first.1 ensures !Inside(rest, k) {
        NothingInside(rest, first.1, k);
      }
      TiledEnds(bytes, spans);
    }
  }

  lemma TiledEnds(bytes: seq<byte>, spans: seq<Span>)
    requires spans != [] && spans[0].1 <= |bytes| && Within(bytes, spans[0].1, spans[1..])
    ensures
      (exists s :: s in spans && s.1 == |bytes|)
      <==> if spans[1..] == [] then spans[0].1 == |bytes| else exists s :: s in spans[1..] && s.1 == |bytes|
  {
    var first, rest := spans[0], spans[1..];
    assert spans == [first] + rest;
    if rest == [] {
      assert first in spans;
    } else if first.1 == |bytes| {
      assert rest[0] in rest && rest[0] in spans && rest[0].1 == |bytes|;
    }
  }

  /** The scan accepts exactly the tilings. */
  lemma {:induction false} ChainTiles(bytes: seq<byte>, from: nat, spans: seq<Span>)
    requires Sorted(Before, spans) && Within(bytes, from, spans)
    ensures Chain(bytes, from, spans) <==> Tiled(bytes, from, spans)
    decreases |spans|
  {
    if spans != [] {
      var first, rest := spans[0], spans[1..];
      TiledStep(bytes, from, spans);
      if Within(bytes, first.1, rest) {
        ChainTiles(bytes, first.1, rest);
      } else {
        ChainWithin(bytes, first.1, rest);
      }
    } else {
      assert forall k: nat :: !Inside(spans, k);
    }
  }

  lemma {:induction false} ChainWithin(bytes: seq<byte>, cursor: nat, sorted: seq<Span>)
    requires forall k :: 0 <= k < |sorted| ==> sorted[k].1 <= |bytes|
    ensures Chain(bytes, cursor, sorted) ==> Within(bytes, cursor, sorted)
    decreases |sorted|
  {
    if sorted != [] && Chain(bytes, cursor, sorted) {
      ChainWithin(bytes, sorted[0].1, sorted[1..]);
      assert sorted == [sorted[0]] + sorted[1..];
    }
  }

  // ---------- Sorting changes nothing but the order ----------

  lemma ApartInsert(a: Span, x: Span, spans: seq<Span>)
    ensures ApartFromAll(a, Insert(Before, x, spans)) <==> Apart(a, x) && ApartFromAll(a, spans)
  {
    var inserted := Insert(Before, x, spans);
    forall s ensures s in inserted <==> s == x || s in spans {
      assert s in inserted <==> s in multiset(inserted);
      assert s in spans <==> s in multiset(spans);
    }
  }

  lemma ApartMembers(a: Span, spans: seq<Span>)
    requires spans != []
    ensures ApartFromAll(a, spans) <==> Apart(a, spans[0]) && ApartFromAll(a, spans[1..])
  {
    assert spans == [spans[0]] + spans[1..];
  }

  lemma {:induction false} DisjointInsert(x: Span, spans: seq<Span>)
    ensures Disjoint(Insert(Before, x, spans)) <==> ApartFromAll(x, spans) && Disjoint(spans)
  {
    hide ApartFromAll, Before;
    if spans == [] || Before(x, spans[0]) {
      assert ([x] + spans)[1..] == spans;
    } else {
      var first, rest := spans[0], spans[1..];
      var inserted := Insert(Before, x, rest);
      DisjointInsert(x, rest);
      ApartInsert(first, x, rest);
      ApartMembers(x, spans);
      assert ([first] + inserted)[1..] == inserted;
    }
  }

  lemma {:induction false} DisjointSort(spans: seq<Span>)
    ensures Disjoint(InOrder(Before, spans)) <==> Disjoint(spans)
  {
    hide Before;
    if spans != [] {
      var first, rest := spans[0], spans[1..];
      DisjointSort(rest);
      DisjointInsert(first, InOrder(Before, rest));
      forall s ensures s in InOrder(Before, rest) <==> s in rest {
        SameMembers(InOrder(Before, rest), rest, s);
      }
    }
  }

  lemma TiledSort(bytes: seq<byte>, from: nat, spans: seq<Span>)
    ensures Tiled(bytes, from, InOrder(Before, spans)) <==> Tiled(bytes, from, spans)
  {
    var sorted := InOrder(Before, spans);
    DisjointSort(spans);
    forall s ensures s in sorted <==> s in spans {
      SameMembers(sorted, spans, s);
    }
    forall k: nat ensures Inside(sorted, k) <==> Inside(spans, k) {
    }
  }

  lemma WithinSort(bytes: seq<byte>, from: nat, spans: seq<Span>)
    requires Within(bytes, from, spans)
    ensures Within(bytes, from, InOrder(Before, spans))
  {
    var sorted := InOrder(Before, spans);
    forall k | 0 <= k < |sorted| ensures from <= sorted[k].0 && sorted[k].1 <= |bytes| {
      SameMembers(sorted, spans, sorted[k]);
    }
  }

  /** Sorts the spans and scans them once; accepts exactly when they tile the rest of the buffer. */
  method CheckCoverage(bytes: seq<byte>, from: nat, spans: seq<Span>) returns (ok: bool)
    requires Within(bytes, from, spans) && from <= |bytes|
    ensures ok <==> Tiled(bytes, from, spans)
  {
    hide Tiled, Disjoint, Before, InOrder;
    var sorted := InOrder(Before, spans);
    BeforeIsTotalOrder();
    SortSorts(Before, spans);
    WithinSort(bytes, from, spans);
    ChainTiles(bytes, from, sorted);
    TiledSort(bytes, from, spans);
    var cursor: nat := from;
    assert sorted[0..] == sorted;
    for n := 0 to |sorted|
      invariant cursor <= |bytes|
      invariant Chain(bytes, from, sorted) <==> Chain(bytes, cursor, sorted[n..])
    {
      assert sorted[n..][1..] == sorted[n + 1..];
      var start, end := sorted[n].0, sorted[n].1;
      if start < cursor {
        return false;
      }
      if exists k :: cursor <= k < start && bytes[k] != 0 {
        return false;
      }
      cursor := end;
    }
    return cursor == |bytes|;
  }

  // ---------- Fields ----------

  function U16(bytes: seq<byte>, at: nat): nat
    requires at + 2 <= |bytes|
  {
    bytes[at] as int + 0x100 * (bytes[at + 1] as int)
  }

  function U32(bytes: seq<byte>, at: nat): nat
    requires at + 4 <= |bytes|
  {
    U16(bytes, at) + 0x1_0000 * U16(bytes, at + 2)
  }

  function U64(bytes: seq<byte>, at: nat): nat
    requires at + 8 <= |bytes|
  {
    U32(bytes, at) + 0x1_0000_0000 * U32(bytes, at + 4)
  }

  // ---------- Header and directory ----------

  const HEADER_SIZE := 72
  const RECORD_SIZE := 32
  const MAX_WIRE_BYTES := 512 * 1024 * 1024
  const MAX_SECTIONS := 64
  const MAGIC: seq<byte> := [0x50, 0x59, 0x48, 0x4D, 0x49, 0x4E, 0x50, 0]

  datatype Limits = Limits(maxWireBytes: nat, maxSections: nat, maxRecords: nat, maxStringBytes: nat)

  datatype Section = Section(offset: nat, length: nat, count: nat)

  const METADATA := 1
  const STRINGS := 2
  const BLOBS := 3

  predicate KnownKind(kind: nat) { 1 <= kind <= 26 || 32 <= kind <= 36 }

  /** Bytes of one record of a section, unless it is of variable length. */
  function RecordSize(kind: nat): Option<nat> {
    match kind
    case 2 => Some(1) case 3 => Some(1) case 4 => Some(4) case 5 => Some(48) case 6 => Some(12) case 7 => Some(24)
    case 8 => Some(48) case 9 => Some(12) case 10 => Some(12) case 11 => Some(20) case 12 => Some(36) case 13 =>
      Some(20)
    case 14 => Some(16) case 15 => Some(32) case 16 => Some(40) case 17 => Some(12) case 18 => Some(12) case 19 =>
      Some(28)
    case 20 => Some(12) case 21 => Some(24) case 22 => Some(16) case 23 => Some(8) case 24 => Some(20) case 25 =>
      Some(4)
    case 26 => Some(8) case 32 => Some(64) case 33 => Some(152) case 34 => Some(108) case 35 => Some(16) case 36 =>
      Some(8)
    case _ => None
  }

  predicate PowerOfTwoTo64(n: nat) {
    n == 1 || n == 2 || n == 4 || n == 8 || n == 16 || n == 32 || n == 64
  }

  /** The header is sound; `digest` is the hash of the content. */
  predicate HeaderOk(bytes: seq<byte>, kind: nat, limits: Limits, digest: seq<byte> -> seq<byte>) {
    && |bytes| <= limits.maxWireBytes && |bytes| <= MAX_WIRE_BYTES && |bytes| >= HEADER_SIZE
    && bytes[..8] == MAGIC && U16(bytes, 8) == 1 && U16(bytes, 10) == kind && 1 <= kind <= 4
    && U32(bytes, 12) == 0 && U32(bytes, 36) == 0
    && U64(bytes, 16) == |bytes| && U64(bytes, 24) == HEADER_SIZE
    && SectionCount(bytes) <= limits.maxSections && SectionCount(bytes) <= MAX_SECTIONS
    && DirectoryEnd(bytes) <= |bytes|
    && digest(bytes[HEADER_SIZE..]) == bytes[40..72]
  }

  function SectionCount(bytes: seq<byte>): nat
    requires |bytes| >= HEADER_SIZE
  {
    U32(bytes, 32)
  }

  function DirectoryEnd(bytes: seq<byte>): nat
    requires |bytes| >= HEADER_SIZE
  {
    HEADER_SIZE + RECORD_SIZE * SectionCount(bytes)
  }

  /** Where directory record `n` starts. */
  function RecordAt(n: nat): nat { HEADER_SIZE + RECORD_SIZE * n }

  function RecordKind(bytes: seq<byte>, at: nat): nat
    requires at + RECORD_SIZE <= |bytes|
  {
    U16(bytes, at)
  }

  function RecordSection(bytes: seq<byte>, at: nat): Section
    requires at + RECORD_SIZE <= |bytes|
  {
    Section(U64(bytes, at + 8), U64(bytes, at + 16), U32(bytes, at + 24))
  }

  function SpanOf(s: Section): Span { (s.offset, s.offset + s.length) }

  /** One directory record is sound on its own. */
  predicate RecordOk(bytes: seq<byte>, at: nat, directoryEnd: nat, limits: Limits)
    requires at + RECORD_SIZE <= |bytes|
  {
    var kind, flags, section, alignment := RecordKind(bytes, at), U16(bytes, at + 2), RecordSection(bytes, at),
      U32(bytes, at + 28);
    && flags <= 1 && U32(bytes, at + 4) == 0
    && (KnownKind(kind) <==> flags == 0)
    && (kind == STRINGS || kind == BLOBS || section.count <= limits.maxRecords)
    && PowerOfTwoTo64(alignment) && section.offset % alignment == 0
    && section.offset >= directoryEnd && section.offset + section.length <= |bytes|
    && (KnownKind(kind) && RecordSize(kind).Some? ==> section.count * RecordSize(kind).value == section.length)
    && (kind == METADATA ==> section.count == 1)
    && (kind == STRINGS ==> section.length <= limits.maxStringBytes)
  }

  /** The spans of the sections, in directory order. */
  ghost function SpansTo(bytes: seq<byte>, n: nat): (spans: seq<Span>)
    requires |bytes| >= HEADER_SIZE && n <= SectionCount(bytes) && DirectoryEnd(bytes) <= |bytes|
    ensures |spans| == n
  {
    seq(n, k requires 0 <= k < n => SpanOf(RecordSection(bytes, RecordAt(k))))
  }

  ghost predicate RecordsOk(bytes: seq<byte>, limits: Limits)
    requires |bytes| >= HEADER_SIZE && DirectoryEnd(bytes) <= |bytes|
  {
    && (forall k :: 0 <= k < SectionCount(bytes) ==> RecordOk(bytes, RecordAt(k), DirectoryEnd(bytes), limits))
    && KindsOnce(bytes, SectionCount(bytes))
  }

  /** No known kind is listed twice among the first `n` records. */
  ghost predicate KindsOnce(bytes: seq<byte>, n: nat)
    requires |bytes| >= HEADER_SIZE && n <= SectionCount(bytes) && DirectoryEnd(bytes) <= |bytes|
  {
    forall j, k :: 0 <= j < k < n && KnownKind(RecordKind(bytes, RecordAt(j))) ==>
      RecordKind(bytes, RecordAt(j)) != RecordKind(bytes, RecordAt(k))
  }

  /** The table maps each known kind listed among the first `n` records to its section. */
  ghost predicate Lists(bytes: seq<byte>, sections: map<nat, Section>, n: nat)
    requires |bytes| >= HEADER_SIZE && n <= SectionCount(bytes) && DirectoryEnd(bytes) <= |bytes|
  {
    && (forall k :: 0 <= k < n && KnownKind(RecordKind(bytes, RecordAt(k))) ==>
         RecordKind(bytes, RecordAt(k)) in sections && sections[RecordKind(bytes, RecordAt(k))] ==
           RecordSection(bytes, RecordAt(k)))
    && (forall kind :: kind in sections ==>
       KnownKind(kind) && exists k :: 0 <= k < n && RecordKind(bytes, RecordAt(k)) == kind)
  }

  ghost predicate Accepted(bytes: seq<byte>, kind: nat, limits: Limits, digest: seq<byte> -> seq<byte>) {
    && HeaderOk(bytes, kind, limits, digest) && RecordsOk(bytes, limits)
    && Tiled(bytes, DirectoryEnd(bytes), SpansTo(bytes, SectionCount(bytes)))
  }

  lemma HeaderFits(bytes: seq<byte>, kind: nat, limits: Limits, digest: seq<byte> -> seq<byte>)
    ensures HeaderOk(bytes, kind, limits, digest) ==> |bytes| >= HEADER_SIZE && DirectoryEnd(bytes) <= |bytes|
  {
  }

  lemma RecordSpan(bytes: seq<byte>, at: nat, directoryEnd: nat, limits: Limits)
    requires at + RECORD_SIZE <= |bytes| && RecordOk(bytes, at, directoryEnd, limits)
    ensures directoryEnd <= SpanOf(RecordSection(bytes, at)).0 && SpanOf(RecordSection(bytes, at)).1 <= |bytes|
  {
  }

  lemma NothingListed(bytes: seq<byte>)
    requires |bytes| >= HEADER_SIZE && DirectoryEnd(bytes) <= |bytes|
    ensures KindsOnce(bytes, 0) && Lists(bytes, map[], 0)
  {
  }

  /** One more record of a kind not listed yet. */
  lemma ListsNext(bytes: seq<byte>, sections: map<nat, Section>, n: nat)
    requires |bytes| >= HEADER_SIZE && n < SectionCount(bytes) && DirectoryEnd(bytes) <= |bytes|
    requires KindsOnce(bytes, n) && Lists(bytes, sections, n)
    ensures
      var kind := RecordKind(bytes, RecordAt(n));
      && (KnownKind(kind) && kind in sections <==> !KindsOnce(bytes, n + 1))
      && (KnownKind(kind) && kind in sections ==> !KindsOnce(bytes, SectionCount(bytes)))
      && (!KnownKind(kind) ==> Lists(bytes, sections, n + 1))
      && (KnownKind(kind) && kind !in sections ==>
         Lists(bytes, sections[kind := RecordSection(bytes, RecordAt(n))], n + 1))
  {
    hide RecordKind, RecordSection, KnownKind;
    var kind := RecordKind(bytes, RecordAt(n));
    if KnownKind(kind) && kind in sections {
      var k :| 0 <= k < n && RecordKind(bytes, RecordAt(k)) == kind;
    }
  }

  /** The section table and the spans of the directory's records. */
  method ReadDirectory(bytes: seq<byte>, limits: Limits) returns (r: Wire<(map<nat, Section>, seq<Span>)>)
    requires |bytes| >= HEADER_SIZE && DirectoryEnd(bytes) <= |bytes|
    ensures r.Ok? <==> RecordsOk(bytes, limits)
    ensures r.Ok? ==> Lists(bytes, r.value.0, SectionCount(bytes)) && r.value.1 == SpansTo(bytes, SectionCount(bytes))
    ensures r.Ok? ==> Within(bytes, DirectoryEnd(bytes), r.value.1)
  {
    hide RecordOk, RecordKind, RecordSection, KindsOnce, Lists, KnownKind, U32;
    var count, directoryEnd := SectionCount(bytes), DirectoryEnd(bytes);
    var sections: map<nat, Section> := map[];
    var coverage: seq<Span> := [];
    NothingListed(bytes);
    for n := 0 to count
      invariant forall k :: 0 <= k < n ==> RecordOk(bytes, RecordAt(k), directoryEnd, limits)
      invariant KindsOnce(bytes, n) && Lists(bytes, sections, n)
      invariant coverage == SpansTo(bytes, n) && Within(bytes, directoryEnd, coverage)
    {
      var at := RecordAt(n);
      if !RecordOk(bytes, at, directoryEnd, limits) {
        return WireError;
      }
      RecordSpan(bytes, at, directoryEnd, limits);
      ListsNext(bytes, sections, n);
      var kind, section := RecordKind(bytes, at), RecordSection(bytes, at);
      if KnownKind(kind) {
        if kind in sections {
          return WireError;
        }
        sections := sections[kind := section];
      }
      coverage := coverage + [SpanOf(section)];
    }
    return Ok((sections, coverage));
  }

  /** Parses header and directory. */
  method Parse(
    bytes: seq<byte>, kind: nat, limits: Limits, digest: seq<byte> -> seq<byte>)
    returns (r: Wire<map<nat, Section>>)
    ensures r.Ok? <==> Accepted(bytes, kind, limits, digest)
    ensures r.Ok? ==> Lists(bytes, r.value, SectionCount(bytes))
  {
    hide HeaderOk, RecordsOk, Lists, Tiled, SpansTo, SectionCount;
    HeaderFits(bytes, kind, limits, digest);
    if !HeaderOk(bytes, kind, limits, digest) {
      return WireError;
    }
    var directory :- ReadDirectory(bytes, limits);
    var ok := CheckCoverage(bytes, DirectoryEnd(bytes), directory.1);
    return if ok then Ok(directory.0) else WireError;
  }

  /** Every byte from `from` on is in exactly one span, or in none and zero. */
  lemma TiledPartition(bytes: seq<byte>, from: nat, spans: seq<Span>, k: nat)
    requires Tiled(bytes, from, spans) && from <= k < |bytes|
    ensures
      || (bytes[k] == 0 && forall i :: 0 <= i < |spans| ==> !Holds(spans[i], k))
      || (exists i :: 0 <= i < |spans| && Holds(spans[i], k) && forall j :: 0 <= j < |spans| && j != i ==>
         !Holds(spans[j], k))
  {
    if Inside(spans, k) {
      var s :| s in spans && Holds(s, k);
      var i :| 0 <= i < |spans| && spans[i] == s;
      forall j | 0 <= j < |spans| && j != i ensures !Holds(spans[j], k) {
        if i < j { DisjointPairs(spans, i, j); } else { DisjointPairs(spans, j, i); }
      }
    } else {
      forall i | 0 <= i < |spans| ensures !Holds(spans[i], k) {
        assert spans[i] in spans;
      }
    }
  }

  /** In an accepted document every byte behind the directory is padding, and zero, or in exactly one section. */
  lemma AcceptedPartition(bytes: seq<byte>, kind: nat, limits: Limits, digest: seq<byte> -> seq<byte>, k: nat)
    requires Accepted(bytes, kind, limits, digest) && DirectoryEnd(bytes) <= k < |bytes|
    ensures
      var spans := SpansTo(bytes, SectionCount(bytes));
      || (bytes[k] == 0 && forall i :: 0 <= i < |spans| ==> !Holds(spans[i], k))
      || (exists i :: 0 <= i < |spans| && Holds(spans[i], k) && forall j :: 0 <= j < |spans| && j != i ==>
         !Holds(spans[j], k))
  {
    hide RecordsOk, Tiled, SpansTo, SectionCount;
    TiledPartition(bytes, DirectoryEnd(bytes), SpansTo(bytes, SectionCount(bytes)), k);
  }

  /** Sections lie behind the directory, so header, directory and sections never share a byte. */
  lemma AcceptedOrder(bytes: seq<byte>, kind: nat, limits: Limits, digest: seq<byte> -> seq<byte>, i: nat)
    requires Accepted(bytes, kind, limits, digest) && i < SectionCount(bytes)
    ensures
      var span := SpansTo(bytes, SectionCount(bytes))[i];
      HEADER_SIZE <= DirectoryEnd(bytes) <= span.0 <= span.1 <= |bytes|
  {
    assert RecordOk(bytes, RecordAt(i), DirectoryEnd(bytes), limits);
  }
}
