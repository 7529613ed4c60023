/** The strict reader of result documents: it accepts exactly what the writer writes, and reads it back. */
module ResultReader {
  import opened Bytes
  import opened Programs
  import opened Sorting
  import opened Taxonomy
  import opened ResultWire
  import Varint
  import Rows

  // ---------- Words ----------

  /** Little-endian words of four bytes. */
  function Words(bytes: seq<byte>): (words: seq<nat>)
    ensures |words| == |bytes| / 4
  {
    Rows.Words(bytes, 4)
  }

  lemma FourBytes(bs: seq<byte>)
    requires |bs| == 4
    ensures Varint.LittleEndian(bs) == ReadWord(bs)
  {
    var a, b, c := bs[1..], bs[2..], bs[3..];
    assert a[1..] == b && b[1..] == c && c[1..] == [] && a[0] == bs[1] && b[0] == bs[2] && c[0] == bs[3];
    assert Varint.LittleEndian(c) == bs[3];
    var n: nat := bs[3];
    assert Varint.LittleEndian(b) == bs[2] + 256 * n;
    assert Varint.LittleEndian(a) == bs[1] + 256 * (bs[2] + 256 * n);
  }

  lemma WordSmall(bs: seq<byte>)
    requires |bs| == 4
    ensures ReadWord(bs) < U32_LIMIT
  {
  }

  lemma FirstWord(bytes: seq<byte>)
    requires |bytes| >= 4
    ensures Words(bytes) == [ReadWord(bytes[..4])] + Words(bytes[4..]) && ReadWord(bytes[..4]) < U32_LIMIT
  {
    FourBytes(bytes[..4]);
    WordSmall(bytes[..4]);
  }

  lemma {:induction false} WordsSmall(bytes: seq<byte>)
    ensures Small(Words(bytes))
  {
    if |bytes| >= 4 {
      FirstWord(bytes);
      WordsSmall(bytes[4..]);
    }
  }

  /** What was written as words is read as those words. */
  lemma {:induction false} WordsRead(ws: seq<nat>)
    requires Small(ws)
    ensures Words(ToBytes(ws)) == ws
  {
    if ws != [] {
      hide Word, ReadWord;
      var bytes := ToBytes(ws);
      assert bytes[..4] == Word(ws[0]) && bytes[4..] == ToBytes(ws[1..]);
      FirstWord(bytes);
      WordRoundTrip(ws[0]);
      WordsRead(ws[1..]);
    }
  }

  /** And no other bytes are read so. */
  lemma WordsExact(bytes: seq<byte>)
    requires |bytes| % 4 == 0
    ensures Small(Words(bytes)) && ToBytes(Words(bytes)) == bytes
  {
    hide ToBytes, Small;
    WordsSmall(bytes);
    WordsRead(Words(bytes));
    Rows.WordsUnique(bytes, ToBytes(Words(bytes)), 4);
  }

  lemma DropTwice<T>(s: seq<T>, a: nat, b: nat)
    requires a + b <= |s|
    ensures s[a..][b..] == s[a + b..]
  {
  }

  lemma {:induction false} WordsDrop(bytes: seq<byte>, from: nat)
    requires 4 * from <= |bytes|
    ensures from <= |Words(bytes)| && Words(bytes[4 * from..]) == Words(bytes)[from..]
    decreases from
  {
    if from > 0 {
      hide ReadWord, Words;
      FirstWord(bytes);
      WordsDrop(bytes[4..], from - 1);
      DropTwice(bytes, 4, 4 * (from - 1));
      DropTwice(Words(bytes), 1, from - 1);
      assert Words(bytes)[1..] == Words(bytes[4..]);
    } else {
      assert bytes[4 * from..] == bytes;
    }
  }

  lemma {:induction false} WordsTake(bytes: seq<byte>, count: nat)
    requires 4 * count <= |bytes|
    ensures count <= |Words(bytes)| && Words(bytes[..4 * count]) == Words(bytes)[..count]
    decreases count
  {
    if count > 0 {
      hide ReadWord, Words;
      var part := bytes[..4 * count];
      FirstWord(bytes);
      FirstWord(part);
      WordsTake(bytes[4..], count - 1);
      assert part[..4] == bytes[..4] && part[4..] == bytes[4..][..4 * (count - 1)];
    }
  }

  /** A table inside the payload is a slice of its words. */
  lemma WordsSlice(bytes: seq<byte>, from: nat, count: nat)
    requires 4 * (from + count) <= |bytes|
    ensures from + count <= |Words(bytes)|
    ensures Words(bytes[4 * from..4 * (from + count)]) == Words(bytes)[from..from + count]
  {
    hide Words;
    WordsDrop(bytes, from);
    WordsTake(bytes[4 * from..], count);
    assert bytes[4 * from..][..4 * count] == bytes[4 * from..4 * (from + count)];
  }

  predicate Capped(n: nat) { n <= MAX_RESULT_BYTES }

  /** A table of 32-bit words, and where it ends; the byte counts never pass the cap. */
  method ReadTable(payload: seq<byte>, cursor: nat, count: nat, ghost from: nat) returns (table: seq<nat>, end: nat)
    requires cursor == 4 * from && Capped(|payload|) && 4 * (from + count) <= |payload|
    ensures end == 4 * (from + count) && from + count <= |Words(payload)|
    ensures table == Words(payload)[from..from + count]
  {
    end := cursor + 4 * count;
    assert Capped(4 * count) && Capped(end);
    WordsSlice(payload, from, count);
    table := Words(payload[cursor..end]);
  }

  // ---------- The header ----------

  function Number(bytes: seq<byte>, from: nat, to: nat): nat
    requires from <= to <= |bytes|
  {
    Varint.LittleEndian(bytes[from..to])
  }

  /** Magic, schema, kind, no flags, the length and the digest of the payload. */
  predicate Opens(document: seq<byte>, kind: byte, digest: seq<byte> -> seq<byte>) {
    && RESULT_HEADER <= |document| <= MAX_RESULT_BYTES
    && document[..8] == [80, 89, 72, 77, 84, 82, 83, 0] && Number(document, 8, 10) == 1
    && Number(document, 10, 12) == kind && Number(document, 12, 16) == 0 && Number(document, 28, 32) == 0
    && Number(document, 16, 24) == |document| && digest(document[RESULT_HEADER..]) == document[32..64]
  }

  lemma OpensSized(document: seq<byte>, kind: byte, digest: seq<byte> -> seq<byte>)
    requires Opens(document, kind, digest)
    ensures RESULT_HEADER <= |document| <= MAX_RESULT_BYTES
  {
  }

  lemma TwoBytes(bs: seq<byte>, n: byte)
    requires |bs| == 2
    ensures Varint.LittleEndian(bs) == n <==> bs == [n, 0]
  {
    var tail := bs[1..];
    assert tail[1..] == [] && Varint.LittleEndian(tail) == bs[1];
    assert bs == [bs[0], bs[1]];
  }

  lemma ZeroBytes(bs: seq<byte>)
    requires |bs| == 4
    ensures Varint.LittleEndian(bs) == 0 <==> bs == [0, 0, 0, 0]
  {
    FourBytes(bs);
    assert bs == [bs[0], bs[1], bs[2], bs[3]];
  }

  lemma {:induction false} LittleEndianSplit(a: seq<byte>, b: seq<byte>)
    requires |a| == 4
    ensures Varint.LittleEndian(a + b) == Varint.LittleEndian(a) + U32_LIMIT * Varint.LittleEndian(b)
  {
    var x, y, z := a[1..], a[2..], a[3..];
    assert (a + b)[1..] == x + b && (x + b)[1..] == y + b && (y + b)[1..] == z + b && (z + b)[1..] == b;
    assert x[1..] == y && y[1..] == z && z[1..] == [];
    var n := Varint.LittleEndian(b);
    assert Varint.LittleEndian(z + b) == a[3] + 256 * n && Varint.LittleEndian(z) == a[3];
    assert Varint.LittleEndian(y + b) == a[2] + 256 * (a[3] + 256 * n);
    assert Varint.LittleEndian(x + b) == a[1] + 256 * (a[2] + 256 * (a[3] + 256 * n));
    assert Varint.LittleEndian(a + b) == a[0] + 256 * (a[1] + 256 * (a[2] + 256 * (a[3] + 256 * n)));
    FourBytes(a);
  }

  /** A 64-bit length below 32 bits has four zero bytes at its end. */
  lemma EightBytes(bs: seq<byte>, n: nat)
    requires |bs| == 8 && n < U32_LIMIT
    ensures Varint.LittleEndian(bs) == n <==> ReadWord(bs[..4]) == n && bs[4..] == [0, 0, 0, 0]
  {
    var a, b := bs[..4], bs[4..];
    assert bs == a + b;
    LittleEndianSplit(a, b);
    FourBytes(a);
    WordSmall(a);
    ZeroBytes(b);
    FourBytes(b);
  }

  /** The header is accepted exactly when the document says what its payload is. */
  lemma OpensIff(document: seq<byte>, kind: byte, digest: seq<byte> -> seq<byte>)
    requires forall payload :: |digest(payload)| == 32
    ensures Opens(document, kind, digest) <==>
      && RESULT_HEADER <= |document| <= MAX_RESULT_BYTES
      && var payload := document[RESULT_HEADER..];
      IsDocument(document, kind, Number(document, 24, 28), payload, digest(payload))
  {
    if RESULT_HEADER <= |document| <= MAX_RESULT_BYTES {
      hide ReadWord, Varint.LittleEndian;
      TwoBytes(document[8..10], 1);
      TwoBytes(document[10..12], kind);
      ZeroBytes(document[12..16]);
      ZeroBytes(document[28..32]);
      EightBytes(document[16..24], |document|);
      FourBytes(document[24..28]);
      assert document[16..24][..4] == document[16..20] && document[16..24][4..] == document[20..24];
      HeaderKind(document, kind);
    }
  }

  lemma HeaderKind(document: seq<byte>, kind: byte)
    requires |document| >= 12
    ensures document[8..12] == [1, 0, kind, 0] <==> document[8..10] == [1, 0] && document[10..12] == [kind, 0]
  {
    var whole, left, right := document[8..12], document[8..10], document[10..12];
    assert whole == left + right;
    if left == [1, 0] && right == [kind, 0] {
      assert whole == [1, 0] + [kind, 0];
    }
    if whole == [1, 0, kind, 0] {
      assert left == whole[..2] && right == whole[2..];
    }
  }

  // ---------- Tables of rows ----------

  predicate Increasing(offsets: seq<nat>) {
    forall i :: 1 <= i < |offsets| ==> offsets[i - 1] < offsets[i]
  }

  /** Offsets that cut the values into nonempty groups. */
  predicate Cuts(offsets: seq<nat>, values: nat) {
    offsets != [] && offsets[0] == 0 && offsets[|offsets| - 1] == values && Increasing(offsets)
  }

  lemma RowsFirst(group: seq<nat>, rows: seq<seq<nat>>, start: nat)
    ensures Flat([group] + rows) == group + Flat(rows)
    ensures Offsets([group] + rows, start) == [start] + Offsets(rows, start + |group|)
  {
    assert ([group] + rows)[1..] == rows;
  }

  lemma NestedFirst(offsets: seq<nat>, flat: seq<nat>)
    requires |offsets| >= 2 && offsets[0] <= offsets[1] <= |flat|
    ensures Nested(offsets, flat) == [flat[offsets[0]..offsets[1]]] + Nested(offsets[1..], flat)
  {
  }

  lemma IncreasingRest(offsets: seq<nat>)
    requires Increasing(offsets) && |offsets| >= 2
    ensures Increasing(offsets[1..]) && offsets[0] < offsets[1]
  {
    var rest := offsets[1..];
    forall i | 1 <= i < |rest| ensures rest[i - 1] < rest[i] {
      assert offsets[i + 1 - 1] < offsets[i + 1];
    }
  }

  lemma NoGroups(offsets: seq<nat>, flat: seq<nat>)
    requires |offsets| == 1
    ensures Nested(offsets, flat) == [] && Offsets([], offsets[0]) == offsets && Flat([]) == []
  {
  }

  /** The groups say where they were cut. */
  lemma {:induction false} NestedInverse(offsets: seq<nat>, flat: seq<nat>)
    requires offsets != [] && Increasing(offsets) && offsets[|offsets| - 1] == |flat|
    ensures offsets[0] <= |flat| && |Nested(offsets, flat)| == |offsets| - 1
    ensures Offsets(Nested(offsets, flat), offsets[0]) == offsets && Flat(Nested(offsets, flat)) == flat[offsets[0]..]
  {
    hide Flat, Offsets, Total, Nested, Increasing;
    if |offsets| == 1 {
      NoGroups(offsets, flat);
      assert flat[offsets[0]..] == [];
    } else {
      var rest := offsets[1..];
      IncreasingRest(offsets);
      NestedInverse(rest, flat);
      NestedFirst(offsets, flat);
      var group := flat[offsets[0]..offsets[1]];
      RowsFirst(group, Nested(rest, flat), offsets[0]);
      assert flat[offsets[0]..] == group + flat[offsets[1]..];
      assert offsets == [offsets[0]] + rest;
    }
  }

  lemma {:induction false} OffsetsIncrease(rows: seq<seq<nat>>, start: nat)
    requires forall k :: 0 <= k < |rows| ==> rows[k] != []
    ensures Increasing(Offsets(rows, start))
  {
    if rows != [] {
      var rest := Offsets(rows[1..], start + |rows[0]|);
      OffsetsIncrease(rows[1..], start + |rows[0]|);
      assert Offsets(rows, start) == [start] + rest;
      assert rest[0] == start + |rows[0]|;
      forall i | 1 <= i < |Offsets(rows, start)| ensures Offsets(rows, start)[i - 1] < Offsets(rows, start)[i] {
        assert i >= 2 ==> rest[i - 2] < rest[i - 1];
      }
    }
  }

  lemma {:induction false} UnpairedInverse(ws: seq<nat>, count: nat)
    requires |ws| == 2 * count
    ensures |Unpaired(ws)| == count && Pairs(Unpaired(ws)) == ws
    decreases count
  {
    if count > 0 {
      UnpairedInverse(ws[2..], count - 1);
      var pairs := Unpaired(ws);
      assert pairs[0] == (ws[0], ws[1]) && pairs[1..] == Unpaired(ws[2..]);
      assert ws == [ws[0], ws[1]] + ws[2..];
    }
  }

  /** Cuts the values at the offsets, one group after another. */
  method CutGroups(offsets: seq<nat>, values: seq<nat>) returns (groups: seq<seq<nat>>)
    requires Cuts(offsets, |values|)
    ensures groups == Nested(offsets, values)
  {
    groups := [];
    for i := 0 to |offsets| - 1
      invariant groups + Nested(offsets[i..], values) == Nested(offsets, values)
    {
      OffsetsWithin(offsets, i, |offsets| - 1);
      var group := values[offsets[i]..offsets[i + 1]];
      assert offsets[i..][1..] == offsets[i + 1..];
      AppendAssociative(groups, [group], Nested(offsets[i + 1..], values));
      groups := groups + [group];
    }
    assert Nested(offsets[|offsets| - 1..], values) == [];
  }

  lemma {:induction false} OffsetsWithin(offsets: seq<nat>, i: nat, j: nat)
    requires Increasing(offsets) && i < j < |offsets|
    ensures offsets[i] < offsets[i + 1] <= offsets[j]
    decreases j
  {
    if i + 1 < j { OffsetsWithin(offsets, i, j - 1); }
  }

  method CutPairs(ws: seq<nat>, count: nat) returns (pairs: seq<(nat, nat)>)
    requires |ws| == 2 * count
    ensures pairs == Unpaired(ws)
  {
    pairs := [];
    for i := 0 to count
      invariant pairs + Unpaired(ws[2 * i..]) == Unpaired(ws)
    {
      var pair := (ws[2 * i], ws[2 * i + 1]);
      assert ws[2 * i..][2..] == ws[2 * (i + 1)..];
      AppendAssociative(pairs, [pair], Unpaired(ws[2 * (i + 1)..]));
      pairs := pairs + [pair];
    }
    assert ws[2 * count..] == [];
  }

  // ---------- Hierarchies ----------

  /** The counts of the prefix are those of the words, and the offsets cover the members. */
  ghost predicate HierarchyShaped(ws: seq<nat>, items: nat) {
    && |ws| >= 6 && ws[5] == 0 && ws[0] == items && |ws| == 7 + ws[0] + ws[1] + 2 * ws[2]
    && Cuts(ws[6..7 + ws[0]], ws[1])
  }

  ghost function HierarchyAt(ws: seq<nat>): Hierarchy
    requires |ws| >= 6 && |ws| == 7 + ws[0] + ws[1] + 2 * ws[2]
  {
    var members := 7 + ws[0];
    var edges := members + ws[1];
    Hierarchy(Nested(ws[6..members], ws[members..edges]), Unpaired(ws[edges..edges + 2 * ws[2]]), ws[3], ws[4])
  }

  /** What is read from words is written as those words. */
  lemma HierarchyRewritten(ws: seq<nat>, items: nat)
    requires HierarchyShaped(ws, items)
    ensures HierarchyWords(HierarchyAt(ws)) == ws && |HierarchyAt(ws).nodes| == items
  {
    hide Flat, Offsets, Nested, Pairs, Unpaired, HierarchyWords;
    var h, members := HierarchyAt(ws), 7 + ws[0];
    var edges := members + ws[1];
    NestedInverse(ws[6..members], ws[members..edges]);
    UnpairedInverse(ws[edges..edges + 2 * ws[2]], ws[2]);
    HierarchyFlat(h);
    assert HierarchyPrefix(h) == ws[..6];
    assert ws[..6] + ws[6..members] + ws[members..edges] + ws[edges..edges + 2 * ws[2]] == ws;
  }

  /** What is written is read back. */
  lemma HierarchyReread(h: Hierarchy)
    requires forall k :: 0 <= k < |h.nodes| ==> h.nodes[k] != []
    ensures HierarchyShaped(HierarchyWords(h), |h.nodes|) && HierarchyAt(HierarchyWords(h)) == h
  {
    hide Flat, Offsets, Nested, Pairs, Unpaired, HierarchyWords;
    var ws, offsets, flat, pairs := HierarchyWords(h), Offsets(h.nodes, 0), Flat(h.nodes), Pairs(h.edges);
    var prefix := HierarchyPrefix(h);
    HierarchyFlat(h);
    assert ws == prefix + offsets + flat + pairs;
    assert ws[..6] == prefix && ws[6..7 + |h.nodes|] == offsets;
    var at := 7 + |h.nodes|;
    assert ws[at..at + |flat|] == flat && ws[at + |flat|..at + |flat| + |pairs|] == pairs;
    assert forall i :: 0 <= i < 6 ==> ws[i] == prefix[i];
    OffsetsIncrease(h.nodes, 0);
    NestedRoundTrip(h.nodes, []);
    assert [] + flat == flat;
    PairsRoundTrip(h.edges);
  }

  lemma {:induction false} SmallFlat(rows: seq<seq<nat>>)
    requires Small(Flat(rows))
    ensures SmallRows(rows)
  {
    if rows != [] {
      var flat, rest := Flat(rows), Flat(rows[1..]);
      assert forall k :: 0 <= k < |rows[0]| ==> flat[k] == rows[0][k];
      assert forall k :: 0 <= k < |rest| ==> flat[|rows[0]| + k] == rest[k];
      SmallFlat(rows[1..]);
      assert forall k :: 1 <= k < |rows| ==> rows[k] == rows[1..][k - 1];
    }
  }

  lemma {:induction false} SmallUnpaired(ws: seq<nat>)
    requires Small(ws)
    ensures SmallPairs(Unpaired(ws))
  {
    if |ws| >= 2 { SmallUnpaired(ws[2..]); }
  }

  lemma HierarchySmall(ws: seq<nat>, items: nat)
    requires HierarchyShaped(ws, items) && Small(ws)
    ensures SmallHierarchy(HierarchyAt(ws))
  {
    hide Flat, Offsets, Nested, Unpaired;
    var members := 7 + ws[0];
    var edges := members + ws[1];
    NestedInverse(ws[6..members], ws[members..edges]);
    assert Small(ws[members..edges]) && Small(ws[edges..edges + 2 * ws[2]]);
    SmallFlat(Nested(ws[6..members], ws[members..edges]));
    SmallUnpaired(ws[edges..edges + 2 * ws[2]]);
  }

  /** The document that the writer makes of a hierarchy. */
  ghost predicate HierarchyDocument(document: seq<byte>, h: Hierarchy, digest: seq<byte> -> seq<byte>) {
    && SmallHierarchy(h) && ValidHierarchy(h) && HierarchyFits(h) && Small(HierarchyWords(h))
    && var payload := ToBytes(HierarchyWords(h));
    IsDocument(document, HIERARCHY_KIND, |h.nodes|, payload, digest(payload))
  }

  /** What the reader asks of a document. */
  ghost predicate HierarchyReads(document: seq<byte>, digest: seq<byte> -> seq<byte>) {
    && Opens(document, HIERARCHY_KIND, digest)
    && var payload := document[RESULT_HEADER..];
    && |payload| % 4 == 0 && HierarchyShaped(Words(payload), Number(document, 24, 28))
    && ValidHierarchy(HierarchyAt(Words(payload)))
  }

  /** Strict reading: an accepted document is the one the writer makes of what was read. */
  lemma HierarchyReadIsWritten(document: seq<byte>, digest: seq<byte> -> seq<byte>)
    requires HierarchyReads(document, digest) && forall payload :: |digest(payload)| == 32
    ensures HierarchyDocument(document, HierarchyAt(Words(document[RESULT_HEADER..])), digest)
  {
    hide ToBytes, Words, HierarchyWords, HierarchyAt, HierarchyShaped, ValidHierarchy, IsDocument, Small,
      SmallHierarchy;
    var payload, items := document[RESULT_HEADER..], Number(document, 24, 28);
    var ws := Words(payload);
    OpensIff(document, HIERARCHY_KIND, digest);
    WordsExact(payload);
    HierarchyRewritten(ws, items);
    HierarchySmall(ws, items);
  }

  /** Complete reading: what the writer makes of a hierarchy is accepted and read as that hierarchy. */
  lemma HierarchyWrittenIsRead(document: seq<byte>, h: Hierarchy, digest: seq<byte> -> seq<byte>)
    requires HierarchyDocument(document, h, digest) && forall payload :: |digest(payload)| == 32
    ensures HierarchyReads(document, digest) && HierarchyAt(Words(document[RESULT_HEADER..])) == h
  {
    hide ToBytes, Words, HierarchyWords, HierarchyAt, HierarchyShaped, IsDocument, Small, SmallHierarchy;
    var ws := HierarchyWords(h);
    DocumentParts(document, HIERARCHY_KIND, |h.nodes|, ToBytes(ws), digest(ToBytes(ws)));
    OpensIff(document, HIERARCHY_KIND, digest);
    WordsRead(ws);
    HierarchyReread(h);
  }

  lemma DocumentParts(document: seq<byte>, kind: byte, items: nat, payload: seq<byte>, digest: seq<byte>)
    requires IsDocument(document, kind, items, payload, digest)
    ensures |document| == RESULT_HEADER + |payload| && document[RESULT_HEADER..] == payload
    ensures Number(document, 24, 28) == items
  {
    FourBytes(document[24..28]);
  }

  /** Reads a hierarchy, or refuses the document. */
  method ReadHierarchy(document: seq<byte>, digest: seq<byte> -> seq<byte>) returns (r: Wire<Hierarchy>)
    requires forall payload :: |digest(payload)| == 32
    ensures r.Ok? ==> HierarchyDocument(document, r.value, digest)
    ensures r.WireError? ==> forall h :: !HierarchyDocument(document, h, digest)
  {
    hide HierarchyDocument, Words, Nested, Unpaired, Cuts, ValidHierarchy, Opens;
    forall h | HierarchyDocument(document, h, digest) ensures HierarchyReads(document, digest) {
      HierarchyWrittenIsRead(document, h, digest);
    }
    var h :- ReadShapedHierarchy(document, digest);
    HierarchyReadIsWritten(document, digest);
    return Ok(h);
  }

  method ReadShapedHierarchy(document: seq<byte>, digest: seq<byte> -> seq<byte>) returns (r: Wire<Hierarchy>)
    ensures r.Ok? <==> HierarchyReads(document, digest)
    ensures r.Ok? ==> r.value == HierarchyAt(Words(document[RESULT_HEADER..]))
  {
    hide Words, Nested, Unpaired, Cuts, ValidHierarchy, Opens, Number;
    if !Opens(document, HIERARCHY_KIND, digest) {
      return WireError;
    }
    OpensSized(document, HIERARCHY_KIND, digest);
    var payload, items := document[RESULT_HEADER..], Number(document, 24, 28);
    if |payload| < 24 {
      return WireError;
    }
    var prefix, cursor := ReadTable(payload, 0, 6, 0);
    var nodes, members, edges := prefix[0], prefix[1], prefix[2];
    if prefix[5] != 0 || items != nodes {
      return WireError;
    }
    var words := nodes + 1 + members + 2 * edges;
    if !Capped(nodes + 1) || !Capped(nodes + 1 + members) || !Capped(2 * edges) || !Capped(words)
      || !Capped(4 * words) || !Capped(24 + 4 * words) || |payload| != 24 + 4 * words
    {
      return WireError;
    }
    var offsets, values, ends;
    offsets, cursor := ReadTable(payload, cursor, nodes + 1, 6);
    values, cursor := ReadTable(payload, cursor, members, 7 + nodes);
    ends, cursor := ReadTable(payload, cursor, 2 * edges, 7 + nodes + members);
    assert cursor == |payload|;
    if !Cuts(offsets, members) {
      return WireError;
    }
    var groups := CutGroups(offsets, values);
    var pairs := CutPairs(ends, edges);
    var h := Hierarchy(groups, pairs, prefix[3], prefix[4]);
    var valid := ValidateHierarchy(h);
    return if valid then Ok(h) else WireError;
  }
}
