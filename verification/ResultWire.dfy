/** The pooled result buffers: class hierarchies and realizations as little-endian 32-bit words. */
module ResultWire {
  import opened Bytes
  import opened Programs
  import opened Sorting
  import opened Taxonomy

  // ---------- Words and bytes ----------

  function Word(n: nat): (bs: seq<byte>)
    requires n < U32_LIMIT
    ensures |bs| == 4
  {
    [(n % 256) as byte, (n / 256 % 256) as byte, (n / 65536 % 256) as byte, (n / 16777216) as byte]
  }

  function ReadWord(bs: seq<byte>): nat
    requires |bs| == 4
  {
    bs[0] as nat + 256 * bs[1] as nat + 65536 * bs[2] as nat + 16777216 * bs[3] as nat
  }

  lemma WordRoundTrip(n: nat)
    requires n < U32_LIMIT
    ensures ReadWord(Word(n)) == n
  {
    var a, b := n / 256, n / 65536;
    assert b == a / 256 && n / 16777216 == b / 256;
  }

  predicate Small(ws: seq<nat>) {
    forall k :: 0 <= k < |ws| ==> ws[k] < U32_LIMIT
  }

  function ToBytes(ws: seq<nat>): (bs: seq<byte>)
    requires Small(ws)
    ensures |bs| == 4 * |ws|
  {
    if ws == [] then [] else Word(ws[0]) + ToBytes(ws[1..])
  }

  function FromBytes(bs: seq<byte>): seq<nat> {
    if |bs| < 4 then [] else [ReadWord(bs[..4])] + FromBytes(bs[4..])
  }

  lemma {:induction false} BytesRoundTrip(ws: seq<nat>)
    requires Small(ws)
    ensures FromBytes(ToBytes(ws)) == ws
  {
    if ws != [] {
      var bs := ToBytes(ws);
      WordRoundTrip(ws[0]);
      assert bs[..4] == Word(ws[0]) && bs[4..] == ToBytes(ws[1..]);
      BytesRoundTrip(ws[1..]);
    }
  }

  lemma {:induction false} BytesAppend(a: seq<nat>, b: seq<nat>)
    requires Small(a) && Small(b)
    ensures Small(a + b) && ToBytes(a + b) == ToBytes(a) + ToBytes(b)
  {
    if a == [] {
      assert a + b == b;
    } else {
      BytesAppend(a[1..], b);
      assert (a + b)[1..] == a[1..] + b;
      AppendAssociative(Word(a[0]), ToBytes(a[1..]), ToBytes(b));
    }
  }

  // ---------- Nested rows: offsets, then values ----------

  /** Values of all rows together. */
  function Total(rows: seq<seq<nat>>): nat {
    if rows == [] then 0 else |rows[0]| + Total(rows[1..])
  }

  function Flat(rows: seq<seq<nat>>): (flat: seq<nat>)
    ensures |flat| == Total(rows)
  {
    if rows == [] then [] else rows[0] + Flat(rows[1..])
  }

  /** Where each row starts, counting from `start`, and where the last one ends. */
  function Offsets(rows: seq<seq<nat>>, start: nat): (offsets: seq<nat>)
    ensures |offsets| == |rows| + 1 && offsets[0] == start && offsets[|rows|] == start + Total(rows)
  {
    if rows == [] then [start] else [start] + Offsets(rows[1..], start + |rows[0]|)
  }

  function Slice(flat: seq<nat>, from: nat, to: nat): seq<nat> {
    if from <= to <= |flat| then flat[from..to] else []
  }

  /** Rows recovered from their offsets. */
  function Nested(offsets: seq<nat>, flat: seq<nat>): seq<seq<nat>> {
    if |offsets| < 2 then [] else [Slice(flat, offsets[0], offsets[1])] + Nested(offsets[1..], flat)
  }

  lemma MiddleSlice(a: seq<nat>, b: seq<nat>, c: seq<nat>)
    ensures Slice(a + (b + c), |a|, |a| + |b|) == b
  {
    assert (a + (b + c))[|a|..|a| + |b|] == b;
  }

  lemma {:induction false} NestedRoundTrip(rows: seq<seq<nat>>, before: seq<nat>)
    ensures Nested(Offsets(rows, |before|), before + Flat(rows)) == rows
    decreases |rows|
  {
    if rows != [] {
      var offsets, tail := Offsets(rows, |before|), Flat(rows[1..]);
      NestedRoundTrip(rows[1..], before + rows[0]);
      AppendAssociative(before, rows[0], tail);
      MiddleSlice(before, rows[0], tail);
      assert offsets[1..] == Offsets(rows[1..], |before| + |rows[0]|);
      assert offsets[1] == |before| + |rows[0]|;
    }
  }

  // ---------- Keyed rows: key, offset and count for each, then values ----------

  datatype Row = Row(key: seq<nat>, values: seq<nat>)

  function Values(rows: seq<Row>): (vs: seq<seq<nat>>)
    ensures |vs| == |rows|
  {
    if rows == [] then [] else [rows[0].values] + Values(rows[1..])
  }

  /** Rows whose keys have `width` words. */
  predicate Keyed(rows: seq<Row>, width: nat) {
    forall k :: 0 <= k < |rows| ==> |rows[k].key| == width
  }

  function Heads(rows: seq<Row>, start: nat): seq<nat> {
    if rows == [] then [] else rows[0].key + [start, |rows[0].values|] + Heads(rows[1..], start + |rows[0].values|)
  }

  function Rows(heads: seq<nat>, flat: seq<nat>, width: nat): seq<Row> {
    if |heads| < width + 2 then []
    else
      [Row(heads[..width], Slice(flat, heads[width], heads[width] + heads[width + 1]))]
      + Rows(heads[width + 2..], flat, width)
  }

  lemma RowsStep(key: seq<nat>, start: nat, count: nat, tail: seq<nat>, flat: seq<nat>)
    ensures
      Rows(key + [start, count] + tail, flat, |key|) == [Row(key, Slice(flat, start, start + count))] +
        Rows(tail, flat, |key|)
  {
    var heads, width := key + [start, count] + tail, |key|;
    assert heads[..width] == key && heads[width] == start && heads[width + 1] == count && heads[width + 2..] == tail;
  }

  lemma {:induction false} RowsRoundTrip(rows: seq<Row>, before: seq<nat>, width: nat)
    requires Keyed(rows, width)
    ensures Rows(Heads(rows, |before|), before + Flat(Values(rows)), width) == rows
    decreases |rows|
  {
    hide Rows;
    if rows == [] {
      NoRows(before + Flat(Values(rows)), width);
    } else {
      var row, rest, start := rows[0], rows[1..], |before|;
      var flat := before + Flat(Values(rows));
      RowsStep(row.key, start, |row.values|, Heads(rest, start + |row.values|), flat);
      RowsRoundTrip(rest, before + row.values, width);
      assert Values(rows)[1..] == Values(rest);
      AppendAssociative(before, row.values, Flat(Values(rest)));
      assert flat[start..start + |row.values|] == row.values;
    }
  }

  lemma NoRows(flat: seq<nat>, width: nat)
    ensures Rows([], flat, width) == []
  {
  }

  lemma {:induction false} HeadsLength(rows: seq<Row>, start: nat, width: nat)
    requires Keyed(rows, width) && (width == 1 || width == 2)
    ensures |Heads(rows, start)| == if width == 1 then 3 * |rows| else 4 * |rows|
    decreases |rows|
  {
    if rows != [] { HeadsLength(rows[1..], start + |rows[0].values|, width); }
  }

  // ---------- Pairs ----------

  function Pairs(pairs: seq<(nat, nat)>): (ws: seq<nat>)
    ensures |ws| == 2 * |pairs|
  {
    if pairs == [] then [] else [pairs[0].0, pairs[0].1] + Pairs(pairs[1..])
  }

  function Unpaired(ws: seq<nat>): seq<(nat, nat)> {
    if |ws| < 2 then [] else [(ws[0], ws[1])] + Unpaired(ws[2..])
  }

  lemma {:induction false} PairsRoundTrip(pairs: seq<(nat, nat)>)
    ensures Unpaired(Pairs(pairs)) == pairs
  {
    if pairs != [] {
      assert Pairs(pairs)[2..] == Pairs(pairs[1..]);
      PairsRoundTrip(pairs[1..]);
    }
  }

  // ---------- Sections one after another ----------

  /** Cuts words into pieces of the given lengths. */
  function Cut(ws: seq<nat>, lengths: seq<nat>): (pieces: seq<seq<nat>>)
    ensures |pieces| == |lengths|
    decreases |lengths|
  {
    if lengths == [] then []
    else [Slice(ws, 0, lengths[0])] + Cut(if lengths[0] <= |ws| then ws[lengths[0]..] else [], lengths[1..])
  }

  function Lengths(pieces: seq<seq<nat>>): (lengths: seq<nat>)
    ensures |lengths| == |pieces| && forall k :: 0 <= k < |pieces| ==> lengths[k] == |pieces[k]|
  {
    if pieces == [] then [] else [|pieces[0]|] + Lengths(pieces[1..])
  }

  lemma {:induction false} CutRoundTrip(pieces: seq<seq<nat>>)
    ensures Cut(Flat(pieces), Lengths(pieces)) == pieces
  {
    if pieces != [] {
      var ws, lengths := Flat(pieces), Lengths(pieces);
      assert ws[0..|pieces[0]|] == pieces[0] && ws[|pieces[0]|..] == Flat(pieces[1..]);
      assert lengths[1..] == Lengths(pieces[1..]);
      CutRoundTrip(pieces[1..]);
    }
  }

  // ---------- The layouts ----------

  datatype Realization = Realization(
    sameAs: seq<seq<nat>>, directTypes: seq<Row>, objectTargets: seq<Row>, dataTargets: seq<Row>,
      differentFrom: seq<(nat, nat)>)

  function HierarchyPrefix(h: Hierarchy): seq<nat> {
    [|h.nodes|, Total(h.nodes), |h.edges|, h.top, h.bottom, 0]
  }

  function HierarchyPieces(h: Hierarchy): seq<seq<nat>> {
    [Offsets(h.nodes, 0), Flat(h.nodes), Pairs(h.edges)]
  }

  function HierarchyWords(h: Hierarchy): seq<nat> {
    HierarchyPrefix(h) + Flat(HierarchyPieces(h))
  }

  function DecodeHierarchy(ws: seq<nat>): Hierarchy
    requires |ws| >= 6
  {
    var pieces := Cut(ws[6..], [ws[0] + 1, ws[1], 2 * ws[2]]);
    Hierarchy(Nested(pieces[0], pieces[1]), Unpaired(pieces[2]), ws[3], ws[4])
  }

  /** The hierarchy layout loses nothing. */
  lemma HierarchyRoundTrip(h: Hierarchy)
    ensures DecodeHierarchy(HierarchyWords(h)) == h
  {
    var ws, pieces := HierarchyWords(h), HierarchyPieces(h);
    assert ws[6..] == Flat(pieces);
    CutRoundTrip(pieces);
    assert Lengths(pieces) == [ws[0] + 1, ws[1], 2 * ws[2]];
    NestedRoundTrip(h.nodes, []);
    assert [] + Flat(h.nodes) == Flat(h.nodes);
    PairsRoundTrip(h.edges);
  }

  predicate WellKeyed(r: Realization) {
    Keyed(r.directTypes, 1) && Keyed(r.objectTargets, 2) && Keyed(r.dataTargets, 2)
  }

  function RealizationPrefix(r: Realization): seq<nat> {
    [|r.sameAs|, Total(r.sameAs), |r.directTypes|, Total(Values(r.directTypes)), |r.objectTargets|,
      Total(Values(r.objectTargets)),
     |r.dataTargets|, Total(Values(r.dataTargets)), |r.differentFrom|, 0]
  }

  function RealizationPieces(r: Realization): seq<seq<nat>> {
    [Offsets(r.sameAs, 0), Flat(r.sameAs), Heads(r.directTypes, 0), Flat(Values(r.directTypes)),
     Heads(r.objectTargets, 0), Flat(Values(r.objectTargets)), Heads(r.dataTargets, 0), Flat(Values(r.dataTargets)),
     Pairs(r.differentFrom)]
  }

  function RealizationWords(r: Realization): seq<nat> {
    RealizationPrefix(r) + Flat(RealizationPieces(r))
  }

  /** The lengths of the pieces, from the counts in the prefix. */
  function RealizationLengths(ws: seq<nat>): seq<nat>
    requires |ws| >= 10
  {
    [ws[0] + 1, ws[1], 3 * ws[2], ws[3], 4 * ws[4], ws[5], 4 * ws[6], ws[7], 2 * ws[8]]
  }

  function DecodeRealization(ws: seq<nat>): Realization
    requires |ws| >= 10
  {
    var p := Cut(ws[10..], RealizationLengths(ws));
    Realization(Nested(p[0], p[1]), Rows(p[2], p[3], 1), Rows(p[4], p[5], 2), Rows(p[6], p[7], 2), Unpaired(p[8]))
  }

  lemma PieceLengths(r: Realization)
    requires WellKeyed(r)
    ensures Lengths(RealizationPieces(r)) == RealizationLengths(RealizationWords(r))
  {
    HeadsLength(r.directTypes, 0, 1);
    HeadsLength(r.objectTargets, 0, 2);
    HeadsLength(r.dataTargets, 0, 2);
  }

  /** The realization layout loses nothing. */
  lemma RealizationRoundTrip(r: Realization)
    requires WellKeyed(r)
    ensures DecodeRealization(RealizationWords(r)) == r
  {
    hide Lengths, Cut, Flat, Heads, Rows, Total, RealizationLengths;
    var ws, pieces := RealizationWords(r), RealizationPieces(r);
    assert ws[10..] == Flat(pieces);
    PieceLengths(r);
    CutRoundTrip(pieces);
    NestedRoundTrip(r.sameAs, []);
    RowsRoundTrip(r.directTypes, [], 1);
    RowsRoundTrip(r.objectTargets, [], 2);
    RowsRoundTrip(r.dataTargets, [], 2);
    assert [] + Flat(r.sameAs) == Flat(r.sameAs);
    assert [] + Flat(Values(r.directTypes)) == Flat(Values(r.directTypes));
    assert [] + Flat(Values(r.objectTargets)) == Flat(Values(r.objectTargets));
    assert [] + Flat(Values(r.dataTargets)) == Flat(Values(r.dataTargets));
    PairsRoundTrip(r.differentFrom);
  }

  // ---------- Writing ----------

  predicate SmallRows(rows: seq<seq<nat>>) {
    forall k :: 0 <= k < |rows| ==> Small(rows[k])
  }

  /** Appends words to a buffer; `written` is what the buffer holds beyond its beginning. */
  method WriteWords(
    output: seq<byte>, ws: seq<nat>, ghost start: seq<byte>, ghost written: seq<nat>)
    returns (extended: seq<byte>)
    requires Small(ws) && Small(written) && output == start + ToBytes(written)
    ensures extended == output + ToBytes(ws)
    ensures Small(written + ws) && extended == start + ToBytes(written + ws)
  {
    extended := output;
    for n := 0 to |ws|
      invariant extended + ToBytes(ws[n..]) == output + ToBytes(ws)
    {
      AppendAssociative(extended, Word(ws[n]), ToBytes(ws[n..][1..]));
      assert ws[n..][1..] == ws[n + 1..];
      extended := extended + Word(ws[n]);
    }
    assert ws[|ws|..] == [];
    BytesAppend(written, ws);
    AppendAssociative(start, ToBytes(written), ToBytes(ws));
  }

  /** The values of all rows, one row after another. */
  method WriteValues(
    output: seq<byte>, rows: seq<seq<nat>>, ghost start: seq<byte>, ghost written: seq<nat>)
    returns (extended: seq<byte>)
    requires SmallRows(rows) && Small(written) && output == start + ToBytes(written)
    ensures Small(written + Flat(rows)) && extended == start + ToBytes(written + Flat(rows))
  {
    extended := output;
    ghost var ws: seq<nat> := written;
    for n := 0 to |rows|
      invariant Small(ws) && extended == start + ToBytes(ws)
      invariant ws + Flat(rows[n..]) == written + Flat(rows)
    {
      extended := WriteWords(extended, rows[n], start, ws);
      AppendAssociative(ws, rows[n], Flat(rows[n..][1..]));
      assert rows[n..][1..] == rows[n + 1..];
      ws := ws + rows[n];
    }
    assert rows[|rows|..] == [] && ws + [] == ws;
  }

  lemma OffsetsStep(rows: seq<seq<nat>>, n: nat, offset: nat, ws: seq<nat>)
    requires n < |rows|
    ensures Total(rows[n..]) == |rows[n]| + Total(rows[n + 1..])
    ensures
      var next := offset + |rows[n]|;
      ws + Offsets(rows[n..], offset)[1..] == ws + [next] + Offsets(rows[n + 1..], next)[1..]
  {
    assert rows[n..][1..] == rows[n + 1..];
    var rest := Offsets(rows[n + 1..], offset + |rows[n]|);
    assert Offsets(rows[n..], offset)[1..] == rest;
    assert rest == [offset + |rows[n]|] + rest[1..];
    AppendAssociative(ws, [offset + |rows[n]|], rest[1..]);
  }

  /** The offset of every row, then all values; it fails exactly when the values outnumber 32 bits. */
  method WriteOffsetsAndValues(output: seq<byte>, rows: seq<seq<nat>>, ghost start: seq<byte>, ghost written: seq<nat>)
    returns (r: Wire<seq<byte>>)
    requires SmallRows(rows) && Small(written) && output == start + ToBytes(written)
    ensures r.Ok? <==> Total(rows) < U32_LIMIT
    ensures r.Ok? ==>
      var ws := written + Offsets(rows, 0) + Flat(rows);
      Small(ws) && r.value == start + ToBytes(ws)
  {
    hide ToBytes, Flat, Small, Total, SmallRows;
    var offset: nat := 0;
    OneSmall(0);
    var extended := WriteWords(output, [0], start, written);
    ghost var ws: seq<nat> := written + [0];
    assert rows[0..] == rows;
    assert Offsets(rows, 0) == [0] + Offsets(rows, 0)[1..];
    AppendAssociative(written, [0], Offsets(rows, 0)[1..]);
    for n := 0 to |rows|
      invariant offset < U32_LIMIT && offset + Total(rows[n..]) == Total(rows)
      invariant Small(ws) && extended == start + ToBytes(ws)
      invariant ws + Offsets(rows[n..], offset)[1..] == written + Offsets(rows, 0)
    {
      OffsetsStep(rows, n, offset, ws);
      if offset + |rows[n]| >= U32_LIMIT {
        return WireError;
      }
      offset := offset + |rows[n]|;
      OneSmall(offset);
      extended := WriteWords(extended, [offset], start, ws);
      ws := ws + [offset];
    }
    AllOffsets(rows, offset, ws);
    extended := WriteValues(extended, rows, start, ws);
    return Ok(extended);
  }

  lemma OneSmall(n: nat)
    requires n < U32_LIMIT
    ensures Small([n])
  {
  }

  lemma AllOffsets(rows: seq<seq<nat>>, offset: nat, ws: seq<nat>)
    ensures Total(rows[|rows|..]) == 0 && ws + Offsets(rows[|rows|..], offset)[1..] == ws
  {
    assert rows[|rows|..] == [];
  }

  predicate SmallKeys(rows: seq<Row>) {
    forall k :: 0 <= k < |rows| ==> Small(rows[k].key) && Small(rows[k].values)
  }

  lemma {:induction false} ValuesAt(rows: seq<Row>)
    ensures forall k :: 0 <= k < |rows| ==> Values(rows)[k] == rows[k].values
  {
    if rows != [] {
      ValuesAt(rows[1..]);
      forall k | 0 <= k < |rows| ensures Values(rows)[k] == rows[k].values {
        if k > 0 { assert Values(rows)[k] == Values(rows[1..])[k - 1]; }
      }
    }
  }

  /** Key, offset and count of every row, then all values. */
  method WriteRows(
    output: seq<byte>, rows: seq<Row>, ghost start: seq<byte>, ghost written: seq<nat>)
    returns (r: Wire<seq<byte>>)
    requires SmallKeys(rows) && Small(written) && output == start + ToBytes(written)
    ensures r.Ok? <==> Total(Values(rows)) < U32_LIMIT
    ensures r.Ok? ==>
      var ws := written + Heads(rows, 0) + Flat(Values(rows));
      Small(ws) && r.value == start + ToBytes(ws)
  {
    hide ToBytes;
    var offset: nat := 0;
    var extended := output;
    ghost var ws: seq<nat> := written;
    assert rows[0..] == rows;
    for n := 0 to |rows|
      invariant offset < U32_LIMIT && offset + Total(Values(rows[n..])) == Total(Values(rows))
      invariant Small(ws) && extended == start + ToBytes(ws)
      invariant ws + Heads(rows[n..], offset) == written + Heads(rows, 0)
    {
      var row := rows[n];
      assert rows[n..][1..] == rows[n + 1..];
      assert Values(rows[n..])[1..] == Values(rows[n + 1..]);
      if |row.values| >= U32_LIMIT {
        return WireError;
      }
      var head: seq<nat> := row.key + [offset, |row.values|];
      extended := WriteWords(extended, head, start, ws);
      AppendAssociative(ws, head, Heads(rows[n + 1..], offset + |row.values|));
      ws := ws + head;
      if offset + |row.values| >= U32_LIMIT {
        return WireError;
      }
      offset := offset + |row.values|;
    }
    assert rows[|rows|..] == [] && ws + [] == ws;
    ValuesAt(rows);
    extended := WriteValues(extended, Values(rows), start, ws);
    return Ok(extended);
  }

  // ---------- The length computed beforehand ----------

  function CheckedAdd(a: Option<nat>, b: nat): Option<nat> {
    if a.Some? && a.value + b < U64_LIMIT then Some(a.value + b) else None
  }

  function CheckedMul(a: nat, b: nat): Option<nat> {
    if a * b < U64_LIMIT then Some(a * b) else None
  }

  function SaturatingMul(a: nat, b: nat): nat {
    if a * b < U64_LIMIT then a * b else U64_LIMIT - 1
  }

  function HierarchyLength(nodes: nat, members: nat, edges: nat): (r: Option<nat>)
    ensures nodes < U32_LIMIT && members < U32_LIMIT && edges < U32_LIMIT ==>
      r == Some(24 + 4 * (nodes + 1) + 4 * members + 8 * edges)
  {
    var offsets := CheckedMul(nodes + 1, 4);
    if offsets.None? then None
    else CheckedAdd(CheckedAdd(CheckedAdd(Some(24), offsets.value), SaturatingMul(members, 4)), SaturatingMul(edges, 8))
  }

  function RealizationLength(ws: seq<nat>): (r: Option<nat>)
    requires |ws| >= 10
    ensures Small(ws[..10]) ==>
      r == Some(40 + 4 * (ws[0] + 1 + ws[1] + 3 * ws[2] + ws[3] + 4 * ws[4] + ws[5] + 4 * ws[6] + ws[7] + 2 * ws[8]))
  {
    assert Small(ws[..10]) ==> forall k :: 0 <= k < 10 ==> ws[..10][k] == ws[k] && ws[k] < U32_LIMIT;
    var groups := CheckedAdd(CheckedAdd(CheckedAdd(Some(0), ws[0]), 1), ws[1]);
    var direct := CheckedAdd(CheckedAdd(groups, SaturatingMul(ws[2], 3)), ws[3]);
    var object_ := CheckedAdd(CheckedAdd(direct, SaturatingMul(ws[4], 4)), ws[5]);
    var data := CheckedAdd(CheckedAdd(object_, SaturatingMul(ws[6], 4)), ws[7]);
    var words := CheckedAdd(data, SaturatingMul(ws[8], 2));
    if words.None? then None
    else
      var bytes := CheckedMul(words.value, 4);
      if bytes.None? then None else CheckedAdd(Some(40), bytes.value)
  }

  // ---------- The encoders ----------

  predicate SmallPairs(pairs: seq<(nat, nat)>) {
    forall k :: 0 <= k < |pairs| ==> pairs[k].0 < U32_LIMIT && pairs[k].1 < U32_LIMIT
  }

  method WritePairs(
    output: seq<byte>, pairs: seq<(nat, nat)>, ghost start: seq<byte>, ghost written: seq<nat>)
    returns (extended: seq<byte>)
    requires SmallPairs(pairs) && Small(written) && output == start + ToBytes(written)
    ensures Small(written + Pairs(pairs)) && extended == start + ToBytes(written + Pairs(pairs))
  {
    extended := output;
    ghost var ws: seq<nat> := written;
    for n := 0 to |pairs|
      invariant Small(ws) && extended == start + ToBytes(ws)
      invariant ws + Pairs(pairs[n..]) == written + Pairs(pairs)
    {
      var pair: seq<nat> := [pairs[n].0, pairs[n].1];
      extended := WriteWords(extended, pair, start, ws);
      assert pairs[n..][1..] == pairs[n + 1..];
      AppendAssociative(ws, pair, Pairs(pairs[n + 1..]));
      ws := ws + pair;
    }
    assert pairs[|pairs|..] == [] && ws + [] == ws;
  }

  /** Members of every identifier column fit 32 bits, as their types say. */
  predicate SmallHierarchy(h: Hierarchy) {
    SmallRows(h.nodes) && SmallPairs(h.edges) && h.top < U32_LIMIT && h.bottom < U32_LIMIT
  }

  predicate SmallRealization(r: Realization) {
    && SmallRows(r.sameAs) && SmallKeys(r.directTypes) && SmallKeys(r.objectTargets) && SmallKeys(r.dataTargets)
    && SmallPairs(r.differentFrom) && WellKeyed(r)
  }

  /** The number of values in all rows, unless it leaves 32 bits. */
  method CountNested(rows: seq<seq<nat>>) returns (r: Wire<nat>)
    ensures r == if Total(rows) < U32_LIMIT then Ok(Total(rows)) else WireError
  {
    var total: nat := 0;
    assert rows[0..] == rows;
    for n := 0 to |rows|
      invariant total < U32_LIMIT && total + Total(rows[n..]) == Total(rows)
    {
      assert rows[n..][1..] == rows[n + 1..];
      if total + |rows[n]| >= U32_LIMIT {
        return WireError;
      }
      total := total + |rows[n]|;
    }
    return Ok(total);
  }

  /** The words written so far, continued by one more piece. */
  lemma Advance(ws: seq<nat>, pieces: seq<seq<nat>>, k: nat)
    requires k < |pieces|
    ensures ws + Flat(pieces[k..]) == ws + pieces[k] + Flat(pieces[k + 1..])
  {
    assert pieces[k..][1..] == pieces[k + 1..];
    AppendAssociative(ws, pieces[k], Flat(pieces[k + 1..]));
  }

  lemma NoneLeft(ws: seq<nat>, pieces: seq<seq<nat>>)
    ensures ws + Flat(pieces[|pieces|..]) == ws && pieces[0..] == pieces
  {
    assert pieces[|pieces|..] == [];
  }

  lemma HierarchyFlat(h: Hierarchy)
    ensures HierarchyWords(h) == HierarchyPrefix(h) + Offsets(h.nodes, 0) + Flat(h.nodes) + Pairs(h.edges)
  {
    hide Flat, Offsets, Pairs, HierarchyPrefix;
    var a, p := HierarchyPrefix(h), HierarchyPieces(h);
    Advance(a, p, 0);
    Advance(a + p[0], p, 1);
    Advance(a + p[0] + p[1], p, 2);
    NoneLeft(a + p[0] + p[1] + p[2], p);
  }

  /** The hierarchy payload; the length computed beforehand is always the length written. */
  method HierarchyPayload(h: Hierarchy) returns (r: Wire<seq<byte>>)
    requires SmallHierarchy(h)
    ensures r.Ok? <==> |h.nodes| < U32_LIMIT && Total(h.nodes) < U32_LIMIT && |h.edges| < U32_LIMIT
    ensures r.Ok? ==> Small(HierarchyWords(h)) && r.value == ToBytes(HierarchyWords(h))
    ensures r.Ok? ==> HierarchyLength(|h.nodes|, Total(h.nodes), |h.edges|) == Some(|r.value|)
  {
    hide ToBytes, Flat, Offsets, Pairs, HierarchyWords, HierarchyLength, Total;
    if |h.nodes| >= U32_LIMIT {
      return WireError;
    }
    var members :- CountNested(h.nodes);
    if |h.edges| >= U32_LIMIT {
      return WireError;
    }
    var length := HierarchyLength(|h.nodes|, members, |h.edges|);
    ghost var none: seq<nat> := [];
    NothingWritten();
    var prefix: seq<nat> := [|h.nodes|, members, |h.edges|, h.top, h.bottom, 0];
    var payload := WriteWords([], prefix, [], none);
    ghost var ws: seq<nat> := none + prefix;
    assert ws == HierarchyPrefix(h);
    var nested := WriteOffsetsAndValues(payload, h.nodes, [], ws);
    assert nested.Ok?;
    payload := nested.value;
    ws := ws + Offsets(h.nodes, 0) + Flat(h.nodes);
    payload := WritePairs(payload, h.edges, [], ws);
    ws := ws + Pairs(h.edges);
    HierarchyFlat(h);
    assert [] + ToBytes(ws) == ToBytes(ws);
    assert length == Some(|payload|);
    return Ok(payload);
  }

  lemma NothingWritten()
    ensures ToBytes([]) == [] && Small([])
  {
  }

  /** The hierarchy can be read back from its bytes. */
  lemma HierarchyBytesRoundTrip(h: Hierarchy)
    requires Small(HierarchyWords(h))
    ensures var ws := FromBytes(ToBytes(HierarchyWords(h))); |ws| >= 6 && DecodeHierarchy(ws) == h
  {
    BytesRoundTrip(HierarchyWords(h));
    HierarchyRoundTrip(h);
  }

  lemma RealizationFlat(r: Realization)
    ensures RealizationWords(r) ==
      RealizationPrefix(r) + Offsets(r.sameAs, 0) + Flat(r.sameAs)
      + Heads(r.directTypes, 0) + Flat(Values(r.directTypes)) + Heads(r.objectTargets, 0) +
        Flat(Values(r.objectTargets))
      + Heads(r.dataTargets, 0) + Flat(Values(r.dataTargets)) + Pairs(r.differentFrom)
  {
    hide Flat, Offsets, Heads, Values, Pairs, RealizationPrefix;
    var a, p := RealizationPrefix(r), RealizationPieces(r);
    Advance(a, p, 0);
    Advance(a + p[0], p, 1);
    Advance(a + p[0] + p[1], p, 2);
    Advance(a + p[0] + p[1] + p[2], p, 3);
    Advance(a + p[0] + p[1] + p[2] + p[3], p, 4);
    Advance(a + p[0] + p[1] + p[2] + p[3] + p[4], p, 5);
    Advance(a + p[0] + p[1] + p[2] + p[3] + p[4] + p[5], p, 6);
    Advance(a + p[0] + p[1] + p[2] + p[3] + p[4] + p[5] + p[6], p, 7);
    Advance(a + p[0] + p[1] + p[2] + p[3] + p[4] + p[5] + p[6] + p[7], p, 8);
    NoneLeft(a + p[0] + p[1] + p[2] + p[3] + p[4] + p[5] + p[6] + p[7] + p[8], p);
  }

  /** Every count the prefix states fits 32 bits. */
  predicate Countable(r: Realization) {
    Small(RealizationPrefix(r))
  }

  method CountRows(rows: seq<Row>) returns (r: Wire<nat>)
    ensures r == if Total(Values(rows)) < U32_LIMIT then Ok(Total(Values(rows))) else WireError
  {
    r := CountNested(Values(rows));
  }

  /** The counts of the prefix, unless one leaves 32 bits. */
  method RealizationCounts(r: Realization) returns (counts: Wire<seq<nat>>)
    ensures counts == if Countable(r) then Ok(RealizationPrefix(r)) else WireError
  {
    hide Total, Values;
    ghost var prefix := RealizationPrefix(r);
    assert Countable(r) <==>
      && prefix[0] < U32_LIMIT && prefix[1] < U32_LIMIT && prefix[2] < U32_LIMIT && prefix[3] < U32_LIMIT &&
         prefix[4] < U32_LIMIT
      && prefix[5] < U32_LIMIT && prefix[6] < U32_LIMIT && prefix[7] < U32_LIMIT && prefix[8] < U32_LIMIT;
    if |r.sameAs| >= U32_LIMIT {
      return WireError;
    }
    var individuals :- CountNested(r.sameAs);
    var direct :- CountRows(r.directTypes);
    var objects :- CountRows(r.objectTargets);
    var data :- CountRows(r.dataTargets);
    if |r.directTypes| >= U32_LIMIT || |r.objectTargets| >= U32_LIMIT || |r.dataTargets| >= U32_LIMIT ||
        |r.differentFrom| >= U32_LIMIT {
      return WireError;
    }
    return Ok([|r.sameAs|, individuals, |r.directTypes|, direct, |r.objectTargets|, objects, |r.dataTargets|, data,
      |r.differentFrom|, 0]);
  }

  /** The realization payload; the length computed beforehand is always the length written. */
  method RealizationPayload(r: Realization) returns (document: Wire<seq<byte>>)
    requires SmallRealization(r)
    ensures document.Ok? <==> Countable(r)
    ensures document.Ok? ==> Small(RealizationWords(r)) && document.value == ToBytes(RealizationWords(r))
    ensures document.Ok? ==> RealizationLength(RealizationPrefix(r)) == Some(|document.value|)
  {
    hide ToBytes, Flat, Offsets, Heads, Values, Pairs, RealizationWords, RealizationLength, Total, Keyed;
    var counts :- RealizationCounts(r);
    ghost var none: seq<nat> := [];
    NothingWritten();
    var payload := WriteWords([], counts, [], none);
    ghost var ws: seq<nat> := none + counts;
    assert ws == RealizationPrefix(r);
    assert counts[1] < U32_LIMIT && counts[3] < U32_LIMIT && counts[5] < U32_LIMIT && counts[7] < U32_LIMIT;
    var sameAs := WriteOffsetsAndValues(payload, r.sameAs, [], ws);
    assert sameAs.Ok?;
    ws := ws + Offsets(r.sameAs, 0) + Flat(r.sameAs);
    var direct := WriteRows(sameAs.value, r.directTypes, [], ws);
    assert direct.Ok?;
    ws := ws + Heads(r.directTypes, 0) + Flat(Values(r.directTypes));
    var objects := WriteRows(direct.value, r.objectTargets, [], ws);
    assert objects.Ok?;
    ws := ws + Heads(r.objectTargets, 0) + Flat(Values(r.objectTargets));
    var data := WriteRows(objects.value, r.dataTargets, [], ws);
    assert data.Ok?;
    ws := ws + Heads(r.dataTargets, 0) + Flat(Values(r.dataTargets));
    payload := WritePairs(data.value, r.differentFrom, [], ws);
    ws := ws + Pairs(r.differentFrom);
    RealizationFlat(r);
    assert [] + ToBytes(ws) == ToBytes(ws);
    RealizationLengthExact(r);
    return Ok(payload);
  }

  lemma RealizationLengthExact(r: Realization)
    requires WellKeyed(r) && Countable(r)
    ensures RealizationLength(RealizationPrefix(r)) == Some(4 * |RealizationWords(r)|)
  {
    hide RealizationLength, Values, Total;
    RealizationFlat(r);
    HeadsLength(r.directTypes, 0, 1);
    HeadsLength(r.objectTargets, 0, 2);
    HeadsLength(r.dataTargets, 0, 2);
    assert RealizationPrefix(r)[..10] == RealizationPrefix(r);
  }

  /** The realization can be read back from its bytes. */
  lemma RealizationBytesRoundTrip(r: Realization)
    requires WellKeyed(r) && Small(RealizationWords(r))
    ensures var ws := FromBytes(ToBytes(RealizationWords(r))); |ws| >= 10 && DecodeRealization(ws) == r
  {
    BytesRoundTrip(RealizationWords(r));
    RealizationRoundTrip(r);
  }

  // ---------- Documents ----------

  const RESULT_MAGIC: seq<byte> := [80, 89, 72, 77, 84, 82, 83, 0]
  const RESULT_HEADER := 64
  const MAX_RESULT_BYTES := 512 * 1024 * 1024

  const HIERARCHY_KIND: byte := 3
  const REALIZATION_KIND: byte := 4

  /** Magic, schema version 1, kind, total length as 64 bits, item count and digest, with zeros between. */
  function Header(kind: byte, total: nat, items: nat, digest: seq<byte>): (header: seq<byte>)
    requires total < U32_LIMIT && items < U32_LIMIT && |digest| == 32
    ensures |header| == RESULT_HEADER
  {
    RESULT_MAGIC + [1, 0, kind, 0] + [0, 0, 0, 0] + (Word(total) + [0, 0, 0, 0]) + (Word(items) + [0, 0, 0, 0]) + digest
  }

  /** A document says what it is, how long it is, how many items it has and what its payload hashes to. */
  ghost predicate IsDocument(document: seq<byte>, kind: byte, items: nat, payload: seq<byte>, digest: seq<byte>) {
    && |document| == RESULT_HEADER + |payload| && document[RESULT_HEADER..] == payload
    && document[..8] == RESULT_MAGIC && document[8..12] == [1, 0, kind, 0]
    && document[12..16] == [0, 0, 0, 0] && document[28..32] == [0, 0, 0, 0]
    && ReadWord(document[16..20]) == |document| && document[20..24] == [0, 0, 0, 0]
    && ReadWord(document[24..28]) == items && document[32..64] == digest
  }

  method FinishDocument(kind: byte, items: nat, payload: seq<byte>, digest: seq<byte>) returns (r: Wire<seq<byte>>)
    requires items < U32_LIMIT && |digest| == 32
    ensures r.Ok? <==> RESULT_HEADER + |payload| <= MAX_RESULT_BYTES
    ensures r.Ok? ==> IsDocument(r.value, kind, items, payload, digest)
  {
    hide Word, ReadWord;
    var total := RESULT_HEADER + |payload|;
    if total > MAX_RESULT_BYTES {
      return WireError;
    }
    var header := Header(kind, total, items, digest);
    var document := header + payload;
    WordRoundTrip(total);
    WordRoundTrip(items);
    assert document[..8] == RESULT_MAGIC && document[8..12] == [1, 0, kind, 0];
    assert document[16..20] == Word(total) && document[20..24] == [0, 0, 0, 0];
    assert document[24..28] == Word(items) && document[32..64] == digest;
    assert document[12..16] == [0, 0, 0, 0] && document[28..32] == [0, 0, 0, 0];
    return Ok(document);
  }

  ghost predicate HierarchyFits(h: Hierarchy) {
    RESULT_HEADER + 4 * |HierarchyWords(h)| <= MAX_RESULT_BYTES
  }

  /** What fits the cap has counts of 32 bits. */
  lemma HierarchyFitsWords(h: Hierarchy)
    requires HierarchyFits(h)
    ensures |h.nodes| < U32_LIMIT && Total(h.nodes) < U32_LIMIT && |h.edges| < U32_LIMIT
  {
    hide Flat, Offsets, Total;
    HierarchyFlat(h);
  }

  /** The hierarchy document: exactly for valid hierarchies within the output cap. */
  method EncodeHierarchy(h: Hierarchy, digest: seq<byte> -> seq<byte>) returns (r: Wire<seq<byte>>)
    requires SmallHierarchy(h) && forall payload :: |digest(payload)| == 32
    ensures r.Ok? <==> ValidHierarchy(h) && HierarchyFits(h)
    ensures r.Ok? ==> Small(HierarchyWords(h))
    ensures r.Ok? ==>
      var payload := ToBytes(HierarchyWords(h));
      IsDocument(r.value, HIERARCHY_KIND, |h.nodes|, payload, digest(payload))
  {
    hide ToBytes, HierarchyWords, HierarchyLength, Total, Taxonomy.ValidHierarchy, IsDocument, Small, SmallHierarchy;
    var valid := ValidateHierarchy(h);
    if !valid {
      return WireError;
    }
    if HierarchyFits(h) { HierarchyFitsWords(h); }
    var payload :- HierarchyPayload(h);
    r := FinishDocument(HIERARCHY_KIND, |h.nodes|, payload, digest(payload));
  }

  // ---------- Valid realizations ----------

  function Keys(rows: seq<Row>): seq<seq<nat>> {
    seq(|rows|, k requires 0 <= k < |rows| => rows[k].key)
  }

  /** Rows in order of their keys, each of a known group and with rising values. */
  ghost predicate ValidRows(rows: seq<Row>, groups: nat) {
    && Sorted(ListBefore, Keys(rows))
    && forall k :: 0 <= k < |rows| ==> rows[k].key != [] && rows[k].key[0] < groups && Rising(rows[k].values)
  }

  ghost predicate ValidRealization(r: Realization) {
    var groups := |r.sameAs|;
    && Partitions(r.sameAs) && groups < U32_LIMIT
    && ValidRows(r.directTypes, groups) && ValidRows(r.objectTargets, groups) && ValidRows(r.dataTargets, groups)
    && (forall k :: 0 <= k < |r.objectTargets| ==> AllBelow(r.objectTargets[k].values, groups))
    && Sorted(PairBefore, r.differentFrom)
    && forall k :: 0 <= k < |r.differentFrom| ==> r.differentFrom[k].0 < r.differentFrom[k].1 < groups
  }

  predicate AllBelow(values: seq<nat>, limit: nat) {
    forall k :: 0 <= k < |values| ==> values[k] < limit
  }

  lemma KeysInOrder(rows: seq<Row>)
    ensures Sorted(ListBefore, Keys(rows)) <==> Neighbours(ListBefore, Keys(rows))
  {
    hide ListBefore;
    forall a, b, c | ListBefore(a, b) && ListBefore(b, c) ensures ListBefore(a, c) {
      ListsTransitive(a, b, c);
    }
    NeighboursSorted(ListBefore, Keys(rows));
  }

  method ValidateRows(rows: seq<Row>, groups: nat, width: nat) returns (ok: bool)
    requires Keyed(rows, width) && width >= 1
    ensures ok <==> ValidRows(rows, groups)
  {
    hide ListBefore, Rising;
    KeysInOrder(rows);
    if !Neighbours(ListBefore, Keys(rows)) {
      return false;
    }
    for n := 0 to |rows|
      invariant forall k :: 0 <= k < n ==> rows[k].key != [] && rows[k].key[0] < groups && Rising(rows[k].values)
    {
      RisingNeighbours(rows[n].values);
      if rows[n].key[0] >= groups || !Neighbours(Smaller, rows[n].values) {
        return false;
      }
    }
    return true;
  }

  method ValidateRealization(r: Realization) returns (ok: bool)
    requires WellKeyed(r)
    ensures ok <==> ValidRealization(r)
    ensures ok ==> |r.sameAs| < U32_LIMIT
  {
    hide ValidRows, Partitions, Keyed, AllBelow;
    var partitioned := ValidatePartition(r.sameAs);
    var groups := |r.sameAs|;
    if !partitioned || groups >= U32_LIMIT {
      return false;
    }
    var direct := ValidateRows(r.directTypes, groups, 1);
    var objects := ValidateRows(r.objectTargets, groups, 2);
    var data := ValidateRows(r.dataTargets, groups, 2);
    if !direct || !objects || exists k :: 0 <= k < |r.objectTargets| && !AllBelow(r.objectTargets[k].values, groups) {
      return false;
    }
    NeighboursSorted(PairBefore, r.differentFrom);
    return data && Neighbours(PairBefore, r.differentFrom)
      && forall k :: 0 <= k < |r.differentFrom| ==> r.differentFrom[k].0 < r.differentFrom[k].1 < groups;
  }

  ghost predicate RealizationFits(r: Realization) {
    RESULT_HEADER + 4 * |RealizationWords(r)| <= MAX_RESULT_BYTES
  }

  lemma RealizationFitsWords(r: Realization)
    requires WellKeyed(r) && RealizationFits(r)
    ensures Countable(r)
  {
    hide Flat, Offsets, Heads, Values, Pairs, Total;
    RealizationFlat(r);
    HeadsLength(r.directTypes, 0, 1);
    HeadsLength(r.objectTargets, 0, 2);
    HeadsLength(r.dataTargets, 0, 2);
  }

  /** The realization document: exactly for valid realizations within the output cap. */
  method EncodeRealization(r: Realization, digest: seq<byte> -> seq<byte>) returns (document: Wire<seq<byte>>)
    requires SmallRealization(r) && forall payload :: |digest(payload)| == 32
    ensures document.Ok? <==> ValidRealization(r) && RealizationFits(r)
    ensures document.Ok? ==> Small(RealizationWords(r))
    ensures document.Ok? ==>
      var payload := ToBytes(RealizationWords(r));
      IsDocument(document.value, REALIZATION_KIND, |r.sameAs|, payload, digest(payload))
  {
    hide ToBytes, RealizationWords, RealizationLength, ValidRealization, IsDocument, Small, Countable;
    var valid := ValidateRealization(r);
    if !valid {
      return WireError;
    }
    if RealizationFits(r) { RealizationFitsWords(r); }
    var payload :- RealizationPayload(r);
    document := FinishDocument(REALIZATION_KIND, |r.sameAs|, payload, digest(payload));
  }
}
