/** The strict reader of realization documents. */
module RealizationReader {
  import opened Bytes
  import opened Programs
  import opened Sorting
  import opened Taxonomy
  import opened ResultWire
  import opened ResultReader

  // ---------- Tables one after another ----------

  function Sum(counts: seq<nat>): nat {
    if counts == [] then 0 else counts[0] + Sum(counts[1..])
  }

  lemma CutFirst(ws: seq<nat>, count: nat, rest: seq<nat>)
    requires count <= |ws|
    ensures Cut(ws, [count] + rest) == [ws[..count]] + Cut(ws[count..], rest)
  {
    assert ([count] + rest)[1..] == rest;
  }

  lemma {:induction false} CutInverse(ws: seq<nat>, counts: seq<nat>)
    requires Sum(counts) == |ws|
    ensures Flat(Cut(ws, counts)) == ws && Lengths(Cut(ws, counts)) == counts
    decreases |counts|
  {
    if counts != [] {
      var rest := counts[1..];
      assert counts == [counts[0]] + rest;
      CutInverse(ws[counts[0]..], rest);
      CutFirst(ws, counts[0], rest);
      var tail := Cut(ws[counts[0]..], rest);
      assert ([ws[..counts[0]]] + tail)[1..] == tail;
      assert ws[..counts[0]] + ws[counts[0]..] == ws;
    }
  }

  lemma {:induction false} SumSplit(counts: seq<nat>, n: nat)
    requires n <= |counts|
    ensures Sum(counts) == Sum(counts[..n]) + Sum(counts[n..])
  {
    if n > 0 {
      SumSplit(counts[1..], n - 1);
      assert counts[..n][1..] == counts[1..][..n - 1] && counts[1..][n - 1..] == counts[n..];
    } else {
      assert counts[n..] == counts;
    }
  }

  /** The tables of these sizes that fill the rest of the payload. */
  method ReadTables(payload: seq<byte>, cursor: nat, counts: seq<nat>, ghost from: nat) returns (tables: seq<seq<nat>>)
    requires cursor == 4 * from && Capped(|payload|) && |payload| == 4 * (from + Sum(counts))
    ensures tables == Cut(Words(payload)[from..], counts)
  {
    hide Words, Cut;
    tables := [];
    var position: nat := cursor;
    ghost var ws: seq<nat>, at: nat := Words(payload)[from..], 0;
    assert counts[0..] == counts && ws[0..] == ws;
    for n := 0 to |counts|
      invariant at + Sum(counts[n..]) == |ws| && position == 4 * (from + at)
      invariant tables + Cut(ws[at..], counts[n..]) == Cut(ws, counts)
    {
      var table;
      assert counts[n..] == [counts[n]] + counts[n + 1..];
      CutFirst(ws[at..], counts[n], counts[n + 1..]);
      table, position := ReadTable(payload, position, counts[n], from + at);
      assert table == ws[at..][..counts[n]];
      DropTwice(ws, at, counts[n]);
      AppendAssociative(tables, [table], Cut(ws[at + counts[n]..], counts[n + 1..]));
      tables := tables + [table];
      at := at + counts[n];
    }
    assert Cut(ws[at..], counts[|counts|..]) == [];
  }

  // ---------- Keyed rows ----------

  /** Row heads whose values follow one another from `start` to the end. */
  ghost predicate RowsShaped(heads: seq<nat>, flat: seq<nat>, width: nat, start: nat)
    decreases |heads|
  {
    if heads == [] then start == |flat|
    else
      && |heads| >= width + 2 && heads[width] == start && start + heads[width + 1] <= |flat|
      && RowsShaped(heads[width + 2..], flat, width, start + heads[width + 1])
  }

  lemma HeadsFirst(row: Row, rows: seq<Row>, start: nat)
    ensures Heads([row] + rows, start) == row.key + [start, |row.values|] + Heads(rows, start + |row.values|)
    ensures Values([row] + rows) == [row.values] + Values(rows)
    ensures Flat(Values([row] + rows)) == row.values + Flat(Values(rows))
  {
    assert ([row] + rows)[1..] == rows;
    assert ([row.values] + Values(rows))[1..] == Values(rows);
  }

  lemma KeyedFirst(row: Row, rows: seq<Row>, width: nat)
    requires |row.key| == width && Keyed(rows, width)
    ensures Keyed([row] + rows, width)
  {
  }

  lemma HeadSplit(heads: seq<nat>, width: nat)
    requires |heads| >= width + 2
    ensures heads == heads[..width] + [heads[width], heads[width + 1]] + heads[width + 2..]
  {
  }

  /** The rows say what their heads and values were. */
  lemma {:induction false} RowsRewritten(heads: seq<nat>, flat: seq<nat>, width: nat, start: nat)
    requires RowsShaped(heads, flat, width, start)
    ensures start <= |flat| && Keyed(ResultWire.Rows(heads, flat, width), width)
    ensures Heads(ResultWire.Rows(heads, flat, width), start) == heads
    ensures Flat(Values(ResultWire.Rows(heads, flat, width))) == flat[start..]
    decreases |heads|
  {
    if heads == [] {
      assert flat[start..] == [];
    } else {
      assert |heads| >= width + 2;
      hide Flat, Heads, Values, ResultWire.Rows, RowsShaped, Keyed;
      var key, count, tail := heads[..width], heads[width + 1], heads[width + 2..];
      ShapedUnfolds(heads, flat, width, start);
      RowsRewritten(tail, flat, width, start + count);
      HeadSplit(heads, width);
      FirstRewritten(key, start, count, tail, flat, ResultWire.Rows(tail, flat, width));
      RowsStep(key, start, count, tail, flat);
      KeyedFirst(Row(key, Slice(flat, start, start + count)), ResultWire.Rows(tail, flat, width), width);
    }
  }

  lemma FirstRewritten(key: seq<nat>, start: nat, count: nat, tail: seq<nat>, flat: seq<nat>, rows: seq<Row>)
    requires start + count <= |flat| && Heads(rows, start + count) == tail
    requires Flat(Values(rows)) == flat[start + count..]
    ensures
      var all := [Row(key, Slice(flat, start, start + count))] + rows;
      Heads(all, start) == key + [start, count] + tail && Flat(Values(all)) == flat[start..]
  {
    hide Flat, Heads, Values;
    var values := flat[start..start + count];
    HeadsFirst(Row(key, values), rows, start);
    assert flat[start..] == values + flat[start + count..];
  }

  lemma ShapedUnfolds(heads: seq<nat>, flat: seq<nat>, width: nat, start: nat)
    requires |heads| >= width + 2
    ensures RowsShaped(heads, flat, width, start) <==>
      && heads[width] == start && start + heads[width + 1] <= |flat|
      && RowsShaped(heads[width + 2..], flat, width, start + heads[width + 1])
  {
  }

  lemma NoHeads(flat: seq<nat>, width: nat, start: nat)
    ensures RowsShaped([], flat, width, start) <==> start == |flat|
    ensures ResultWire.Rows([], flat, width) == []
  {
  }

  lemma ShapedFirst(key: seq<nat>, start: nat, count: nat, tail: seq<nat>, flat: seq<nat>)
    requires start + count <= |flat|
    ensures RowsShaped(key + [start, count] + tail, flat, |key|, start) <==>
      RowsShaped(tail, flat, |key|, start + count)
  {
    var heads := key + [start, count] + tail;
    assert heads[|key|] == start && heads[|key| + 1] == count && heads[|key| + 2..] == tail;
  }

  lemma {:induction false} RowsShapedAgain(rows: seq<Row>, before: seq<nat>, width: nat)
    requires Keyed(rows, width)
    ensures RowsShaped(Heads(rows, |before|), before + Flat(Values(rows)), width, |before|)
    decreases |rows|
  {
    if rows != [] {
      hide Flat, Heads, Values, RowsShaped;
      var row, rest := rows[0], rows[1..];
      var next := before + row.values;
      RowsShapedAgain(rest, next, width);
      assert rows == [row] + rest;
      HeadsFirst(row, rest, |before|);
      AppendAssociative(before, row.values, Flat(Values(rest)));
      ShapedFirst(row.key, |before|, |row.values|, Heads(rest, |next|), before + Flat(Values(rows)));
    } else {
      assert before + Flat(Values(rows)) == before;
    }
  }

  /** As many rows as heads of `width + 2` words. */
  lemma RowCount(heads: seq<nat>, flat: seq<nat>, width: nat, count: nat)
    requires RowsShaped(heads, flat, width, 0) && (width == 1 || width == 2)
    requires |heads| == if width == 1 then 3 * count else 4 * count
    ensures |ResultWire.Rows(heads, flat, width)| == count
  {
    RowsRewritten(heads, flat, width, 0);
    HeadsLength(ResultWire.Rows(heads, flat, width), 0, width);
  }

  /** Reads keyed rows: values must follow one another and leave nothing over. */
  method ReadRows(heads: seq<nat>, flat: seq<nat>, width: nat, groups: nat, count: nat) returns (r: Wire<seq<Row>>)
    requires width == 1 || width == 2
    requires |heads| == if width == 1 then 3 * count else 4 * count
    ensures r.Ok? <==> RowsShaped(heads, flat, width, 0) && ValidRows(ResultWire.Rows(heads, flat, width), groups)
    ensures r.Ok? ==> r.value == ResultWire.Rows(heads, flat, width) && Keyed(r.value, width)
  {
    hide ValidRows, RowsShaped, ResultWire.Rows;
    var rows: seq<Row>, expected: nat, at: nat := [], 0, 0;
    assert heads[0..] == heads;
    for n := 0 to count
      invariant at == (if width == 1 then 3 * n else 4 * n) <= |heads| && expected <= |flat| && Keyed(rows, width)
      invariant RowsShaped(heads, flat, width, 0) <==> RowsShaped(heads[at..], flat, width, expected)
      invariant rows + ResultWire.Rows(heads[at..], flat, width) == ResultWire.Rows(heads, flat, width)
    {
      var head := heads[at..];
      var start, size := head[width], head[width + 1];
      ShapedUnfolds(head, flat, width, expected);
      if start != expected || start + size > |flat| {
        return WireError;
      }
      var row := Row(head[..width], flat[start..start + size]);
      HeadSplit(head, width);
      RowsStep(head[..width], start, size, head[width + 2..], flat);
      DropTwice(heads, at, width + 2);
      AppendAssociative(rows, [row], ResultWire.Rows(head[width + 2..], flat, width));
      rows, expected, at := rows + [row], start + size, at + width + 2;
    }
    assert heads[at..] == [];
    NoHeads(flat, width, expected);
    assert rows == ResultWire.Rows(heads, flat, width);
    if expected != |flat| {
      return WireError;
    }
    var valid := ValidateRows(rows, groups, width);
    return if valid then Ok(rows) else WireError;
  }

  // ---------- Realizations ----------

  /** How many words each table takes, from the counts in the prefix. */
  function TableSizes(ws: seq<nat>): (sizes: seq<nat>)
    requires |ws| >= 10
    ensures |sizes| == 9
  {
    var groups, individuals, direct, directValues := ws[0], ws[1], ws[2], ws[3];
    var objects, objectValues, data, dataValues, different := ws[4], ws[5], ws[6], ws[7], ws[8];
    [groups + 1, individuals, 3 * direct, directValues, 4 * objects, objectValues, 4 * data, dataValues, 2 * different]
  }

  function Tables(ws: seq<nat>): (tables: seq<seq<nat>>)
    requires |ws| >= 10
    ensures |tables| == 9
  {
    Cut(ws[10..], TableSizes(ws))
  }

  /** The tables fill the words, and each is laid out as its rows need it. */
  ghost predicate RealizationShaped(ws: seq<nat>, items: nat) {
    && |ws| >= 10 && ws[9] == 0 && ws[0] == items && |ws| == 10 + Sum(TableSizes(ws))
    && var t := Tables(ws);
    && Cuts(t[0], |t[1]|) && RowsShaped(t[2], t[3], 1, 0) && RowsShaped(t[4], t[5], 2, 0)
    && RowsShaped(t[6], t[7], 2, 0)
  }

  function RealizationAt(ws: seq<nat>): Realization
    requires |ws| >= 10
  {
    var t := Tables(ws);
    Realization(
      Nested(t[0], t[1]), ResultWire.Rows(t[2], t[3], 1), ResultWire.Rows(t[4], t[5], 2),
      ResultWire.Rows(t[6], t[7], 2), Unpaired(t[8]))
  }

  lemma TableLengths(ws: seq<nat>)
    requires |ws| >= 10 && |ws| == 10 + Sum(TableSizes(ws))
    ensures Flat(Tables(ws)) == ws[10..] && forall k :: 0 <= k < 9 ==> |Tables(ws)[k]| == TableSizes(ws)[k]
  {
    hide Cut, Flat, Sum, TableSizes;
    CutInverse(ws[10..], TableSizes(ws));
  }

  /** The tables of a shaped realization are the pieces it is written as. */
  lemma PiecesRewritten(ws: seq<nat>, items: nat)
    requires RealizationShaped(ws, items)
    ensures WellKeyed(RealizationAt(ws)) && RealizationPieces(RealizationAt(ws)) == Tables(ws)
    ensures RealizationPrefix(RealizationAt(ws)) == ws[..10] && |RealizationAt(ws).sameAs| == items
  {
    hide Cut, Flat, Sum, Nested, Offsets, Heads, Values, ResultWire.Rows, Unpaired, Pairs, RowsShaped, Increasing,
      Total, Keyed, Tables;
    var t, r := Tables(ws), RealizationAt(ws);
    TableLengths(ws);
    NestedInverse(t[0], t[1]);
    RowsRewritten(t[2], t[3], 1, 0);
    RowsRewritten(t[4], t[5], 2, 0);
    RowsRewritten(t[6], t[7], 2, 0);
    RowCount(t[2], t[3], 1, ws[2]);
    RowCount(t[4], t[5], 2, ws[4]);
    RowCount(t[6], t[7], 2, ws[6]);
    UnpairedInverse(t[8], ws[8]);
    assert forall k :: 0 <= k < 9 ==> t[k][0..] == t[k];
    assert RealizationPieces(r) == [t[0], t[1], t[2], t[3], t[4], t[5], t[6], t[7], t[8]];
  }

  /** What is read from words is written as those words. */
  lemma RealizationRewritten(ws: seq<nat>, items: nat)
    requires RealizationShaped(ws, items)
    ensures RealizationWords(RealizationAt(ws)) == ws
  {
    hide Cut, Flat, RealizationPieces, RealizationPrefix, RealizationAt, Tables, Sum, TableSizes;
    PiecesRewritten(ws, items);
    TableLengths(ws);
    assert ws == ws[..10] + ws[10..];
  }

  /** The sizes in the prefix are those of the pieces. */
  lemma SizesAgree(r: Realization)
    requires WellKeyed(r)
    ensures TableSizes(RealizationWords(r)) == Lengths(RealizationPieces(r))
  {
    hide Flat, Lengths, RealizationPieces;
    PieceLengths(r);
    assert RealizationWords(r)[..10] == RealizationPrefix(r);
  }

  lemma {:induction false} SumLengths(pieces: seq<seq<nat>>)
    ensures Sum(Lengths(pieces)) == |Flat(pieces)|
  {
    if pieces != [] { SumLengths(pieces[1..]); }
  }

  lemma TablesReread(r: Realization)
    requires WellKeyed(r)
    ensures
      var ws := RealizationWords(r);
      Tables(ws) == RealizationPieces(r) && |ws| == 10 + Sum(TableSizes(ws)) && ws[..10] == RealizationPrefix(r)
  {
    hide Flat, Lengths, RealizationPieces, TableSizes, Cut, Sum;
    var ws := RealizationWords(r);
    SizesAgree(r);
    assert ws[..10] == RealizationPrefix(r) && ws[10..] == Flat(RealizationPieces(r));
    SumLengths(RealizationPieces(r));
    CutRoundTrip(RealizationPieces(r));
  }

  /** What is written is read back. */
  lemma RealizationReread(r: Realization)
    requires WellKeyed(r) && forall k :: 0 <= k < |r.sameAs| ==> r.sameAs[k] != []
    ensures RealizationShaped(RealizationWords(r), |r.sameAs|) && RealizationAt(RealizationWords(r)) == r
  {
    hide Flat, Nested, Offsets, Heads, Values, ResultWire.Rows, Unpaired, Pairs, RowsShaped, Total, Tables, Sum,
      TableSizes, RealizationWords;
    var ws := RealizationWords(r);
    TablesReread(r);
    assert forall k :: 0 <= k < 10 ==> ws[k] == ws[..10][k];
    OffsetsIncrease(r.sameAs, 0);
    NestedRoundTrip(r.sameAs, []);
    RowsBack(r.directTypes, 1);
    RowsBack(r.objectTargets, 2);
    RowsBack(r.dataTargets, 2);
    PairsRoundTrip(r.differentFrom);
    assert [] + Flat(r.sameAs) == Flat(r.sameAs);
  }

  lemma RowsBack(rows: seq<Row>, width: nat)
    requires Keyed(rows, width)
    ensures RowsShaped(Heads(rows, 0), Flat(Values(rows)), width, 0)
    ensures ResultWire.Rows(Heads(rows, 0), Flat(Values(rows)), width) == rows
  {
    RowsShapedAgain(rows, [], width);
    RowsRoundTrip(rows, [], width);
    assert [] + Flat(Values(rows)) == Flat(Values(rows));
  }

  // ---------- Documents ----------

  /** The document that the writer makes of a realization. */
  ghost predicate RealizationDocument(document: seq<byte>, r: Realization, digest: seq<byte> -> seq<byte>) {
    && SmallRealization(r) && ValidRealization(r) && RealizationFits(r) && Small(RealizationWords(r))
    && var payload := ToBytes(RealizationWords(r));
    IsDocument(document, REALIZATION_KIND, |r.sameAs|, payload, digest(payload))
  }

  /** What the reader asks of a document. */
  ghost predicate RealizationReads(document: seq<byte>, digest: seq<byte> -> seq<byte>) {
    && Opens(document, REALIZATION_KIND, digest)
    && var payload := document[RESULT_HEADER..];
    && |payload| % 4 == 0 && RealizationShaped(Words(payload), Number(document, 24, 28))
    && ValidRealization(RealizationAt(Words(payload)))
  }

  lemma SmallParts(a: seq<nat>, b: seq<nat>)
    requires Small(a + b)
    ensures Small(a) && Small(b)
  {
    assert forall k :: 0 <= k < |a| ==> (a + b)[k] == a[k];
    assert forall k :: 0 <= k < |b| ==> (a + b)[|a| + k] == b[k];
  }

  lemma {:induction false} SmallHeads(rows: seq<Row>, start: nat)
    requires Small(Heads(rows, start)) && Small(Flat(Values(rows)))
    ensures SmallKeys(rows)
    decreases |rows|
  {
    if rows != [] {
      hide Small, Heads, Flat, Values;
      var row, rest := rows[0], rows[1..];
      assert rows == [row] + rest;
      HeadsFirst(row, rest, start);
      SmallParts(row.key + [start, |row.values|], Heads(rest, start + |row.values|));
      SmallParts(row.key, [start, |row.values|]);
      SmallParts(row.values, Flat(Values(rest)));
      SmallHeads(rest, start + |row.values|);
    }
  }

  lemma {:induction false} SmallPieces(pieces: seq<seq<nat>>, k: nat)
    requires Small(Flat(pieces)) && k < |pieces|
    ensures Small(pieces[k])
  {
    SmallFlat(pieces);
  }

  lemma RealizationSmall(r: Realization)
    requires WellKeyed(r) && Small(RealizationWords(r))
    ensures SmallRealization(r)
  {
    hide Flat, Heads, Values, Offsets, Pairs;
    var pieces := RealizationPieces(r);
    assert Small(Flat(pieces)) by {
      var ws := RealizationWords(r);
      assert forall k :: 0 <= k < |Flat(pieces)| ==> Flat(pieces)[k] == ws[10 + k];
    }
    SmallPieces(pieces, 1);
    SmallPieces(pieces, 2);
    SmallPieces(pieces, 3);
    SmallPieces(pieces, 4);
    SmallPieces(pieces, 5);
    SmallPieces(pieces, 6);
    SmallPieces(pieces, 7);
    SmallPieces(pieces, 8);
    SmallFlat(r.sameAs);
    SmallHeads(r.directTypes, 0);
    SmallHeads(r.objectTargets, 0);
    SmallHeads(r.dataTargets, 0);
    SmallUnpaired(Pairs(r.differentFrom));
    PairsRoundTrip(r.differentFrom);
  }

  /** Strict reading: an accepted document is the one the writer makes of what was read. */
  lemma RealizationReadIsWritten(document: seq<byte>, digest: seq<byte> -> seq<byte>)
    requires RealizationReads(document, digest) && forall payload :: |digest(payload)| == 32
    ensures RealizationDocument(document, RealizationAt(Words(document[RESULT_HEADER..])), digest)
  {
    hide ToBytes, Words, RealizationWords, RealizationAt, RealizationShaped, ValidRealization, IsDocument, Small,
      SmallRealization, WellKeyed, RealizationPieces, RealizationPrefix;
    var payload, items := document[RESULT_HEADER..], Number(document, 24, 28);
    var ws := Words(payload);
    assert |ws| >= 10 by { ShapedSize(ws, items); }
    OpensIff(document, REALIZATION_KIND, digest);
    WordsExact(payload);
    PiecesRewritten(ws, items);
    RealizationRewritten(ws, items);
    RealizationSmall(RealizationAt(ws));
  }

  lemma ShapedSize(ws: seq<nat>, items: nat)
    requires RealizationShaped(ws, items)
    ensures |ws| >= 10
  {
  }

  /** Complete reading: what the writer makes of a realization is accepted and read as that realization. */
  lemma RealizationWrittenIsRead(document: seq<byte>, r: Realization, digest: seq<byte> -> seq<byte>)
    requires RealizationDocument(document, r, digest) && forall payload :: |digest(payload)| == 32
    ensures RealizationReads(document, digest) && |Words(document[RESULT_HEADER..])| >= 10
    ensures RealizationAt(Words(document[RESULT_HEADER..])) == r
  {
    hide ToBytes, Words, RealizationWords, RealizationAt, RealizationShaped, IsDocument, Small;
    var ws := RealizationWords(r);
    DocumentParts(document, REALIZATION_KIND, |r.sameAs|, ToBytes(ws), digest(ToBytes(ws)));
    OpensIff(document, REALIZATION_KIND, digest);
    WordsRead(ws);
    RealizationReread(r);
    ShapedSize(ws, |r.sameAs|);
  }

  lemma GroupCount(offsets: seq<nat>, values: seq<nat>)
    requires Cuts(offsets, |values|)
    ensures |Nested(offsets, values)| == |offsets| - 1
  {
    NestedInverse(offsets, values);
  }

  /** Reads a realization, or refuses the document. */
  method ReadRealization(document: seq<byte>, digest: seq<byte> -> seq<byte>) returns (r: Wire<Realization>)
    requires forall payload :: |digest(payload)| == 32
    ensures r.Ok? ==> RealizationDocument(document, r.value, digest)
    ensures r.WireError? ==> forall value :: !RealizationDocument(document, value, digest)
  {
    hide RealizationDocument, Words, ValidRealization, RealizationShaped, RealizationAt, Opens;
    forall value | RealizationDocument(document, value, digest) ensures RealizationReads(document, digest) {
      RealizationWrittenIsRead(document, value, digest);
    }
    var value :- ReadShapedRealization(document, digest);
    RealizationReadIsWritten(document, digest);
    return Ok(value);
  }

  method ReadShapedRealization(document: seq<byte>, digest: seq<byte> -> seq<byte>) returns (r: Wire<Realization>)
    ensures r.Ok? <==> RealizationReads(document, digest)
    ensures r.Ok? ==> |Words(document[RESULT_HEADER..])| >= 10
    ensures r.Ok? ==> r.value == RealizationAt(Words(document[RESULT_HEADER..]))
  {
    hide Words, Nested, Unpaired, Cuts, ValidRows, Opens, Number, RowsShaped, ResultWire.Rows, Cut, Sum, Partitions;
    if !Opens(document, REALIZATION_KIND, digest) {
      return WireError;
    }
    OpensSized(document, REALIZATION_KIND, digest);
    var payload, items := document[RESULT_HEADER..], Number(document, 24, 28);
    if |payload| < 40 {
      return WireError;
    }
    var prefix, cursor := ReadTable(payload, 0, 10, 0);
    ghost var ws := Words(payload);
    assert forall k :: 0 <= k < 10 ==> prefix[k] == ws[k];
    if prefix[9] != 0 || items != prefix[0] {
      return WireError;
    }
    var sizes := TableSizes(prefix);
    assert sizes == TableSizes(ws);
    var words := Sum(sizes);
    if !Capped(words) || !Capped(4 * words) || |payload| != 40 + 4 * words {
      return WireError;
    }
    var t := ReadTables(payload, cursor, sizes, 10);
    assert t == Tables(ws);
    TableLengths(ws);
    if !Cuts(t[0], |t[1]|) {
      return WireError;
    }
    var sameAs := CutGroups(t[0], t[1]);
    assert |sameAs| == prefix[0] by { GroupCount(t[0], t[1]); }
    var direct :- ReadRows(t[2], t[3], 1, prefix[0], prefix[2]);
    var objects :- ReadRows(t[4], t[5], 2, prefix[0], prefix[4]);
    var data :- ReadRows(t[6], t[7], 2, prefix[0], prefix[6]);
    var different := CutPairs(t[8], prefix[8]);
    var value := Realization(sameAs, direct, objects, data, different);
    assert value == RealizationAt(ws);
    var valid := ValidateRealization(value);
    return if valid then Ok(value) else WireError;
  }
}
