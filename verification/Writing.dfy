/** Columns written from rows, as the fixed-width readers read them. */
module Writing {
  import opened Bytes
  import opened Varint
  import opened Structure
  import opened Rows

  function Power(width: nat): nat {
    if width == 0 then 1 else 256 * Power(width - 1)
  }

  lemma Powers()
    ensures Power(2) == 65536 && Power(4) == U32_LIMIT && Power(8) == U64_LIMIT
  {
    assert Power(4) == 256 * (256 * (256 * (256 * Power(0))));
    assert Power(8) == 256 * (256 * (256 * (256 * Power(4))));
  }

  function FixedBytes(value: nat, width: nat): (bytes: seq<byte>)
    ensures |bytes| == width
    decreases width
  {
    if width == 0 then [] else [(value % 256) as byte] + FixedBytes(value / 256, width - 1)
  }

  lemma {:induction false} FixedReads(value: nat, width: nat)
    requires value < Power(width)
    ensures LittleEndian(FixedBytes(value, width)) == value
    decreases width
  {
    if width > 0 {
      FixedReads(value / 256, width - 1);
      assert FixedBytes(value, width)[1..] == FixedBytes(value / 256, width - 1);
    }
  }

  function WordBytes(values: seq<nat>, width: nat): (bytes: seq<byte>)
    ensures |bytes| == width * |values|
  {
    if values == [] then [] else FixedBytes(values[0], width) + WordBytes(values[1..], width)
  }

  lemma {:induction false} WordsRead(values: seq<nat>, width: nat)
    requires width > 0 && Within(values, Power(width))
    ensures Words(WordBytes(values, width), width) == values
    decreases |values|
  {
    if values != [] {
      var bytes := WordBytes(values, width);
      assert bytes[..width] == FixedBytes(values[0], width) && bytes[width..] == WordBytes(values[1..], width);
      FixedReads(values[0], width);
      WordsRead(values[1..], width);
    }
  }

  ghost function KindColumn(cs: seq<Component>): seq<byte> {
    seq(|cs|, i requires 0 <= i < |cs| => cs[i].kind)
  }

  ghost function ValueColumn(cs: seq<Component>): seq<nat> {
    seq(|cs|, i requires 0 <= i < |cs| => cs[i].value)
  }

  ghost function LengthColumn(cs: seq<Component>): seq<nat> {
    seq(|cs|, i requires 0 <= i < |cs| => cs[i].length)
  }

  ghost predicate ComponentsStorable(cs: seq<Component>) {
    forall i :: 0 <= i < |cs| ==> cs[i].value < U64_LIMIT && cs[i].length < U64_LIMIT
  }

  /** Every number fits the width of its column. */
  ghost predicate Storable(rows: Rows) {
    && |rows.rootKinds| == |rows.rootIds| && |rows.offsets| == |rows.tags| + 1
    && Within(rows.rootIds, U32_LIMIT) && Within(rows.tags, 65536) && Within(rows.offsets, U64_LIMIT)
    && ComponentsStorable(rows.fields) && ComponentsStorable(rows.items)
  }

  ghost function ColumnsOf(rows: Rows): Columns {
    Columns(
      rows.rootKinds, WordBytes(rows.rootIds, 4), WordBytes(rows.tags, 2), WordBytes(rows.offsets, 8),
      KindColumn(rows.fields), WordBytes(ValueColumn(rows.fields), 8), WordBytes(LengthColumn(rows.fields), 8),
      KindColumn(rows.items), WordBytes(ValueColumn(rows.items), 8), WordBytes(LengthColumn(rows.items), 8),
      rows.scalars)
  }

  lemma ComponentsRead(cs: seq<Component>)
    requires ComponentsStorable(cs)
    ensures |Words(WordBytes(ValueColumn(cs), 8), 8)| == |Words(WordBytes(LengthColumn(cs), 8), 8)| == |cs|
    ensures Components(KindColumn(cs), Words(WordBytes(ValueColumn(cs), 8), 8),
      Words(WordBytes(LengthColumn(cs), 8), 8)) == cs
  {
    hide Words, WordBytes;
    Powers();
    WordsRead(ValueColumn(cs), 8);
    WordsRead(LengthColumn(cs), 8);
  }

  /** What is written is read back. */
  lemma ColumnsRead(rows: Rows)
    requires Storable(rows)
    ensures Shaped(ColumnsOf(rows)) && Read(ColumnsOf(rows)) == rows
  {
    hide Words, WordBytes, Components;
    Powers();
    WordsRead(rows.rootIds, 4);
    WordsRead(rows.tags, 2);
    WordsRead(rows.offsets, 8);
    ComponentsRead(rows.fields);
    ComponentsRead(rows.items);
  }
}
