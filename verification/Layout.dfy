/** Rows for a graph: fields, items and scalars laid one after another, and the graph read back from them. */
module Layout {
  import opened Bytes
  import opened Varint
  import opened Structure
  import opened Rows

  // ---------- One after another ----------

  function Concat<T>(parts: seq<seq<T>>): seq<T> {
    if parts == [] then [] else Concat(parts[..|parts| - 1]) + parts[|parts| - 1]
  }

  lemma ConcatNext<T>(parts: seq<seq<T>>, k: nat)
    requires k < |parts|
    ensures Concat(parts[..k + 1]) == Concat(parts[..k]) + parts[k]
  {
    assert parts[..k + 1][..k] == parts[..k];
  }

  lemma {:induction false} ConcatPrefix<T>(parts: seq<seq<T>>, k: nat, n: nat)
    requires k <= n <= |parts|
    ensures Concat(parts[..k]) <= Concat(parts[..n])
    decreases n
  {
    if k < n {
      ConcatPrefix(parts, k, n - 1);
      ConcatNext(parts, n - 1);
    }
  }

  /** Each part is where the parts before it end. */
  lemma ConcatSlice<T>(parts: seq<seq<T>>, k: nat)
    requires k < |parts|
    ensures var start := |Concat(parts[..k])|;
      start + |parts[k]| <= |Concat(parts)| && Concat(parts)[start..start + |parts[k]|] == parts[k]
  {
    ConcatNext(parts, k);
    ConcatPrefix(parts, k + 1, |parts|);
    assert parts[..|parts|] == parts;
  }

  // ---------- Integers ----------

  ghost function MinimalBytes(value: nat): (bytes: seq<byte>)
    ensures Minimal(bytes) && LittleEndian(bytes) == value
    decreases value
  {
    if value < 256 then
      assert [value as byte][1..] == [];
      [value as byte]
    else
      var rest := MinimalBytes(value / 256);
      var bytes := [(value % 256) as byte] + rest;
      assert bytes[1..] == rest && LittleEndian(rest) > 0;
      bytes
  }

  // ---------- Components ----------

  ghost function KindOf(f: Field): byte {
    match f
    case Absent => NONE
    case Child(_) => NODE
    case Text(_) => TEXT
    case Raw(_) => BYTES
    case Integer(_) => INTEGER
    case Enum(_) => ENUM
    case SetOf(_) => SET
    case SequenceOf(_) => SEQUENCE
  }

  ghost function Content(f: Field): seq<byte> {
    match f
    case Text(content) => content
    case Raw(content) => content
    case Integer(value) => MinimalBytes(value)
    case Enum(content) => content
    case _ => []
  }

  ghost function ItemRows(f: Field): seq<Component> {
    match f
    case SetOf(items) => seq(|items|, i requires 0 <= i < |items| => Component(NODE, items[i] + 1, 0))
    case SequenceOf(items) => seq(|items|, i requires 0 <= i < |items| => Component(NODE, items[i] + 1, 0))
    case _ => []
  }

  ghost function ComponentOf(f: Field, items: nat, scalars: nat): Component {
    match f
    case Absent => Component(NONE, 0, 0)
    case Child(node) => Component(NODE, node + 1, 0)
    case SetOf(rows) => Component(SET, items, |rows|)
    case SequenceOf(rows) => Component(SEQUENCE, items, |rows|)
    case _ => Component(KindOf(f), scalars, |Content(f)|)
  }

  ghost function Contents(fs: seq<Field>): (parts: seq<seq<byte>>)
    ensures |parts| == |fs|
  {
    seq(|fs|, k requires 0 <= k < |fs| => Content(fs[k]))
  }

  ghost function ItemParts(fs: seq<Field>): (parts: seq<seq<Component>>)
    ensures |parts| == |fs|
  {
    seq(|fs|, k requires 0 <= k < |fs| => ItemRows(fs[k]))
  }

  ghost function Placing(fs: seq<Field>): (components: seq<Component>)
    ensures |components| == |fs|
  {
    seq(|fs|, k requires 0 <= k < |fs| => ComponentOf(fs[k], |Concat(ItemParts(fs)[..k])|, |Concat(Contents(fs)[..k])|))
  }

  /** Components claim the arenas one after another. */
  lemma {:induction false} Starts(fs: seq<Field>, k: nat)
    requires k <= |fs|
    ensures ItemStart(Placing(fs), k) == |Concat(ItemParts(fs)[..k])|
    ensures ScalarStart(Placing(fs), k) == |Concat(Contents(fs)[..k])|
  {
    hide Concat;
    if k == 0 {
      NothingYet(fs);
    } else {
      Starts(fs, k - 1);
      ConcatNext(ItemParts(fs), k - 1);
      ConcatNext(Contents(fs), k - 1);
    }
  }

  lemma NothingYet(fs: seq<Field>)
    ensures |Concat(ItemParts(fs)[..0])| == 0 && |Concat(Contents(fs)[..0])| == 0
  {
  }

  // ---------- Rows ----------

  ghost function FieldLists(g: Graph): (parts: seq<seq<Field>>)
    ensures |parts| == |g|
  {
    seq(|g|, n requires 0 <= n < |g| => g[n].fields)
  }

  ghost function AllFields(g: Graph): seq<Field> {
    Concat(FieldLists(g))
  }

  ghost function Lay(g: Graph, kinds: seq<byte>, ids: seq<nat>): Rows {
    var fs := AllFields(g);
    Rows(
      kinds, ids, seq(|g|, n requires 0 <= n < |g| => g[n].tag),
      seq(|g| + 1, n requires 0 <= n <= |g| => |Concat(FieldLists(g)[..n])|),
      Placing(fs), Concat(ItemParts(fs)), Concat(Contents(fs)))
  }

  /** Contents the columns may hold. */
  ghost predicate ContentLegal(f: Field) {
    ContentOk(KindOf(f), Content(f))
  }

  ghost predicate Legal(g: Graph) {
    forall n, k :: 0 <= n < |g| && 0 <= k < |g[n].fields| ==> ContentLegal(g[n].fields[k])
  }

  /** Each field of each node is at its offset. */
  lemma FieldAt(g: Graph, n: nat, k: nat)
    requires n < |g| && k < |g[n].fields|
    ensures var at := |Concat(FieldLists(g)[..n])| + k; at < |AllFields(g)| && AllFields(g)[at] == g[n].fields[k]
  {
    ConcatSlice(FieldLists(g), n);
    var start := |Concat(FieldLists(g)[..n])|;
    assert AllFields(g)[start..start + |g[n].fields|][k] == g[n].fields[k];
  }

  lemma {:induction false} FieldOwner(g: Graph, at: nat, n: nat) returns (m: nat, k: nat)
    requires n <= |g| && at < |Concat(FieldLists(g)[..n])|
    ensures m < n && k < |g[m].fields| && at == |Concat(FieldLists(g)[..m])| + k
  {
    if n > 0 {
      ConcatNext(FieldLists(g), n - 1);
      if at < |Concat(FieldLists(g)[..n - 1])| {
        m, k := FieldOwner(g, at, n - 1);
      } else {
        m, k := n - 1, at - |Concat(FieldLists(g)[..n - 1])|;
      }
    }
  }

  /** The rows' arenas are those of the fields. */
  ghost predicate Arenas(rows: Rows, fs: seq<Field>) {
    rows.fields == Placing(fs) && rows.items == Concat(ItemParts(fs)) && rows.scalars == Concat(Contents(fs))
  }

  lemma ItemsRead(rows: Rows, items: seq<nat>, start: nat)
    requires Within(items, |rows.tags|) && start + |items| <= |rows.items|
    requires forall i :: 0 <= i < |items| ==> rows.items[start..start + |items|][i] == Component(NODE, items[i] + 1, 0)
    ensures forall j :: start <= j < start + |items| ==>
      rows.items[j].kind == NODE && 1 <= rows.items[j].value <= |rows.tags|
    ensures ItemNodes(rows, start, |items|) == items
  {
    forall j | start <= j < start + |items|
      ensures rows.items[j].kind == NODE && 1 <= rows.items[j].value <= |rows.tags| &&
        rows.items[j].value == items[j - start] + 1
    {
      assert rows.items[start..start + |items|][j - start] == rows.items[j];
    }
  }

  lemma PlacedCollection(rows: Rows, fs: seq<Field>, k: nat)
    requires Arenas(rows, fs) && k < |fs| && Within(Refs(fs[k]), |rows.tags|) && (fs[k].SetOf? || fs[k].SequenceOf?)
    ensures Placed(rows, k) && FieldView(rows, k) == fs[k]
  {
    hide Concat, ItemStart, ScalarStart, ContentOk, ItemNodes;
    var f, c := fs[k], rows.fields[k];
    Starts(fs, k);
    ConcatSlice(ItemParts(fs), k);
    assert Refs(f) == f.items;
    ItemsRead(rows, f.items, c.value);
  }

  lemma PlacedScalar(rows: Rows, fs: seq<Field>, k: nat)
    requires Arenas(rows, fs) && k < |fs| && Within(Refs(fs[k]), |rows.tags|) && !fs[k].SetOf? && !fs[k].SequenceOf?
    requires ContentLegal(fs[k])
    ensures Placed(rows, k) && FieldView(rows, k) == fs[k]
  {
    hide Concat, MinimalBytes, ItemStart, ScalarStart, ContentOk, Minimal, LittleEndian;
    var f := fs[k];
    Starts(fs, k);
    ConcatSlice(Contents(fs), k);
    if f.Child? {
      assert Refs(f)[0] == f.node;
    }
  }

  /** A placed field reads back as the field. */
  lemma PlacedReads(rows: Rows, fs: seq<Field>, k: nat)
    requires Arenas(rows, fs) && k < |fs| && Within(Refs(fs[k]), |rows.tags|) && ContentLegal(fs[k])
    ensures Placed(rows, k) && FieldView(rows, k) == fs[k]
  {
    if fs[k].SetOf? || fs[k].SequenceOf? {
      PlacedCollection(rows, fs, k);
    } else {
      PlacedScalar(rows, fs, k);
    }
  }

  lemma EveryField(g: Graph, kinds: seq<byte>, ids: seq<nat>, at: nat)
    requires Valid(g) && Legal(g) && at < |AllFields(g)|
    ensures Placed(Lay(g, kinds, ids), at) && FieldView(Lay(g, kinds, ids), at) == AllFields(g)[at]
  {
    hide Placed, FieldView, Concat, ContentLegal, Placing, ItemParts, Contents;
    var rows := Lay(g, kinds, ids);
    WholeConcat(g);
    var n, k := FieldOwner(g, at, |g|);
    FieldAt(g, n, k);
    assert Bounded(g[n].fields, |g|);
    PlacedReads(rows, AllFields(g), at);
  }

  lemma WholeConcat(g: Graph)
    ensures FieldLists(g)[..|g|] == FieldLists(g)
  {
  }

  lemma WholeArenas(fs: seq<Field>)
    ensures ItemStart(Placing(fs), |fs|) == |Concat(ItemParts(fs))| &&
      ScalarStart(Placing(fs), |fs|) == |Concat(Contents(fs))|
  {
    Starts(fs, |fs|);
    assert ItemParts(fs)[..|fs|] == ItemParts(fs) && Contents(fs)[..|fs|] == Contents(fs);
  }

  ghost predicate RootsWithin(ids: seq<nat>, count: nat) {
    forall r :: 0 <= r < |ids| ==> 1 <= ids[r] <= count
  }

  lemma LayLaid(g: Graph, kinds: seq<byte>, ids: seq<nat>)
    requires Valid(g) && Legal(g) && |kinds| == |ids| && RootsWithin(ids, |g|)
    ensures Laid(Lay(g, kinds, ids))
  {
    hide Placed, Concat, Placing, ItemParts, Contents, FieldLists, ItemStart, ScalarStart;
    var rows := Lay(g, kinds, ids);
    WholeArenas(AllFields(g));
    WholeConcat(g);
    NoFields(g);
    forall n | 0 <= n < |rows.tags| ensures Owns(rows, n) {
      ConcatNext(FieldLists(g), n);
      ConcatPrefix(FieldLists(g), n + 1, |g|);
    }
    forall at | 0 <= at < |rows.fields| ensures Placed(rows, at) {
      EveryField(g, kinds, ids, at);
    }
  }

  lemma NoFields(g: Graph)
    ensures |Concat(FieldLists(g)[..0])| == 0
  {
  }

  /** The graph is read back from its rows. */
  lemma LayView(g: Graph, kinds: seq<byte>, ids: seq<nat>)
    requires Valid(g) && Legal(g) && |kinds| == |ids| && RootsWithin(ids, |g|)
    ensures Laid(Lay(g, kinds, ids)) && View(Lay(g, kinds, ids)) == g
  {
    hide Placed, Concat, Placing, ItemParts, Contents, View, FieldView, Laid, Legal;
    LayLaid(g, kinds, ids);
    var rows := Lay(g, kinds, ids);
    forall n | 0 <= n < |g| ensures View(rows)[n] == g[n] {
      NodeReads(g, kinds, ids, n);
    }
  }

  lemma NodeReads(g: Graph, kinds: seq<byte>, ids: seq<nat>, n: nat)
    requires Valid(g) && Legal(g) && Laid(Lay(g, kinds, ids)) && n < |g|
    ensures |View(Lay(g, kinds, ids))| == |g| && View(Lay(g, kinds, ids))[n] == g[n]
  {
    hide Placed, Concat, Placing, ItemParts, Contents, View, FieldView, Laid, Legal, AllFields;
    var rows := Lay(g, kinds, ids);
    ViewCount(rows);
    ViewArity(rows, n);
    ConcatNext(FieldLists(g), n);
    forall k | 0 <= k < |g[n].fields| ensures View(rows)[n].fields[k] == g[n].fields[k] {
      ViewRefs(rows, n, k);
      FieldAt(g, n, k);
      EveryField(g, kinds, ids, rows.offsets[n] + k);
    }
  }

  lemma ViewCount(rows: Rows)
    requires Laid(rows)
    ensures |View(rows)| == |rows.tags|
  {
  }

  /** The component laid for a field. */
  lemma ComponentAt(g: Graph, kinds: seq<byte>, ids: seq<nat>, n: nat, k: nat)
    requires n < |g| && k < |g[n].fields|
    ensures
      var rows := Lay(g, kinds, ids);
      var at := rows.offsets[n] + k;
      at < |rows.fields| && exists items: nat, scalars: nat ::
        rows.fields[at] == ComponentOf(g[n].fields[k], items, scalars)
  {
    hide Concat, ItemParts, Contents, ComponentOf;
    FieldAt(g, n, k);
    var fs := AllFields(g);
    var at := |Concat(FieldLists(g)[..n])| + k;
    assert Placing(fs)[at] == ComponentOf(fs[at], |Concat(ItemParts(fs)[..at])|, |Concat(Contents(fs)[..at])|);
  }

  lemma {:induction false} ItemsPlain(fs: seq<Field>, count: nat, n: nat, j: nat)
    requires Bounded(fs, count) && n <= |fs| && j < |Concat(ItemParts(fs)[..n])|
    ensures Concat(ItemParts(fs)[..n])[j].length == 0 && Concat(ItemParts(fs)[..n])[j].value <= count
  {
    if n > 0 {
      ConcatNext(ItemParts(fs), n - 1);
      if j < |Concat(ItemParts(fs)[..n - 1])| {
        ItemsPlain(fs, count, n - 1, j);
      } else {
        var f, i := fs[n - 1], j - |Concat(ItemParts(fs)[..n - 1])|;
        assert Within(Refs(f), count);
        assert ItemRows(f)[i].value == Refs(f)[i] + 1;
      }
    }
  }

  lemma FieldsBounded(g: Graph)
    requires Valid(g)
    ensures Bounded(AllFields(g), |g|)
  {
    forall at | 0 <= at < |AllFields(g)| ensures Within(Refs(AllFields(g)[at]), |g|) {
      WholeConcat(g);
      var n, k := FieldOwner(g, at, |g|);
      FieldAt(g, n, k);
      assert Bounded(g[n].fields, |g|);
    }
  }

  /** Item rows have no length of their own, and name rows of the graph. */
  lemma LaidItems(g: Graph, kinds: seq<byte>, ids: seq<nat>, j: nat)
    requires Valid(g) && j < |Lay(g, kinds, ids).items|
    ensures Lay(g, kinds, ids).items[j].length == 0 && Lay(g, kinds, ids).items[j].value <= |g|
  {
    hide Concat, Bounded;
    var fs := AllFields(g);
    FieldsBounded(g);
    assert ItemParts(fs)[..|fs|] == ItemParts(fs);
    ItemsPlain(fs, |g|, |fs|, j);
  }
}
