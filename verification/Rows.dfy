/**
 The eleven encoded structural columns, the rows their fixed-width readers yield, and the rules a
 row has to meet. `Laid` gathers what the first two passes of the validator establish; `View` is
 the structural graph that laid-out rows describe.
 */
module Rows {
  import opened Bytes
  import opened Varint
  import Utf8
  import opened Structure

  datatype Columns = Columns(
    rootKinds: seq<byte>, rootIds: seq<byte>, nodeTags: seq<byte>, nodeFieldOffsets: seq<byte>,
    fieldKinds: seq<byte>, fieldValues: seq<byte>, fieldLengths: seq<byte>,
    itemKinds: seq<byte>, itemValues: seq<byte>, itemLengths: seq<byte>,
    scalarBytes: seq<byte>)

  datatype Component = Component(kind: byte, value: nat, length: nat)

  datatype Rows = Rows(
    rootKinds: seq<byte>, rootIds: seq<nat>, tags: seq<nat>, offsets: seq<nat>,
    fields: seq<Component>, items: seq<Component>, scalars: seq<byte>)

  const NONE: byte := 0
  const NODE: byte := 1
  const TEXT: byte := 2
  const BYTES: byte := 3
  const INTEGER: byte := 4
  const ENUM: byte := 5
  const SET: byte := 6
  const SEQUENCE: byte := 7

  predicate IsCollection(kind: byte) { kind == SET || kind == SEQUENCE }

  predicate IsScalar(kind: byte) { TEXT <= kind <= ENUM }

  // ---------- Fixed-width readers ----------

  /** The alignment and count checks that come before any row is read. */
  predicate Shaped(c: Columns) {
    && |c.rootIds| % 4 == 0 && |c.rootKinds| == |c.rootIds| / 4
    && |c.nodeTags| % 2 == 0
    && |c.nodeFieldOffsets| == 8 * (|c.nodeTags| / 2 + 1)
    && |c.fieldValues| == 8 * |c.fieldKinds| && |c.fieldLengths| == 8 * |c.fieldKinds|
    && |c.itemValues| == 8 * |c.itemKinds| && |c.itemLengths| == 8 * |c.itemKinds|
  }

  /** The little-endian words of a column, `width` bytes each. */
  function Words(bytes: seq<byte>, width: nat): (words: seq<nat>)
    requires width > 0
    ensures |words| == |bytes| / width
    decreases |bytes|
  {
    if |bytes| < width then [] else
    ShorterQuotient(|bytes|, width);
    [LittleEndian(bytes[..width])] + Words(bytes[width..], width)
  }

  lemma ShorterQuotient(length: nat, width: nat)
    requires 0 < width <= length
    ensures (length - width) / width + 1 == length / width
  {
    var q, r := length / width, length % width;
    assert length - width == (q - 1) * width + r;
    QuotientIs(length - width, width, q - 1, r);
  }

  lemma QuotientIs(n: nat, d: nat, q: int, r: nat)
    requires d > 0 && r < d && n == q * d + r
    ensures n / d == q
  {
    var p, s := n / d, n % d;
    assert (q - p) * d == s - r;
    if q - p >= 1 { MulAtLeast(q - p, d); }
    if p - q >= 1 { assert (p - q) * d == r - s; MulAtLeast(p - q, d); }
  }

  lemma MulAtLeast(k: nat, d: nat)
    requires k >= 1
    ensures k * d >= d
  {
  }

  function Components(kinds: seq<byte>, values: seq<nat>, lengths: seq<nat>): seq<Component>
    requires |kinds| == |values| == |lengths|
  {
    seq(|kinds|, i requires 0 <= i < |kinds| => Component(kinds[i], values[i], lengths[i]))
  }

  /** What the readers return at every index of shaped columns. */
  function Read(c: Columns): (rows: Rows)
    requires Shaped(c)
    ensures |rows.rootKinds| == |rows.rootIds| && |rows.offsets| == |rows.tags| + 1
  {
    Rows(
      c.rootKinds, Words(c.rootIds, 4), Words(c.nodeTags, 2), Words(c.nodeFieldOffsets, 8),
      Components(c.fieldKinds, Words(c.fieldValues, 8), Words(c.fieldLengths, 8)),
      Components(c.itemKinds, Words(c.itemValues, 8), Words(c.itemLengths, 8)),
      c.scalarBytes)
  }

  lemma {:induction false} FixedWidthUnique(a: seq<byte>, b: seq<byte>)
    requires |a| == |b| && LittleEndian(a) == LittleEndian(b)
    ensures a == b
  {
    if a != [] {
      assert LittleEndian(a) == a[0] + 256 * LittleEndian(a[1..]);
      assert LittleEndian(b) == b[0] + 256 * LittleEndian(b[1..]);
      FixedWidthUnique(a[1..], b[1..]);
      assert a == [a[0]] + a[1..] && b == [b[0]] + b[1..];
    }
  }

  lemma DropRow(n: nat, width: nat)
    requires 0 < width <= n && n % width == 0
    ensures (n - width) % width == 0
  {
    ShorterQuotient(n, width);
    var q := n / width;
    assert n - width == (q - 1) * width;
    assert n - width == (n - width) / width * width + (n - width) % width;
  }

  lemma {:induction false} WordsUnique(a: seq<byte>, b: seq<byte>, width: nat)
    requires width > 0 && |a| == |b| && |a| % width == 0
    requires Words(a, width) == Words(b, width)
    ensures a == b
    decreases |a|
  {
    if |a| < width {
      assert |a| == 0;
    } else {
      var v, w := Words(a, width), Words(b, width);
      assert v[0] == LittleEndian(a[..width]) && w[0] == LittleEndian(b[..width]);
      assert v[1..] == Words(a[width..], width) && w[1..] == Words(b[width..], width);
      FixedWidthUnique(a[..width], b[..width]);
      ShorterQuotient(|a|, width);
      DropRow(|a|, width);
      WordsUnique(a[width..], b[width..], width);
      assert a == a[..width] + a[width..] && b == b[..width] + b[width..];
    }
  }

  /** Shaped columns are determined by their rows. */
  lemma ReadInjective(c: Columns, d: Columns)
    requires Shaped(c) && Shaped(d) && Read(c) == Read(d)
    ensures c == d
  {
    hide Words;
    var r, s := Read(c), Read(d);
    assert |r.fields| == |c.fieldKinds| && |r.items| == |c.itemKinds|;
    assert |s.fields| == |d.fieldKinds| && |s.items| == |d.itemKinds|;
    assert |Words(c.rootIds, 4)| == |c.rootKinds|;
    assert |c.nodeTags| == |d.nodeTags|;
    forall i | 0 <= i < |c.fieldKinds|
      ensures c.fieldKinds[i] == d.fieldKinds[i]
      ensures Words(c.fieldValues, 8)[i] == Words(d.fieldValues, 8)[i]
      ensures Words(c.fieldLengths, 8)[i] == Words(d.fieldLengths, 8)[i]
    {
      assert r.fields[i] == s.fields[i];
    }
    forall i | 0 <= i < |c.itemKinds|
      ensures c.itemKinds[i] == d.itemKinds[i]
      ensures Words(c.itemValues, 8)[i] == Words(d.itemValues, 8)[i]
      ensures Words(c.itemLengths, 8)[i] == Words(d.itemLengths, 8)[i]
    {
      assert r.items[i] == s.items[i];
    }
    WordsUnique(c.rootIds, d.rootIds, 4);
    WordsUnique(c.nodeTags, d.nodeTags, 2);
    WordsUnique(c.nodeFieldOffsets, d.nodeFieldOffsets, 8);
    WordsUnique(c.fieldValues, d.fieldValues, 8);
    WordsUnique(c.fieldLengths, d.fieldLengths, 8);
    WordsUnique(c.itemValues, d.itemValues, 8);
    WordsUnique(c.itemLengths, d.itemLengths, 8);
  }

  // ---------- Constructor roles ----------

  datatype EntityKind = ClassEntity | DatatypeEntity | ObjectPropertyEntity | DataPropertyEntity |
    AnnotationPropertyEntity | NamedIndividualEntity

  datatype NodeRole =
    | Iri | Entity | Class | Datatype | ObjectProperty | DataProperty | AnnotationProperty
    | Literal | Annotation | ObjectPropertyExpression | SubObjectPropertyExpression
    | FacetRestriction | DataRange | ClassExpression | Individual
    | AnnotationValue | AnnotationSubject | IndividualArgument | DataArgument | Atom

  datatype FieldRole =
    | ScalarRole(kind: byte)
    | EntityKindRole
    | OptionalTextRole
    | NodeFieldRole(role: NodeRole)
    | SetRole(role: NodeRole)
    | SequenceRole(role: NodeRole)

  /** The constructor ledger: the ordered field roles of every supported tag. */
  type Ledger = map<nat, seq<FieldRole>>

  datatype Wanted = Anything | Only(kind: EntityKind)

  /** Outcome of a role question; a malformed or dangling reference counts as a refusal. */
  datatype Verdict = Accept | Refuse | Exhausted

  /** The model-schema-2 spelling of each entity kind. */
  function KindName(kind: EntityKind): seq<byte> {
    match kind
    case ClassEntity => [99, 108, 97, 115, 115]
    case DatatypeEntity => [100, 97, 116, 97, 116, 121, 112, 101]
    case ObjectPropertyEntity => [111, 98, 106, 101, 99, 116, 95, 112, 114, 111, 112, 101, 114, 116, 121]
    case DataPropertyEntity => [100, 97, 116, 97, 95, 112, 114, 111, 112, 101, 114, 116, 121]
    case AnnotationPropertyEntity =>
      [97, 110, 110, 111, 116, 97, 116, 105, 111, 110, 95, 112, 114, 111, 112, 101, 114, 116, 121]
    case NamedIndividualEntity => [110, 97, 109, 101, 100, 95, 105, 110, 100, 105, 118, 105, 100, 117, 97, 108]
  }

  predicate IsKindName(content: seq<byte>) {
    || content == KindName(ClassEntity) || content == KindName(DatatypeEntity)
    || content == KindName(ObjectPropertyEntity) || content == KindName(DataPropertyEntity)
    || content == KindName(AnnotationPropertyEntity) || content == KindName(NamedIndividualEntity)
  }

  /** Is the scalar range the name of an entity kind accepted by `wanted`? */
  function EntityKindScalar(scalars: seq<byte>, start: nat, length: nat, wanted: Wanted): Verdict {
    if start + length >= U64_LIMIT then Exhausted
    else if start + length > |scalars| then Refuse
    else if !IsKindName(scalars[start..start + length]) then Refuse
    else if wanted == Anything || scalars[start..start + length] == KindName(wanted.kind) then Accept
    else Refuse
  }

  /** Reads the kind of an entity node from its first field. */
  function EntityRoleAccepts(rows: Rows, node: nat, wanted: Wanted): Verdict
    requires node < |rows.tags| < |rows.offsets|
  {
    if rows.tags[node] != 2 then Refuse
    else if rows.offsets[node] >= |rows.fields| then Refuse
    else
      var f := rows.fields[rows.offsets[node]];
      if f.kind != ENUM then Refuse else EntityKindScalar(rows.scalars, f.value, f.length, wanted)
  }

  /** What a role asks of a node: nothing beyond its tag, or that it be an entity of some kind. */
  datatype Need = Met | Unmet | EntityOf(wanted: Wanted)

  function If(yes: bool): Need {
    if yes then Met else Unmet
  }

  function IfElse(yes: bool, kind: EntityKind): Need {
    if yes then Met else EntityOf(Only(kind))
  }

  function RoleNeed(role: NodeRole, tag: nat): Need {
    match role
    case Iri => If(tag == 1)
    case Entity => EntityOf(Anything)
    case Class => EntityOf(Only(ClassEntity))
    case Datatype => EntityOf(Only(DatatypeEntity))
    case ObjectProperty => EntityOf(Only(ObjectPropertyEntity))
    case DataProperty => EntityOf(Only(DataPropertyEntity))
    case AnnotationProperty => EntityOf(Only(AnnotationPropertyEntity))
    case Literal => If(tag == 4)
    case Annotation => If(tag == 5)
    case ObjectPropertyExpression => IfElse(tag == 10, ObjectPropertyEntity)
    case SubObjectPropertyExpression => IfElse(tag == 10 || tag == 11, ObjectPropertyEntity)
    case FacetRestriction => If(tag == 20)
    case DataRange => IfElse(21 <= tag <= 25, DatatypeEntity)
    case ClassExpression => IfElse(30 <= tag <= 46, ClassEntity)
    case Individual => IfElse(tag == 3, NamedIndividualEntity)
    case AnnotationValue => If(tag == 1 || tag == 3 || tag == 4)
    case AnnotationSubject => If(tag == 1 || tag == 3)
    case IndividualArgument => IfElse(tag == 3 || tag == 140, NamedIndividualEntity)
    case DataArgument => If(tag == 4 || tag == 140)
    case Atom => If(141 <= tag <= 147)
  }

  function NodeRoleAccepts(rows: Rows, role: NodeRole, identifier: nat): Verdict
    requires |rows.tags| < |rows.offsets|
  {
    if identifier >= U32_LIMIT || identifier == 0 || identifier > |rows.tags| then Refuse else
    var node := identifier - 1;
    match RoleNeed(role, rows.tags[node])
    case Met => Accept
    case Unmet => Refuse
    case EntityOf(wanted) => EntityRoleAccepts(rows, node, wanted)
  }

  function Answer(yes: bool): Verdict {
    if yes then Accept else Refuse
  }

  function FieldRoleVerdict(rows: Rows, role: FieldRole, f: Component): Verdict
    requires |rows.tags| < |rows.offsets|
  {
    match role
    case ScalarRole(kind) => Answer(f.kind == kind)
    case EntityKindRole =>
      if f.kind == ENUM then EntityKindScalar(rows.scalars, f.value, f.length, Anything) else Refuse
    case OptionalTextRole => Answer(f.kind == NONE || f.kind == TEXT)
    case NodeFieldRole(expected) => if f.kind == NODE then NodeRoleAccepts(rows, expected, f.value) else Refuse
    case SetRole(_) => Refuse
    case SequenceRole(_) => Refuse
  }

  function ItemRoleVerdict(rows: Rows, role: NodeRole, item: Component): Verdict
    requires |rows.tags| < |rows.offsets|
  {
    if item.kind == NODE then NodeRoleAccepts(rows, role, item.value) else Refuse
  }

  predicate RootAccepts(kind: byte, tag: nat) {
    || (kind == 1 && tag == 5)
    || (kind == 2 && (60 <= tag <= 64 || 70 <= tag <= 82 || 90 <= tag <= 95 || 100 <= tag <= 101 || 110 <= tag <= 116 ||
       120 <= tag <= 123))
    || (kind == 3 && tag == 148)
  }

  // ---------- Arena coverage and component rules ----------

  function ItemCount(f: Component): nat {
    if IsCollection(f.kind) then f.length else 0
  }

  function ScalarCount(f: Component): nat {
    if IsScalar(f.kind) then f.length else 0
  }

  /** Item rows claimed by the first `k` fields. */
  function ItemStart(fields: seq<Component>, k: nat): nat
    requires k <= |fields|
  {
    if k == 0 then 0 else ItemStart(fields, k - 1) + ItemCount(fields[k - 1])
  }

  /** Scalar bytes claimed by the first `k` fields. */
  function ScalarStart(fields: seq<Component>, k: nat): nat
    requires k <= |fields|
  {
    if k == 0 then 0 else ScalarStart(fields, k - 1) + ScalarCount(fields[k - 1])
  }

  /** The content rule of each scalar kind. */
  ghost predicate ContentOk(kind: byte, content: seq<byte>) {
    if kind == TEXT then Utf8.WellFormed(content)
    else if kind == INTEGER then Minimal(content)
    else if kind == ENUM then content != [] && forall i :: 0 <= i < |content| ==> content[i] < 128
    else true
  }

  /** A component that is not a collection, standing at scalar position `cursor`. */
  ghost predicate LeafOk(rows: Rows, f: Component, cursor: nat) {
    if f.kind == NONE then f.value == 0 && f.length == 0
    else if f.kind == NODE then f.length == 0 && 1 <= f.value <= |rows.tags| && f.value < U32_LIMIT
    else if IsScalar(f.kind) then
      && f.value == cursor
      && cursor + f.length <= |rows.scalars|
      && ContentOk(f.kind, rows.scalars[cursor..cursor + f.length])
    else false
  }

  ghost predicate ItemOk(rows: Rows, role: NodeRole, i: nat)
    requires i < |rows.items| && |rows.tags| < |rows.offsets|
  {
    ItemRoleVerdict(rows, role, rows.items[i]) == Accept && rows.items[i].length == 0
  }

  ghost predicate CollectionOk(rows: Rows, role: NodeRole, kind: byte, k: nat)
    requires k < |rows.fields| && |rows.tags| < |rows.offsets|
  {
    var f := rows.fields[k];
    && f.kind == kind
    && f.value == ItemStart(rows.fields, k)
    && f.value + f.length <= |rows.items|
    && (forall i :: f.value <= i < f.value + f.length ==> ItemOk(rows, role, i))
    && (kind == SET ==> forall i, j :: f.value <= i < j < f.value + f.length ==>
       rows.items[i].value < rows.items[j].value)
  }

  /** Field `k` meets its role, sits where the arenas expect it and has legal content. */
  ghost predicate FieldOk(rows: Rows, role: FieldRole, k: nat)
    requires k < |rows.fields| && |rows.tags| < |rows.offsets|
  {
    match role
    case SetRole(item) => CollectionOk(rows, item, SET, k)
    case SequenceRole(item) => CollectionOk(rows, item, SEQUENCE, k)
    case _ =>
      && FieldRoleVerdict(rows, role, rows.fields[k]) == Accept
      && LeafOk(rows, rows.fields[k], ScalarStart(rows.fields, k))
  }

  /** Row `n` claims the next fields, as many as its tag has roles. */
  ghost predicate OffsetOk(rows: Rows, ledger: Ledger, n: nat)
    requires n < |rows.tags| < |rows.offsets|
  {
    && rows.tags[n] in ledger
    && rows.offsets[n + 1] == rows.offsets[n] + |ledger[rows.tags[n]]|
    && rows.offsets[n + 1] <= |rows.fields|
  }

  ghost predicate OffsetsOk(rows: Rows, ledger: Ledger) {
    && |rows.offsets| == |rows.tags| + 1
    && rows.offsets[0] == 0
    && (forall n :: 0 <= n < |rows.tags| ==> OffsetOk(rows, ledger, n))
    && rows.offsets[|rows.tags|] == |rows.fields|
  }

  ghost predicate NodeFieldsOk(rows: Rows, ledger: Ledger, n: nat)
    requires OffsetsOk(rows, ledger) && n < |rows.tags|
  {
    assert OffsetOk(rows, ledger, n);
    var roles := ledger[rows.tags[n]];
    forall k :: 0 <= k < |roles| ==> FieldOk(rows, roles[k], rows.offsets[n] + k)
  }

  ghost predicate FieldsOk(rows: Rows, ledger: Ledger)
    requires OffsetsOk(rows, ledger)
  {
    && (forall n :: 0 <= n < |rows.tags| ==> NodeFieldsOk(rows, ledger, n))
    && ItemStart(rows.fields, |rows.fields|) == |rows.items|
    && ScalarStart(rows.fields, |rows.fields|) == |rows.scalars|
  }

  ghost predicate RootOk(rows: Rows, r: nat)
    requires r < |rows.rootIds| == |rows.rootKinds|
  {
    && 1 <= rows.rootIds[r] <= |rows.tags|
    && RootAccepts(rows.rootKinds[r], rows.tags[rows.rootIds[r] - 1])
  }

  /** Order of root rows: by kind, then by node ID. */
  ghost predicate RootBefore(rows: Rows, i: nat, j: nat)
    requires i < |rows.rootIds| == |rows.rootKinds| && j < |rows.rootIds|
  {
    rows.rootKinds[i] < rows.rootKinds[j] || (rows.rootKinds[i] == rows.rootKinds[j] &&
      rows.rootIds[i] < rows.rootIds[j])
  }

  ghost predicate RootsOk(rows: Rows) {
    && |rows.rootIds| == |rows.rootKinds|
    && (forall r :: 0 <= r < |rows.rootIds| ==> RootOk(rows, r))
    && (forall i, j :: 0 <= i < j < |rows.rootIds| ==> RootBefore(rows, i, j))
  }

  /** Everything that can be checked without following a reference. */
  ghost predicate Conforms(rows: Rows, ledger: Ledger) {
    OffsetsOk(rows, ledger) && FieldsOk(rows, ledger) && RootsOk(rows)
  }

  // ---------- The structural graph ----------

  /** A component whose ranges and references are in bounds and whose content is legal. */
  ghost predicate ComponentOk(rows: Rows, c: Component) {
    && c.kind <= SEQUENCE
    && (c.kind == NODE ==> 1 <= c.value <= |rows.tags|)
    && (IsScalar(c.kind) ==>
       c.value + c.length <= |rows.scalars| && ContentOk(c.kind, rows.scalars[c.value..c.value + c.length]))
    && (IsCollection(c.kind) ==>
          && c.value + c.length <= |rows.items|
          && forall i :: c.value <= i < c.value + c.length ==>
             rows.items[i].kind == NODE && 1 <= rows.items[i].value <= |rows.tags|)
  }

  /** What the graph passes rely on: legal components that claim the arenas consecutively. */
  ghost predicate Placed(rows: Rows, k: nat)
    requires k < |rows.fields|
  {
    var f := rows.fields[k];
    && ComponentOk(rows, f)
    && (IsScalar(f.kind) ==> f.value == ScalarStart(rows.fields, k))
    && (IsCollection(f.kind) ==> f.value == ItemStart(rows.fields, k))
  }

  /** The fields of row `n` are a range of the field rows. */
  ghost predicate Owns(rows: Rows, n: nat)
    requires n < |rows.tags| < |rows.offsets|
  {
    rows.offsets[n] <= rows.offsets[n + 1] <= |rows.fields|
  }

  /** More bytes or items than a 64-bit machine can address. */
  ghost predicate Huge(rows: Rows) {
    8 * |rows.scalars| >= U64_LIMIT || |rows.items| >= U64_LIMIT
  }

  ghost predicate Laid(rows: Rows) {
    && |rows.offsets| == |rows.tags| + 1
    && rows.offsets[0] == 0 && rows.offsets[|rows.tags|] == |rows.fields|
    && (forall n :: 0 <= n < |rows.tags| ==> Owns(rows, n))
    && (forall k :: 0 <= k < |rows.fields| ==> Placed(rows, k))
    && ItemStart(rows.fields, |rows.fields|) == |rows.items|
    && ScalarStart(rows.fields, |rows.fields|) == |rows.scalars|
    && |rows.rootIds| == |rows.rootKinds|
    && (forall r :: 0 <= r < |rows.rootIds| ==> 1 <= rows.rootIds[r] <= |rows.tags|)
  }

  ghost function ItemNodes(rows: Rows, start: nat, length: nat): seq<nat>
    requires start + length <= |rows.items|
    requires forall i :: start <= i < start + length ==> rows.items[i].value >= 1
  {
    seq(length, i requires 0 <= i < length => rows.items[start + i].value - 1)
  }

  /** The constructor argument a component stands for. */
  ghost function ComponentView(rows: Rows, c: Component): (f: Field)
    requires ComponentOk(rows, c)
    ensures Within(Refs(f), |rows.tags|)
  {
    if c.kind == NONE then Absent
    else if c.kind == NODE then Child(c.value - 1)
    else if c.kind == TEXT then Text(rows.scalars[c.value..c.value + c.length])
    else if c.kind == BYTES then Raw(rows.scalars[c.value..c.value + c.length])
    else if c.kind == INTEGER then Integer(LittleEndian(rows.scalars[c.value..c.value + c.length]))
    else if c.kind == ENUM then Enum(rows.scalars[c.value..c.value + c.length])
    else if c.kind == SET then SetOf(ItemNodes(rows, c.value, c.length))
    else SequenceOf(ItemNodes(rows, c.value, c.length))
  }

  ghost function FieldView(rows: Rows, k: nat): (f: Field)
    requires k < |rows.fields| && Placed(rows, k)
    ensures Within(Refs(f), |rows.tags|)
  {
    ComponentView(rows, rows.fields[k])
  }

  ghost function NodeView(rows: Rows, n: nat): (node: Node)
    requires Laid(rows) && n < |rows.tags|
    ensures Bounded(node.fields, |rows.tags|)
  {
    assert Owns(rows, n);
    var start, count := rows.offsets[n], rows.offsets[n + 1] - rows.offsets[n];
    var fields := seq(count, k requires 0 <= k < count => FieldView(rows, start + k));
    assert forall k :: 0 <= k < count ==>
      fields[k] == FieldView(rows, start + k) && Within(Refs(fields[k]), |rows.tags|);
    Node(rows.tags[n], fields)
  }

  /** The graph of nodes, fields and references that laid-out rows describe. */
  ghost function View(rows: Rows): (g: Graph)
    requires Laid(rows)
    ensures |g| == |rows.tags| && Valid(g)
  {
    seq(|rows.tags|, n requires 0 <= n < |rows.tags| => NodeView(rows, n))
  }

  ghost function RootNodes(rows: Rows): seq<nat>
    requires Laid(rows)
  {
    seq(|rows.rootIds|, r requires 0 <= r < |rows.rootIds| => rows.rootIds[r] - 1)
  }

  lemma FieldOkPlaced(rows: Rows, role: FieldRole, k: nat)
    requires k < |rows.fields| && |rows.tags| < |rows.offsets| && FieldOk(rows, role, k)
    ensures Placed(rows, k)
  {
    if IsCollection(rows.fields[k].kind) {
      var f := rows.fields[k];
      assert role.SetRole? || role.SequenceRole?;
      forall i | f.value <= i < f.value + f.length
        ensures rows.items[i].kind == NODE && 1 <= rows.items[i].value <= |rows.tags|
      {
        assert ItemOk(rows, role.role, i);
      }
    }
  }

  /** The field of index `k` belongs to exactly one row, since offsets rise from 0 to the field count. */
  lemma OwnerOf(rows: Rows, k: nat) returns (n: nat)
    requires |rows.offsets| == |rows.tags| + 1
    requires rows.offsets[0] == 0 && k < rows.offsets[|rows.tags|]
    ensures n < |rows.tags| && rows.offsets[n] <= k < rows.offsets[n + 1]
  {
    n := 0;
    while rows.offsets[n + 1] <= k
      invariant n < |rows.tags| && rows.offsets[n] <= k
      decreases |rows.tags| - n
    {
      n := n + 1;
    }
  }

  /** Conforming rows are laid out. */
  lemma ConformsLaid(rows: Rows, ledger: Ledger)
    requires Conforms(rows, ledger)
    ensures Laid(rows)
  {
    forall n | 0 <= n < |rows.tags| ensures Owns(rows, n) {
      assert OffsetOk(rows, ledger, n);
    }
    forall k | 0 <= k < |rows.fields| ensures Placed(rows, k) {
      var n := OwnerOf(rows, k);
      assert OffsetOk(rows, ledger, n) && NodeFieldsOk(rows, ledger, n);
      var roles := ledger[rows.tags[n]];
      var position := k - rows.offsets[n];
      assert FieldOk(rows, roles[position], rows.offsets[n] + position);
      FieldOkPlaced(rows, roles[position], k);
    }
    forall r | 0 <= r < |rows.rootIds| ensures 1 <= rows.rootIds[r] <= |rows.tags| {
      assert RootOk(rows, r);
    }
  }

  /** The references of field `k` of row `n`, read off the rows. */
  lemma ViewRefs(rows: Rows, n: nat, k: nat)
    requires Laid(rows) && n < |rows.tags| && k < |View(rows)[n].fields|
    ensures |rows.offsets| == |rows.tags| + 1 && Owns(rows, n)
    ensures |View(rows)[n].fields| == rows.offsets[n + 1] - rows.offsets[n]
    ensures Placed(rows, rows.offsets[n] + k) && View(rows)[n].fields[k] == FieldView(rows, rows.offsets[n] + k)
    ensures var c, refs := rows.fields[rows.offsets[n] + k], Refs(View(rows)[n].fields[k]);
            if c.kind == NODE then refs == [c.value - 1]
            else if IsCollection(c.kind) then |refs| == c.length && forall i :: 0 <= i < |refs| ==>
              refs[i] == rows.items[c.value + i].value - 1
            else refs == []
  {
    assert Owns(rows, n);
    assert View(rows)[n] == NodeView(rows, n);
    assert Placed(rows, rows.offsets[n] + k);
  }

  lemma ViewArity(rows: Rows, n: nat)
    requires Laid(rows) && n < |rows.tags|
    ensures |rows.offsets| == |rows.tags| + 1 && Owns(rows, n)
    ensures |View(rows)[n].fields| == rows.offsets[n + 1] - rows.offsets[n]
    ensures View(rows)[n].tag == rows.tags[n]
  {
    assert Owns(rows, n);
    assert View(rows)[n] == NodeView(rows, n);
  }

  lemma LaidComponent(rows: Rows, k: nat)
    requires Laid(rows) && k < |rows.fields|
    ensures Placed(rows, k) && ComponentOk(rows, rows.fields[k]) &&
      FieldView(rows, k) == ComponentView(rows, rows.fields[k])
  {
  }
}
