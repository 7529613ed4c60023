/**
 Encoded columns and OWL 2 ontologies: acceptable columns are in one-to-one correspondence with the finite sets
 of ontology annotations, axioms and rules that they have room for.
 */
module OwlOntology {
  import opened Structure
  import opened Existence
  import opened Uniqueness
  import opened Validate
  import opened OwlLedger
  import opened OwlParts
  import opened OwlSyntax
  import opened OwlRanges
  import opened OwlItems
  import opened OwlAxioms
  import R = Rows

  // ---------- Rule atoms ----------

  lemma UnaryAtoms()
    ensures Faithful(AtomTree, 141) && Faithful(AtomTree, 142)
  {
    hide Encodes, Faithful;
    ItemArguments();
    AtomArguments();
    var byClass := (c: Class, x: IndividualArgument) => ClassAtom(c, x);
    forall a | AtomTree(a).tag == 141 ensures exists c, x :: a == byClass(c, x) {
      assert a == byClass(a.predicateClass, a.argument);
    }
    Faithful2(AtomTree, 141, One(ClassTree), One(IndividualArgumentTree), byClass);
    var byRange := (r: Range, x: DataArgument) => DataRangeAtom(r, x);
    forall a | AtomTree(a).tag == 142 ensures exists r, x :: a == byRange(r, x) {
      assert a == byRange(a.range, a.dataArgument);
    }
    Faithful2(AtomTree, 142, One(RangeTree), One(DataArgumentTree), byRange);
  }

  lemma PropertyAtoms()
    ensures Faithful(AtomTree, 143) && Faithful(AtomTree, 144)
  {
    hide Encodes, Faithful;
    ItemArguments();
    AtomArguments();
    var byObject := (p: Property, x: IndividualArgument, y: IndividualArgument) => ObjectPropertyAtom(p, x, y);
    forall a | AtomTree(a).tag == 143 ensures exists p, x, y :: a == byObject(p, x, y) {
      assert a == byObject(a.property, a.left, a.right);
    }
    Faithful3(AtomTree, 143, One(PropertyTree), One(IndividualArgumentTree), One(IndividualArgumentTree), byObject);
    var byData := (iri: Text, x: IndividualArgument, y: DataArgument) => DataPropertyAtom(iri, x, y);
    forall a | AtomTree(a).tag == 144 ensures exists iri, x, y :: a == byData(iri, x, y) {
      assert a == byData(a.iri, a.left, a.dataArgument);
    }
    Faithful3(AtomTree, 144, One(DataName()), One(IndividualArgumentTree), One(DataArgumentTree), byData);
  }

  lemma BuiltInAtoms()
    ensures Faithful(AtomTree, 145)
  {
    hide Encodes, Faithful;
    ItemArguments();
    AtomArguments();
    var builtIn := (iri: Text, xs: seq<DataArgument>) => BuiltInAtom(iri, xs);
    forall a | AtomTree(a).tag == 145 ensures exists iri, xs :: a == builtIn(iri, xs) {
      assert a == builtIn(a.iri, a.arguments);
    }
    Faithful2(AtomTree, 145, One(IriTree), Sequence(DataArgumentTree), builtIn);
  }

  lemma EqualityAtoms()
    ensures Faithful(AtomTree, 146) && Faithful(AtomTree, 147)
  {
    hide Encodes, Faithful;
    AtomArguments();
    var same := (x: IndividualArgument, y: IndividualArgument) => SameIndividualAtom(x, y);
    forall a | AtomTree(a).tag == 146 ensures exists x, y :: a == same(x, y) {
      assert a == same(a.left, a.right);
    }
    Faithful2(AtomTree, 146, One(IndividualArgumentTree), One(IndividualArgumentTree), same);
    var different := (x: IndividualArgument, y: IndividualArgument) => DifferentIndividualsAtom(x, y);
    forall a | AtomTree(a).tag == 147 ensures exists x, y :: a == different(x, y) {
      assert a == different(a.left, a.right);
    }
    Faithful2(AtomTree, 147, One(IndividualArgumentTree), One(IndividualArgumentTree), different);
  }

  lemma AtomTagged(a: Atom)
    ensures 141 <= AtomTree(a).tag <= 147
  {
  }

  lemma AtomFaithful(tag: nat)
    requires 141 <= tag <= 147
    ensures Faithful(AtomTree, tag)
  {
    hide Faithful;
    UnaryAtoms();
    PropertyAtoms();
    BuiltInAtoms();
    EqualityAtoms();
  }

  lemma AtomRepresents()
    ensures Represents(AtomTree, R.Atom)
  {
    hide Sound, AtomTree, Faithful;
    forall a ensures Plays(R.Atom, AtomTree(a)) {
      AtomTagged(a);
      AtomFaithful(AtomTree(a).tag);
      FaithfulSound(AtomTree, a);
    }
    forall a, b | AtomTree(a) == AtomTree(b) ensures a == b {
      AtomTagged(a);
      AtomFaithful(AtomTree(a).tag);
      FaithfulParts(AtomTree, a, b);
    }
    forall t | Plays(R.Atom, t) ensures exists a :: AtomTree(a) == t {
      AtomFaithful(t.tag);
      var a := FaithfulFrom(AtomTree, t);
    }
  }

  // ---------- Axioms ----------

  lemma AxiomFaithful(tag: nat)
    requires IsAxiom(tag)
    ensures Faithful(AxiomOf, tag)
  {
    hide Faithful;
    if tag <= 64 {
      DeclarationAxiom();
      SubClassOfAxiom();
      EquivalentClassesAxiom();
      DisjointClassesAxiom();
      DisjointUnionAxiom();
    } else if tag <= 75 {
      SubObjectPropertyOfAxiom();
      EquivalentObjectPropertiesAxiom();
      DisjointObjectPropertiesAxiom();
      InverseObjectPropertiesAxiom();
      ObjectPropertyDomainAxiom();
      ObjectPropertyRangeAxiom();
    } else if tag <= 82 {
      CharacteristicFaithful(tag);
    } else if tag <= 101 {
      SubDataPropertyOfAxiom();
      EquivalentDataPropertiesAxiom();
      DisjointDataPropertiesAxiom();
      DataPropertyDomainAxiom();
      DataPropertyRangeAxiom();
      FunctionalDataPropertyAxiom();
      DatatypeDefinitionAxiom();
      HasKeyAxiom();
    } else if tag <= 116 {
      SameIndividualAxiom();
      DifferentIndividualsAxiom();
      ClassAssertionAxiom();
      ObjectPropertyAssertionAxiom();
      NegativeObjectPropertyAssertionAxiom();
      DataPropertyAssertionAxiom();
      NegativeDataPropertyAssertionAxiom();
    } else {
      AnnotationAssertionAxiom();
      SubAnnotationPropertyOfAxiom();
      AnnotationPropertyDomainAxiom();
      AnnotationPropertyRangeAxiom();
    }
  }

  lemma CharacteristicFaithful(tag: nat)
    requires 76 <= tag <= 82
    ensures Faithful(AxiomOf, tag)
  {
    hide Faithful;
    CharacteristicAxiom(Functional);
    CharacteristicAxiom(InverseFunctional);
    CharacteristicAxiom(Reflexive);
    CharacteristicAxiom(Irreflexive);
    CharacteristicAxiom(Symmetric);
    CharacteristicAxiom(Asymmetric);
    CharacteristicAxiom(Transitive);
  }

  lemma StatementTagged(s: Statement)
    ensures IsAxiom(StatementTag(s))
  {
  }

  lemma AxiomTagIs(a: Annotated)
    ensures AxiomOf(a).tag == StatementTag(a.0) && IsAxiom(AxiomOf(a).tag)
  {
    hide StatementFields;
    StatementTagged(a.0);
  }

  // ---------- Items ----------

  /** A sound tree with the root kind of its constructor. */
  ghost predicate Rooted(r: Root) {
    Sound(r.tree) && R.RootAccepts(r.kind, r.tree.tag)
  }

  lemma RuleArguments()
    ensures Encodes(Set(AtomTree), R.SetRole(R.Atom)) && Encodes(Set(AnnotationTree), R.SetRole(R.Annotation))
    ensures Builds3(148, Set(AtomTree), Set(AtomTree), Set(AnnotationTree))
  {
    hide Encodes, Represents, Builds3;
    AtomRepresents();
    SetEncodes(AtomTree, R.Atom);
    ItemArguments();
    Constructor3(148, Set(AtomTree), Set(AtomTree), Set(AnnotationTree));
  }

  lemma ItemRooted(item: Item)
    ensures Rooted(ItemRoot(item))
  {
    hide Sound, AnnotationTree, AtomTree, AxiomTree, Faithful;
    match item {
      case OntologyAnnotation(a) =>
        AnnotationPlays(a);
      case Axiom(s, annotations) =>
        AxiomTagIs((s, annotations));
        AxiomFaithful(StatementTag(s));
        FaithfulSound(AxiomOf, (s, annotations));
        AxiomRoots(StatementTag(s));
      case Rule(body, head, annotations) =>
        RuleArguments();
    }
  }

  lemma AxiomRoots(tag: nat)
    ensures R.RootAccepts(2, tag) <==> IsAxiom(tag)
  {
  }

  /** Different items have different roots. */
  lemma ItemParts(x: Item, y: Item)
    requires ItemRoot(x) == ItemRoot(y)
    ensures x == y
  {
    hide AnnotationTree, AtomTree, AxiomTree, Encodes, Faithful;
    match x {
      case OntologyAnnotation(a) =>
        AnnotationParts(a, y.annotation);
      case Axiom(s, annotations) =>
        AxiomTagIs((s, annotations));
        AxiomFaithful(StatementTag(s));
        FaithfulParts(AxiomOf, (s, annotations), (y.statement, y.annotations));
      case Rule(body, head, annotations) =>
        RuleArguments();
        var f, g := ItemRoot(x).tree.arguments, ItemRoot(y).tree.arguments;
        assert f[0] == g[0] && f[1] == g[1] && f[2] == g[2];
        Decoded(Set(AtomTree), R.SetRole(R.Atom), body, y.body);
        Decoded(Set(AtomTree), R.SetRole(R.Atom), head, y.head);
        Decoded(Set(AnnotationTree), R.SetRole(R.Annotation), annotations, y.annotations);
    }
  }

  lemma RuleFrom(t: Tree) returns (item: Item)
    requires Sound(t) && t.tag == 148
    ensures ItemRoot(item) == Root(3, t)
  {
    hide Sound, Proper, AnnotationTree, AtomTree, Encodes, Builds3;
    RuleArguments();
    Opened(t);
    var body := Valued(Set(AtomTree), R.SetRole(R.Atom), t.arguments[0]);
    var head := Valued(Set(AtomTree), R.SetRole(R.Atom), t.arguments[1]);
    var annotations := Valued(Set(AnnotationTree), R.SetRole(R.Annotation), t.arguments[2]);
    item := Rule(body, head, annotations);
  }

  /** Every root stands for an item. */
  lemma ItemFrom(r: Root) returns (item: Item)
    requires Rooted(r)
    ensures ItemRoot(item) == r
  {
    hide Sound, AnnotationTree, AxiomTree, Faithful, RuleTree;
    if r.kind == 1 {
      var a := AnnotationFrom(r.tree);
      item := OntologyAnnotation(a);
    } else if r.kind == 2 {
      AxiomRoots(r.tree.tag);
      AxiomFaithful(r.tree.tag);
      var a := FaithfulFrom(AxiomOf, r.tree);
      item := Axiom(a.0, a.1);
    } else {
      item := RuleFrom(r.tree);
    }
  }

  // ---------- Ontologies ----------

  ghost function RootsOf(ontology: set<Item>): set<Root> {
    set x | x in ontology :: ItemRoot(x)
  }

  /** The roots that meet the ledger are those of items. */
  lemma ValidIff(roots: set<Root>)
    ensures ValidRoots(LEDGER, roots) <==> forall r :: r in roots ==> Rooted(r)
  {
    hide Sub, Sound, Fits;
    SubtreesClosed(roots);
    forall r: Root ensures Sound(r.tree) <==> forall x :: x in Sub(r.tree) ==> Fits(LEDGER, x) {
      SoundIff(r.tree);
    }
    if ValidRoots(LEDGER, roots) {
      forall r | r in roots ensures Rooted(r) {
        forall x | x in Sub(r.tree) ensures Fits(LEDGER, x) {
          assert x in Subtrees(roots);
        }
      }
    }
    if forall r :: r in roots ==> Rooted(r) {
      forall x | x in Subtrees(roots) ensures Fits(LEDGER, x) {
        var r :| r in roots && x in Sub(r.tree);
        assert Rooted(r);
      }
    }
  }

  lemma OntologyValid(ontology: set<Item>)
    ensures ValidRoots(LEDGER, RootsOf(ontology))
  {
    hide ValidRoots, Rooted, ItemRoot;
    forall r | r in RootsOf(ontology) ensures Rooted(r) {
      var x :| x in ontology && ItemRoot(x) == r;
      ItemRooted(x);
    }
    ValidIff(RootsOf(ontology));
  }

  lemma RootsDecide(o: set<Item>, p: set<Item>)
    requires RootsOf(o) == RootsOf(p)
    ensures o == p
  {
    hide ItemRoot;
    forall x ensures x in o <==> x in p {
      if x in o {
        assert ItemRoot(x) in RootsOf(p);
        var y :| y in p && ItemRoot(y) == ItemRoot(x);
        ItemParts(x, y);
      }
      if x in p {
        assert ItemRoot(x) in RootsOf(o);
        var y :| y in o && ItemRoot(y) == ItemRoot(x);
        ItemParts(x, y);
      }
    }
  }

  lemma {:induction false} OntologyFrom(roots: set<Root>) returns (ontology: set<Item>)
    requires forall r :: r in roots ==> Rooted(r)
    ensures RootsOf(ontology) == roots
    decreases |roots|
  {
    hide Rooted, ItemRoot;
    if roots == {} {
      return {};
    }
    var r :| r in roots;
    var rest := OntologyFrom(roots - {r});
    var item := ItemFrom(r);
    ontology := rest + {item};
    assert RootsOf(ontology) == RootsOf(rest) + {r};
  }

  lemma LedgerReads()
    ensures EntitiesHaveKinds(LEDGER)
  {
    assert LEDGER[2] == Roles(2);
  }

  /** Acceptable columns encode one ontology. */
  ghost predicate Encoding(c: R.Columns, ontology: set<Item>) {
    Acceptable(c, LEDGER) && ColumnsMeaning(c, LEDGER) == RootsOf(ontology)
  }

  /** Every acceptable columns encode exactly one ontology. */
  lemma ColumnsAreOntologies(c: R.Columns) returns (ontology: set<Item>)
    requires Acceptable(c, LEDGER)
    ensures Encoding(c, ontology) && forall other :: Encoding(c, other) ==> other == ontology
  {
    hide Acceptable, ColumnsMeaning, ValidRoots, RootsOf;
    LedgerReads();
    ColumnsConform(c, LEDGER);
    ValidIff(ColumnsMeaning(c, LEDGER));
    ontology := OntologyFrom(ColumnsMeaning(c, LEDGER));
    forall other | Encoding(c, other) ensures other == ontology {
      RootsDecide(other, ontology);
    }
  }

  /** Every ontology that the columns have room for is encoded by exactly one of them. */
  lemma OntologiesAreColumns(ontology: set<Item>) returns (c: R.Columns)
    requires RoomForAll(RootsOf(ontology))
    ensures Encoding(c, ontology) && forall other :: Encoding(other, ontology) ==> other == c
  {
    hide Acceptable, ColumnsMeaning, ValidRoots, RootsOf, RoomForAll;
    OntologyValid(ontology);
    c := EverySetHasColumns(LEDGER, RootsOf(ontology));
    forall other | Encoding(other, ontology) ensures other == c {
      CanonicalForm(other, c, LEDGER, LEDGER);
    }
  }
}
