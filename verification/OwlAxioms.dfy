/** The trees of axioms: one lemma for each constructor. */
module OwlAxioms {
  import opened Structure
  import opened OwlLedger
  import opened OwlParts
  import opened OwlSyntax
  import opened OwlItems
  import R = Rows

  type Annotated = (Statement, set<Annotation>)

  ghost function AxiomOf(a: Annotated): Tree { AxiomTree(a.0, a.1) }

  ghost function Annotations(): set<Annotation> -> Argument { Set(AnnotationTree) }

  lemma AnnotationsEncode()
    ensures Encodes(Annotations(), R.SetRole(R.Annotation))
  {
    hide Encodes;
    ItemArguments();
  }

  lemma Axiom1<A(!new)>(tag: nat, a: A -> Argument, make: A -> Statement)
    requires IsAxiom(tag) && |AxiomRoles(tag)| == 1 && Encodes(a, AxiomRoles(tag)[0])
    requires forall x :: StatementTag(make(x)) == tag && StatementFields(make(x)) == [a(x)]
    requires forall s :: StatementTag(s) == tag ==> exists x :: s == make(x)
    ensures Faithful(AxiomOf, tag)
  {
    hide StatementTag, StatementFields, Encodes, AxiomRoles;
    AnnotationsEncode();
    var whole := (x: A, annotations: set<Annotation>) => (make(x), annotations);
    forall x, annotations ensures AxiomOf(whole(x, annotations)) == Tree(tag, [a(x), Annotations()(annotations)]) {
      assert [a(x)] + [Annotations()(annotations)] == [a(x), Annotations()(annotations)];
    }
    forall s: Annotated | AxiomOf(s).tag == tag ensures exists x, annotations :: s == whole(x, annotations) {
      var x :| s.0 == make(x);
      assert s == whole(x, s.1);
    }
    Faithful2(AxiomOf, tag, a, Annotations(), whole);
  }

  lemma Axiom2<A(!new), B(!new)>(tag: nat, a: A -> Argument, b: B -> Argument, make: (A, B) -> Statement)
    requires IsAxiom(tag) && |AxiomRoles(tag)| == 2 && Encodes(a, AxiomRoles(tag)[0]) && Encodes(b, AxiomRoles(tag)[1])
    requires forall x, y :: StatementTag(make(x, y)) == tag && StatementFields(make(x, y)) == [a(x), b(y)]
    requires forall s :: StatementTag(s) == tag ==> exists x, y :: s == make(x, y)
    ensures Faithful(AxiomOf, tag)
  {
    hide StatementTag, StatementFields, Encodes, AxiomRoles;
    AnnotationsEncode();
    var whole := (x: A, y: B, annotations: set<Annotation>) => (make(x, y), annotations);
    forall x, y, annotations
      ensures AxiomOf(whole(x, y, annotations)) == Tree(tag, [a(x), b(y), Annotations()(annotations)])
    {
      assert [a(x), b(y)] + [Annotations()(annotations)] == [a(x), b(y), Annotations()(annotations)];
    }
    forall s: Annotated | AxiomOf(s).tag == tag ensures exists x, y, annotations :: s == whole(x, y, annotations) {
      var x, y :| s.0 == make(x, y);
      assert s == whole(x, y, s.1);
    }
    Faithful3(AxiomOf, tag, a, b, Annotations(), whole);
  }

  lemma Axiom3<A(!new), B(!new), C(!new)>(
    tag: nat, a: A -> Argument, b: B -> Argument, c: C -> Argument, make: (A, B, C) -> Statement)
    requires IsAxiom(tag) && |AxiomRoles(tag)| == 3
    requires Encodes(a, AxiomRoles(tag)[0]) && Encodes(b, AxiomRoles(tag)[1]) && Encodes(c, AxiomRoles(tag)[2])
    requires forall x, y, z :: StatementTag(make(x, y, z)) == tag
    requires forall x, y, z :: StatementFields(make(x, y, z)) == [a(x), b(y), c(z)]
    requires forall s :: StatementTag(s) == tag ==> exists x, y, z :: s == make(x, y, z)
    ensures Faithful(AxiomOf, tag)
  {
    hide StatementTag, StatementFields, Encodes, AxiomRoles;
    AnnotationsEncode();
    var whole := (x: A, y: B, z: C, annotations: set<Annotation>) => (make(x, y, z), annotations);
    forall x, y, z, annotations
      ensures AxiomOf(whole(x, y, z, annotations)) == Tree(tag, [a(x), b(y), c(z), Annotations()(annotations)])
    {
      assert [a(x), b(y), c(z)] + [Annotations()(annotations)] == [a(x), b(y), c(z), Annotations()(annotations)];
    }
    forall s: Annotated | AxiomOf(s).tag == tag
      ensures exists x, y, z, annotations :: s == whole(x, y, z, annotations)
    {
      var x, y, z :| s.0 == make(x, y, z);
      assert s == whole(x, y, z, s.1);
    }
    Faithful4(AxiomOf, tag, a, b, c, Annotations(), whole);
  }

  // ---------- Constructor by constructor ----------

  lemma DeclarationAxiom()
    ensures Faithful(AxiomOf, 60)
  {
    hide Encodes, Faithful;
    ItemArguments();
    var make := (x: Entity) => Declaration(x);
    forall s | StatementTag(s) == 60 ensures exists x :: s == make(x) {
      assert s == make(s.entity);
    }
    Axiom1(60, One(EntityOf), make);
  }

  lemma SubClassOfAxiom()
    ensures Faithful(AxiomOf, 61)
  {
    hide Encodes, Faithful;
    ItemArguments();
    var make := (x: Class, y: Class) => SubClassOf(x, y);
    forall s | StatementTag(s) == 61 ensures exists x, y :: s == make(x, y) {
      assert s == make(s.sub, s.super);
    }
    Axiom2(61, One(ClassTree), One(ClassTree), make);
  }

  lemma EquivalentClassesAxiom()
    ensures Faithful(AxiomOf, 62)
  {
    hide Encodes, Faithful;
    ItemArguments();
    var make := (x: set<Class>) => EquivalentClasses(x);
    forall s | StatementTag(s) == 62 ensures exists x :: s == make(x) {
      assert s == make(s.classes);
    }
    Axiom1(62, Set(ClassTree), make);
  }

  lemma DisjointClassesAxiom()
    ensures Faithful(AxiomOf, 63)
  {
    hide Encodes, Faithful;
    ItemArguments();
    var make := (x: set<Class>) => DisjointClasses(x);
    forall s | StatementTag(s) == 63 ensures exists x :: s == make(x) {
      assert s == make(s.classes);
    }
    Axiom1(63, Set(ClassTree), make);
  }

  lemma DisjointUnionAxiom()
    ensures Faithful(AxiomOf, 64)
  {
    hide Encodes, Faithful;
    ItemArguments();
    var make := (x: Text, y: set<Class>) => DisjointUnion(x, y);
    forall s | StatementTag(s) == 64 ensures exists x, y :: s == make(x, y) {
      assert s == make(s.iri, s.classes);
    }
    Axiom2(64, One(Names(R.ClassEntity)), Set(ClassTree), make);
  }

  lemma SubObjectPropertyOfAxiom()
    ensures Faithful(AxiomOf, 70)
  {
    hide Encodes, Faithful;
    ItemArguments();
    var make := (x: SubProperty, y: Property) => SubObjectPropertyOf(x, y);
    forall s | StatementTag(s) == 70 ensures exists x, y :: s == make(x, y) {
      assert s == make(s.subProperty, s.superProperty);
    }
    Axiom2(70, One(SubPropertyTree), One(PropertyTree), make);
  }

  lemma EquivalentObjectPropertiesAxiom()
    ensures Faithful(AxiomOf, 71)
  {
    hide Encodes, Faithful;
    ItemArguments();
    var make := (x: set<Property>) => EquivalentObjectProperties(x);
    forall s | StatementTag(s) == 71 ensures exists x :: s == make(x) {
      assert s == make(s.properties);
    }
    Axiom1(71, Set(PropertyTree), make);
  }

  lemma DisjointObjectPropertiesAxiom()
    ensures Faithful(AxiomOf, 72)
  {
    hide Encodes, Faithful;
    ItemArguments();
    var make := (x: set<Property>) => DisjointObjectProperties(x);
    forall s | StatementTag(s) == 72 ensures exists x :: s == make(x) {
      assert s == make(s.properties);
    }
    Axiom1(72, Set(PropertyTree), make);
  }

  lemma InverseObjectPropertiesAxiom()
    ensures Faithful(AxiomOf, 73)
  {
    hide Encodes, Faithful;
    ItemArguments();
    var make := (x: Property, y: Property) => InverseObjectProperties(x, y);
    forall s | StatementTag(s) == 73 ensures exists x, y :: s == make(x, y) {
      assert s == make(s.left, s.right);
    }
    Axiom2(73, One(PropertyTree), One(PropertyTree), make);
  }

  lemma ObjectPropertyDomainAxiom()
    ensures Faithful(AxiomOf, 74)
  {
    hide Encodes, Faithful;
    ItemArguments();
    var make := (x: Property, y: Class) => ObjectPropertyDomain(x, y);
    forall s | StatementTag(s) == 74 ensures exists x, y :: s == make(x, y) {
      assert s == make(s.property, s.domain);
    }
    Axiom2(74, One(PropertyTree), One(ClassTree), make);
  }

  lemma ObjectPropertyRangeAxiom()
    ensures Faithful(AxiomOf, 75)
  {
    hide Encodes, Faithful;
    ItemArguments();
    var make := (x: Property, y: Class) => ObjectPropertyRange(x, y);
    forall s | StatementTag(s) == 75 ensures exists x, y :: s == make(x, y) {
      assert s == make(s.property, s.rangeClass);
    }
    Axiom2(75, One(PropertyTree), One(ClassTree), make);
  }

  lemma SubDataPropertyOfAxiom()
    ensures Faithful(AxiomOf, 90)
  {
    hide Encodes, Faithful;
    ItemArguments();
    var make := (x: Text, y: Text) => SubDataPropertyOf(x, y);
    forall s | StatementTag(s) == 90 ensures exists x, y :: s == make(x, y) {
      assert s == make(s.subIri, s.superIri);
    }
    Axiom2(90, One(DataName()), One(DataName()), make);
  }

  lemma EquivalentDataPropertiesAxiom()
    ensures Faithful(AxiomOf, 91)
  {
    hide Encodes, Faithful;
    ItemArguments();
    var make := (x: set<Text>) => EquivalentDataProperties(x);
    forall s | StatementTag(s) == 91 ensures exists x :: s == make(x) {
      assert s == make(s.iris);
    }
    Axiom1(91, Set(DataName()), make);
  }

  lemma DisjointDataPropertiesAxiom()
    ensures Faithful(AxiomOf, 92)
  {
    hide Encodes, Faithful;
    ItemArguments();
    var make := (x: set<Text>) => DisjointDataProperties(x);
    forall s | StatementTag(s) == 92 ensures exists x :: s == make(x) {
      assert s == make(s.iris);
    }
    Axiom1(92, Set(DataName()), make);
  }

  lemma DataPropertyDomainAxiom()
    ensures Faithful(AxiomOf, 93)
  {
    hide Encodes, Faithful;
    ItemArguments();
    var make := (x: Text, y: Class) => DataPropertyDomain(x, y);
    forall s | StatementTag(s) == 93 ensures exists x, y :: s == make(x, y) {
      assert s == make(s.iri, s.domain);
    }
    Axiom2(93, One(DataName()), One(ClassTree), make);
  }

  lemma DataPropertyRangeAxiom()
    ensures Faithful(AxiomOf, 94)
  {
    hide Encodes, Faithful;
    ItemArguments();
    var make := (x: Text, y: Range) => DataPropertyRange(x, y);
    forall s | StatementTag(s) == 94 ensures exists x, y :: s == make(x, y) {
      assert s == make(s.iri, s.range);
    }
    Axiom2(94, One(DataName()), One(RangeTree), make);
  }

  lemma FunctionalDataPropertyAxiom()
    ensures Faithful(AxiomOf, 95)
  {
    hide Encodes, Faithful;
    ItemArguments();
    var make := (x: Text) => FunctionalDataProperty(x);
    forall s | StatementTag(s) == 95 ensures exists x :: s == make(x) {
      assert s == make(s.iri);
    }
    Axiom1(95, One(DataName()), make);
  }

  lemma DatatypeDefinitionAxiom()
    ensures Faithful(AxiomOf, 100)
  {
    hide Encodes, Faithful;
    ItemArguments();
    var make := (x: Text, y: Range) => DatatypeDefinition(x, y);
    forall s | StatementTag(s) == 100 ensures exists x, y :: s == make(x, y) {
      assert s == make(s.iri, s.range);
    }
    Axiom2(100, One(Names(R.DatatypeEntity)), One(RangeTree), make);
  }

  lemma HasKeyAxiom()
    ensures Faithful(AxiomOf, 101)
  {
    hide Encodes, Faithful;
    ItemArguments();
    var make := (x: Class, y: set<Property>, z: set<Text>) => HasKey(x, y, z);
    forall s | StatementTag(s) == 101 ensures exists x, y, z :: s == make(x, y, z) {
      assert s == make(s.keyed, s.properties, s.iris);
    }
    Axiom3(101, One(ClassTree), Set(PropertyTree), Set(DataName()), make);
  }

  lemma SameIndividualAxiom()
    ensures Faithful(AxiomOf, 110)
  {
    hide Encodes, Faithful;
    ItemArguments();
    var make := (x: set<Individual>) => SameIndividual(x);
    forall s | StatementTag(s) == 110 ensures exists x :: s == make(x) {
      assert s == make(s.individuals);
    }
    Axiom1(110, Set(IndividualTree), make);
  }

  lemma DifferentIndividualsAxiom()
    ensures Faithful(AxiomOf, 111)
  {
    hide Encodes, Faithful;
    ItemArguments();
    var make := (x: set<Individual>) => DifferentIndividuals(x);
    forall s | StatementTag(s) == 111 ensures exists x :: s == make(x) {
      assert s == make(s.individuals);
    }
    Axiom1(111, Set(IndividualTree), make);
  }

  lemma ClassAssertionAxiom()
    ensures Faithful(AxiomOf, 112)
  {
    hide Encodes, Faithful;
    ItemArguments();
    var make := (x: Class, y: Individual) => ClassAssertion(x, y);
    forall s | StatementTag(s) == 112 ensures exists x, y :: s == make(x, y) {
      assert s == make(s.asserted, s.individual);
    }
    Axiom2(112, One(ClassTree), One(IndividualTree), make);
  }

  lemma ObjectPropertyAssertionAxiom()
    ensures Faithful(AxiomOf, 113)
  {
    hide Encodes, Faithful;
    ItemArguments();
    var make := (x: Property, y: Individual, z: Individual) => ObjectPropertyAssertion(x, y, z);
    forall s | StatementTag(s) == 113 ensures exists x, y, z :: s == make(x, y, z) {
      assert s == make(s.property, s.source, s.target);
    }
    Axiom3(113, One(PropertyTree), One(IndividualTree), One(IndividualTree), make);
  }

  lemma NegativeObjectPropertyAssertionAxiom()
    ensures Faithful(AxiomOf, 114)
  {
    hide Encodes, Faithful;
    ItemArguments();
    var make := (x: Property, y: Individual, z: Individual) => NegativeObjectPropertyAssertion(x, y, z);
    forall s | StatementTag(s) == 114 ensures exists x, y, z :: s == make(x, y, z) {
      assert s == make(s.property, s.source, s.target);
    }
    Axiom3(114, One(PropertyTree), One(IndividualTree), One(IndividualTree), make);
  }

  lemma DataPropertyAssertionAxiom()
    ensures Faithful(AxiomOf, 115)
  {
    hide Encodes, Faithful;
    ItemArguments();
    var make := (x: Text, y: Individual, z: Literal) => DataPropertyAssertion(x, y, z);
    forall s | StatementTag(s) == 115 ensures exists x, y, z :: s == make(x, y, z) {
      assert s == make(s.iri, s.source, s.value);
    }
    Axiom3(115, One(DataName()), One(IndividualTree), One(LiteralTree), make);
  }

  lemma NegativeDataPropertyAssertionAxiom()
    ensures Faithful(AxiomOf, 116)
  {
    hide Encodes, Faithful;
    ItemArguments();
    var make := (x: Text, y: Individual, z: Literal) => NegativeDataPropertyAssertion(x, y, z);
    forall s | StatementTag(s) == 116 ensures exists x, y, z :: s == make(x, y, z) {
      assert s == make(s.iri, s.source, s.value);
    }
    Axiom3(116, One(DataName()), One(IndividualTree), One(LiteralTree), make);
  }

  lemma AnnotationAssertionAxiom()
    ensures Faithful(AxiomOf, 120)
  {
    hide Encodes, Faithful;
    ItemArguments();
    var make := (x: Text, y: AnnotationSubject, z: AnnotationValue) => AnnotationAssertion(x, y, z);
    forall s | StatementTag(s) == 120 ensures exists x, y, z :: s == make(x, y, z) {
      assert s == make(s.iri, s.subject, s.annotationValue);
    }
    Axiom3(120, One(AnnotationName()), One(SubjectTree), One(ValueTree), make);
  }

  lemma SubAnnotationPropertyOfAxiom()
    ensures Faithful(AxiomOf, 121)
  {
    hide Encodes, Faithful;
    ItemArguments();
    var make := (x: Text, y: Text) => SubAnnotationPropertyOf(x, y);
    forall s | StatementTag(s) == 121 ensures exists x, y :: s == make(x, y) {
      assert s == make(s.subIri, s.superIri);
    }
    Axiom2(121, One(AnnotationName()), One(AnnotationName()), make);
  }

  lemma AnnotationPropertyDomainAxiom()
    ensures Faithful(AxiomOf, 122)
  {
    hide Encodes, Faithful;
    ItemArguments();
    var make := (x: Text, y: Text) => AnnotationPropertyDomain(x, y);
    forall s | StatementTag(s) == 122 ensures exists x, y :: s == make(x, y) {
      assert s == make(s.iri, s.domainIri);
    }
    Axiom2(122, One(AnnotationName()), One(IriTree), make);
  }

  lemma AnnotationPropertyRangeAxiom()
    ensures Faithful(AxiomOf, 123)
  {
    hide Encodes, Faithful;
    ItemArguments();
    var make := (x: Text, y: Text) => AnnotationPropertyRange(x, y);
    forall s | StatementTag(s) == 123 ensures exists x, y :: s == make(x, y) {
      assert s == make(s.iri, s.rangeIri);
    }
    Axiom2(123, One(AnnotationName()), One(IriTree), make);
  }
  lemma CharacteristicAxiom(c: Characteristic)
    ensures Faithful(AxiomOf, CharacteristicTag(c))
  {
    hide Encodes, Faithful;
    ItemArguments();
    var make := (x: Property) => ObjectPropertyIs(c, x);
    forall s | StatementTag(s) == CharacteristicTag(c) ensures exists x :: s == make(x) {
      assert s == make(s.property);
    }
    Axiom1(CharacteristicTag(c), One(PropertyTree), make);
  }
}
