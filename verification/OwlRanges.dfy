/** The trees of annotations, object properties and data ranges. */
module OwlRanges {
  import opened Bytes
  import opened Structure
  import opened Trees
  import opened Existence
  import opened OwlLedger
  import opened OwlParts
  import opened OwlSyntax
  import opened OwlTerms
  import R = Rows

  // ---------- Annotations ----------

  lemma AnnotationIs(a: Annotation)
    ensures AnnotationTree(a) ==
      Tree(5, [One(AnnotationName())(a.property), One(ValueTree)(a.value), Set(AnnotationTree)(a.annotations)])
  {
    assert (set x | x in a.annotations :: AnnotationTree(x)) == Image(AnnotationTree, a.annotations);
  }

  lemma AnnotationArguments()
    ensures Encodes(One(AnnotationName()), R.NodeFieldRole(R.AnnotationProperty))
    ensures Encodes(One(ValueTree), R.NodeFieldRole(R.AnnotationValue))
  {
    hide Encodes, Represents;
    NamesRepresent(R.AnnotationPropertyEntity, R.AnnotationProperty);
    OneEncodes(AnnotationName(), R.AnnotationProperty);
    ValueRepresents();
    OneEncodes(ValueTree, R.AnnotationValue);
  }

  lemma {:induction false} AnnotationPlays(a: Annotation)
    ensures Plays(R.Annotation, AnnotationTree(a))
    decreases a
  {
    hide Sound, Proper, AnnotationTree, ValueTree;
    AnnotationArguments();
    AnnotationIs(a);
    forall x | x in a.annotations ensures Plays(R.Annotation, AnnotationTree(x)) {
      AnnotationPlays(x);
    }
    SetProper(R.Annotation, Set(AnnotationTree)(a.annotations));
    Made3(5, One(AnnotationName())(a.property), One(ValueTree)(a.value), Set(AnnotationTree)(a.annotations));
  }

  lemma {:induction false} AnnotationParts(a: Annotation, b: Annotation)
    requires AnnotationTree(a) == AnnotationTree(b)
    ensures a == b
    decreases a
  {
    hide AnnotationTree, ValueTree, Encodes;
    AnnotationIs(a);
    AnnotationIs(b);
    var s, t := AnnotationTree(a).arguments, AnnotationTree(b).arguments;
    assert s[0] == t[0] && s[1] == t[1] && s[2] == t[2];
    AnnotationArguments();
    Decoded(One(AnnotationName()), R.NodeFieldRole(R.AnnotationProperty), a.property, b.property);
    Decoded(One(ValueTree), R.NodeFieldRole(R.AnnotationValue), a.value, b.value);
    forall x, y | x in a.annotations && y in b.annotations && AnnotationTree(x) == AnnotationTree(y) ensures x == y {
      AnnotationParts(x, y);
    }
    SameImage(AnnotationTree, a.annotations, b.annotations);
  }

  lemma Decoded<A(!new)>(argument: A -> Argument, role: R.FieldRole, x: A, y: A)
    requires Encodes(argument, role) && argument(x) == argument(y)
    ensures x == y
  {
  }

  lemma Valued<A(!new)>(argument: A -> Argument, role: R.FieldRole, a: Argument) returns (x: A)
    requires Encodes(argument, role) && Proper(role, a)
    ensures argument(x) == a
  {
    x :| argument(x) == a;
  }

  lemma {:induction false} AnnotationFrom(t: Tree) returns (a: Annotation)
    requires Plays(R.Annotation, t)
    ensures AnnotationTree(a) == t
    decreases t
  {
    hide Sound, Proper, AnnotationTree, ValueTree, Encodes;
    Opened(t);
    AnnotationArguments();
    var property := Valued(One(AnnotationName()), R.NodeFieldRole(R.AnnotationProperty), t.arguments[0]);
    var value := Valued(One(ValueTree), R.NodeFieldRole(R.AnnotationValue), t.arguments[1]);
    SetProper(R.Annotation, t.arguments[2]);
    forall m | m in t.arguments[2].members ensures exists x :: AnnotationTree(x) == m {
      ChildSmaller(t, 2, m);
      var x := AnnotationFrom(m);
    }
    var annotations := SetOfValues(AnnotationTree, t.arguments[2].members);
    a := Annotation(property, value, annotations);
    AnnotationIs(a);
  }

  lemma AnnotationRepresents()
    ensures Represents(AnnotationTree, R.Annotation)
  {
    hide Plays, AnnotationTree;
    forall a ensures Plays(R.Annotation, AnnotationTree(a)) {
      AnnotationPlays(a);
    }
    forall a, b | AnnotationTree(a) == AnnotationTree(b) ensures a == b {
      AnnotationParts(a, b);
    }
    forall t | Plays(R.Annotation, t) ensures exists a :: AnnotationTree(a) == t {
      var a := AnnotationFrom(t);
    }
  }

  // ---------- Object properties ----------

  ghost function ObjectName(): Text -> Tree { Names(R.ObjectPropertyEntity) }

  lemma InverseBuilt()
    ensures Builds1(10, One(ObjectName())) && Encodes(One(ObjectName()), R.NodeFieldRole(R.ObjectProperty))
  {
    hide Encodes, Represents;
    NamesRepresent(R.ObjectPropertyEntity, R.ObjectProperty);
    OneEncodes(ObjectName(), R.ObjectProperty);
    Constructor1(10, One(ObjectName()));
  }

  lemma PropertyPlays(p: Property)
    ensures Plays(R.ObjectPropertyExpression, PropertyTree(p)) &&
      Plays(R.SubObjectPropertyExpression, PropertyTree(p))
  {
    hide Sound, TreeEntity;
    if p.Direct? {
      EntityTrees(PropertyTree(p));
      EntityIs(R.ObjectPropertyEntity, p.iri, R.ObjectPropertyEntity);
    } else {
      InverseBuilt();
      assert PropertyTree(p) == Tree(10, [One(ObjectName())(p.iri)]);
    }
  }

  lemma PropertyParts(p: Property, q: Property)
    requires PropertyTree(p) == PropertyTree(q)
    ensures p == q
  {
    if p.Direct? && q.Direct? {
      EntityParts(R.ObjectPropertyEntity, p.iri, R.ObjectPropertyEntity, q.iri);
    } else if p.InverseOf? && q.InverseOf? {
      assert PropertyTree(p).arguments[0] == PropertyTree(q).arguments[0];
      EntityParts(R.ObjectPropertyEntity, p.iri, R.ObjectPropertyEntity, q.iri);
    }
  }

  lemma PropertyFrom(t: Tree) returns (p: Property)
    requires Plays(R.ObjectPropertyExpression, t)
    ensures PropertyTree(p) == t
  {
    hide Sound, TreeEntity;
    if t.tag == 10 {
      InverseBuilt();
      var iri :| t == Tree(10, [One(ObjectName())(iri)]);
      p := InverseOf(iri);
    } else {
      EntityTagged(t, R.Only(R.ObjectPropertyEntity));
      EntityTrees(t);
      var kind, iri :| EntityTree(kind, iri) == t;
      EntityIs(kind, iri, R.ObjectPropertyEntity);
      p := Direct(iri);
    }
  }

  lemma PropertyRepresents()
    ensures Represents(PropertyTree, R.ObjectPropertyExpression)
  {
    hide Plays, PropertyTree;
    forall p ensures Plays(R.ObjectPropertyExpression, PropertyTree(p)) {
      PropertyPlays(p);
    }
    forall p, q | PropertyTree(p) == PropertyTree(q) ensures p == q {
      PropertyParts(p, q);
    }
    forall t | Plays(R.ObjectPropertyExpression, t) ensures exists p :: PropertyTree(p) == t {
      var p := PropertyFrom(t);
    }
  }

  lemma ChainBuilt()
    ensures Builds1(11, Sequence(PropertyTree))
    ensures Encodes(Sequence(PropertyTree), R.SequenceRole(R.ObjectPropertyExpression))
  {
    hide Encodes, Represents;
    PropertyRepresents();
    SequenceEncodes(PropertyTree, R.ObjectPropertyExpression);
    Constructor1(11, Sequence(PropertyTree));
  }

  lemma ChainIs(properties: seq<Property>)
    ensures SubPropertyTree(Chain(properties)) == Tree(11, [Sequence(PropertyTree)(properties)])
  {
    assert seq(|properties|, i requires 0 <= i < |properties| => PropertyTree(properties[i])) ==
      Mapped(PropertyTree, properties);
  }

  lemma SubPropertyParts(p: SubProperty, q: SubProperty)
    requires SubPropertyTree(p) == SubPropertyTree(q)
    ensures p == q
  {
    if p.Single? && q.Single? {
      PropertyParts(p.property, q.property);
    } else if p.Chain? && q.Chain? {
      ChainIs(p.properties);
      ChainIs(q.properties);
      assert SubPropertyTree(p).arguments[0] == SubPropertyTree(q).arguments[0];
      ChainBuilt();
      Decoded(Sequence(PropertyTree), R.SequenceRole(R.ObjectPropertyExpression), p.properties, q.properties);
    }
  }

  lemma SubPropertyRepresents()
    ensures Represents(SubPropertyTree, R.SubObjectPropertyExpression)
  {
    hide Sound, TreeEntity, PropertyTree;
    forall p ensures Plays(R.SubObjectPropertyExpression, SubPropertyTree(p)) {
      if p.Single? {
        PropertyPlays(p.property);
      } else {
        ChainBuilt();
        ChainIs(p.properties);
      }
    }
    forall p, q | SubPropertyTree(p) == SubPropertyTree(q) ensures p == q {
      SubPropertyParts(p, q);
    }
    forall t | Plays(R.SubObjectPropertyExpression, t) ensures exists p :: SubPropertyTree(p) == t {
      if t.tag == 11 {
        ChainBuilt();
        var properties :| t == Tree(11, [Sequence(PropertyTree)(properties)]);
        ChainIs(properties);
      } else {
        var p := PropertyFrom(t);
        assert SubPropertyTree(Single(p)) == t;
      }
    }
  }

  // ---------- Facets and data ranges ----------

  lemma FacetArguments()
    ensures Encodes(One(IriTree), R.NodeFieldRole(R.Iri)) && Encodes(One(LiteralTree), R.NodeFieldRole(R.Literal))
  {
    hide Encodes, Represents;
    IriRepresents();
    LiteralRepresents();
    OneEncodes(IriTree, R.Iri);
    OneEncodes(LiteralTree, R.Literal);
  }

  lemma FacetParts(f: Facet, g: Facet)
    requires FacetTree(f) == FacetTree(g)
    ensures f == g
  {
    hide IriTree, LiteralTree, Encodes;
    FacetArguments();
    var a, b := FacetTree(f).arguments, FacetTree(g).arguments;
    assert a[0] == b[0] && a[1] == b[1];
    Decoded(One(IriTree), R.NodeFieldRole(R.Iri), f.iri, g.iri);
    Decoded(One(LiteralTree), R.NodeFieldRole(R.Literal), f.value, g.value);
  }

  lemma FacetBuilt()
    ensures Builds2(20, One(IriTree), One(LiteralTree))
  {
    hide Encodes, Builds2;
    FacetArguments();
    Constructor2(20, One(IriTree), One(LiteralTree));
  }

  lemma FacetRepresents()
    ensures Represents(FacetTree, R.FacetRestriction)
  {
    hide Sound, IriTree, LiteralTree;
    FacetBuilt();
    forall f ensures Plays(R.FacetRestriction, FacetTree(f)) {
      assert FacetTree(f) == Tree(20, [One(IriTree)(f.iri), One(LiteralTree)(f.value)]);
    }
    forall f, g | FacetTree(f) == FacetTree(g) ensures f == g {
      FacetParts(f, g);
    }
    forall t | Plays(R.FacetRestriction, t) ensures exists f :: FacetTree(f) == t {
      var iri, value :| t == Tree(20, [One(IriTree)(iri), One(LiteralTree)(value)]);
      assert FacetTree(Facet(iri, value)) == t;
    }
  }

  ghost function DatatypeName(): Text -> Tree { Names(R.DatatypeEntity) }

  /** The arguments of data ranges that are not themselves data ranges. */
  lemma RangeArguments()
    ensures Encodes(One(DatatypeName()), R.NodeFieldRole(R.Datatype))
    ensures Encodes(Set(LiteralTree), R.SetRole(R.Literal))
    ensures Encodes(Set(FacetTree), R.SetRole(R.FacetRestriction))
  {
    hide Encodes, Represents;
    NamesRepresent(R.DatatypeEntity, R.Datatype);
    OneEncodes(DatatypeName(), R.Datatype);
    LiteralRepresents();
    SetEncodes(LiteralTree, R.Literal);
    FacetRepresents();
    SetEncodes(FacetTree, R.FacetRestriction);
  }

  /** Each data range as its constructor and its arguments. */
  lemma RangeIs(r: Range)
    ensures r.DataIntersectionOf? ==> RangeTree(r) == Tree(21, [Set(RangeTree)(r.ranges)])
    ensures r.DataUnionOf? ==> RangeTree(r) == Tree(22, [Set(RangeTree)(r.ranges)])
    ensures r.DataComplementOf? ==> RangeTree(r) == Tree(23, [One(RangeTree)(r.range)])
    ensures r.DataOneOf? ==> RangeTree(r) == Tree(24, [Set(LiteralTree)(r.literals)])
    ensures r.DatatypeRestriction? ==>
      RangeTree(r) == Tree(25, [One(DatatypeName())(r.iri), Set(FacetTree)(r.facets)])
  {
    match r {
      case DataIntersectionOf(ranges) => assert (set x | x in ranges :: RangeTree(x)) == Image(RangeTree, ranges);
      case DataUnionOf(ranges) => assert (set x | x in ranges :: RangeTree(x)) == Image(RangeTree, ranges);
      case DataOneOf(literals) => assert (set x | x in literals :: LiteralTree(x)) == Image(LiteralTree, literals);
      case DatatypeRestriction(iri, facets) =>
        assert (set x | x in facets :: FacetTree(x)) == Image(FacetTree, facets);
      case _ =>
    }
  }

  lemma {:induction false} RangePlays(r: Range)
    ensures Plays(R.DataRange, RangeTree(r))
    decreases r
  {
    hide Sound, Proper, RangeTree, TreeEntity, Encodes;
    RangeIs(r);
    RangeArguments();
    match r {
      case Datatype(iri) =>
        NamedRange(iri);
      case DataIntersectionOf(ranges) =>
        forall x | x in ranges ensures Plays(R.DataRange, RangeTree(x)) { RangePlays(x); }
        SetProper(R.DataRange, Set(RangeTree)(ranges));
        Made1(21, Set(RangeTree)(ranges));
      case DataUnionOf(ranges) =>
        forall x | x in ranges ensures Plays(R.DataRange, RangeTree(x)) { RangePlays(x); }
        SetProper(R.DataRange, Set(RangeTree)(ranges));
        Made1(22, Set(RangeTree)(ranges));
      case DataComplementOf(range) =>
        RangePlays(range);
        NodeProper(R.DataRange, One(RangeTree)(range));
        Made1(23, One(RangeTree)(range));
      case DataOneOf(literals) =>
        Encoded(Set(LiteralTree), R.SetRole(R.Literal), literals);
        Made1(24, Set(LiteralTree)(literals));
      case DatatypeRestriction(iri, facets) =>
        Encoded(One(DatatypeName()), R.NodeFieldRole(R.Datatype), iri);
        Encoded(Set(FacetTree), R.SetRole(R.FacetRestriction), facets);
        Made2(25, One(DatatypeName())(iri), Set(FacetTree)(facets));
    }
  }

  lemma Encoded<A(!new)>(argument: A -> Argument, role: R.FieldRole, x: A)
    requires Encodes(argument, role)
    ensures Proper(role, argument(x))
  {
  }

  lemma NamedRange(iri: Text)
    ensures RangeTree(Datatype(iri)) == EntityTree(R.DatatypeEntity, iri)
    ensures Plays(R.DataRange, EntityTree(R.DatatypeEntity, iri))
  {
    hide Sound, TreeEntity;
    EntityTrees(EntityTree(R.DatatypeEntity, iri));
    EntityIs(R.DatatypeEntity, iri, R.DatatypeEntity);
  }

  function RangeTag(r: Range): nat {
    match r
    case Datatype(_) => 2
    case DataIntersectionOf(_) => 21
    case DataUnionOf(_) => 22
    case DataComplementOf(_) => 23
    case DataOneOf(_) => 24
    case DatatypeRestriction(_, _) => 25
  }

  lemma RangeTagged(r: Range)
    ensures RangeTree(r).tag == RangeTag(r) && RangeTree(r).arguments != []
  {
  }

  lemma {:induction false} RangeParts(r: Range, q: Range)
    requires RangeTree(r) == RangeTree(q)
    ensures r == q
    decreases r
  {
    hide RangeTree, Encodes, EntityTree;
    RangeTagged(r);
    RangeTagged(q);
    RangeIs(r);
    RangeIs(q);
    RangeArguments();
    var a, b := RangeTree(r).arguments, RangeTree(q).arguments;
    assert a[0] == b[0];
    match r {
      case Datatype(iri) =>
        NamedRange(iri);
        NamedRange(q.iri);
        EntityParts(R.DatatypeEntity, iri, R.DatatypeEntity, q.iri);
      case DataIntersectionOf(ranges) =>
        forall x, y | x in ranges && y in q.ranges && RangeTree(x) == RangeTree(y) ensures x == y { RangeParts(x, y); }
        SameImage(RangeTree, ranges, q.ranges);
      case DataUnionOf(ranges) =>
        forall x, y | x in ranges && y in q.ranges && RangeTree(x) == RangeTree(y) ensures x == y { RangeParts(x, y); }
        SameImage(RangeTree, ranges, q.ranges);
      case DataComplementOf(range) =>
        RangeParts(range, q.range);
      case DataOneOf(literals) =>
        Decoded(Set(LiteralTree), R.SetRole(R.Literal), literals, q.literals);
      case DatatypeRestriction(iri, facets) =>
        assert a[1] == b[1];
        Decoded(One(DatatypeName()), R.NodeFieldRole(R.Datatype), iri, q.iri);
        Decoded(Set(FacetTree), R.SetRole(R.FacetRestriction), facets, q.facets);
    }
  }

  lemma {:induction false} RangeFrom(t: Tree) returns (r: Range)
    requires Plays(R.DataRange, t)
    ensures RangeTree(r) == t
    decreases t
  {
    hide Sound, Proper, RangeTree, Encodes, TreeEntity, EntityTree;
    Opened(t);
    RangeArguments();
    if t.tag == 21 || t.tag == 22 {
      SetProper(R.DataRange, t.arguments[0]);
      forall m | m in t.arguments[0].members ensures exists x :: RangeTree(x) == m {
        ChildSmaller(t, 0, m);
        var x := RangeFrom(m);
      }
      var ranges := SetOfValues(RangeTree, t.arguments[0].members);
      r := if t.tag == 21 then DataIntersectionOf(ranges) else DataUnionOf(ranges);
    } else if t.tag == 23 {
      NodeProper(R.DataRange, t.arguments[0]);
      ChildSmaller(t, 0, t.arguments[0].tree);
      var range := RangeFrom(t.arguments[0].tree);
      r := DataComplementOf(range);
    } else if t.tag == 24 {
      var literals := Valued(Set(LiteralTree), R.SetRole(R.Literal), t.arguments[0]);
      r := DataOneOf(literals);
    } else if t.tag == 25 {
      var iri := Valued(One(DatatypeName()), R.NodeFieldRole(R.Datatype), t.arguments[0]);
      var facets := Valued(Set(FacetTree), R.SetRole(R.FacetRestriction), t.arguments[1]);
      r := DatatypeRestriction(iri, facets);
    } else {
      EntityTagged(t, R.Only(R.DatatypeEntity));
      EntityTrees(t);
      var kind, iri :| EntityTree(kind, iri) == t;
      EntityIs(kind, iri, R.DatatypeEntity);
      NamedRange(iri);
      r := Datatype(iri);
    }
    RangeIs(r);
  }

  lemma RangeRepresents()
    ensures Represents(RangeTree, R.DataRange)
  {
    hide Plays, RangeTree;
    forall r ensures Plays(R.DataRange, RangeTree(r)) {
      RangePlays(r);
    }
    forall r, q | RangeTree(r) == RangeTree(q) ensures r == q {
      RangeParts(r, q);
    }
    forall t | Plays(R.DataRange, t) ensures exists r :: RangeTree(r) == t {
      var r := RangeFrom(t);
    }
  }
}
