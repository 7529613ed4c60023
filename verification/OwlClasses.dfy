/** The trees of class expressions. */
module OwlClasses {
  import opened Bytes
  import opened Structure
  import opened Trees
  import opened Existence
  import opened OwlLedger
  import opened OwlParts
  import opened OwlSyntax
  import opened OwlTerms
  import opened OwlRanges
  import R = Rows

  /** The arguments of class expressions that are not themselves class expressions. */
  ghost predicate PartsEncode() {
    && Encodes(One(PropertyTree), R.NodeFieldRole(R.ObjectPropertyExpression))
    && Encodes(One(IndividualTree), R.NodeFieldRole(R.Individual))
    && Encodes(Set(IndividualTree), R.SetRole(R.Individual))
    && Encodes(One(RangeTree), R.NodeFieldRole(R.DataRange)) && Encodes(One(LiteralTree), R.NodeFieldRole(R.Literal))
    && Encodes(One(DataName()), R.NodeFieldRole(R.DataProperty))
    && Encodes(Sequence(DataName()), R.SequenceRole(R.DataProperty))
    && Encodes(IntegerOf, R.ScalarRole(R.INTEGER))
  }

  lemma ClassArguments()
    ensures PartsEncode()
  {
    hide Encodes, Represents;
    PropertyRepresents();
    OneEncodes(PropertyTree, R.ObjectPropertyExpression);
    IndividualRepresents();
    OneEncodes(IndividualTree, R.Individual);
    SetEncodes(IndividualTree, R.Individual);
    RangeRepresents();
    OneEncodes(RangeTree, R.DataRange);
    LiteralRepresents();
    OneEncodes(LiteralTree, R.Literal);
    NamesRepresent(R.DataPropertyEntity, R.DataProperty);
    OneEncodes(DataName(), R.DataProperty);
    SequenceEncodes(DataName(), R.DataProperty);
    IntegerEncodes();
  }

  // ---------- Constructors ----------

  /** The tag and the arguments of a compound class expression. */
  ghost function ClassTag(c: Class): nat {
    match c
    case NamedClass(_) => 2
    case ObjectIntersectionOf(_) => 30
    case ObjectUnionOf(_) => 31
    case ObjectComplementOf(_) => 32
    case ObjectOneOf(_) => 33
    case ObjectSomeValuesFrom(_, _) => 34
    case ObjectAllValuesFrom(_, _) => 35
    case ObjectHasValue(_, _) => 36
    case ObjectHasSelf(_) => 37
    case ObjectMinCardinality(_, _, _) => 38
    case ObjectMaxCardinality(_, _, _) => 39
    case ObjectExactCardinality(_, _, _) => 40
    case DataSomeValuesFrom(_, _) => 41
    case DataAllValuesFrom(_, _) => 42
    case DataHasValue(_, _) => 43
    case DataMinCardinality(_, _, _) => 44
    case DataMaxCardinality(_, _, _) => 45
    case DataExactCardinality(_, _, _) => 46
  }

  ghost function ClassFields(c: Class): seq<Argument> {
    match c
    case NamedClass(iri) => [KindOf(R.ClassEntity), One(IriTree)(iri)]
    case ObjectIntersectionOf(classes) => [Set(ClassTree)(classes)]
    case ObjectUnionOf(classes) => [Set(ClassTree)(classes)]
    case ObjectComplementOf(filler) => [One(ClassTree)(filler)]
    case ObjectOneOf(individuals) => [Set(IndividualTree)(individuals)]
    case ObjectSomeValuesFrom(p, filler) => [One(PropertyTree)(p), One(ClassTree)(filler)]
    case ObjectAllValuesFrom(p, filler) => [One(PropertyTree)(p), One(ClassTree)(filler)]
    case ObjectHasValue(p, i) => [One(PropertyTree)(p), One(IndividualTree)(i)]
    case ObjectHasSelf(p) => [One(PropertyTree)(p)]
    case ObjectMinCardinality(n, p, filler) => [IntegerOf(n), One(PropertyTree)(p), One(ClassTree)(filler)]
    case ObjectMaxCardinality(n, p, filler) => [IntegerOf(n), One(PropertyTree)(p), One(ClassTree)(filler)]
    case ObjectExactCardinality(n, p, filler) => [IntegerOf(n), One(PropertyTree)(p), One(ClassTree)(filler)]
    case DataSomeValuesFrom(iris, r) => [Sequence(DataName())(iris), One(RangeTree)(r)]
    case DataAllValuesFrom(iris, r) => [Sequence(DataName())(iris), One(RangeTree)(r)]
    case DataHasValue(iri, l) => [One(DataName())(iri), One(LiteralTree)(l)]
    case DataMinCardinality(n, iri, r) => [IntegerOf(n), One(DataName())(iri), One(RangeTree)(r)]
    case DataMaxCardinality(n, iri, r) => [IntegerOf(n), One(DataName())(iri), One(RangeTree)(r)]
    case DataExactCardinality(n, iri, r) => [IntegerOf(n), One(DataName())(iri), One(RangeTree)(r)]
  }

  lemma ListsAgree(individuals: set<Individual>, iris: seq<Text>)
    ensures Set(IndividualTree)(individuals) == SetArgument(set x | x in individuals :: IndividualTree(x))
    ensures Sequence(DataName())(iris) == DataProperties(iris)
  {
    assert (set x | x in individuals :: IndividualTree(x)) == Image(IndividualTree, individuals);
    assert seq(|iris|, i requires 0 <= i < |iris| => DataPropertyTree(iris[i])) == Mapped(DataName(), iris);
  }

  lemma ClassIs(c: Class)
    ensures ClassTree(c) == Tree(ClassTag(c), ClassFields(c))
  {
    match c {
      case ObjectIntersectionOf(classes) => assert (set x | x in classes :: ClassTree(x)) == Image(ClassTree, classes);
      case ObjectUnionOf(classes) => assert (set x | x in classes :: ClassTree(x)) == Image(ClassTree, classes);
      case ObjectOneOf(individuals) => ListsAgree(individuals, []);
      case DataSomeValuesFrom(iris, _) => ListsAgree({}, iris);
      case DataAllValuesFrom(iris, _) => ListsAgree({}, iris);
      case _ =>
    }
  }

  /** Class expressions inside a class expression. */
  ghost predicate Inside(c: Class, x: Class) {
    match c
    case ObjectIntersectionOf(classes) => x in classes
    case ObjectUnionOf(classes) => x in classes
    case ObjectComplementOf(filler) => x == filler
    case ObjectSomeValuesFrom(_, filler) => x == filler
    case ObjectAllValuesFrom(_, filler) => x == filler
    case ObjectMinCardinality(_, _, filler) => x == filler
    case ObjectMaxCardinality(_, _, filler) => x == filler
    case ObjectExactCardinality(_, _, filler) => x == filler
    case _ => false
  }

  lemma InsideSmaller(c: Class, x: Class)
    requires Inside(c, x)
    ensures c decreases to x
  {
  }

  // ---------- Every class expression has a tree of the role ----------

  lemma NamedClassPlays(iri: Text)
    ensures ClassTree(NamedClass(iri)) == EntityTree(R.ClassEntity, iri)
    ensures Plays(R.ClassExpression, EntityTree(R.ClassEntity, iri))
  {
    hide Sound, TreeEntity;
    EntityTrees(EntityTree(R.ClassEntity, iri));
    EntityIs(R.ClassEntity, iri, R.ClassEntity);
  }

  /** The arguments are proper, given that those inside are. */
  lemma FieldsProper(c: Class)
    requires !c.NamedClass? && forall x :: Inside(c, x) ==> Plays(R.ClassExpression, ClassTree(x))
    ensures Known(ClassTag(c)) && |ClassFields(c)| == |Roles(ClassTag(c))|
    ensures forall k :: 0 <= k < |ClassFields(c)| ==> Proper(Roles(ClassTag(c))[k], ClassFields(c)[k])
  {
    hide Sound, Proper, ClassTree, IndividualTree, RangeTree, LiteralTree, PropertyTree, IriTree, Plays, Encodes;
    ClassArguments();
    match c {
      case ObjectIntersectionOf(classes) =>
        SetProper(R.ClassExpression, Set(ClassTree)(classes));
      case ObjectUnionOf(classes) =>
        SetProper(R.ClassExpression, Set(ClassTree)(classes));
      case ObjectComplementOf(filler) =>
        NodeProper(R.ClassExpression, One(ClassTree)(filler));
      case ObjectOneOf(individuals) =>
        Encoded(Set(IndividualTree), R.SetRole(R.Individual), individuals);
      case ObjectSomeValuesFrom(p, filler) =>
        FillerProper(p, filler);
      case ObjectAllValuesFrom(p, filler) =>
        FillerProper(p, filler);
      case ObjectHasValue(p, i) =>
        Encoded(One(PropertyTree), R.NodeFieldRole(R.ObjectPropertyExpression), p);
        Encoded(One(IndividualTree), R.NodeFieldRole(R.Individual), i);
      case ObjectHasSelf(p) =>
        Encoded(One(PropertyTree), R.NodeFieldRole(R.ObjectPropertyExpression), p);
      case ObjectMinCardinality(n, p, filler) =>
        Encoded<nat>(IntegerOf, R.ScalarRole(R.INTEGER), n);
        FillerProper(p, filler);
      case ObjectMaxCardinality(n, p, filler) =>
        Encoded<nat>(IntegerOf, R.ScalarRole(R.INTEGER), n);
        FillerProper(p, filler);
      case ObjectExactCardinality(n, p, filler) =>
        Encoded<nat>(IntegerOf, R.ScalarRole(R.INTEGER), n);
        FillerProper(p, filler);
      case _ =>
        DataFieldsProper(c);
    }
  }

  lemma FillerProper(p: Property, filler: Class)
    requires Plays(R.ClassExpression, ClassTree(filler))
    ensures Proper(R.NodeFieldRole(R.ObjectPropertyExpression), One(PropertyTree)(p))
    ensures Proper(R.NodeFieldRole(R.ClassExpression), One(ClassTree)(filler))
  {
    hide Encodes, Proper, Plays, PropertyTree, ClassTree;
    ClassArguments();
    Encoded(One(PropertyTree), R.NodeFieldRole(R.ObjectPropertyExpression), p);
    NodeProper(R.ClassExpression, One(ClassTree)(filler));
  }

  lemma DataFieldsProper(c: Class)
    requires 41 <= ClassTag(c) <= 46
    ensures |ClassFields(c)| == |Roles(ClassTag(c))|
    ensures forall k :: 0 <= k < |ClassFields(c)| ==> Proper(Roles(ClassTag(c))[k], ClassFields(c)[k])
  {
    hide Proper, ClassTree, RangeTree, LiteralTree, Encodes, DataName;
    ClassArguments();
    if c.DataSomeValuesFrom? || c.DataAllValuesFrom? {
      Encoded(Sequence(DataName()), R.SequenceRole(R.DataProperty), c.properties);
      Encoded(One(RangeTree), R.NodeFieldRole(R.DataRange), c.range);
    } else if c.DataHasValue? {
      Encoded(One(DataName()), R.NodeFieldRole(R.DataProperty), c.dataProperty);
      Encoded(One(LiteralTree), R.NodeFieldRole(R.Literal), c.literal);
    } else {
      Encoded<nat>(IntegerOf, R.ScalarRole(R.INTEGER), c.count);
      Encoded(One(DataName()), R.NodeFieldRole(R.DataProperty), c.dataProperty);
      Encoded(One(RangeTree), R.NodeFieldRole(R.DataRange), c.range);
    }
  }

  lemma {:induction false} ClassPlays(c: Class)
    ensures Plays(R.ClassExpression, ClassTree(c))
    decreases c
  {
    hide Sound, Proper, ClassTree, ClassFields, Roles;
    if c.NamedClass? {
      NamedClassPlays(c.iri);
    } else {
      forall x | Inside(c, x) ensures Plays(R.ClassExpression, ClassTree(x)) {
        InsideSmaller(c, x);
        ClassPlays(x);
      }
      FieldsProper(c);
      ClassIs(c);
      MadeOf(ClassTag(c), ClassFields(c));
    }
  }

  lemma MadeOf(tag: nat, fields: seq<Argument>)
    requires Known(tag) && |fields| == |Roles(tag)|
    requires forall k :: 0 <= k < |fields| ==> Proper(Roles(tag)[k], fields[k])
    ensures Sound(Tree(tag, fields))
  {
    hide Roles;
  }

  // ---------- Different class expressions have different trees ----------

  lemma {:induction false} ClassParts(c: Class, d: Class)
    requires ClassTree(c) == ClassTree(d)
    ensures c == d
    decreases c
  {
    hide ClassTree, ClassFields;
    ClassIs(c);
    ClassIs(d);
    forall x, y | Inside(c, x) && Inside(d, y) && ClassTree(x) == ClassTree(y) ensures x == y {
      InsideSmaller(c, x);
      ClassParts(x, y);
    }
    FieldsDecide(c, d);
  }

  /** Equal tags and arguments mean equal class expressions, given that those inside are not confused. */
  lemma FieldsDecide(c: Class, d: Class)
    requires ClassTag(c) == ClassTag(d) && ClassFields(c) == ClassFields(d)
    requires forall x, y :: Inside(c, x) && Inside(d, y) && ClassTree(x) == ClassTree(y) ==> x == y
    ensures c == d
  {
    hide ClassTree, IndividualTree, RangeTree, LiteralTree, PropertyTree, IriTree, Encodes;
    ClassArguments();
    var a, b := ClassFields(c), ClassFields(d);
    assert forall k :: 0 <= k < |a| ==> a[k] == b[k];
    if c.NamedClass? {
      IriRepresents();
      assert a[1] == b[1];
    } else if c.ObjectIntersectionOf? || c.ObjectUnionOf? {
      assert a[0] == b[0];
      SameImage(ClassTree, c.classes, d.classes);
    } else {
      OtherFieldsDecide(c, d);
    }
  }

  lemma OtherFieldsDecide(c: Class, d: Class)
    requires ClassTag(c) == ClassTag(d) && ClassFields(c) == ClassFields(d)
    requires !c.NamedClass? && !c.ObjectIntersectionOf? && !c.ObjectUnionOf?
    requires forall x, y :: Inside(c, x) && Inside(d, y) && ClassTree(x) == ClassTree(y) ==> x == y
    ensures c == d
  {
    hide ClassTree, IndividualTree, RangeTree, LiteralTree, PropertyTree, IriTree, Encodes, DataName;
    ClassArguments();
    var a, b := ClassFields(c), ClassFields(d);
    assert a[0] == b[0] && (|a| >= 2 ==> a[1] == b[1]) && (|a| >= 3 ==> a[2] == b[2]);
    match c {
      case ObjectComplementOf(filler) =>
      case ObjectOneOf(individuals) =>
        Decoded(Set(IndividualTree), R.SetRole(R.Individual), individuals, d.individuals);
      case ObjectHasValue(p, i) =>
        Decoded(One(PropertyTree), R.NodeFieldRole(R.ObjectPropertyExpression), p, d.property);
        Decoded(One(IndividualTree), R.NodeFieldRole(R.Individual), i, d.individual);
      case DataSomeValuesFrom(iris, r) =>
        DataListDecided(iris, d.properties, r, d.range);
      case DataAllValuesFrom(iris, r) =>
        DataListDecided(iris, d.properties, r, d.range);
      case DataHasValue(iri, l) =>
        Decoded(One(DataName()), R.NodeFieldRole(R.DataProperty), iri, d.dataProperty);
        Decoded(One(LiteralTree), R.NodeFieldRole(R.Literal), l, d.literal);
      case DataMinCardinality(_, iri, r) =>
        DataDecided(iri, d.dataProperty, r, d.range);
      case DataMaxCardinality(_, iri, r) =>
        DataDecided(iri, d.dataProperty, r, d.range);
      case DataExactCardinality(_, iri, r) =>
        DataDecided(iri, d.dataProperty, r, d.range);
      case ObjectSomeValuesFrom(p, _) =>
        Decoded(One(PropertyTree), R.NodeFieldRole(R.ObjectPropertyExpression), p, d.property);
      case ObjectAllValuesFrom(p, _) =>
        Decoded(One(PropertyTree), R.NodeFieldRole(R.ObjectPropertyExpression), p, d.property);
      case ObjectHasSelf(p) =>
        Decoded(One(PropertyTree), R.NodeFieldRole(R.ObjectPropertyExpression), p, d.property);
      case ObjectMinCardinality(_, p, _) =>
        Decoded(One(PropertyTree), R.NodeFieldRole(R.ObjectPropertyExpression), p, d.property);
      case ObjectMaxCardinality(_, p, _) =>
        Decoded(One(PropertyTree), R.NodeFieldRole(R.ObjectPropertyExpression), p, d.property);
      case ObjectExactCardinality(_, p, _) =>
        Decoded(One(PropertyTree), R.NodeFieldRole(R.ObjectPropertyExpression), p, d.property);
      case _ =>
    }
  }

  lemma DataDecided(iri: Text, iri': Text, r: Range, r': Range)
    requires One(RangeTree)(r) == One(RangeTree)(r') && One(DataName())(iri) == One(DataName())(iri')
    ensures iri == iri' && r == r'
  {
    hide RangeTree, Encodes, DataName;
    ClassArguments();
    Decoded(One(RangeTree), R.NodeFieldRole(R.DataRange), r, r');
    Decoded(One(DataName()), R.NodeFieldRole(R.DataProperty), iri, iri');
  }

  lemma DataListDecided(iris: seq<Text>, iris': seq<Text>, r: Range, r': Range)
    requires One(RangeTree)(r) == One(RangeTree)(r') && Sequence(DataName())(iris) == Sequence(DataName())(iris')
    ensures iris == iris' && r == r'
  {
    hide RangeTree, Encodes, DataName;
    ClassArguments();
    Decoded(One(RangeTree), R.NodeFieldRole(R.DataRange), r, r');
    Decoded(Sequence(DataName()), R.SequenceRole(R.DataProperty), iris, iris');
  }

  // ---------- Every tree of the role has a class expression ----------

  lemma {:induction false} ClassFrom(t: Tree) returns (c: Class)
    requires Plays(R.ClassExpression, t)
    ensures ClassTree(c) == t
    decreases t
  {
    hide Sound, Proper, ClassTree, Encodes, TreeEntity, EntityTree, Roles;
    if t.tag == 30 || t.tag == 31 {
      OpenedSet(t);
      forall m | m in t.arguments[0].members ensures exists x :: ClassTree(x) == m {
        ChildSmaller(t, 0, m);
        var x := ClassFrom(m);
      }
      var classes := SetOfValues(ClassTree, t.arguments[0].members);
      c := if t.tag == 30 then ObjectIntersectionOf(classes) else ObjectUnionOf(classes);
    } else if t.tag == 32 || 34 <= t.tag <= 35 || 38 <= t.tag <= 40 {
      var k: nat := if t.tag == 32 then 0 else if t.tag <= 35 then 1 else 2;
      OpenedFiller(t, k);
      ChildSmaller(t, k, t.arguments[k].tree);
      var filler := ClassFrom(t.arguments[k].tree);
      c := WithFiller(t, filler);
    } else if 30 <= t.tag <= 46 {
      c := WithoutFiller(t);
    } else {
      EntityTagged(t, R.Only(R.ClassEntity));
      EntityTrees(t);
      var kind, iri :| EntityTree(kind, iri) == t;
      EntityIs(kind, iri, R.ClassEntity);
      NamedClassPlays(iri);
      c := NamedClass(iri);
    }
    ClassIs(c);
  }

  lemma OpenedSet(t: Tree)
    requires Sound(t) && (t.tag == 30 || t.tag == 31)
    ensures |t.arguments| == 1 && t.arguments[0].SetArgument? && t == Tree(t.tag, [t.arguments[0]])
    ensures forall m :: m in t.arguments[0].members ==> Plays(R.ClassExpression, m)
  {
    hide Sound, Proper;
    Opened(t);
    SetProper(R.ClassExpression, t.arguments[0]);
  }

  lemma OpenedFiller(t: Tree, k: nat)
    requires Sound(t) && (t.tag == 32 || 34 <= t.tag <= 35 || 38 <= t.tag <= 40)
    requires k == if t.tag == 32 then 0 else if t.tag <= 35 then 1 else 2
    ensures k < |t.arguments| && t.arguments[k].TreeArgument? && Plays(R.ClassExpression, t.arguments[k].tree)
  {
    hide Sound, Proper;
    Opened(t);
    NodeProper(R.ClassExpression, t.arguments[k]);
  }

  lemma WithFiller(t: Tree, filler: Class) returns (c: Class)
    requires Sound(t) && (t.tag == 32 || 34 <= t.tag <= 35 || 38 <= t.tag <= 40)
    requires
      var k := if t.tag == 32 then 0 else if t.tag <= 35 then 1 else 2;
      k < |t.arguments| && t.arguments[k] == TreeArgument(ClassTree(filler))
    ensures ClassTree(c) == t
  {
    hide Sound, Proper, ClassTree, Encodes, PropertyTree;
    Opened(t);
    ClassArguments();
    if t.tag == 32 {
      c := ObjectComplementOf(filler);
    } else if t.tag <= 35 {
      var p := Valued(One(PropertyTree), R.NodeFieldRole(R.ObjectPropertyExpression), t.arguments[0]);
      c := if t.tag == 34 then ObjectSomeValuesFrom(p, filler) else ObjectAllValuesFrom(p, filler);
    } else {
      var n := Valued<nat>(IntegerOf, R.ScalarRole(R.INTEGER), t.arguments[0]);
      var p := Valued(One(PropertyTree), R.NodeFieldRole(R.ObjectPropertyExpression), t.arguments[1]);
      c := if t.tag == 38 then ObjectMinCardinality(n, p, filler)
           else if t.tag == 39 then ObjectMaxCardinality(n, p, filler) else ObjectExactCardinality(n, p, filler);
    }
    ClassIs(c);
  }

  lemma WithoutFiller(t: Tree) returns (c: Class)
    requires Sound(t) && (t.tag == 33 || 36 <= t.tag <= 37 || 41 <= t.tag <= 46)
    ensures ClassTree(c) == t
  {
    hide Sound, Proper, ClassTree, Encodes, PropertyTree, IndividualTree, RangeTree, LiteralTree, DataName, Set,
      Sequence;
    Opened(t);
    ClassArguments();
    if t.tag == 33 {
      var individuals := Valued(Set(IndividualTree), R.SetRole(R.Individual), t.arguments[0]);
      c := ObjectOneOf(individuals);
    } else if t.tag <= 37 {
      var p := Valued(One(PropertyTree), R.NodeFieldRole(R.ObjectPropertyExpression), t.arguments[0]);
      if t.tag == 36 {
        var i := Valued(One(IndividualTree), R.NodeFieldRole(R.Individual), t.arguments[1]);
        c := ObjectHasValue(p, i);
      } else {
        c := ObjectHasSelf(p);
      }
    } else if t.tag <= 42 {
      var iris := Valued(Sequence(DataName()), R.SequenceRole(R.DataProperty), t.arguments[0]);
      var r := Valued(One(RangeTree), R.NodeFieldRole(R.DataRange), t.arguments[1]);
      c := if t.tag == 41 then DataSomeValuesFrom(iris, r) else DataAllValuesFrom(iris, r);
    } else if t.tag == 43 {
      var iri := Valued(One(DataName()), R.NodeFieldRole(R.DataProperty), t.arguments[0]);
      var l := Valued(One(LiteralTree), R.NodeFieldRole(R.Literal), t.arguments[1]);
      c := DataHasValue(iri, l);
    } else {
      var n := Valued<nat>(IntegerOf, R.ScalarRole(R.INTEGER), t.arguments[0]);
      var iri := Valued(One(DataName()), R.NodeFieldRole(R.DataProperty), t.arguments[1]);
      var r := Valued(One(RangeTree), R.NodeFieldRole(R.DataRange), t.arguments[2]);
      c := if t.tag == 44 then DataMinCardinality(n, iri, r)
           else if t.tag == 45 then DataMaxCardinality(n, iri, r) else DataExactCardinality(n, iri, r);
    }
    ClassIs(c);
  }

  lemma ClassRepresents()
    ensures Represents(ClassTree, R.ClassExpression)
  {
    hide Plays, ClassTree;
    forall c ensures Plays(R.ClassExpression, ClassTree(c)) {
      ClassPlays(c);
    }
    forall c, d | ClassTree(c) == ClassTree(d) ensures c == d {
      ClassParts(c, d);
    }
    forall t | Plays(R.ClassExpression, t) ensures exists c :: ClassTree(c) == t {
      var c := ClassFrom(t);
    }
  }
}
