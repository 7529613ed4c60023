/** The trees of rule atoms, axioms and the other items of an ontology. */
module OwlItems {
  import opened Bytes
  import opened Structure
  import opened Existence
  import opened OwlLedger
  import opened OwlParts
  import opened OwlSyntax
  import opened OwlTerms
  import opened OwlRanges
  import opened OwlClasses
  import R = Rows

  // ---------- Arguments of rule atoms ----------

  lemma VariableBuilt()
    ensures Builds1(140, One(IriTree)) && Encodes(One(IriTree), R.NodeFieldRole(R.Iri))
  {
    hide Encodes, Builds1;
    FacetArguments();
    Constructor1(140, One(IriTree));
  }

  lemma VariableTrees(t: Tree)
    ensures Sound(t) && t.tag == 140 <==> exists iri :: VariableTree(iri) == t
  {
    hide Sound, IriTree;
    VariableBuilt();
    if Sound(t) && t.tag == 140 {
      var iri :| t == Tree(140, [One(IriTree)(iri)]);
      assert VariableTree(iri) == t;
    }
  }

  lemma VariableParts(a: Text, b: Text)
    requires VariableTree(a) == VariableTree(b)
    ensures a == b
  {
    hide IriTree, Encodes;
    VariableBuilt();
    assert VariableTree(a).arguments[0] == VariableTree(b).arguments[0];
    Decoded(One(IriTree), R.NodeFieldRole(R.Iri), a, b);
  }

  lemma IndividualArgumentRepresents()
    ensures Represents(IndividualArgumentTree, R.IndividualArgument)
  {
    hide Sound, IndividualTree, VariableTree, TreeEntity;
    IndividualRepresents();
    forall a ensures Plays(R.IndividualArgument, IndividualArgumentTree(a)) {
      IndividualArgumentPlays(a);
    }
    forall a, b | IndividualArgumentTree(a) == IndividualArgumentTree(b) ensures a == b {
      IndividualArgumentParts(a, b);
    }
    forall t | Plays(R.IndividualArgument, t) ensures exists a :: IndividualArgumentTree(a) == t {
      if t.tag == 140 {
        VariableTrees(t);
        var iri :| VariableTree(iri) == t;
        assert IndividualArgumentTree(IndividualVariable(iri)) == t;
      } else {
        assert Plays(R.Individual, t);
        var i :| IndividualTree(i) == t;
        assert IndividualArgumentTree(IndividualIs(i)) == t;
      }
    }
  }

  lemma IndividualArgumentPlays(a: IndividualArgument)
    ensures Plays(R.IndividualArgument, IndividualArgumentTree(a))
  {
    hide Sound, IndividualTree, VariableTree, TreeEntity;
    if a.IndividualIs? {
      IndividualRepresents();
      assert Plays(R.Individual, IndividualTree(a.individual));
    } else {
      VariableTrees(VariableTree(a.iri));
    }
  }

  lemma IndividualArgumentParts(a: IndividualArgument, b: IndividualArgument)
    requires IndividualArgumentTree(a) == IndividualArgumentTree(b)
    ensures a == b
  {
    if a.IndividualIs? && b.IndividualIs? {
      IndividualParts(a.individual, b.individual);
    } else if a.IndividualVariable? && b.IndividualVariable? {
      VariableParts(a.iri, b.iri);
    }
  }

  lemma DataArgumentRepresents()
    ensures Represents(DataArgumentTree, R.DataArgument)
  {
    hide Sound, LiteralTree, VariableTree;
    LiteralRepresents();
    forall a ensures Plays(R.DataArgument, DataArgumentTree(a)) {
      DataArgumentPlays(a);
    }
    forall a, b | DataArgumentTree(a) == DataArgumentTree(b) ensures a == b {
      DataArgumentParts(a, b);
    }
    forall t | Plays(R.DataArgument, t) ensures exists a :: DataArgumentTree(a) == t {
      if t.tag == 140 {
        VariableTrees(t);
        var iri :| VariableTree(iri) == t;
        assert DataArgumentTree(DataVariable(iri)) == t;
      } else {
        assert Plays(R.Literal, t);
        var l :| LiteralTree(l) == t;
        assert DataArgumentTree(OwlSyntax.LiteralIs(l)) == t;
      }
    }
  }

  lemma DataArgumentPlays(a: DataArgument)
    ensures Plays(R.DataArgument, DataArgumentTree(a))
  {
    hide Sound, LiteralTree, VariableTree;
    if a.LiteralIs? {
      LiteralRepresents();
      assert Plays(R.Literal, LiteralTree(a.literal));
    } else {
      VariableTrees(VariableTree(a.iri));
    }
  }

  lemma DataArgumentParts(a: DataArgument, b: DataArgument)
    requires DataArgumentTree(a) == DataArgumentTree(b)
    ensures a == b
  {
    if a.LiteralIs? && b.LiteralIs? {
      LiteralParts(a.literal, b.literal);
    } else if a.DataVariable? && b.DataVariable? {
      VariableParts(a.iri, b.iri);
    }
  }

  // ---------- All arguments ----------

  /** Every argument that items have is a bijection onto its role. */
  ghost predicate AllEncode() {
    && PartsEncode()
    && Encodes(One(ClassTree), R.NodeFieldRole(R.ClassExpression))
    && Encodes(Set(ClassTree), R.SetRole(R.ClassExpression))
    && Encodes(Set(PropertyTree), R.SetRole(R.ObjectPropertyExpression))
    && Encodes(One(SubPropertyTree), R.NodeFieldRole(R.SubObjectPropertyExpression))
    && Encodes(Set(DataName()), R.SetRole(R.DataProperty))
    && Encodes(One(EntityOf), R.NodeFieldRole(R.Entity))
    && Encodes(One(Names(R.ClassEntity)), R.NodeFieldRole(R.Class))
    && Encodes(One(Names(R.DatatypeEntity)), R.NodeFieldRole(R.Datatype))
    && Encodes(One(AnnotationName()), R.NodeFieldRole(R.AnnotationProperty))
    && Encodes(One(SubjectTree), R.NodeFieldRole(R.AnnotationSubject))
    && Encodes(One(ValueTree), R.NodeFieldRole(R.AnnotationValue))
    && Encodes(One(IriTree), R.NodeFieldRole(R.Iri))
    && Encodes(Set(AnnotationTree), R.SetRole(R.Annotation))
  }

  lemma ItemArguments()
    ensures AllEncode()
  {
    hide Encodes, Represents;
    ClassArguments();
    ClassRepresents();
    OneEncodes(ClassTree, R.ClassExpression);
    SetEncodes(ClassTree, R.ClassExpression);
    PropertyRepresents();
    SetEncodes(PropertyTree, R.ObjectPropertyExpression);
    SubPropertyRepresents();
    OneEncodes(SubPropertyTree, R.SubObjectPropertyExpression);
    NamesRepresent(R.DataPropertyEntity, R.DataProperty);
    SetEncodes(DataName(), R.DataProperty);
    EntityRepresents();
    OneEncodes(EntityOf, R.Entity);
    NamesRepresent(R.ClassEntity, R.Class);
    OneEncodes(Names(R.ClassEntity), R.Class);
    NamesRepresent(R.DatatypeEntity, R.Datatype);
    OneEncodes(Names(R.DatatypeEntity), R.Datatype);
    AnnotationArguments();
    SubjectRepresents();
    OneEncodes(SubjectTree, R.AnnotationSubject);
    FacetArguments();
    AnnotationRepresents();
    SetEncodes(AnnotationTree, R.Annotation);
  }

  ghost predicate AtomsEncode() {
    && Encodes(One(IndividualArgumentTree), R.NodeFieldRole(R.IndividualArgument))
    && Encodes(One(DataArgumentTree), R.NodeFieldRole(R.DataArgument))
    && Encodes(Sequence(DataArgumentTree), R.SequenceRole(R.DataArgument))
  }

  lemma AtomArguments()
    ensures AtomsEncode()
  {
    hide Encodes, Represents;
    IndividualArgumentRepresents();
    OneEncodes(IndividualArgumentTree, R.IndividualArgument);
    DataArgumentRepresents();
    OneEncodes(DataArgumentTree, R.DataArgument);
    SequenceEncodes(DataArgumentTree, R.DataArgument);
  }

  // ---------- Constructors of values ----------

  /** Values of a type whose trees have this tag are represented by the trees of the tag. */
  ghost predicate Faithful<S(!new)>(tree: S -> Tree, tag: nat) {
    && (forall s :: tree(s).tag == tag ==> Sound(tree(s)))
    && (forall r, s :: tree(r).tag == tag && tree(r) == tree(s) ==> r == s)
    && (forall t :: Sound(t) && t.tag == tag ==> exists s :: tree(s) == t)
  }

  lemma FaithfulSound<S(!new)>(tree: S -> Tree, s: S)
    requires Faithful(tree, tree(s).tag)
    ensures Sound(tree(s))
  {
  }

  lemma FaithfulParts<S(!new)>(tree: S -> Tree, r: S, s: S)
    requires Faithful(tree, tree(r).tag) && tree(r) == tree(s)
    ensures r == s
  {
  }

  lemma FaithfulFrom<S(!new)>(tree: S -> Tree, t: Tree) returns (s: S)
    requires Faithful(tree, t.tag) && Sound(t)
    ensures tree(s) == t
  {
    s :| tree(s) == t;
  }

  lemma Faithful2<S(!new), A(!new), B(!new)>(
    tree: S -> Tree, tag: nat, a: A -> Argument, b: B -> Argument, make: (A, B) -> S)
    requires Known(tag) && |Roles(tag)| == 2 && Encodes(a, Roles(tag)[0]) && Encodes(b, Roles(tag)[1])
    requires forall x, y :: tree(make(x, y)) == Tree(tag, [a(x), b(y)])
    requires forall s :: tree(s).tag == tag ==> exists x, y :: s == make(x, y)
    ensures Faithful(tree, tag)
  {
    hide Sound, Roles, Known;
    Constructor2(tag, a, b);
    forall r, s | tree(r).tag == tag && tree(r) == tree(s) ensures r == s {
      var x, y :| r == make(x, y);
      var x', y' :| s == make(x', y');
      assert [a(x), b(y)][0] == [a(x'), b(y')][0] && [a(x), b(y)][1] == [a(x'), b(y')][1];
    }
    forall t | Sound(t) && t.tag == tag ensures exists s :: tree(s) == t {
      var x, y :| t == Tree(tag, [a(x), b(y)]);
      assert tree(make(x, y)) == t;
    }
  }

  lemma Faithful3<S(!new), A(!new), B(!new), C(!new)>(
    tree: S -> Tree, tag: nat, a: A -> Argument, b: B -> Argument, c: C -> Argument, make: (A, B, C) -> S)
    requires Known(tag) && |Roles(tag)| == 3
    requires Encodes(a, Roles(tag)[0]) && Encodes(b, Roles(tag)[1]) && Encodes(c, Roles(tag)[2])
    requires forall x, y, z :: tree(make(x, y, z)) == Tree(tag, [a(x), b(y), c(z)])
    requires forall s :: tree(s).tag == tag ==> exists x, y, z :: s == make(x, y, z)
    ensures Faithful(tree, tag)
  {
    hide Sound, Roles, Known;
    Constructor3(tag, a, b, c);
    forall r, s | tree(r).tag == tag && tree(r) == tree(s) ensures r == s {
      var x, y, z :| r == make(x, y, z);
      var x', y', z' :| s == make(x', y', z');
      var f, g := [a(x), b(y), c(z)], [a(x'), b(y'), c(z')];
      assert f[0] == g[0] && f[1] == g[1] && f[2] == g[2];
    }
    forall t | Sound(t) && t.tag == tag ensures exists s :: tree(s) == t {
      var x, y, z :| t == Tree(tag, [a(x), b(y), c(z)]);
      assert tree(make(x, y, z)) == t;
    }
  }

  lemma Faithful4<S(!new), A(!new), B(!new), C(!new), D(!new)>(
    tree: S -> Tree, tag: nat, a: A -> Argument, b: B -> Argument, c: C -> Argument, d: D -> Argument,
    make: (A, B, C, D) -> S)
    requires Known(tag) && |Roles(tag)| == 4 && Encodes(a, Roles(tag)[0]) && Encodes(b, Roles(tag)[1])
    requires Encodes(c, Roles(tag)[2]) && Encodes(d, Roles(tag)[3])
    requires forall x, y, z, w :: tree(make(x, y, z, w)) == Tree(tag, [a(x), b(y), c(z), d(w)])
    requires forall s :: tree(s).tag == tag ==> exists x, y, z, w :: s == make(x, y, z, w)
    ensures Faithful(tree, tag)
  {
    hide Sound, Roles, Known;
    Constructor4(tag, a, b, c, d);
    forall r, s | tree(r).tag == tag && tree(r) == tree(s) ensures r == s {
      var x, y, z, w :| r == make(x, y, z, w);
      var x', y', z', w' :| s == make(x', y', z', w');
      var f, g := [a(x), b(y), c(z), d(w)], [a(x'), b(y'), c(z'), d(w')];
      assert f[0] == g[0] && f[1] == g[1] && f[2] == g[2] && f[3] == g[3];
    }
    forall t | Sound(t) && t.tag == tag ensures exists s :: tree(s) == t {
      var x, y, z, w :| t == Tree(tag, [a(x), b(y), c(z), d(w)]);
      assert tree(make(x, y, z, w)) == t;
    }
  }
}
