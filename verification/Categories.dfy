/**
 What the roles of the constructor ledger admit, said of the trees that columns denote: each tree is of one
 syntactic category, and each category has its roles.
 */
module Categories {
  import opened Bytes
  import opened Structure
  import opened Rows
  import opened Validate
  import opened Uniqueness
  import opened Existence

  datatype Category =
    | Name | NamedClass | NamedDatatype | NamedObjectProperty | NamedDataProperty | NamedAnnotationProperty
    | NamedIndividual | AnonymousIndividual | LiteralValue | AnnotationPair | InverseProperty | PropertyChain | Facet
    | CompoundRange | CompoundClass | Variable | RuleAtom | NoPart

  /** The bytes of a name in ASCII. */
  function Spelled(name: string): seq<byte> {
    seq(|name|, i requires 0 <= i < |name| => if name[i] < 128 as char then name[i] as int else 0)
  }

  ghost predicate SpeltAs(t: Tree, name: string) {
    t.tag == 2 && t.arguments != [] && t.arguments[0] == EnumArgument(Spelled(name))
  }

  /** The category of a tree: by its constructor, or, for an entity, by how its kind is spelled. */
  ghost function CategoryOf(t: Tree): Category {
    if t.tag != 2 then TagCategory(t.tag)
    else if SpeltAs(t, "class") then NamedClass
    else if SpeltAs(t, "datatype") then NamedDatatype
    else if SpeltAs(t, "object_property") then NamedObjectProperty
    else if SpeltAs(t, "data_property") then NamedDataProperty
    else if SpeltAs(t, "annotation_property") then NamedAnnotationProperty
    else if SpeltAs(t, "named_individual") then NamedIndividual
    else NoPart
  }

  function TagCategory(tag: nat): Category {
    if tag == 1 then Name
    else if tag == 3 then AnonymousIndividual
    else if tag == 4 then LiteralValue
    else if tag == 5 then AnnotationPair
    else if tag == 10 then InverseProperty
    else if tag == 11 then PropertyChain
    else if tag == 20 then Facet
    else if 21 <= tag <= 25 then CompoundRange
    else if 30 <= tag <= 46 then CompoundClass
    else if tag == 140 then Variable
    else if 141 <= tag <= 147 then RuleAtom
    else NoPart
  }

  /** Where a tree of each category may stand. */
  predicate Plays(c: Category, role: NodeRole) {
    match c
    case Name => role.Iri? || role.AnnotationValue? || role.AnnotationSubject?
    case NamedClass => role.Entity? || role.Class? || role.ClassExpression?
    case NamedDatatype => role.Entity? || role.Datatype? || role.DataRange?
    case NamedObjectProperty =>
      || role.Entity? || role.ObjectProperty? || role.ObjectPropertyExpression?
      || role.SubObjectPropertyExpression?
    case NamedDataProperty => role.Entity? || role.DataProperty?
    case NamedAnnotationProperty => role.Entity? || role.AnnotationProperty?
    case NamedIndividual => role.Entity? || role.Individual? || role.IndividualArgument?
    case AnonymousIndividual =>
      role.Individual? || role.IndividualArgument? || role.AnnotationValue? || role.AnnotationSubject?
    case LiteralValue => role.Literal? || role.AnnotationValue? || role.DataArgument?
    case AnnotationPair => role.Annotation?
    case InverseProperty => role.ObjectPropertyExpression? || role.SubObjectPropertyExpression?
    case PropertyChain => role.SubObjectPropertyExpression?
    case Facet => role.FacetRestriction?
    case CompoundRange => role.DataRange?
    case CompoundClass => role.ClassExpression?
    case Variable => role.IndividualArgument? || role.DataArgument?
    case RuleAtom => role.Atom?
    case NoPart => false
  }

  // ---------- Entities ----------

  function KindSpelling(kind: EntityKind): string {
    match kind
    case ClassEntity => "class"
    case DatatypeEntity => "datatype"
    case ObjectPropertyEntity => "object_property"
    case DataPropertyEntity => "data_property"
    case AnnotationPropertyEntity => "annotation_property"
    case NamedIndividualEntity => "named_individual"
  }

  function KindCategory(kind: EntityKind): Category {
    match kind
    case ClassEntity => NamedClass
    case DatatypeEntity => NamedDatatype
    case ObjectPropertyEntity => NamedObjectProperty
    case DataPropertyEntity => NamedDataProperty
    case AnnotationPropertyEntity => NamedAnnotationProperty
    case NamedIndividualEntity => NamedIndividual
  }

  lemma ShortSpellings()
    ensures KindName(ClassEntity) == Spelled("class") && KindName(DatatypeEntity) == Spelled("datatype")
    ensures KindName(DataPropertyEntity) == Spelled("data_property")
  {
  }

  lemma LongSpellings()
    ensures KindName(ObjectPropertyEntity) == Spelled("object_property")
    ensures KindName(NamedIndividualEntity) == Spelled("named_individual")
  {
  }

  lemma LongestSpelling()
    ensures KindName(AnnotationPropertyEntity) == Spelled("annotation_property")
  {
  }

  /** Each kind is stored as its spelling. */
  lemma KindSpelt(kind: EntityKind)
    ensures KindName(kind) == Spelled(KindSpelling(kind))
  {
    hide KindName, Spelled;
    ShortSpellings();
    LongSpellings();
    LongestSpelling();
  }

  /** No two kinds are spelled alike. */
  lemma SpellingsDiffer(a: EntityKind, b: EntityKind)
    requires KindName(a) == KindName(b)
    ensures a == b
  {
    assert |KindName(a)| == |KindName(b)|;
  }

  lemma SpeltKind(t: Tree, kind: EntityKind)
    ensures TreeEntity(t, Only(kind)) <==> SpeltAs(t, KindSpelling(kind))
  {
    hide KindName;
    KindSpelt(kind);
    assert IsKindName(KindName(kind));
  }

  lemma EntityCategory(t: Tree, kind: EntityKind)
    ensures TreeEntity(t, Only(kind)) <==> CategoryOf(t) == KindCategory(kind)
  {
    hide KindName, Spelled, IsKindName;
    forall other ensures SpeltAs(t, KindSpelling(other)) <==> TreeEntity(t, Only(other)) {
      SpeltKind(t, other);
    }
    forall other | TreeEntity(t, Only(kind)) && TreeEntity(t, Only(other)) ensures other == kind {
      SpellingsDiffer(kind, other);
    }
    assert SpeltAs(t, KindSpelling(ClassEntity)) <==> TreeEntity(t, Only(ClassEntity));
    assert SpeltAs(t, KindSpelling(DatatypeEntity)) <==> TreeEntity(t, Only(DatatypeEntity));
    assert SpeltAs(t, KindSpelling(ObjectPropertyEntity)) <==> TreeEntity(t, Only(ObjectPropertyEntity));
    assert SpeltAs(t, KindSpelling(DataPropertyEntity)) <==> TreeEntity(t, Only(DataPropertyEntity));
    assert SpeltAs(t, KindSpelling(AnnotationPropertyEntity)) <==> TreeEntity(t, Only(AnnotationPropertyEntity));
    assert SpeltAs(t, KindSpelling(NamedIndividualEntity)) <==> TreeEntity(t, Only(NamedIndividualEntity));
  }

  lemma AnyEntity(t: Tree)
    ensures TreeEntity(t, Anything) <==> exists kind :: TreeEntity(t, Only(kind))
  {
    hide KindName;
    if TreeEntity(t, Anything) {
      var content := t.arguments[0].content;
      if content == KindName(ClassEntity) {
        assert TreeEntity(t, Only(ClassEntity));
      } else if content == KindName(DatatypeEntity) {
        assert TreeEntity(t, Only(DatatypeEntity));
      } else if content == KindName(ObjectPropertyEntity) {
        assert TreeEntity(t, Only(ObjectPropertyEntity));
      } else if content == KindName(DataPropertyEntity) {
        assert TreeEntity(t, Only(DataPropertyEntity));
      } else if content == KindName(AnnotationPropertyEntity) {
        assert TreeEntity(t, Only(AnnotationPropertyEntity));
      } else {
        assert TreeEntity(t, Only(NamedIndividualEntity));
      }
    }
  }

  // ---------- Roles ----------

  lemma TagRoles(role: NodeRole, tag: nat)
    requires tag != 2
    ensures RoleNeed(role, tag) == Met <==> Plays(TagCategory(tag), role)
  {
  }

  /** Which kinds of entity meet a role. */
  predicate KindMeets(role: NodeRole, kind: EntityKind) {
    match RoleNeed(role, 2)
    case Met => true
    case Unmet => false
    case EntityOf(wanted) => wanted == Anything || wanted.kind == kind
  }

  lemma KindRoles(role: NodeRole, kind: EntityKind)
    ensures KindMeets(role, kind) <==> Plays(KindCategory(kind), role)
  {
  }

  lemma NoKindNoRole(role: NodeRole)
    ensures RoleNeed(role, 2) != Met
  {
  }

  lemma EntityRoles(role: NodeRole, t: Tree)
    requires t.tag == 2
    ensures TreeRole(role, t) <==> Plays(CategoryOf(t), role)
  {
    hide KindName, CategoryOf, RoleNeed, TreeEntity, Plays;
    forall kind ensures TreeEntity(t, Only(kind)) <==> CategoryOf(t) == KindCategory(kind) {
      EntityCategory(t, kind);
    }
    AnyEntity(t);
    EntityOnly(t);
    if kind :| CategoryOf(t) == KindCategory(kind) {
      KindRoles(role, kind);
    } else {
      NoKindNoRole(role);
      forall wanted ensures !TreeEntity(t, wanted) {
        assert wanted.Only? ==> !TreeEntity(t, Only(wanted.kind));
      }
      assert !Plays(NoPart, role) by { NoRoles(role); }
    }
  }

  lemma NoRoles(role: NodeRole)
    ensures !Plays(NoPart, role)
  {
  }

  /** An entity tree has the category of a kind of entity, or none. */
  lemma EntityOnly(t: Tree)
    requires t.tag == 2
    ensures CategoryOf(t) == NoPart || exists kind :: CategoryOf(t) == KindCategory(kind)
  {
    var c := CategoryOf(t);
    assert KindCategory(ClassEntity) == NamedClass && KindCategory(DatatypeEntity) == NamedDatatype;
    assert KindCategory(ObjectPropertyEntity) == NamedObjectProperty;
    assert KindCategory(DataPropertyEntity) == NamedDataProperty;
    assert KindCategory(AnnotationPropertyEntity) == NamedAnnotationProperty;
    assert KindCategory(NamedIndividualEntity) == NamedIndividual;
  }

  /** A tree meets exactly the roles of its category. */
  lemma RolesExact(role: NodeRole, t: Tree)
    ensures TreeRole(role, t) <==> Plays(CategoryOf(t), role)
  {
    hide Plays, TagCategory, KindName, Spelled, RoleNeed;
    if t.tag == 2 {
      EntityRoles(role, t);
    } else {
      TagRoles(role, t.tag);
    }
  }

  /** No tree is of two of these: class expression, data range, object property expression, individual, literal. */
  lemma PartsDisjoint(a: NodeRole, b: NodeRole, t: Tree)
    requires a in {ClassExpression, DataRange, ObjectPropertyExpression, Individual, Literal}
    requires b in {ClassExpression, DataRange, ObjectPropertyExpression, Individual, Literal}
    requires TreeRole(a, t) && TreeRole(b, t)
    ensures a == b
  {
    hide TreeRole, CategoryOf;
    RolesExact(a, t);
    RolesExact(b, t);
  }

  /** `b` is asked of no tree that would not do for `a`. */
  ghost predicate Wider(a: NodeRole, b: NodeRole) {
    forall t :: TreeRole(b, t) ==> TreeRole(a, t)
  }

  /** Named things stand for expressions, individuals and literals for arguments and values. */
  lemma RolesNest()
    ensures Wider(ClassExpression, Class) && Wider(DataRange, Datatype)
    ensures Wider(ObjectPropertyExpression, ObjectProperty)
    ensures Wider(SubObjectPropertyExpression, ObjectPropertyExpression)
    ensures Wider(IndividualArgument, Individual)
    ensures Wider(AnnotationValue, AnnotationSubject) && Wider(AnnotationSubject, Iri)
    ensures Wider(DataArgument, Literal) && Wider(AnnotationValue, Literal)
  {
    hide TreeRole, CategoryOf, Plays;
    forall t, role ensures TreeRole(role, t) <==> Plays(CategoryOf(t), role) {
      RolesExact(role, t);
    }
    forall c: Category
      ensures Plays(c, Class) ==> Plays(c, ClassExpression)
      ensures Plays(c, Datatype) ==> Plays(c, DataRange)
      ensures Plays(c, ObjectProperty) ==> Plays(c, ObjectPropertyExpression)
      ensures Plays(c, ObjectPropertyExpression) ==> Plays(c, SubObjectPropertyExpression)
      ensures Plays(c, Individual) ==> Plays(c, IndividualArgument)
      ensures Plays(c, AnnotationSubject) ==> Plays(c, AnnotationValue)
      ensures Plays(c, Iri) ==> Plays(c, AnnotationSubject)
      ensures Plays(c, Literal) ==> Plays(c, DataArgument) && Plays(c, AnnotationValue)
    {
      CategoriesNest(c);
    }
  }

  lemma CategoriesNest(c: Category)
    ensures Plays(c, Class) ==> Plays(c, ClassExpression)
    ensures Plays(c, Datatype) ==> Plays(c, DataRange)
    ensures Plays(c, ObjectProperty) ==> Plays(c, ObjectPropertyExpression)
    ensures Plays(c, ObjectPropertyExpression) ==> Plays(c, SubObjectPropertyExpression)
    ensures Plays(c, Individual) ==> Plays(c, IndividualArgument)
    ensures Plays(c, AnnotationSubject) ==> Plays(c, AnnotationValue)
    ensures Plays(c, Iri) ==> Plays(c, AnnotationSubject)
    ensures Plays(c, Literal) ==> Plays(c, DataArgument) && Plays(c, AnnotationValue)
  {
  }

  // ---------- Columns ----------

  /** An argument stands where its category may. */
  ghost predicate Stands(role: FieldRole, a: Argument) {
    && ArgumentLegal(a)
    && match role
       case ScalarRole(kind) => ArgumentKind(a) == kind && !a.SetArgument? && !a.SequenceArgument?
       case EntityKindRole => exists kind :: a == EnumArgument(Spelled(KindSpelling(kind)))
       case OptionalTextRole => a.AbsentArgument? || a.TextArgument?
       case NodeFieldRole(r) => a.TreeArgument? && Plays(CategoryOf(a.tree), r)
       case SetRole(r) => a.SetArgument? && forall m :: m in a.members ==> Plays(CategoryOf(m), r)
       case SequenceRole(r) =>
         a.SequenceArgument? && forall i :: 0 <= i < |a.trees| ==> Plays(CategoryOf(a.trees[i]), r)
  }

  lemma StandsExact(role: FieldRole, a: Argument)
    ensures ArgumentRole(role, a) <==> Stands(role, a)
  {
    hide TreeRole, CategoryOf, Plays, KindName, Spelled;
    forall r, t ensures TreeRole(r, t) <==> Plays(CategoryOf(t), r) {
      RolesExact(r, t);
    }
    if a.EnumArgument? { KindsListed(a.content); }
  }

  lemma KindsListed(content: seq<byte>)
    ensures IsKindName(content) <==> exists kind :: content == Spelled(KindSpelling(kind))
  {
    hide KindName, Spelled, KindSpelling;
    forall kind ensures KindName(kind) == Spelled(KindSpelling(kind)) {
      KindSpelt(kind);
    }
    if kind :| content == Spelled(KindSpelling(kind)) {
      match kind {
        case ClassEntity =>
        case DatatypeEntity =>
        case ObjectPropertyEntity =>
        case DataPropertyEntity =>
        case AnnotationPropertyEntity =>
        case NamedIndividualEntity =>
      }
    }
    if IsKindName(content) {
      KindSpelt(ClassEntity);
      KindSpelt(DatatypeEntity);
      KindSpelt(ObjectPropertyEntity);
      KindSpelt(DataPropertyEntity);
      KindSpelt(AnnotationPropertyEntity);
      KindSpelt(NamedIndividualEntity);
    }
  }

  const AXIOMS: set<nat> := {
    60, 61, 62, 63, 64, 70, 71, 72, 73, 74, 75, 76, 77, 78, 79, 80, 81, 82, 90, 91, 92, 93, 94, 95, 100, 101, 110,
    111, 112, 113, 114, 115, 116, 120, 121, 122, 123}

  /** Ontology annotations are roots of kind 1, axioms of kind 2 and rules of kind 3. */
  ghost predicate StandsAsRoot(kind: byte, t: Tree) {
    || (kind == 1 && CategoryOf(t) == AnnotationPair) || (kind == 2 && t.tag in AXIOMS) || (kind == 3 && t.tag == 148)
  }

  lemma RootsExact(kind: byte, t: Tree)
    ensures RootAccepts(kind, t.tag) <==> StandsAsRoot(kind, t)
  {
    hide Spelled;
  }

  /** The arguments of the tree are as many as the ledger says, each where its category may stand. */
  ghost predicate PartsStand(ledger: Ledger, t: Tree) {
    && t.tag in ledger && |t.arguments| == |ledger[t.tag]|
    && forall k :: 0 <= k < |t.arguments| ==> Stands(ledger[t.tag][k], t.arguments[k])
  }

  ghost predicate Categorized(ledger: Ledger, roots: set<Root>) {
    && (forall t :: t in Subtrees(roots) ==> PartsStand(ledger, t))
    && forall r :: r in roots ==> StandsAsRoot(r.kind, r.tree)
  }

  /** Meeting the ledger is standing, everywhere, where the categories may. */
  lemma CategorizedExact(ledger: Ledger, roots: set<Root>)
    ensures ValidRoots(ledger, roots) <==> Categorized(ledger, roots)
  {
    hide Subtrees, Stands, ArgumentRole, StandsAsRoot, RootAccepts;
    SubtreesClosed(roots);
    forall t ensures Fits(ledger, t) <==> PartsStand(ledger, t) {
      if t.tag in ledger && |t.arguments| == |ledger[t.tag]| {
        forall k | 0 <= k < |t.arguments|
          ensures ArgumentRole(ledger[t.tag][k], t.arguments[k]) <==> Stands(ledger[t.tag][k], t.arguments[k])
        {
          StandsExact(ledger[t.tag][k], t.arguments[k]);
        }
      }
    }
    forall r: Root ensures RootAccepts(r.kind, r.tree.tag) <==> StandsAsRoot(r.kind, r.tree) {
      RootsExact(r.kind, r.tree);
    }
  }

  /** Every part of what acceptable columns mean stands where its category may. */
  lemma AcceptedStand(c: Columns, ledger: Ledger)
    requires Acceptable(c, ledger) && EntitiesHaveKinds(ledger)
    ensures Categorized(ledger, ColumnsMeaning(c, ledger))
  {
    hide Acceptable, ColumnsMeaning, ValidRoots, Categorized;
    ColumnsConform(c, ledger);
    CategorizedExact(ledger, ColumnsMeaning(c, ledger));
  }

  /** And every finite set of roots whose parts stand so, and that there is room for, is such a meaning. */
  lemma StandingAccepted(ledger: Ledger, roots: set<Root>) returns (c: Columns)
    requires Categorized(ledger, roots) && RoomForAll(roots)
    ensures Acceptable(c, ledger) && ColumnsMeaning(c, ledger) == roots
  {
    hide Acceptable, ColumnsMeaning, ValidRoots, Categorized, RoomForAll;
    CategorizedExact(ledger, roots);
    c := EverySetHasColumns(ledger, roots);
  }
}
