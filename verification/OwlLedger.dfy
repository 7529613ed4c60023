/** The constructor ledger of the structural model, and the trees that meet it from the root down. */
module OwlLedger {
  import opened Structure
  import opened Rows
  import opened Trees
  import opened Existence

  function Node(r: NodeRole): FieldRole { NodeFieldRole(r) }

  /** The tags there are. */
  predicate Known(tag: nat) {
    || 1 <= tag <= 5 || 10 <= tag <= 11 || 20 <= tag <= 25 || 30 <= tag <= 46 || 60 <= tag <= 64 || 70 <= tag <= 82
    || 90 <= tag <= 95 || 100 <= tag <= 101 || 110 <= tag <= 116 || 120 <= tag <= 123 || 140 <= tag <= 148
  }

  /** The roles of the fields that come before the annotations of an axiom. */
  function AxiomRoles(tag: nat): seq<FieldRole> {
    match tag
    case 60 => [Node(Entity)]
    case 61 => [Node(ClassExpression), Node(ClassExpression)]
    case 62 => [SetRole(ClassExpression)]
    case 63 => [SetRole(ClassExpression)]
    case 64 => [Node(Class), SetRole(ClassExpression)]
    case 70 => [Node(SubObjectPropertyExpression), Node(ObjectPropertyExpression)]
    case 71 => [SetRole(ObjectPropertyExpression)]
    case 72 => [SetRole(ObjectPropertyExpression)]
    case 73 => [Node(ObjectPropertyExpression), Node(ObjectPropertyExpression)]
    case 74 => [Node(ObjectPropertyExpression), Node(ClassExpression)]
    case 75 => [Node(ObjectPropertyExpression), Node(ClassExpression)]
    case 90 => [Node(DataProperty), Node(DataProperty)]
    case 91 => [SetRole(DataProperty)]
    case 92 => [SetRole(DataProperty)]
    case 93 => [Node(DataProperty), Node(ClassExpression)]
    case 94 => [Node(DataProperty), Node(DataRange)]
    case 95 => [Node(DataProperty)]
    case 100 => [Node(Datatype), Node(DataRange)]
    case 101 => [Node(ClassExpression), SetRole(ObjectPropertyExpression), SetRole(DataProperty)]
    case 110 => [SetRole(Individual)]
    case 111 => [SetRole(Individual)]
    case 112 => [Node(ClassExpression), Node(Individual)]
    case 113 => [Node(ObjectPropertyExpression), Node(Individual), Node(Individual)]
    case 114 => [Node(ObjectPropertyExpression), Node(Individual), Node(Individual)]
    case 115 => [Node(DataProperty), Node(Individual), Node(Literal)]
    case 116 => [Node(DataProperty), Node(Individual), Node(Literal)]
    case 120 => [Node(AnnotationProperty), Node(AnnotationSubject), Node(AnnotationValue)]
    case 121 => [Node(AnnotationProperty), Node(AnnotationProperty)]
    case 122 => [Node(AnnotationProperty), Node(Iri)]
    case 123 => [Node(AnnotationProperty), Node(Iri)]
    case _ => [Node(ObjectPropertyExpression)]
  }

  /** Axioms are the tags from 60 to 123; those from 76 to 82 are the characteristics of one property. */
  predicate IsAxiom(tag: nat) {
    Known(tag) && 60 <= tag <= 123
  }

  function Roles(tag: nat): seq<FieldRole> {
    if IsAxiom(tag) then AxiomRoles(tag) + [SetRole(Annotation)] else
    match tag
    case 1 => [ScalarRole(TEXT)]
    case 2 => [EntityKindRole, Node(Iri)]
    case 3 => [ScalarRole(BYTES), ScalarRole(BYTES)]
    case 4 => [ScalarRole(TEXT), Node(Datatype), OptionalTextRole]
    case 5 => [Node(AnnotationProperty), Node(AnnotationValue), SetRole(Annotation)]
    case 10 => [Node(ObjectProperty)]
    case 11 => [SequenceRole(ObjectPropertyExpression)]
    case 20 => [Node(Iri), Node(Literal)]
    case 21 => [SetRole(DataRange)]
    case 22 => [SetRole(DataRange)]
    case 23 => [Node(DataRange)]
    case 24 => [SetRole(Literal)]
    case 25 => [Node(Datatype), SetRole(FacetRestriction)]
    case 30 => [SetRole(ClassExpression)]
    case 31 => [SetRole(ClassExpression)]
    case 32 => [Node(ClassExpression)]
    case 33 => [SetRole(Individual)]
    case 34 => [Node(ObjectPropertyExpression), Node(ClassExpression)]
    case 35 => [Node(ObjectPropertyExpression), Node(ClassExpression)]
    case 36 => [Node(ObjectPropertyExpression), Node(Individual)]
    case 37 => [Node(ObjectPropertyExpression)]
    case 38 => [ScalarRole(INTEGER), Node(ObjectPropertyExpression), Node(ClassExpression)]
    case 39 => [ScalarRole(INTEGER), Node(ObjectPropertyExpression), Node(ClassExpression)]
    case 40 => [ScalarRole(INTEGER), Node(ObjectPropertyExpression), Node(ClassExpression)]
    case 41 => [SequenceRole(DataProperty), Node(DataRange)]
    case 42 => [SequenceRole(DataProperty), Node(DataRange)]
    case 43 => [Node(DataProperty), Node(Literal)]
    case 44 => [ScalarRole(INTEGER), Node(DataProperty), Node(DataRange)]
    case 45 => [ScalarRole(INTEGER), Node(DataProperty), Node(DataRange)]
    case 46 => [ScalarRole(INTEGER), Node(DataProperty), Node(DataRange)]
    case 140 => [Node(Iri)]
    case 141 => [Node(ClassExpression), Node(IndividualArgument)]
    case 142 => [Node(DataRange), Node(DataArgument)]
    case 143 => [Node(ObjectPropertyExpression), Node(IndividualArgument), Node(IndividualArgument)]
    case 144 => [Node(DataProperty), Node(IndividualArgument), Node(DataArgument)]
    case 145 => [Node(Iri), SequenceRole(DataArgument)]
    case 146 => [Node(IndividualArgument), Node(IndividualArgument)]
    case 147 => [Node(IndividualArgument), Node(IndividualArgument)]
    case 148 => [SetRole(Atom), SetRole(Atom), SetRole(Annotation)]
    case _ => []
  }

  ghost const LEDGER: Ledger := map tag: nat | tag < 149 && Known(tag) :: Roles(tag)

  // ---------- Sound trees ----------

  /** The tree and everything below it meets the ledger. */
  ghost predicate Sound(t: Tree)
    decreases t
  {
    && Known(t.tag) && |t.arguments| == |Roles(t.tag)|
    && forall k :: 0 <= k < |t.arguments| ==>
      ArgumentRole(Roles(t.tag)[k], t.arguments[k]) && SoundArgument(t.arguments[k])
  }

  ghost predicate SoundArgument(a: Argument)
    decreases a
  {
    match a
    case TreeArgument(t) => Sound(t)
    case SetArgument(members) => forall m :: m in members ==> Sound(m)
    case SequenceArgument(trees) => forall i :: 0 <= i < |trees| ==> Sound(trees[i])
    case _ => true
  }

  /** A legal argument for the role, sound below. */
  ghost predicate Proper(role: FieldRole, a: Argument) {
    ArgumentRole(role, a) && SoundArgument(a)
  }

  lemma Made1(tag: nat, a: Argument)
    requires Known(tag) && |Roles(tag)| == 1 && Proper(Roles(tag)[0], a)
    ensures Sound(Tree(tag, [a]))
  {
  }

  lemma Made2(tag: nat, a: Argument, b: Argument)
    requires Known(tag) && |Roles(tag)| == 2 && Proper(Roles(tag)[0], a) && Proper(Roles(tag)[1], b)
    ensures Sound(Tree(tag, [a, b]))
  {
  }

  lemma Made3(tag: nat, a: Argument, b: Argument, c: Argument)
    requires Known(tag) && |Roles(tag)| == 3
    requires Proper(Roles(tag)[0], a) && Proper(Roles(tag)[1], b) && Proper(Roles(tag)[2], c)
    ensures Sound(Tree(tag, [a, b, c]))
  {
  }

  lemma Made4(tag: nat, a: Argument, b: Argument, c: Argument, d: Argument)
    requires Known(tag) && |Roles(tag)| == 4
    requires Proper(Roles(tag)[0], a) && Proper(Roles(tag)[1], b) && Proper(Roles(tag)[2], c)
    requires Proper(Roles(tag)[3], d)
    ensures Sound(Tree(tag, [a, b, c, d]))
  {
  }

  /** The arguments of a sound tree, each proper. */
  lemma Opened(t: Tree)
    requires Sound(t)
    ensures Known(t.tag) && |t.arguments| == |Roles(t.tag)|
    ensures forall k :: 0 <= k < |t.arguments| ==> Proper(Roles(t.tag)[k], t.arguments[k])
    ensures |t.arguments| == 1 ==> t == Tree(t.tag, [t.arguments[0]])
    ensures |t.arguments| == 2 ==> t == Tree(t.tag, [t.arguments[0], t.arguments[1]])
    ensures |t.arguments| == 3 ==> t == Tree(t.tag, [t.arguments[0], t.arguments[1], t.arguments[2]])
    ensures |t.arguments| == 4 ==>
      t == Tree(t.tag, [t.arguments[0], t.arguments[1], t.arguments[2], t.arguments[3]])
  {
  }

  lemma SoundFits(t: Tree)
    requires Sound(t)
    ensures Fits(LEDGER, t)
  {
    hide Roles;
  }

  /** Being sound is meeting the ledger everywhere. */
  lemma {:induction false} SoundIff(t: Tree)
    ensures Sound(t) <==> forall x :: x in Sub(t) ==> Fits(LEDGER, x)
    decreases t
  {
    hide Sub, Roles, Fits;
    if Sound(t) {
      forall x | x in Sub(t) ensures Fits(LEDGER, x) {
        SubIs(t, x);
        if x == t {
          SoundFits(t);
        } else {
          var c :| ChildOf(t, c) && x in Sub(c);
          var k :| 0 <= k < |t.arguments| && Below(t.arguments[k], c);
          ChildSmaller(t, k, c);
          ChildSound(t.arguments[k], c);
          SoundIff(c);
        }
      }
    }
    if forall x :: x in Sub(t) ==> Fits(LEDGER, x) {
      SubIs(t, t);
      FitsMeans(t);
      forall k | 0 <= k < |t.arguments| ensures SoundArgument(t.arguments[k]) {
        forall c | Below(t.arguments[k], c) ensures Sound(c) {
          ChildSmaller(t, k, c);
          assert ChildOf(t, c);
          forall x | x in Sub(c) ensures Fits(LEDGER, x) {
            SubIs(t, x);
          }
          SoundIff(c);
        }
        AllSound(t.arguments[k]);
      }
    }
  }

  lemma FitsMeans(t: Tree)
    requires Fits(LEDGER, t)
    ensures Known(t.tag) && |t.arguments| == |Roles(t.tag)|
    ensures forall k :: 0 <= k < |t.arguments| ==> ArgumentRole(Roles(t.tag)[k], t.arguments[k])
  {
    hide Roles;
  }

  lemma ChildSound(a: Argument, c: Tree)
    requires SoundArgument(a) && Below(a, c)
    ensures Sound(c)
  {
  }

  lemma AllSound(a: Argument)
    requires forall c :: Below(a, c) ==> Sound(c)
    ensures SoundArgument(a)
  {
    match a {
      case TreeArgument(t) => assert Below(a, t);
      case SetArgument(members) => assert forall m :: m in members ==> Below(a, m);
      case SequenceArgument(trees) => assert forall i :: 0 <= i < |trees| ==> Below(a, trees[i]);
      case _ =>
    }
  }
}
