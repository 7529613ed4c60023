/** The trees of names, individuals, literals, annotations, properties and data ranges. */
module OwlTerms {
  import opened Bytes
  import opened Structure
  import opened Trees
  import opened Existence
  import opened OwlLedger
  import opened OwlParts
  import opened OwlSyntax
  import Categories
  import R = Rows
  import Utf8

  // ---------- Names and entities ----------

  lemma IriRepresents()
    ensures Represents(IriTree, R.Iri)
  {
    hide Sound;
    TextEncodes();
    Constructor1(1, TextOf);
    assert forall x :: IriTree(x) == Tree(1, [TextOf(x)]);
    forall t | Plays(R.Iri, t) ensures exists x :: IriTree(x) == t {
      var x :| t == Tree(1, [TextOf(x)]);
      assert IriTree(x) == t;
    }
    forall x, y | IriTree(x) == IriTree(y) ensures x == y {
      assert [TextOf(x)][0] == [TextOf(y)][0];
      assert TextOf(x) == TextOf(y);
    }
  }

  ghost function KindOf(kind: R.EntityKind): Argument { EnumArgument(R.KindName(kind)) }

  lemma KindEncodes()
    ensures Encodes(KindOf, R.EntityKindRole)
  {
    forall k ensures Proper(R.EntityKindRole, KindOf(k)) {
      var name := R.KindName(k);
      assert R.IsKindName(name);
      assert name != [] && forall i :: 0 <= i < |name| ==> name[i] < 128;
    }
    forall j, k | KindOf(j) == KindOf(k) ensures j == k {
      Categories.SpellingsDiffer(j, k);
    }
    forall a | Proper(R.EntityKindRole, a) ensures exists k :: KindOf(k) == a {
      KindRead(a);
    }
  }

  lemma KindRead(a: Argument)
    requires Proper(R.EntityKindRole, a)
    ensures exists k :: KindOf(k) == a
  {
    hide R.KindName;
    if a.content == R.KindName(R.ClassEntity) {
      assert KindOf(R.ClassEntity) == a;
    } else if a.content == R.KindName(R.DatatypeEntity) {
      assert KindOf(R.DatatypeEntity) == a;
    } else if a.content == R.KindName(R.ObjectPropertyEntity) {
      assert KindOf(R.ObjectPropertyEntity) == a;
    } else if a.content == R.KindName(R.DataPropertyEntity) {
      assert KindOf(R.DataPropertyEntity) == a;
    } else if a.content == R.KindName(R.AnnotationPropertyEntity) {
      assert KindOf(R.AnnotationPropertyEntity) == a;
    } else {
      assert KindOf(R.NamedIndividualEntity) == a;
    }
  }

  lemma EntitiesBuilt()
    ensures Builds2(2, KindOf, One(IriTree))
  {
    KindEncodes();
    IriRepresents();
    OneEncodes(IriTree, R.Iri);
    Constructor2(2, KindOf, One(IriTree));
  }

  lemma EntityParts(kind: R.EntityKind, iri: Text, kind': R.EntityKind, iri': Text)
    requires EntityTree(kind, iri) == EntityTree(kind', iri')
    ensures kind == kind' && iri == iri'
  {
    var a, b := EntityTree(kind, iri).arguments, EntityTree(kind', iri').arguments;
    assert a[0] == KindOf(kind) && b[0] == KindOf(kind') && a[1] == TreeArgument(IriTree(iri));
    assert b[1] == TreeArgument(IriTree(iri'));
    Categories.SpellingsDiffer(kind, kind');
    IriRepresents();
    assert IriTree(iri) == IriTree(iri');
  }

  /** A sound tree is an entity of some kind exactly when it stands for one. */
  lemma EntityTrees(t: Tree)
    ensures Sound(t) && t.tag == 2 <==> exists kind, iri :: EntityTree(kind, iri) == t
  {
    hide Sound;
    EntitiesBuilt();
    if Sound(t) && t.tag == 2 {
      var kind, iri :| t == Tree(2, [KindOf(kind), One(IriTree)(iri)]);
      assert EntityTree(kind, iri) == t;
    }
    if kind, iri :| EntityTree(kind, iri) == t {
      assert t == Tree(2, [KindOf(kind), One(IriTree)(iri)]);
    }
  }

  lemma EntityIs(kind: R.EntityKind, iri: Text, wanted: R.EntityKind)
    ensures TreeEntity(EntityTree(kind, iri), R.Only(wanted)) <==> kind == wanted
    ensures TreeEntity(EntityTree(kind, iri), R.Anything)
  {
    hide R.KindName;
    assert R.IsKindName(R.KindName(kind));
    if R.KindName(kind) == R.KindName(wanted) { Categories.SpellingsDiffer(kind, wanted); }
  }

  /** A role for the entities of one kind and nothing else. */
  lemma NamesRepresent(kind: R.EntityKind, role: R.NodeRole)
    requires forall tag :: R.RoleNeed(role, tag) == R.EntityOf(R.Only(kind))
    ensures Represents(Names(kind), role)
  {
    hide Sound, TreeEntity;
    var tree := Names(kind);
    forall iri ensures Plays(role, tree(iri)) {
      EntityTrees(tree(iri));
      assert EntityTree(kind, iri) == tree(iri);
      EntityIs(kind, iri, kind);
    }
    forall a, b | tree(a) == tree(b) ensures a == b {
      EntityParts(kind, a, kind, b);
    }
    forall t | Plays(role, t) ensures exists iri :: tree(iri) == t {
      EntityTagged(t, R.Only(kind));
      EntityTrees(t);
      var other, iri :| EntityTree(other, iri) == t;
      EntityIs(other, iri, kind);
      assert tree(iri) == t;
    }
  }

  lemma EntityTagged(t: Tree, wanted: R.Wanted)
    requires TreeEntity(t, wanted)
    ensures t.tag == 2
  {
  }

  lemma EntityRepresents()
    ensures Represents(EntityOf, R.Entity)
  {
    hide Sound, TreeEntity;
    forall e: Entity ensures Plays(R.Entity, EntityOf(e)) {
      EntityTrees(EntityOf(e));
      EntityIs(e.kind, e.iri, e.kind);
    }
    forall d: Entity, e: Entity | EntityOf(d) == EntityOf(e) ensures d == e {
      EntityParts(d.kind, d.iri, e.kind, e.iri);
    }
    forall t | Plays(R.Entity, t) ensures exists e :: EntityOf(e) == t {
      EntityTagged(t, R.Anything);
      EntityTrees(t);
      var kind, iri :| EntityTree(kind, iri) == t;
      assert EntityOf(Entity(kind, iri)) == t;
    }
  }

  // ---------- Individuals and literals ----------

  lemma AnonymousBuilt()
    ensures Builds2(3, RawOf, RawOf)
  {
    RawEncodes();
    Constructor2(3, RawOf, RawOf);
  }

  lemma AnonymousTrees(t: Tree)
    ensures Sound(t) && t.tag == 3 <==> exists scope, name :: AnonymousTree(scope, name) == t
  {
    hide Sound;
    AnonymousBuilt();
    if Sound(t) && t.tag == 3 {
      var scope, name :| t == Tree(3, [RawOf(scope), RawOf(name)]);
      assert AnonymousTree(scope, name) == t;
    }
    if scope, name :| AnonymousTree(scope, name) == t {
      assert t == Tree(3, [RawOf(scope), RawOf(name)]);
    }
  }

  lemma AnonymousParts(a: seq<byte>, b: seq<byte>, c: seq<byte>, d: seq<byte>)
    requires AnonymousTree(a, b) == AnonymousTree(c, d)
    ensures a == c && b == d
  {
    assert [RawArgument(a), RawArgument(b)][0] == [RawArgument(c), RawArgument(d)][0];
    assert [RawArgument(a), RawArgument(b)][1] == [RawArgument(c), RawArgument(d)][1];
  }

  lemma IndividualRepresents()
    ensures Represents(IndividualTree, R.Individual)
  {
    hide Sound, TreeEntity, EntityTree, AnonymousTree;
    forall i ensures Plays(R.Individual, IndividualTree(i)) {
      IndividualPlays(i);
    }
    forall i, j | IndividualTree(i) == IndividualTree(j) ensures i == j {
      IndividualParts(i, j);
    }
    forall t | Plays(R.Individual, t) ensures exists i :: IndividualTree(i) == t {
      if t.tag == 3 {
        AnonymousTrees(t);
        var scope, name :| AnonymousTree(scope, name) == t;
        assert IndividualTree(Anonymous(scope, name)) == t;
      } else {
        EntityTagged(t, R.Only(R.NamedIndividualEntity));
        EntityTrees(t);
        var kind, iri :| EntityTree(kind, iri) == t;
        EntityIs(kind, iri, R.NamedIndividualEntity);
        assert IndividualTree(Named(iri)) == t;
      }
    }
  }

  lemma IndividualPlays(i: Individual)
    ensures Plays(R.Individual, IndividualTree(i))
  {
    hide Sound, TreeEntity;
    if i.Named? {
      EntityTrees(IndividualTree(i));
      EntityIs(R.NamedIndividualEntity, i.iri, R.NamedIndividualEntity);
    } else {
      AnonymousTrees(IndividualTree(i));
      assert AnonymousTree(i.scope, i.name) == IndividualTree(i);
    }
  }

  lemma IndividualParts(i: Individual, j: Individual)
    requires IndividualTree(i) == IndividualTree(j)
    ensures i == j
  {
    if i.Named? && j.Named? {
      EntityParts(R.NamedIndividualEntity, i.iri, R.NamedIndividualEntity, j.iri);
    } else if i.Anonymous? && j.Anonymous? {
      AnonymousParts(i.scope, i.name, j.scope, j.name);
    }
  }

  lemma LanguageEncodes()
    ensures Encodes(LanguageArgument, R.OptionalTextRole)
  {
    forall l ensures Proper(R.OptionalTextRole, LanguageArgument(l)) {
      if l.Tagged? { Utf8.DecodeEncode(l.tag); }
    }
    forall l, m | LanguageArgument(l) == LanguageArgument(m) ensures l == m {
      if l.Tagged? && m.Tagged? { Utf8.EncodeInjective(l.tag, m.tag); }
    }
    forall a | Proper(R.OptionalTextRole, a) ensures exists l :: LanguageArgument(l) == a {
      if a.TextArgument? {
        assert LanguageArgument(Tagged(Utf8.Decode(a.content))) == a;
      } else {
        assert LanguageArgument(NoLanguage) == a;
      }
    }
  }

  lemma LiteralBuilt()
    ensures Builds3(4, TextOf, One(Names(R.DatatypeEntity)), LanguageArgument)
    ensures Encodes(One(Names(R.DatatypeEntity)), R.NodeFieldRole(R.Datatype))
  {
    hide Encodes, Represents, LanguageArgument, Names;
    TextEncodes();
    LanguageEncodes();
    NamesRepresent(R.DatatypeEntity, R.Datatype);
    OneEncodes(Names(R.DatatypeEntity), R.Datatype);
    Constructor3(4, TextOf, One(Names(R.DatatypeEntity)), LanguageArgument);
  }

  lemma LiteralIs(l: Literal)
    ensures LiteralTree(l) ==
      Tree(4, [TextOf(l.lexical), One(Names(R.DatatypeEntity))(l.datatypeIri), LanguageArgument(l.language)])
  {
  }

  lemma LiteralRepresents()
    ensures Represents(LiteralTree, R.Literal)
  {
    hide Sound, LiteralTree, LanguageArgument, EntityTree, TextOf;
    LiteralBuilt();
    forall l ensures Plays(R.Literal, LiteralTree(l)) {
      LiteralIs(l);
    }
    forall l, m | LiteralTree(l) == LiteralTree(m) ensures l == m {
      LiteralParts(l, m);
    }
    forall t | Plays(R.Literal, t) ensures exists l :: LiteralTree(l) == t {
      var lexical, iri, language :|
        t == Tree(4, [TextOf(lexical), One(Names(R.DatatypeEntity))(iri), LanguageArgument(language)]);
      LiteralIs(Literal(lexical, iri, language));
      assert LiteralTree(Literal(lexical, iri, language)) == t;
    }
  }

  lemma LiteralParts(l: Literal, m: Literal)
    requires LiteralTree(l) == LiteralTree(m)
    ensures l == m
  {
    var a, b := LiteralTree(l).arguments, LiteralTree(m).arguments;
    assert a[0] == b[0] && a[1] == b[1] && a[2] == b[2];
    Utf8.EncodeInjective(l.lexical, m.lexical);
    EntityParts(R.DatatypeEntity, l.datatypeIri, R.DatatypeEntity, m.datatypeIri);
    LanguageEncodes();
  }

  // ---------- Annotations ----------

  lemma SubjectRepresents()
    ensures Represents(SubjectTree, R.AnnotationSubject)
  {
    hide Sound, IriTree, AnonymousTree;
    IriRepresents();
    forall s ensures Plays(R.AnnotationSubject, SubjectTree(s)) {
      SubjectPlays(s);
    }
    forall r, s | SubjectTree(r) == SubjectTree(s) ensures r == s {
      SubjectParts(r, s);
    }
    forall t | Plays(R.AnnotationSubject, t) ensures exists s :: SubjectTree(s) == t {
      if t.tag == 3 {
        AnonymousTrees(t);
        var scope, name :| AnonymousTree(scope, name) == t;
        assert SubjectTree(AnonymousSubject(scope, name)) == t;
      } else {
        assert Plays(R.Iri, t);
        var iri :| IriTree(iri) == t;
        assert SubjectTree(IriSubject(iri)) == t;
      }
    }
  }

  lemma SubjectPlays(s: AnnotationSubject)
    ensures Plays(R.AnnotationSubject, SubjectTree(s)) && Plays(R.AnnotationValue, SubjectTree(s))
  {
    hide Sound;
    if s.IriSubject? {
      IriRepresents();
      assert Plays(R.Iri, IriTree(s.iri));
    } else {
      AnonymousTrees(SubjectTree(s));
      assert AnonymousTree(s.scope, s.name) == SubjectTree(s);
    }
  }

  lemma SubjectParts(r: AnnotationSubject, s: AnnotationSubject)
    requires SubjectTree(r) == SubjectTree(s)
    ensures r == s
  {
    if r.IriSubject? && s.IriSubject? {
      IriRepresents();
    } else if r.AnonymousSubject? && s.AnonymousSubject? {
      AnonymousParts(r.scope, r.name, s.scope, s.name);
    }
  }

  lemma ValueRepresents()
    ensures Represents(ValueTree, R.AnnotationValue)
  {
    hide Sound, SubjectTree, LiteralTree;
    SubjectRepresents();
    LiteralRepresents();
    forall v ensures Plays(R.AnnotationValue, ValueTree(v)) {
      if v.SubjectValue? {
        SubjectPlays(v.subject);
      } else {
        assert Plays(R.Literal, LiteralTree(v.literal));
      }
    }
    forall v, w | ValueTree(v) == ValueTree(w) ensures v == w {
      assert v.SubjectValue? ==> Plays(R.AnnotationSubject, ValueTree(v));
      assert w.SubjectValue? ==> Plays(R.AnnotationSubject, ValueTree(w));
      assert v.LiteralValue? ==> Plays(R.Literal, ValueTree(v));
      assert w.LiteralValue? ==> Plays(R.Literal, ValueTree(w));
    }
    forall t | Plays(R.AnnotationValue, t) ensures exists v :: ValueTree(v) == t {
      if t.tag == 4 {
        assert Plays(R.Literal, t);
        var l :| LiteralTree(l) == t;
        assert ValueTree(LiteralValue(l)) == t;
      } else {
        assert Plays(R.AnnotationSubject, t);
        var s :| SubjectTree(s) == t;
        assert ValueTree(SubjectValue(s)) == t;
      }
    }
  }
}
