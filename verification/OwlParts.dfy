/** Encoders that miss nothing and confuse nothing: each is a bijection onto the arguments, or trees, of a role. */
module OwlParts {
  import opened Bytes
  import opened Structure
  import opened Rows
  import opened Existence
  import opened OwlLedger
  import Utf8

  /** A sound tree of the role. */
  ghost predicate Plays(role: NodeRole, t: Tree) {
    Sound(t) && TreeRole(role, t)
  }

  /** Every value has a tree of the role, different values different ones, and every tree of the role has a value. */
  ghost predicate Represents<A(!new)>(tree: A -> Tree, role: NodeRole) {
    && (forall x :: Plays(role, tree(x)))
    && (forall x, y :: tree(x) == tree(y) ==> x == y)
    && (forall t :: Plays(role, t) ==> exists x :: tree(x) == t)
  }

  ghost predicate Encodes<A(!new)>(argument: A -> Argument, role: FieldRole) {
    && (forall x :: Proper(role, argument(x)))
    && (forall x, y :: argument(x) == argument(y) ==> x == y)
    && (forall a :: Proper(role, a) ==> exists x :: argument(x) == a)
  }

  // ---------- Arguments ----------

  ghost function One<A(!new)>(tree: A -> Tree): A -> Argument {
    x => TreeArgument(tree(x))
  }

  ghost function Set<A(!new)>(tree: A -> Tree): set<A> -> Argument {
    (s: set<A>) => SetArgument(Image(tree, s))
  }

  ghost function Sequence<A(!new)>(tree: A -> Tree): seq<A> -> Argument {
    (s: seq<A>) => SequenceArgument(Mapped(tree, s))
  }

  ghost function Image<A(!new)>(tree: A -> Tree, s: set<A>): set<Tree> {
    set x | x in s :: tree(x)
  }

  ghost function Mapped<A(!new)>(tree: A -> Tree, s: seq<A>): (trees: seq<Tree>)
    ensures |trees| == |s|
  {
    seq(|s|, i requires 0 <= i < |s| => tree(s[i]))
  }

  lemma NodeProper(role: NodeRole, a: Argument)
    ensures Proper(NodeFieldRole(role), a) <==> a.TreeArgument? && Plays(role, a.tree)
  {
  }

  lemma SetProper(role: NodeRole, a: Argument)
    ensures Proper(SetRole(role), a) <==> a.SetArgument? && forall m :: m in a.members ==> Plays(role, m)
  {
  }

  lemma SequenceProper(role: NodeRole, a: Argument)
    ensures Proper(SequenceRole(role), a) <==>
      a.SequenceArgument? && forall i :: 0 <= i < |a.trees| ==> Plays(role, a.trees[i])
  {
  }

  lemma OneEncodes<A(!new)>(tree: A -> Tree, role: NodeRole)
    requires Represents(tree, role)
    ensures Encodes(One(tree), NodeFieldRole(role))
  {
    hide Proper, Plays;
    var one := One(tree);
    forall a ensures Proper(NodeFieldRole(role), a) <==> a.TreeArgument? && Plays(role, a.tree) {
      NodeProper(role, a);
    }
    forall x, y | one(x) == one(y) ensures x == y {
      assert tree(x) == tree(y);
    }
    forall a | Proper(NodeFieldRole(role), a) ensures exists x :: one(x) == a {
      var x :| tree(x) == a.tree;
      assert one(x) == a;
    }
  }

  lemma {:induction false} SequenceValues<A(!new)>(tree: A -> Tree, role: NodeRole, trees: seq<Tree>)
    returns (s: seq<A>)
    requires Represents(tree, role) && forall i :: 0 <= i < |trees| ==> Plays(role, trees[i])
    ensures Mapped(tree, s) == trees
    decreases |trees|
  {
    hide Plays;
    if trees == [] {
      return [];
    }
    var rest := SequenceValues(tree, role, trees[1..]);
    var x :| tree(x) == trees[0];
    s := [x] + rest;
    forall i | 0 <= i < |trees| ensures Mapped(tree, s)[i] == trees[i] {
      assert i > 0 ==> Mapped(tree, rest)[i - 1] == trees[1..][i - 1];
    }
  }

  /** Trees that each have a value are the image of some set of values. */
  lemma {:induction false} SetOfValues<A(!new)>(tree: A -> Tree, trees: set<Tree>) returns (s: set<A>)
    requires forall m :: m in trees ==> exists x :: tree(x) == m
    ensures Image(tree, s) == trees
    decreases |trees|
  {
    if trees == {} {
      return {};
    }
    var m :| m in trees;
    var rest := SetOfValues(tree, trees - {m});
    var x :| tree(x) == m;
    s := rest + {x};
    assert Image(tree, s) == Image(tree, rest) + {m};
  }

  /** Sets with the same image are equal, when no two members are confused. */
  lemma SameImage<A(!new)>(tree: A -> Tree, r: set<A>, s: set<A>)
    requires Image(tree, r) == Image(tree, s)
    requires forall x, y :: x in r && y in s && tree(x) == tree(y) ==> x == y
    ensures r == s
  {
    forall x ensures x in r <==> x in s {
      if x in r { assert tree(x) in Image(tree, s); }
      if x in s { assert tree(x) in Image(tree, r); }
    }
  }

  lemma SetEncodes<A(!new)>(tree: A -> Tree, role: NodeRole)
    requires Represents(tree, role)
    ensures Encodes(Set(tree), SetRole(role))
  {
    hide Proper, Plays;
    var enc := Set(tree);
    forall a ensures Proper(SetRole(role), a) <==> a.SetArgument? && forall m :: m in a.members ==> Plays(role, m) {
      SetProper(role, a);
    }
    forall r, s | enc(r) == enc(s) ensures r == s {
      assert Image(tree, r) == Image(tree, s);
      SameImage(tree, r, s);
    }
    forall a | Proper(SetRole(role), a) ensures exists s :: enc(s) == a {
      var s := SetOfValues(tree, a.members);
      assert enc(s) == a;
    }
  }

  lemma SequenceEncodes<A(!new)>(tree: A -> Tree, role: NodeRole)
    requires Represents(tree, role)
    ensures Encodes(Sequence(tree), SequenceRole(role))
  {
    hide Proper, Plays;
    var enc := Sequence(tree);
    forall a
      ensures Proper(SequenceRole(role), a) <==>
        a.SequenceArgument? && forall i :: 0 <= i < |a.trees| ==> Plays(role, a.trees[i])
    {
      SequenceProper(role, a);
    }
    forall r, s | enc(r) == enc(s) ensures r == s {
      var a, b := Mapped(tree, r), Mapped(tree, s);
      assert a == b;
      forall i | 0 <= i < |r| ensures r[i] == s[i] {
        assert a[i] == tree(r[i]) && b[i] == tree(s[i]);
      }
    }
    forall a | Proper(SequenceRole(role), a) ensures exists s :: enc(s) == a {
      var s := SequenceValues(tree, role, a.trees);
      assert enc(s) == a;
    }
  }

  // ---------- Scalars ----------

  type Text = seq<Utf8.Scalar>

  ghost function TextOf(t: Text): Argument { TextArgument(Utf8.Encode(t)) }

  lemma TextEncodes()
    ensures Encodes(TextOf, ScalarRole(TEXT))
  {
    forall x ensures Proper(ScalarRole(TEXT), TextOf(x)) {
      Utf8.DecodeEncode(x);
    }
    forall x, y | TextOf(x) == TextOf(y) ensures x == y {
      Utf8.EncodeInjective(x, y);
    }
    forall a | Proper(ScalarRole(TEXT), a) ensures exists x :: TextOf(x) == a {
      assert TextOf(Utf8.Decode(a.content)) == a;
    }
  }

  ghost function RawOf(bytes: seq<byte>): Argument { RawArgument(bytes) }

  lemma RawEncodes()
    ensures Encodes(RawOf, ScalarRole(BYTES))
  {
    forall a | Proper(ScalarRole(BYTES), a) ensures exists x :: RawOf(x) == a {
      assert RawOf(a.content) == a;
    }
  }

  ghost function IntegerOf(n: nat): Argument { IntegerArgument(n) }

  lemma IntegerEncodes()
    ensures Encodes(IntegerOf, ScalarRole(INTEGER))
  {
    forall a | Proper(ScalarRole(INTEGER), a) ensures exists x :: IntegerOf(x) == a {
      assert IntegerOf(a.value) == a;
    }
  }

  // ---------- Constructors ----------

  /** The trees of one constructor: its tag and the codes of its arguments. */
  ghost predicate Builds1<A(!new)>(tag: nat, a: A -> Argument) {
    && (forall x :: Sound(Tree(tag, [a(x)])))
    && (forall t :: Sound(t) && t.tag == tag ==> exists x :: t == Tree(tag, [a(x)]))
  }

  lemma Constructor1<A(!new)>(tag: nat, a: A -> Argument)
    requires Known(tag) && |Roles(tag)| == 1 && Encodes(a, Roles(tag)[0])
    ensures Builds1(tag, a)
  {
    hide Proper, Sound, Roles, Known;
    forall x ensures Sound(Tree(tag, [a(x)])) {
      Made1(tag, a(x));
    }
    forall t | Sound(t) && t.tag == tag ensures exists x :: t == Tree(tag, [a(x)]) {
      Opened(t);
      var x :| a(x) == t.arguments[0];
    }
  }

  ghost predicate Builds2<A(!new), B(!new)>(tag: nat, a: A -> Argument, b: B -> Argument) {
    && (forall x, y :: Sound(Tree(tag, [a(x), b(y)])))
    && (forall t :: Sound(t) && t.tag == tag ==> exists x, y :: t == Tree(tag, [a(x), b(y)]))
  }

  lemma Constructor2<A(!new), B(!new)>(tag: nat, a: A -> Argument, b: B -> Argument)
    requires Known(tag) && |Roles(tag)| == 2 && Encodes(a, Roles(tag)[0]) && Encodes(b, Roles(tag)[1])
    ensures Builds2(tag, a, b)
  {
    hide Proper, Sound, Roles, Known;
    forall x, y ensures Sound(Tree(tag, [a(x), b(y)])) {
      Made2(tag, a(x), b(y));
    }
    forall t | Sound(t) && t.tag == tag ensures exists x, y :: t == Tree(tag, [a(x), b(y)]) {
      Opened(t);
      var x :| a(x) == t.arguments[0];
      var y :| b(y) == t.arguments[1];
    }
  }

  ghost predicate Builds3<A(!new), B(!new), C(!new)>(tag: nat, a: A -> Argument, b: B -> Argument, c: C -> Argument) {
    && (forall x, y, z :: Sound(Tree(tag, [a(x), b(y), c(z)])))
    && (forall t :: Sound(t) && t.tag == tag ==> exists x, y, z :: t == Tree(tag, [a(x), b(y), c(z)]))
  }

  lemma Constructor3<A(!new), B(!new), C(!new)>(tag: nat, a: A -> Argument, b: B -> Argument, c: C -> Argument)
    requires Known(tag) && |Roles(tag)| == 3
    requires Encodes(a, Roles(tag)[0]) && Encodes(b, Roles(tag)[1]) && Encodes(c, Roles(tag)[2])
    ensures Builds3(tag, a, b, c)
  {
    hide Proper, Sound, Roles, Known;
    forall x, y, z ensures Sound(Tree(tag, [a(x), b(y), c(z)])) {
      Made3(tag, a(x), b(y), c(z));
    }
    forall t | Sound(t) && t.tag == tag ensures exists x, y, z :: t == Tree(tag, [a(x), b(y), c(z)]) {
      Opened(t);
      var x :| a(x) == t.arguments[0];
      var y :| b(y) == t.arguments[1];
      var z :| c(z) == t.arguments[2];
    }
  }

  ghost predicate Builds4<A(!new), B(!new), C(!new), D(!new)>(
    tag: nat, a: A -> Argument, b: B -> Argument, c: C -> Argument, d: D -> Argument)
  {
    && (forall x, y, z, w :: Sound(Tree(tag, [a(x), b(y), c(z), d(w)])))
    && (forall t :: Sound(t) && t.tag == tag ==> exists x, y, z, w :: t == Tree(tag, [a(x), b(y), c(z), d(w)]))
  }

  lemma Constructor4<A(!new), B(!new), C(!new), D(!new)>(
    tag: nat, a: A -> Argument, b: B -> Argument, c: C -> Argument, d: D -> Argument)
    requires Known(tag) && |Roles(tag)| == 4
    requires Encodes(a, Roles(tag)[0]) && Encodes(b, Roles(tag)[1]) && Encodes(c, Roles(tag)[2])
    requires Encodes(d, Roles(tag)[3])
    ensures Builds4(tag, a, b, c, d)
  {
    hide Proper, Sound, Roles, Known;
    forall x, y, z, w ensures Sound(Tree(tag, [a(x), b(y), c(z), d(w)])) {
      Made4(tag, a(x), b(y), c(z), d(w));
    }
    forall t | Sound(t) && t.tag == tag ensures exists x, y, z, w :: t == Tree(tag, [a(x), b(y), c(z), d(w)]) {
      Opened(t);
      var x :| a(x) == t.arguments[0];
      var y :| b(y) == t.arguments[1];
      var z :| c(z) == t.arguments[2];
      var w :| d(w) == t.arguments[3];
    }
  }
}
