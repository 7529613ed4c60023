/** The index that pairs each predicate with its logical opposite. */
module Opposites {
  import opened Programs
  import BuiltinLaws

  /** The polarity of a kind that has an opposite, and the family it shares with it. */
  function Family(kind: Kind): Option<(bool, nat)> {
    match kind
    case Concept => Some((true, 0))
    case NegatedConcept => Some((false, 0))
    case Nominal => Some((true, 1))
    case NegatedNominal => Some((false, 1))
    case ObjectRole => Some((true, 2))
    case NegatedObjectRole => Some((false, 2))
    case DataRole => Some((true, 3))
    case NegatedDataRole => Some((false, 3))
    case DataRange => Some((true, 4))
    case NegatedDataRange => Some((false, 4))
    case Equality => Some((true, 5))
    case Inequality => Some((false, 5))
    case _ => None
  }

  datatype Key = Key(family: nat, sorts: seq<Sort>, symbol: Option<nat>, role: Option<nat>, annotation: seq<nat>)

  function KeyOf(p: Predicate): Key
    requires Family(p.kind).Some?
  {
    Key(Family(p.kind).value.1, p.sorts, p.symbol, p.role, p.annotation)
  }

  /** The predicate has this polarity and this key. */
  predicate Is(p: Predicate, polarity: bool, key: Key) {
    Family(p.kind).Some? && Family(p.kind).value.0 == polarity && KeyOf(p) == key
  }

  /** Two predicates that differ in polarity alone. */
  ghost predicate Opposite(predicates: seq<Predicate>, a: nat, b: nat) {
    && a < |predicates| && b < |predicates| && Family(predicates[a].kind).Some?
    && Is(predicates[b], !Family(predicates[a].kind).value.0, KeyOf(predicates[a]))
  }

  /** No two predicates share polarity and key. */
  ghost predicate Unambiguous(predicates: seq<Predicate>) {
    forall a, b :: 0 <= a < b < |predicates| && Family(predicates[a].kind).Some? ==>
      !Is(predicates[b], Family(predicates[a].kind).value.0, KeyOf(predicates[a]))
  }

  /** The map holds the predicates of one polarity among the first `n`, by key. */
  ghost predicate Indexes(predicates: seq<Predicate>, index: map<Key, nat>, polarity: bool, n: nat)
    requires n <= |predicates|
  {
    && (forall key :: key in index ==> index[key] < n && Is(predicates[index[key]], polarity, key))
    && (forall k :: 0 <= k < n && Family(predicates[k].kind).Some? && Family(predicates[k].kind).value.0 == polarity ==>
         KeyOf(predicates[k]) in index && index[KeyOf(predicates[k])] == k)
  }

  /** One more predicate, of a key not indexed yet. */
  lemma IndexesNext(predicates: seq<Predicate>, index: map<Key, nat>, polarity: bool, n: nat)
    requires n < |predicates| && Indexes(predicates, index, polarity, n)
    ensures
      var p := predicates[n];
      if Family(p.kind).None? || Family(p.kind).value.0 != polarity then Indexes(predicates, index, polarity, n + 1)
      else KeyOf(p) !in index ==> Indexes(predicates, index[KeyOf(p) := n], polarity, n + 1)
  {
    hide Family, KeyOf;
  }

  /** The predicate's key is indexed exactly when an earlier predicate makes the table ambiguous. */
  lemma UnambiguousNext(predicates: seq<Predicate>, index: map<Key, nat>, n: nat)
    requires n < |predicates| && Family(predicates[n].kind).Some? && Unambiguous(predicates[..n])
    requires Indexes(predicates, index, Family(predicates[n].kind).value.0, n)
    ensures KeyOf(predicates[n]) in index ==> !Unambiguous(predicates)
    ensures KeyOf(predicates[n]) !in index ==> Unambiguous(predicates[..n + 1])
  {
    hide Family, KeyOf;
    var p, polarity := predicates[n], Family(predicates[n].kind).value.0;
    if KeyOf(p) in index {
      assert Is(predicates[index[KeyOf(p)]], polarity, KeyOf(p)) && Is(p, polarity, KeyOf(p));
    }
  }

  lemma UnambiguousSkip(predicates: seq<Predicate>, n: nat)
    requires n < |predicates| && Family(predicates[n].kind).None? && Unambiguous(predicates[..n])
    ensures Unambiguous(predicates[..n + 1])
  {
    hide Family, KeyOf;
  }

  method IndexByKey(predicates: seq<Predicate>) returns (r: Wire<(map<Key, nat>, map<Key, nat>)>)
    requires Numbered(predicates)
    ensures r.Ok? <==> Unambiguous(predicates)
    ensures r.Ok? ==>
      Indexes(predicates, r.value.0, true, |predicates|) && Indexes(predicates, r.value.1, false, |predicates|)
  {
    hide Family, KeyOf, Is;
    var positive: map<Key, nat>, negative: map<Key, nat> := map[], map[];
    for n := 0 to |predicates|
      invariant Indexes(predicates, positive, true, n) && Indexes(predicates, negative, false, n)
      invariant Unambiguous(predicates[..n])
    {
      var p := predicates[n];
      IndexesNext(predicates, positive, true, n);
      IndexesNext(predicates, negative, false, n);
      if Family(p.kind).Some? {
        var polarity, key := Family(p.kind).value.0, KeyOf(p);
        var selected := if polarity then positive else negative;
        UnambiguousNext(predicates, selected, n);
        if key in selected {
          return WireError;
        }
        if polarity {
          positive := positive[key := p.id];
        } else {
          negative := negative[key := p.id];
        }
      } else {
        UnambiguousSkip(predicates, n);
      }
    }
    assert predicates[..|predicates|] == predicates;
    return Ok((positive, negative));
  }

  /** The index pairs, both ways, the two predicates of a key. */
  ghost predicate Paired(output: map<nat, nat>, positive: map<Key, nat>, negative: map<Key, nat>, key: Key)
    requires key in positive && key in negative
  {
    && positive[key] in output && output[positive[key]] == negative[key]
    && negative[key] in output && output[negative[key]] == positive[key]
  }

  /** Entries of different keys or polarities are different predicates. */
  lemma Separate(predicates: seq<Predicate>, positive: map<Key, nat>, negative: map<Key, nat>, key: Key, other: Key)
    requires Indexes(predicates, positive, true, |predicates|) && Indexes(predicates, negative, false, |predicates|)
    requires key in positive && key in negative && other in positive && other in negative
    ensures positive[key] != negative[other]
    ensures key != other ==> positive[key] != positive[other] && negative[key] != negative[other]
  {
  }

  lemma PairOpposite(predicates: seq<Predicate>, positive: map<Key, nat>, negative: map<Key, nat>, key: Key)
    requires Indexes(predicates, positive, true, |predicates|) && Indexes(predicates, negative, false, |predicates|)
    requires key in positive && key in negative
    ensures Opposite(predicates, positive[key], negative[key]) && Opposite(predicates, negative[key], positive[key])
  {
    assert Is(predicates[positive[key]], true, key) && Is(predicates[negative[key]], false, key);
  }

  lemma OppositePaired(
    predicates: seq<Predicate>, positive: map<Key, nat>, negative: map<Key, nat>, output: map<nat, nat>, a: nat, b: nat)
    requires Indexes(predicates, positive, true, |predicates|) && Indexes(predicates, negative, false, |predicates|)
    requires forall key :: key in positive && key in negative ==> Paired(output, positive, negative, key)
    requires Opposite(predicates, a, b)
    ensures a in output && output[a] == b
  {
    var key := KeyOf(predicates[a]);
    assert key in positive && key in negative && Paired(output, positive, negative, key);
  }

  /** Pairs every predicate with its opposite; an ambiguous identity is a refusal. */
  method OppositePredicateIds(predicates: seq<Predicate>) returns (r: Wire<map<nat, nat>>)
    requires Numbered(predicates)
    ensures r.Ok? <==> Unambiguous(predicates)
    ensures r.Ok? ==> forall a, b :: (a in r.value && r.value[a] == b) <==> Opposite(predicates, a, b)
  {
    hide Family, KeyOf, Indexes, Unambiguous, Opposite, Numbered;
    var indexes :- IndexByKey(predicates);
    var positive, negative := indexes.0, indexes.1;
    var output: map<nat, nat> := map[];
    var keys := positive.Keys;
    while keys != {}
      invariant keys <= positive.Keys
      invariant forall a :: a in output ==> Opposite(predicates, a, output[a])
      invariant forall key :: key in positive && key !in keys && key in negative ==>
        Paired(output, positive, negative, key)
      decreases |keys|
    {
      var key :| key in keys;
      keys := keys - {key};
      if key in negative {
        PairOpposite(predicates, positive, negative, key);
        forall other | other in positive && other in negative
          ensures positive[key] != negative[other] && positive[other] != negative[key]
          ensures key != other ==> positive[key] != positive[other] && negative[key] != negative[other]
        {
          Separate(predicates, positive, negative, key, other);
          Separate(predicates, positive, negative, other, key);
        }
        output := output[positive[key] := negative[key]][negative[key] := positive[key]];
      }
    }
    forall a: nat, b: nat | Opposite(predicates, a, b) ensures a in output && output[a] == b {
      OppositePaired(predicates, positive, negative, output, a, b);
    }
    return Ok(output);
  }

  /**
   In an unambiguous table the opposite is unique, is never the predicate itself, and its opposite is the
   predicate again.
   */
  lemma OppositeInvolution(predicates: seq<Predicate>, a: nat, b: nat, c: nat)
    requires Unambiguous(predicates) && Opposite(predicates, a, b) && Opposite(predicates, b, c)
    ensures Opposite(predicates, b, a) && c == a && a != b
  {
  }

  /** Opposite concepts and object roles are complements of each other in every interpretation. */
  lemma OppositesComplement<D(!new), V(!new)>(
    predicates: seq<Predicate>, a: nat, b: nat, i: Interp<D, V>, values: seq<Value<D, V>>)
    requires Opposite(predicates, a, b)
    requires predicates[a].kind.Concept? || predicates[a].kind.NegatedConcept? ==>
      |values| == 1 && values[0].Element? && predicates[a].symbol.Some?
    requires predicates[a].kind.ObjectRole? || predicates[a].kind.NegatedObjectRole? ==>
      |values| == 2 && values[0].Element? && values[1].Element? && predicates[a].role.Some?
    requires Family(predicates[a].kind).value.1 in {0, 2}
    ensures Extension(i, predicates[a], values) <==> !Extension(i, predicates[b], values)
  {
  }

  /** The kinds whose members are complements when everything else about them is equal. */
  predicate Negates(positive: Kind, negative: Kind) {
    match positive
    case Concept => negative == NegatedConcept
    case Nominal => negative == NegatedNominal
    case ObjectRole => negative == NegatedObjectRole
    case DataRole => negative == NegatedDataRole
    case DataRange => negative == NegatedDataRange
    case Equality => negative == Inequality
    case _ => false
  }

  /** Opposites are exactly the predicates of two such kinds with the same sorts, symbol, role and annotation. */
  lemma OppositeIff(predicates: seq<Predicate>, a: nat, b: nat)
    ensures Opposite(predicates, a, b) <==>
      && a < |predicates| && b < |predicates|
      && var p, q := predicates[a], predicates[b];
      && (Negates(p.kind, q.kind) || Negates(q.kind, p.kind))
      && p.sorts == q.sorts && p.symbol == q.symbol && p.role == q.role && p.annotation == q.annotation
  {
  }

  /**
   In the standard setting all opposites are complements: nominals, data roles, data ranges and equalities of
   any values, concepts and object roles of the values their sorts call for.
   */
  lemma StandardOpposites<D(!new), V(!new)>(
    predicates: seq<Predicate>, a: nat, b: nat, i: Interp<D, V>, s: BuiltinLaws.Standards<D, V>,
    values: seq<Value<D, V>>)
    requires Opposite(predicates, a, b) && BuiltinLaws.Standard(i, s)
    requires predicates[a].kind.Concept? || predicates[a].kind.NegatedConcept? ==>
      |values| == 1 && values[0].Element? && predicates[a].symbol.Some?
    requires predicates[a].kind.ObjectRole? || predicates[a].kind.NegatedObjectRole? ==>
      |values| == 2 && values[0].Element? && values[1].Element? && predicates[a].role.Some?
    ensures Extension(i, predicates[a], values) <==> !Extension(i, predicates[b], values)
  {
    hide Opposite, BuiltinLaws.Same, BuiltinLaws.Listed, BuiltinLaws.FullData;
    OppositeIff(predicates, a, b);
    var p, q := predicates[a], predicates[b];
    assert BuiltinLaws.Constrained(p.kind) ==> (i.other(p, values) <==> BuiltinLaws.Meaning(s, p, values));
    assert BuiltinLaws.Constrained(q.kind) ==> (i.other(q, values) <==> BuiltinLaws.Meaning(s, q, values));
  }
}
