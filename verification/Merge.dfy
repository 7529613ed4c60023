/** Merging a query overlay into the permanent ontology. */
module Merge {
  import opened Bytes
  import opened Programs

  // ---------- Provenance tables ----------

  /** What a provenance entry says, apart from its number. */
  type Identity = (seq<seq<byte>>, bool)

  function IdentityOf(p: Provenance): Identity {
    (p.sources, p.generated)
  }

  /** Position of an identity, or the length of the table. */
  function Place(list: seq<Provenance>, identity: Identity): (i: nat)
    ensures i <= |list|
    ensures i < |list| ==> IdentityOf(list[i]) == identity
    ensures forall j :: 0 <= j < i ==> IdentityOf(list[j]) != identity
  {
    if list == [] then 0 else if IdentityOf(list[0]) == identity then 0 else 1 + Place(list[1..], identity)
  }

  ghost predicate Known(list: seq<Provenance>, identity: Identity) {
    Place(list, identity) < |list|
  }

  lemma PlaceAt(list: seq<Provenance>, k: nat)
    requires k < |list|
    ensures Place(list, IdentityOf(list[k])) <= k
  {
  }

  lemma PlaceInLonger(list: seq<Provenance>, more: seq<Provenance>, identity: Identity)
    requires list <= more && Known(list, identity)
    ensures Place(more, identity) == Place(list, identity)
  {
    var i := Place(list, identity);
    assert more[i] == list[i];
    PlaceAt(more, i);
    if Place(more, identity) < i { assert more[Place(more, identity)] == list[Place(more, identity)]; }
  }

  ghost predicate DistinctIdentities(list: seq<Provenance>) {
    forall i, j :: 0 <= i < j < |list| ==> IdentityOf(list[i]) != IdentityOf(list[j])
  }

  ghost predicate DistinctIds(list: seq<Provenance>) {
    forall i, j :: 0 <= i < j < |list| ==> list[i].id != list[j].id
  }

  ghost predicate Dense(list: seq<Provenance>) {
    forall i :: 0 <= i < |list| ==> list[i].id == i
  }

  /** Every identity of the overlay is in the table. */
  ghost predicate Covered(list: seq<Provenance>, overlay: seq<Provenance>) {
    forall k :: 0 <= k < |overlay| ==> Known(list, IdentityOf(overlay[k]))
  }

  lemma CoveredAppend(list: seq<Provenance>, more: seq<Provenance>, overlay: seq<Provenance>, p: Provenance)
    requires list <= more && Covered(list, overlay) && Known(more, IdentityOf(p))
    ensures Covered(more, overlay + [p])
  {
    var longer := overlay + [p];
    forall k | 0 <= k < |longer| ensures Known(more, IdentityOf(longer[k])) {
      if k < |overlay| { PlaceInLonger(list, more, IdentityOf(overlay[k])); }
    }
  }

  ghost function AppendNew(list: seq<Provenance>, p: Provenance): seq<Provenance> {
    if Known(list, IdentityOf(p)) then list else list + [p.(id := |list|)]
  }

  /** The table after offering the overlay's entries in order. */
  ghost function Extended(permanent: seq<Provenance>, overlay: seq<Provenance>): seq<Provenance> {
    if overlay == [] then permanent
    else AppendNew(Extended(permanent, overlay[..|overlay| - 1]), overlay[|overlay| - 1])
  }

  /** Where each overlay number points: the number of the entry of the same identity. */
  ghost function Mapping(list: seq<Provenance>, overlay: seq<Provenance>): map<nat, nat>
    requires Covered(list, overlay)
  {
    if overlay == [] then map[]
    else
      var p := overlay[|overlay| - 1];
      assert Known(list, IdentityOf(p));
      Mapping(list, overlay[..|overlay| - 1])[p.id := list[Place(list, IdentityOf(p))].id]
  }

  /** The entries added to the permanent ones: numbered by position, each of an identity the overlay has. */
  ghost predicate Additions(permanent: seq<Provenance>, overlay: seq<Provenance>, list: seq<Provenance>) {
    forall i :: |permanent| <= i < |list| ==> list[i].id == i && Known(overlay, IdentityOf(list[i]))
  }

  lemma AppendNewTable(list: seq<Provenance>, p: Provenance)
    requires DistinctIdentities(list)
    ensures list <= AppendNew(list, p) && DistinctIdentities(AppendNew(list, p)) &&
      Known(AppendNew(list, p), IdentityOf(p))
  {
    if !Known(list, IdentityOf(p)) {
      var longer := AppendNew(list, p);
      PlaceAt(longer, |list|);
      forall i | 0 <= i < |list| ensures IdentityOf(longer[i]) != IdentityOf(p) {
        PlaceAt(list, i);
      }
    }
  }

  lemma AppendNewAdditions(permanent: seq<Provenance>, overlay: seq<Provenance>, list: seq<Provenance>, p: Provenance)
    requires Additions(permanent, overlay, list)
    ensures Additions(permanent, overlay + [p], AppendNew(list, p))
  {
    var after, longer := AppendNew(list, p), overlay + [p];
    forall i | |permanent| <= i < |after| ensures after[i].id == i && Known(longer, IdentityOf(after[i])) {
      if i < |list| {
        PlaceInLonger(overlay, longer, IdentityOf(after[i]));
      } else {
        PlaceAt(longer, |overlay|);
      }
    }
  }

  /**
   What the extended table is: the permanent entries as they were, then one entry for each identity
   only the overlay has, numbered by position.
   */
  lemma {:induction false} ExtendedTable(permanent: seq<Provenance>, overlay: seq<Provenance>)
    requires DistinctIdentities(permanent)
    ensures permanent <= Extended(permanent, overlay)
    ensures DistinctIdentities(Extended(permanent, overlay))
    ensures Covered(Extended(permanent, overlay), overlay)
    ensures Additions(permanent, overlay, Extended(permanent, overlay))
  {
    if overlay != [] {
      var rest, p := overlay[..|overlay| - 1], overlay[|overlay| - 1];
      ExtendedTable(permanent, rest);
      var before := Extended(permanent, rest);
      AppendNewTable(before, p);
      AppendNewAdditions(permanent, rest, before, p);
      CoveredAppend(before, AppendNew(before, p), rest, p);
      assert overlay == rest + [p];
    }
  }

  /** Dense numbering stays dense, so no two entries of the table share a number. */
  lemma ExtendedDense(permanent: seq<Provenance>, overlay: seq<Provenance>)
    requires DistinctIdentities(permanent) && Dense(permanent)
    ensures Dense(Extended(permanent, overlay))
  {
    ExtendedTable(permanent, overlay);
    var list := Extended(permanent, overlay);
    forall i | 0 <= i < |list| ensures list[i].id == i {
      if i < |permanent| { assert list[i] == permanent[i]; }
    }
  }

  lemma {:induction false} MappingOf(list: seq<Provenance>, overlay: seq<Provenance>, k: nat)
    requires Covered(list, overlay)
    requires DistinctIds(overlay) && k < |overlay|
    ensures overlay[k].id in Mapping(list, overlay)
    ensures exists i ::
      0 <= i < |list| && IdentityOf(list[i]) == IdentityOf(overlay[k]) &&
      list[i].id == Mapping(list, overlay)[overlay[k].id]
  {
    if k < |overlay| - 1 {
      MappingOf(list, overlay[..|overlay| - 1], k);
    } else {
      assert IdentityOf(list[Place(list, IdentityOf(overlay[k]))]) == IdentityOf(overlay[k]);
    }
  }

  lemma {:induction false} MappingKeys(list: seq<Provenance>, overlay: seq<Provenance>, id: nat)
    requires Covered(list, overlay)
    ensures id in Mapping(list, overlay) <==> exists k :: 0 <= k < |overlay| && overlay[k].id == id
  {
    if overlay != [] {
      MappingKeys(list, overlay[..|overlay| - 1], id);
      assert forall k :: 0 <= k < |overlay| - 1 ==> overlay[..|overlay| - 1][k] == overlay[k];
    }
  }

  lemma {:induction false} MappingInLonger(list: seq<Provenance>, more: seq<Provenance>, overlay: seq<Provenance>)
    requires list <= more && Covered(list, overlay)
    ensures Covered(more, overlay)
    ensures Mapping(more, overlay) == Mapping(list, overlay)
  {
    if overlay != [] {
      MappingInLonger(list, more, overlay[..|overlay| - 1]);
      assert forall k :: 0 <= k < |overlay| - 1 ==> overlay[..|overlay| - 1][k] == overlay[k];
      PlaceInLonger(list, more, IdentityOf(overlay[|overlay| - 1]));
    }
  }

  /** Offering the same overlay again adds nothing. */
  lemma {:induction false} ExtendedTwice(list: seq<Provenance>, overlay: seq<Provenance>)
    requires Covered(list, overlay)
    ensures Extended(list, overlay) == list
  {
    if overlay != [] {
      assert forall k :: 0 <= k < |overlay| - 1 ==> overlay[..|overlay| - 1][k] == overlay[k];
      ExtendedTwice(list, overlay[..|overlay| - 1]);
    }
  }

  lemma {:induction false} ExtendedGrows(permanent: seq<Provenance>, overlay: seq<Provenance>, n: nat)
    requires n <= |overlay|
    ensures Extended(permanent, overlay[..n]) <= Extended(permanent, overlay)
  {
    if n == |overlay| {
      assert overlay[..n] == overlay;
    } else {
      ExtendedGrows(permanent, overlay[..|overlay| - 1], n);
      assert overlay[..|overlay| - 1][..n] == overlay[..n];
    }
  }

  ghost predicate TableMerges(permanent: seq<Provenance>, overlay: seq<Provenance>) {
    && DistinctIdentities(permanent) && DistinctIds(overlay)
    && (Extended(permanent, overlay) == permanent || |Extended(permanent, overlay)| <= U32_LIMIT)
  }

  method IndexIdentities(permanent: seq<Provenance>) returns (r: Wire<map<Identity, nat>>)
    ensures r.Ok? <==> DistinctIdentities(permanent)
    ensures r.Ok? ==> Indexed(permanent, r.value)
  {
    var identities: map<Identity, nat> := map[];
    for n := 0 to |permanent|
      invariant DistinctIdentities(permanent[..n])
      invariant Indexed(permanent[..n], identities)
    {
      var identity := IdentityOf(permanent[n]);
      if identity in identities {
        assert IdentityOf(permanent[Place(permanent[..n], identity)]) == IdentityOf(permanent[n]);
        return WireError;
      }
      IndexedAppend(permanent[..n], identities, permanent[n]);
      assert permanent[..n + 1] == permanent[..n] + [permanent[n]];
      identities := identities[identity := permanent[n].id];
    }
    assert permanent[..|permanent|] == permanent;
    return Ok(identities);
  }

  ghost predicate Indexed(list: seq<Provenance>, identities: map<Identity, nat>) {
    && (forall identity :: identity in identities <==> Known(list, identity))
    && (forall identity :: identity in identities ==>
       Known(list, identity) && identities[identity] == list[Place(list, identity)].id)
  }

  lemma IndexedAppend(list: seq<Provenance>, identities: map<Identity, nat>, p: Provenance)
    requires Indexed(list, identities) && !Known(list, IdentityOf(p))
    ensures Indexed(list + [p], identities[IdentityOf(p) := p.id])
  {
    var longer := list + [p];
    PlaceAt(longer, |list|);
    forall identity ensures Known(longer, identity) <==> Known(list, identity) || identity == IdentityOf(p) {
      if Known(list, identity) { PlaceInLonger(list, longer, identity); }
      if Known(longer, identity) && Place(longer, identity) < |list| { PlaceAt(list, Place(longer, identity)); }
    }
    forall identity | Known(list, identity) ensures Place(longer, identity) == Place(list, identity) {
      PlaceInLonger(list, longer, identity);
    }
    assert Place(longer, IdentityOf(p)) == |list| by {
      if Place(longer, IdentityOf(p)) < |list| { PlaceAt(list, Place(longer, IdentityOf(p))); }
    }
  }

  /** Finds the entry of an identity in the table, adding it when it is new. */
  method Offer(list: seq<Provenance>, identities: map<Identity, nat>, p: Provenance)
    returns (r: Wire<(seq<Provenance>, map<Identity, nat>, nat)>)
    requires Indexed(list, identities) && DistinctIdentities(list)
    ensures r.WireError? <==> !Known(list, IdentityOf(p)) && |list| >= U32_LIMIT
    ensures r.Ok? ==> r.value.0 == AppendNew(list, p) && list <= r.value.0 && DistinctIdentities(r.value.0)
    ensures r.Ok? ==> Indexed(r.value.0, r.value.1)
    ensures r.Ok? ==> Known(r.value.0, IdentityOf(p)) && r.value.2 == r.value.0[Place(r.value.0, IdentityOf(p))].id
  {
    hide Place, Known;
    AppendNewTable(list, p);
    if IdentityOf(p) in identities {
      return Ok((list, identities, identities[IdentityOf(p)]));
    }
    if |list| >= U32_LIMIT {
      return WireError;
    }
    var id := |list|;
    IndexedAppend(list, identities, p.(id := id));
    return Ok((list + [p.(id := id)], identities[IdentityOf(p) := id], id));
  }

  lemma RepeatedId(list: seq<Provenance>, overlay: seq<Provenance>, n: nat)
    requires n < |overlay| && Covered(list, overlay[..n])
    requires DistinctIds(overlay[..n])
    ensures overlay[n].id in Mapping(list, overlay[..n]) <==> !DistinctIds(overlay[..n + 1])
    ensures overlay[n].id in Mapping(list, overlay[..n]) ==> !DistinctIds(overlay)
  {
    MappingKeys(list, overlay[..n], overlay[n].id);
    if overlay[n].id in Mapping(list, overlay[..n]) {
      var k :| 0 <= k < n && overlay[..n][k].id == overlay[n].id;
      assert overlay[..n + 1][k].id == overlay[..n + 1][n].id;
    }
  }

  /** The merged provenance table, and where the overlay's numbers go. */
  method MergeProvenance(permanent: seq<Provenance>, overlay: seq<Provenance>)
    returns (r: Wire<(seq<Provenance>, map<nat, nat>)>)
    ensures r.Ok? <==> TableMerges(permanent, overlay)
    ensures r.Ok? ==> r.value.0 == Extended(permanent, overlay)
    ensures r.Ok? ==> Covered(r.value.0, overlay) && r.value.1 == Mapping(r.value.0, overlay)
  {
    hide Place, Known, IdentityOf, Covered, Mapping, Indexed, DistinctIdentities, DistinctIds;
    var identities: map<Identity, nat> :- IndexIdentities(permanent);
    var combined := permanent;
    var mapping: map<nat, nat> := map[];
    NothingMapped(permanent);
    assert overlay[..0] == [];
    for n := 0 to |overlay|
      invariant combined == Extended(permanent, overlay[..n]) && permanent <= combined
      invariant combined == permanent || |combined| <= U32_LIMIT
      invariant Indexed(combined, identities) && DistinctIdentities(combined)
      invariant DistinctIds(overlay[..n])
      invariant Covered(combined, overlay[..n])
      invariant mapping == Mapping(combined, overlay[..n])
    {
      var p := overlay[n];
      ExtendedGrows(permanent, overlay, n + 1);
      assert overlay[..n + 1] == overlay[..n] + [p];
      ExtendedLast(permanent, overlay[..n], p);
      var offered :- Offer(combined, identities, p);
      MappingInLonger(combined, offered.0, overlay[..n]);
      CoveredAppend(combined, offered.0, overlay[..n], p);
      RepeatedId(combined, overlay, n);
      if p.id in mapping {
        return WireError;
      }
      MappingLast(offered.0, overlay[..n], p);
      combined, identities, mapping := offered.0, offered.1, mapping[p.id := offered.2];
    }
    assert overlay[..|overlay|] == overlay;
    return Ok((combined, mapping));
  }

  lemma NothingMapped(list: seq<Provenance>)
    ensures Covered(list, []) && Mapping(list, []) == map[] && DistinctIds([])
  {
  }

  lemma ExtendedLast(permanent: seq<Provenance>, overlay: seq<Provenance>, p: Provenance)
    ensures Extended(permanent, overlay + [p]) == AppendNew(Extended(permanent, overlay), p)
  {
    assert (overlay + [p])[..|overlay|] == overlay;
  }

  lemma MappingLast(list: seq<Provenance>, overlay: seq<Provenance>, p: Provenance)
    requires Covered(list, overlay + [p])
    ensures Covered(list, overlay) && Known(list, IdentityOf(p))
    ensures Mapping(list, overlay + [p]) == Mapping(list, overlay)[p.id := list[Place(list, IdentityOf(p))].id]
  {
    var longer := overlay + [p];
    assert longer[|overlay|] == p && longer[..|overlay|] == overlay;
    assert forall k :: 0 <= k < |overlay| ==> longer[k] == overlay[k];
  }
}
