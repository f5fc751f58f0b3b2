/** The asset registry: assets by id, and an index from names to ids
    (servo-core/src/registry.rs). */
module Registry {
  import opened Wrappers
  import opened Assets

  datatype RegistryError =
    | AssetNotFound(id: AssetId)
    | IdAlreadyExists(id: AssetId)
    | NameAlreadyExists(name: string)

  /** The two maps of the registry. */
  datatype Catalog = Catalog(assetsById: map<AssetId, Asset>, assetsByName: map<string, AssetId>)

  const EMPTY := Catalog(map[], map[])

  /** The name index is the inverse of the names of the assets. */
  ghost predicate Consistent(c: Catalog) {
    && (forall id :: id in c.assetsById ==>
          c.assetsById[id].id == id
          && c.assetsById[id].name in c.assetsByName && c.assetsByName[c.assetsById[id].name] == id)
    && (forall name :: name in c.assetsByName ==>
          c.assetsByName[name] in c.assetsById && c.assetsById[c.assetsByName[name]].name == name)
  }

  // ----- The operations on values -----

  function Inserted(c: Catalog, asset: Asset): Catalog {
    Catalog(c.assetsById[asset.id := asset], c.assetsByName[asset.name := asset.id])
  }

  function Register(c: Catalog, asset: Asset): Result<Catalog, RegistryError> {
    if asset.id in c.assetsById then Err(IdAlreadyExists(asset.id))
    else if asset.name in c.assetsByName then Err(NameAlreadyExists(asset.name))
    else Ok(Inserted(c, asset))
  }

  /** Registering assets one by one, up to the first failure. */
  function RegisterInTurn(c: Catalog, assets: seq<Asset>): Result<Catalog, RegistryError> {
    if assets == [] then Ok(c)
    else
      match RegisterInTurn(c, assets[..|assets| - 1])
      case Ok(c') => Register(c', assets[|assets| - 1])
      case Err(e) => Err(e)
  }

  function Update(c: Catalog, asset: Asset): Result<Catalog, RegistryError> {
    if asset.id !in c.assetsById then Err(AssetNotFound(asset.id))
    else
      var oldName := c.assetsById[asset.id].name;
      if oldName == asset.name then Ok(c.(assetsById := c.assetsById[asset.id := asset]))
      else if asset.name in c.assetsByName && c.assetsByName[asset.name] != asset.id
      then Err(NameAlreadyExists(asset.name))
      else Ok(Catalog(c.assetsById[asset.id := asset], (c.assetsByName - {oldName})[asset.name := asset.id]))
  }

  function Remove(c: Catalog, id: AssetId): Catalog {
    if id in c.assetsById
    then Catalog(c.assetsById - {id}, c.assetsByName - {c.assetsById[id].name})
    else c
  }

  function FindByName(c: Catalog, name: string): Option<Asset> {
    if name in c.assetsByName && c.assetsByName[name] in c.assetsById
    then Some(c.assetsById[c.assetsByName[name]])
    else None
  }

  // ----- What the operations keep -----

  lemma RegisterIsConsistent(c: Catalog, asset: Asset)
    requires Consistent(c)
    ensures Register(c, asset).Ok? ==> Consistent(Register(c, asset).value)
    ensures Register(c, asset).Ok? <==>
              (forall id :: id in c.assetsById ==> id != asset.id && c.assetsById[id].name != asset.name)
  {
  }

  lemma UpdateIsConsistent(c: Catalog, asset: Asset)
    requires Consistent(c)
    ensures Update(c, asset).Ok? ==> Consistent(Update(c, asset).value)
    ensures Update(c, asset).Ok? <==>
              asset.id in c.assetsById
              && (forall id :: id in c.assetsById && id != asset.id ==> c.assetsById[id].name != asset.name)
  {
  }

  lemma RemoveIsConsistent(c: Catalog, id: AssetId)
    requires Consistent(c)
    ensures Consistent(Remove(c, id))
  {
  }

  // ----- What the operations store -----

  /** The assets are the same but for the one id. */
  ghost predicate KeepsOthers(c: Catalog, c': Catalog, id: AssetId) {
    && c'.assetsById.Keys - {id} == c.assetsById.Keys - {id}
    && forall other :: other in c.assetsById && other != id ==>
         other in c'.assetsById && c'.assetsById[other] == c.assetsById[other]
  }

  /** What was registered is found by its id and its name, and everything else as before. */
  lemma RegisterStores(c: Catalog, asset: Asset)
    requires Consistent(c)
    ensures match Register(c, asset)
            case Ok(c') =>
              && KeepsOthers(c, c', asset.id)
              && asset.id in c'.assetsById && c'.assetsById[asset.id] == asset
              && (forall name ::
                    FindByName(c', name) == if name == asset.name then Some(asset) else FindByName(c, name))
            case Err(IdAlreadyExists(id)) => id == asset.id && id in c.assetsById
            case Err(NameAlreadyExists(name)) =>
              name == asset.name && FindByName(c, name).Some? && asset.id !in c.assetsById
            case Err(AssetNotFound(_)) => false
  {
  }

  /** An update replaces the asset: it is found under its new name, under an old name that changed nothing
      is found, and everything else is found as before. */
  lemma UpdateStores(c: Catalog, asset: Asset)
    requires Consistent(c)
    ensures match Update(c, asset)
            case Ok(c') =>
              && asset.id in c.assetsById && KeepsOthers(c, c', asset.id)
              && asset.id in c'.assetsById && c'.assetsById[asset.id] == asset
              && (forall name :: FindByName(c', name) ==
                    if name == asset.name then Some(asset)
                    else if name == c.assetsById[asset.id].name then None
                    else FindByName(c, name))
            case Err(AssetNotFound(id)) => id == asset.id && id !in c.assetsById
            case Err(NameAlreadyExists(name)) =>
              && name == asset.name && asset.id in c.assetsById
              && FindByName(c, name).Some? && FindByName(c, name).value.id != asset.id
            case Err(IdAlreadyExists(_)) => false
  {
  }

  /** A removed asset is found neither by its id nor by its name, and everything else as before;
      removing an unknown id changes nothing. */
  lemma RemoveForgets(c: Catalog, id: AssetId)
    requires Consistent(c)
    ensures var c' := Remove(c, id);
            && id !in c'.assetsById && KeepsOthers(c, c', id)
            && (forall name :: FindByName(c', name) ==
                  if id in c.assetsById && name == c.assetsById[id].name then None else FindByName(c, name))
            && (id !in c.assetsById ==> c' == c)
  {
  }

  /** After a batch its assets are stored, besides the ones that were there. */
  lemma {:induction false} BatchStores(c: Catalog, assets: seq<Asset>)
    requires Consistent(c) && RegisterInTurn(c, assets).Ok?
    ensures Consistent(RegisterInTurn(c, assets).value)
    ensures var stored := RegisterInTurn(c, assets).value.assetsById;
            && stored.Keys == c.assetsById.Keys + IdsOf(assets)
            && (forall id :: id in c.assetsById ==> stored[id] == c.assetsById[id])
            && (forall asset :: asset in assets ==> stored[asset.id] == asset)
  {
    BatchIsInTurn(c, assets);
    InTurnIsConsistent(c, assets);
    if assets != [] {
      hide Consistent, Register, IdsOf, NamesOf, ConflictFree;
      var n := |assets| - 1;
      BatchStores(c, assets[..n]);
      BatchIsInTurn(c, assets[..n]);
      IdsOfMembers(assets[..n]);
      RegisterAddsOne(RegisterInTurn(c, assets[..n]).value, assets[n]);
      assert forall asset :: asset in assets ==> asset in assets[..n] || asset == assets[n];
    }
  }

  lemma RegisterAddsOne(c: Catalog, asset: Asset)
    requires Register(c, asset).Ok?
    ensures asset.id !in c.assetsById && Register(c, asset).value.assetsById == c.assetsById[asset.id := asset]
  {
  }

  lemma IdsOfMembers(assets: seq<Asset>)
    ensures forall asset :: asset in assets ==> asset.id in IdsOf(assets)
  {
  }

  /** Looking a name up in the index is searching all assets for it. */
  lemma NameLookupIsSearch(c: Catalog, name: string, asset: Asset)
    requires Consistent(c)
    ensures FindByName(c, name) == Some(asset) <==>
              asset.id in c.assetsById && c.assetsById[asset.id] == asset && asset.name == name
    ensures FindByName(c, name) == None <==> forall id :: id in c.assetsById ==> c.assetsById[id].name != name
  {
  }

  /** Removing an asset just registered restores the registry. */
  lemma RemoveUndoesRegister(c: Catalog, asset: Asset)
    requires Register(c, asset).Ok?
    ensures Remove(Register(c, asset).value, asset.id) == c
  {
  }

  /** Updating back to the old version restores the registry, renamed or not. */
  lemma UpdateUndoesUpdate(c: Catalog, asset: Asset)
    requires Consistent(c) && Update(c, asset).Ok?
    ensures Update(Update(c, asset).value, c.assetsById[asset.id]) == Ok(c)
  {
    var before, c' := c.assetsById[asset.id], Update(c, asset).value;
    assert c'.assetsById[asset.id := before] == c.assetsById;
    if before.name != asset.name {
      assert asset.name !in c.assetsByName;
      assert (c'.assetsByName - {asset.name})[before.name := asset.id] == c.assetsByName;
    }
  }

  // ----- Batches -----

  predicate Conflicts(c: Catalog, names: set<string>, ids: set<AssetId>, asset: Asset) {
    asset.name in names || asset.id in ids || asset.name in c.assetsByName || asset.id in c.assetsById
  }

  function NamesOf(assets: seq<Asset>): set<string> {
    set a | a in assets :: a.name
  }

  function IdsOf(assets: seq<Asset>): set<AssetId> {
    set a | a in assets :: a.id
  }

  /** The error of the batch for an asset that repeats an earlier one or a registered one. */
  function ConflictError(c: Catalog, names: set<string>, ids: set<AssetId>, asset: Asset): RegistryError {
    if asset.name in names then NameAlreadyExists(asset.name)
    else if asset.id in ids then IdAlreadyExists(asset.id)
    else if asset.name in c.assetsByName then NameAlreadyExists(asset.name)
    else IdAlreadyExists(asset.id)
  }

  /** A conflict within the batch is reported before one with the registry, and a name in use before an id. */
  lemma ConflictErrorNames(c: Catalog, names: set<string>, ids: set<AssetId>, asset: Asset)
    requires Conflicts(c, names, ids, asset)
    ensures var byName := asset.name in names || (asset.id !in ids && asset.name in c.assetsByName);
            ConflictError(c, names, ids, asset)
            == if byName then NameAlreadyExists(asset.name) else IdAlreadyExists(asset.id)
  {
  }

  ghost predicate ConflictFree(c: Catalog, assets: seq<Asset>) {
    forall i :: 0 <= i < |assets| ==> !Conflicts(c, NamesOf(assets[..i]), IdsOf(assets[..i]), assets[i])
  }

  ghost predicate ReportsFirstConflict(c: Catalog, assets: seq<Asset>, error: RegistryError) {
    exists i :: 0 <= i < |assets|
      && ConflictFree(c, assets[..i])
      && Conflicts(c, NamesOf(assets[..i]), IdsOf(assets[..i]), assets[i])
      && error == ConflictError(c, NamesOf(assets[..i]), IdsOf(assets[..i]), assets[i])
  }

  lemma ConflictFreeSnoc(c: Catalog, assets: seq<Asset>, i: nat)
    requires i < |assets|
    ensures ConflictFree(c, assets[..i + 1])
       <==> ConflictFree(c, assets[..i]) && !Conflicts(c, NamesOf(assets[..i]), IdsOf(assets[..i]), assets[i])
  {
    hide Conflicts, NamesOf, IdsOf;
    var longer := assets[..i + 1];
    assert longer[..i] == assets[..i];
    assert forall k :: 0 <= k < i ==> longer[k] == assets[..i][k] && longer[..k] == assets[..i][..k];
  }

  /** The batch's check passes exactly when registering one by one succeeds. */
  lemma {:induction false} BatchIsInTurn(c: Catalog, assets: seq<Asset>)
    ensures ConflictFree(c, assets) <==> RegisterInTurn(c, assets).Ok?
    ensures RegisterInTurn(c, assets).Ok? ==>
              var c' := RegisterInTurn(c, assets).value;
              c'.assetsById.Keys == c.assetsById.Keys + IdsOf(assets)
              && c'.assetsByName.Keys == c.assetsByName.Keys + NamesOf(assets)
  {
    if assets == [] {
      assert IdsOf(assets) == {} && NamesOf(assets) == {};
    } else {
      hide ConflictFree, NamesOf, IdsOf;
      var n := |assets| - 1;
      BatchIsInTurn(c, assets[..n]);
      ConflictFreeSnoc(c, assets, n);
      NamesSnoc(assets, n);
      assert assets[..n + 1] == assets;
    }
  }

  lemma {:induction false} InTurnIsConsistent(c: Catalog, assets: seq<Asset>)
    requires Consistent(c)
    ensures RegisterInTurn(c, assets).Ok? ==> Consistent(RegisterInTurn(c, assets).value)
  {
    if assets != [] {
      InTurnIsConsistent(c, assets[..|assets| - 1]);
    }
  }

  lemma NamesSnoc(assets: seq<Asset>, i: nat)
    requires i < |assets|
    ensures NamesOf(assets[..i + 1]) == NamesOf(assets[..i]) + {assets[i].name}
    ensures IdsOf(assets[..i + 1]) == IdsOf(assets[..i]) + {assets[i].id}
  {
    assert assets[..i + 1] == assets[..i] + [assets[i]];
  }

  lemma {:induction false} InTurnPrefix(c: Catalog, assets: seq<Asset>, i: nat)
    requires RegisterInTurn(c, assets).Ok? && i <= |assets|
    ensures RegisterInTurn(c, assets[..i]).Ok?
  {
    if i < |assets| {
      InTurnPrefix(c, assets[..|assets| - 1], i);
      assert assets[..|assets| - 1][..i] == assets[..i];
    } else {
      assert assets[..i] == assets;
    }
  }

  // ----- The registry -----

  class AssetRegistry {
    var assetsById: map<AssetId, Asset>
    var assetsByName: map<string, AssetId>

    function View(): Catalog
      reads this
    {
      Catalog(assetsById, assetsByName)
    }

    ghost predicate Valid()
      reads this
    {
      Consistent(View())
    }

    constructor ()
      ensures Valid() && View() == EMPTY
    {
      assetsById := map[];
      assetsByName := map[];
    }

    method RegisterAsset(asset: Asset) returns (r: Result<(), RegistryError>)
      requires Valid()
      modifies this
      ensures Valid()
      ensures match Register(old(View()), asset)
              case Ok(c) => r == Ok(()) && View() == c
              case Err(e) => r == Err(e) && View() == old(View())
    {
      if asset.id in assetsById {
        return Err(IdAlreadyExists(asset.id));
      }
      if asset.name in assetsByName {
        return Err(NameAlreadyExists(asset.name));
      }
      RegisterIsConsistent(View(), asset);
      assetsByName := assetsByName[asset.name := asset.id];
      assetsById := assetsById[asset.id := asset];
      return Ok(());
    }

    /** Succeeds exactly when registering the assets one by one would, with the same result;
        otherwise it changes nothing and reports the first conflict. */
    method RegisterBatch(assets: seq<Asset>) returns (r: Result<(), RegistryError>)
      requires Valid()
      modifies this
      ensures Valid()
      ensures match RegisterInTurn(old(View()), assets)
              case Ok(c) => r == Ok(()) && View() == c
              case Err(_) => r.Err? && ReportsFirstConflict(old(View()), assets, r.error) && View() == old(View())
    {
      hide ConflictFree, ReportsFirstConflict, Consistent, NamesOf, IdsOf;
      BatchIsInTurn(View(), assets);
      InTurnIsConsistent(View(), assets);
      var check := CheckBatch(assets);
      if check.Err? {
        return check;
      }
      for i := 0 to |assets|
        invariant RegisterInTurn(old(View()), assets[..i]) == Ok(View())
      {
        InTurnPrefix(old(View()), assets, i + 1);
        assert assets[..i + 1][..i] == assets[..i];
        assetsByName := assetsByName[assets[i].name := assets[i].id];
        assetsById := assetsById[assets[i].id := assets[i]];
      }
      assert assets[..|assets|] == assets;
      return Ok(());
    }

    /** The validation loop of `RegisterBatch`. */
    method CheckBatch(assets: seq<Asset>) returns (r: Result<(), RegistryError>)
      ensures r.Ok? <==> ConflictFree(View(), assets)
      ensures r.Err? ==> ReportsFirstConflict(View(), assets, r.error)
    {
      var seenNames: set<string>, seenIds: set<AssetId> := {}, {};
      for i := 0 to |assets|
        invariant seenNames == NamesOf(assets[..i]) && seenIds == IdsOf(assets[..i])
        invariant ConflictFree(View(), assets[..i])
      {
        ConflictFreeSnoc(View(), assets, i);
        NamesSnoc(assets, i);
        var asset := assets[i];
        if asset.name in seenNames {
          return Err(NameAlreadyExists(asset.name));
        }
        seenNames := seenNames + {asset.name};
        if asset.id in seenIds {
          return Err(IdAlreadyExists(asset.id));
        }
        seenIds := seenIds + {asset.id};
        if asset.name in assetsByName {
          return Err(NameAlreadyExists(asset.name));
        }
        if asset.id in assetsById {
          return Err(IdAlreadyExists(asset.id));
        }
      }
      assert assets[..|assets|] == assets;
      return Ok(());
    }

    method UpdateAsset(asset: Asset) returns (r: Result<(), RegistryError>)
      requires Valid()
      modifies this
      ensures Valid()
      ensures match Update(old(View()), asset)
              case Ok(c) => r == Ok(()) && View() == c
              case Err(e) => r == Err(e) && View() == old(View())
    {
      if asset.id !in assetsById {
        return Err(AssetNotFound(asset.id));
      }
      UpdateIsConsistent(View(), asset);
      var oldName := assetsById[asset.id].name;
      if oldName != asset.name {
        if asset.name in assetsByName && assetsByName[asset.name] != asset.id {
          return Err(NameAlreadyExists(asset.name));
        }
        assetsByName := assetsByName - {oldName};
        assetsByName := assetsByName[asset.name := asset.id];
      }
      assetsById := assetsById[asset.id := asset];
      return Ok(());
    }

    method GetByName(name: string) returns (r: Option<Asset>)
      requires Valid()
      ensures r == FindByName(View(), name)
      ensures r.Some? ==> r.value.name == name && r.value.id in assetsById && assetsById[r.value.id] == r.value
      ensures r.None? ==> forall id :: id in assetsById ==> assetsById[id].name != name
    {
      if name in assetsByName {
        var id := assetsByName[name];
        return if id in assetsById then Some(assetsById[id]) else None;
      }
      return None;
    }

    method RemoveAsset(id: AssetId) returns (r: Option<Asset>)
      requires Valid()
      modifies this
      ensures Valid()
      ensures View() == Remove(old(View()), id)
      ensures r == if id in old(assetsById) then Some(old(assetsById)[id]) else None
    {
      if id in assetsById {
        RemoveIsConsistent(View(), id);
        var asset := assetsById[id];
        assetsById := assetsById - {id};
        assetsByName := assetsByName - {asset.name};
        return Some(asset);
      }
      return None;
    }

    method Clear()
      requires Valid()
      modifies this
      ensures Valid() && View() == EMPTY
    {
      assetsById := map[];
      assetsByName := map[];
    }
  }
}
