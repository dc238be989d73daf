/** The tenant lifecycle as transitions of the registry and the stores: the consistency the
    coordinator keeps between them, the updates it applies, and the facts each operation
    establishes. The coordinator class in module Service is proved against these. */
module Lifecycle {
  import opened Collections
  import opened Documents
  import opened Db
  import opened Master

  /** Largest number of documents the rename copy passes to one bulk insert. */
  const BatchSize: nat := 500

  /** Python truthiness of an optional string: neither None nor empty. */
  predicate Supplied(s: Option<string>)
  {
    s.Some? && s.value != ""
  }

  /** `_meta` marker written into a new tenant store, `createdAt` standing for the clock's value. */
  function Marker(createdAt: Value): Doc
  {
    map["_meta" := Obj(map["created_at" := createdAt])]
  }

  /** The registry update of a rename: `$set` of the name and the derived collection name. */
  function Repoint(newName: string): OrgRecord -> OrgRecord
  {
    (o: OrgRecord) => o.(name := newName, collectionName := OrgDbPrefix + newName)
  }

  /** The admin update of a rename: `$set` of the organization. */
  function MoveAdmin(newName: string): Admin -> Admin
  {
    (a: Admin) => a.(organization := newName)
  }

  ghost predicate Registered(orgs: seq<OrgRecord>, name: string)
  {
    exists o :: o in orgs && o.name == name
  }

  ghost predicate UniqueNames(orgs: seq<OrgRecord>)
  {
    forall i, j :: 0 <= i < j < |orgs| ==> orgs[i].name != orgs[j].name
  }

  ghost predicate UniqueAdminIds(admins: seq<Admin>)
  {
    forall i, j :: 0 <= i < j < |admins| ==> admins[i].id != admins[j].id
  }

  /** The admin the record points at exists and belongs to the record's tenant. */
  ghost predicate HasOwner(admins: seq<Admin>, o: OrgRecord)
  {
    exists a :: a in admins && a.id == o.adminId && a.organization == o.name
  }

  /** The store belongs to a registered tenant. */
  ghost predicate Owned(orgs: seq<OrgRecord>, c: CollectionRef)
  {
    exists o :: o in orgs && c == GetOrgCollection(o.name)
  }

  /** What the lifecycle operations keep true between the registry and the stores:
      tenant names are unique, each record carries its derived store name and points at an
      admin of its own tenant, admin identifiers are unique and already issued, every admin
      belongs to a registered tenant, and no store is orphaned. */
  ghost predicate Consistent(orgs: seq<OrgRecord>, admins: seq<Admin>, stores: Stores, next: ObjectId)
  {
    && UniqueNames(orgs)
    && UniqueAdminIds(admins)
    && IdsBelow(orgs, admins, next)
    && (forall o :: o in orgs ==> o.collectionName == OrgDbName(o.name) && HasOwner(admins, o))
    && (forall a :: a in admins ==> Registered(orgs, a.organization))
    && (forall c :: c in stores ==> Owned(orgs, c))
  }

  /** A tenant that is not registered has no store, so provisioning or renaming into its name
      starts from an empty store. */
  lemma UnregisteredHasNoStore(orgs: seq<OrgRecord>, admins: seq<Admin>, stores: Stores, next: ObjectId, name: string)
    requires Consistent(orgs, admins, stores, next)
    requires !Registered(orgs, name)
    ensures GetOrgCollection(name) !in stores
  {
    forall o | o in orgs
      ensures GetOrgCollection(o.name) != GetOrgCollection(name)
    {
      if GetOrgCollection(o.name) == GetOrgCollection(name) {
        GetOrgCollectionInjective(o.name, name);
      }
    }
  }

  /** In a registry with unique names, the record `find_org` returns is the only one with that name. */
  lemma FoundIsOnly(orgs: seq<OrgRecord>, name: string, k: nat)
    requires UniqueNames(orgs)
    requires FirstIndex(orgs, NameIs(name)) == Some(k)
    ensures forall i :: 0 <= i < |orgs| && i != k ==> orgs[i].name != name
  {
    forall i | 0 <= i < |orgs| && i != k
      ensures orgs[i].name != name
    {
      assert NameIs(name)(orgs[k]);
      if i < k {
        assert orgs[i].name != orgs[k].name;
      } else {
        assert orgs[k].name != orgs[i].name;
      }
    }
  }

  // ---------------------------------------------------------------- create

  /** Creating an unregistered tenant keeps the registry consistent: the new record's name is
      fresh, the new admin's identifier is fresh, and the two point at each other. */
  lemma CreateKeepsRegistry(orgs: seq<OrgRecord>, admins: seq<Admin>, next: ObjectId,
                            name: string, email: string, hashed: string)
    requires UniqueNames(orgs) && UniqueAdminIds(admins) && IdsBelow(orgs, admins, next)
    requires forall o :: o in orgs ==> o.collectionName == OrgDbName(o.name) && HasOwner(admins, o)
    requires forall a :: a in admins ==> Registered(orgs, a.organization)
    requires !Registered(orgs, name)
    ensures var orgs', admins' := orgs + [OrgRecord(next + 1, name, OrgDbName(name), next)],
                                  admins + [Admin(next, email, hashed, name)];
      && UniqueNames(orgs') && UniqueAdminIds(admins') && IdsBelow(orgs', admins', next + 2)
      && (forall o :: o in orgs' ==> o.collectionName == OrgDbName(o.name) && HasOwner(admins', o))
      && (forall a :: a in admins' ==> Registered(orgs', a.organization))
  {
    var rec := OrgRecord(next + 1, name, OrgDbName(name), next);
    var adm := Admin(next, email, hashed, name);
    var orgs', admins' := orgs + [rec], admins + [adm];
    assert UniqueNames(orgs') by {
      forall i, j | 0 <= i < j < |orgs'|
        ensures orgs'[i].name != orgs'[j].name
      {
        if j == |orgs| {
          assert orgs'[i] in orgs;
        }
      }
    }
    assert UniqueAdminIds(admins') by {
      forall i, j | 0 <= i < j < |admins'|
        ensures admins'[i].id != admins'[j].id
      {
        if j == |admins| {
          assert admins'[i] == admins[i];
        }
      }
    }
    forall o | o in orgs'
      ensures o.collectionName == OrgDbName(o.name) && HasOwner(admins', o)
    {
      if o == rec {
        assert adm in admins';
      } else {
        var a :| a in admins && a.id == o.adminId && a.organization == o.name;
        assert a in admins';
      }
    }
    forall a | a in admins'
      ensures Registered(orgs', a.organization)
    {
      if a == adm {
        assert rec in orgs';
      } else {
        var o :| o in orgs && o.name == a.organization;
        assert o in orgs';
      }
    }
  }

  /** Creating a tenant's store keeps every store owned, the new one by the new record. */
  lemma CreateKeepsStoresOwned(orgs: seq<OrgRecord>, stores: Stores, rec: OrgRecord,
                               storeNext: ObjectId, marker: Doc)
    requires forall c :: c in stores ==> Owned(orgs, c)
    ensures forall c :: c in Appended(stores, GetOrgCollection(rec.name), [marker], storeNext) ==>
              Owned(orgs + [rec], c)
  {
    var orgs' := orgs + [rec];
    forall c | c in Appended(stores, GetOrgCollection(rec.name), [marker], storeNext)
      ensures Owned(orgs', c)
    {
      if c == GetOrgCollection(rec.name) {
        assert rec in orgs';
      } else {
        var o :| o in orgs && c == GetOrgCollection(o.name);
        assert o in orgs';
      }
    }
  }

  /** Creating an unregistered tenant keeps the registry and the stores consistent. */
  lemma CreatePreserves(orgs: seq<OrgRecord>, admins: seq<Admin>, stores: Stores, next: ObjectId,
                        storeNext: ObjectId, name: string, email: string, hashed: string, marker: Doc)
    requires Consistent(orgs, admins, stores, next)
    requires !Registered(orgs, name)
    ensures Consistent(orgs + [OrgRecord(next + 1, name, OrgDbName(name), next)],
                       admins + [Admin(next, email, hashed, name)],
                       Appended(stores, GetOrgCollection(name), [marker], storeNext),
                       next + 2)
  {
    CreateKeepsRegistry(orgs, admins, next, name, email, hashed);
    CreateKeepsStoresOwned(orgs, stores, OrgRecord(next + 1, name, OrgDbName(name), next), storeNext, marker);
  }

  /** After creation the tenant's store holds exactly the marker (with its assigned `_id`),
      and `find_org` returns the new record. */
  lemma CreateEffect(orgs: seq<OrgRecord>, admins: seq<Admin>, stores: Stores, next: ObjectId,
                     storeNext: ObjectId, name: string, marker: Doc)
    requires Consistent(orgs, admins, stores, next)
    requires !Registered(orgs, name)
    ensures Docs(Appended(stores, GetOrgCollection(name), [marker], storeNext), GetOrgCollection(name))
            == [WithId(marker, storeNext)]
    ensures FindOne(orgs + [OrgRecord(next + 1, name, OrgDbName(name), next)], NameIs(name))
            == Some(OrgRecord(next + 1, name, OrgDbName(name), next))
  {
    UnregisteredHasNoStore(orgs, admins, stores, next, name);
    var orgs' := orgs + [OrgRecord(next + 1, name, OrgDbName(name), next)];
    forall j | 0 <= j < |orgs|
      ensures !NameIs(name)(orgs'[j])
    {
      assert orgs'[j] == orgs[j] && orgs[j] in orgs;
    }
    assert NameIs(name)(orgs'[|orgs|]);
    assert FirstIndex(orgs', NameIs(name)) == Some(|orgs|);
  }

  /** `delete_one` by name removes a record appended under a name no other record carries. */
  lemma DeleteOneUndoesAppend(orgs: seq<OrgRecord>, rec: OrgRecord)
    requires forall o :: o in orgs ==> o.name != rec.name
    ensures DeleteOne(orgs + [rec], NameIs(rec.name)) == orgs
  {
    var orgs' := orgs + [rec];
    forall j | 0 <= j < |orgs|
      ensures !NameIs(rec.name)(orgs'[j])
    {
      assert orgs'[j] == orgs[j] && orgs[j] in orgs;
    }
    assert NameIs(rec.name)(orgs'[|orgs|]);
    assert FirstIndex(orgs', NameIs(rec.name)) == Some(|orgs|);
    assert orgs'[..|orgs|] == orgs;
  }

  /** `delete_many` by organization removes an admin appended for an organization no other
      admin belongs to, and nothing else. */
  lemma DeleteManyUndoesAppend(admins: seq<Admin>, adm: Admin)
    requires forall a :: a in admins ==> a.organization != adm.organization
    ensures DeleteMany(admins + [adm], OrgIs(adm.organization)) == admins
  {
    forall j | 0 <= j < |admins|
      ensures !OrgIs(adm.organization)(admins[j])
    {
      assert admins[j] in admins;
    }
    DeleteManyNoMatch(admins, OrgIs(adm.organization));
    DeleteManyAppend(admins, [adm], OrgIs(adm.organization));
    assert DeleteMany([adm], OrgIs(adm.organization)) == [];
  }

  /** Dropping the database of a tenant that owns no store removes exactly the store that
      was just created for it. */
  lemma DropUndoesAppend(orgs: seq<OrgRecord>, stores: Stores, name: string, marker: Doc, storeNext: ObjectId)
    requires forall c :: c in stores ==> Owned(orgs, c)
    requires !Registered(orgs, name)
    ensures DropDb(Appended(stores, GetOrgCollection(name), [marker], storeNext), OrgDbName(name)) == stores
  {
    var r := DropDb(Appended(stores, GetOrgCollection(name), [marker], storeNext), OrgDbName(name));
    forall c | c in stores
      ensures c.database != OrgDbName(name)
    {
      var o :| o in orgs && c == GetOrgCollection(o.name);
      if c.database == OrgDbName(name) {
        OrgDbNameInjective(o.name, name);
      }
    }
    assert r.Keys == stores.Keys;
  }

  /** Deleting a tenant right after creating it restores the registry and the stores exactly:
      the record, the admin and the store that creation added are the only ones deletion removes. */
  lemma DeleteUndoesCreate(orgs: seq<OrgRecord>, admins: seq<Admin>, stores: Stores, next: ObjectId,
                           storeNext: ObjectId, name: string, email: string, hashed: string, marker: Doc)
    requires Consistent(orgs, admins, stores, next)
    requires !Registered(orgs, name)
    ensures DeleteOne(orgs + [OrgRecord(next + 1, name, OrgDbName(name), next)], NameIs(name)) == orgs
    ensures DeleteMany(admins + [Admin(next, email, hashed, name)], OrgIs(name)) == admins
    ensures DropDb(Appended(stores, GetOrgCollection(name), [marker], storeNext), OrgDbName(name)) == stores
  {
    DeleteOneUndoesAppend(orgs, OrgRecord(next + 1, name, OrgDbName(name), next));
    forall a | a in admins
      ensures a.organization != name
    {
      assert Registered(orgs, a.organization);
    }
    DeleteManyUndoesAppend(admins, Admin(next, email, hashed, name));
    DropUndoesAppend(orgs, stores, name, marker, storeNext);
  }

  // ---------------------------------------------------------------- credentials

  /** The `update_fields` of an update: a supplied email as is, a supplied password hashed. */
  function CredentialFields(email: Option<string>, password: Option<string>, hash: string -> string): AdminFields
  {
    AdminFields(if Supplied(email) then Some(email.value) else None,
                if Supplied(password) then Some(hash(password.value)) else None)
  }

  /** The admins after the credential step of an update of tenant `org`. */
  function CredentialUpdate(admins: seq<Admin>, org: string, email: Option<string>,
                            password: Option<string>, hash: string -> string): seq<Admin>
  {
    if Supplied(email) || Supplied(password)
    then UpdateOne(admins, OrgIs(org), SetFields(CredentialFields(email, password, hash)))
    else admins
  }

  /** The credential step sets a supplied email and the hash of a supplied password on the
      first admin of the tenant, keeps that admin's other fields, and changes no other admin;
      with neither supplied, or no admin of that tenant, the admins are unchanged. */
  lemma CredentialUpdateEffect(admins: seq<Admin>, org: string, email: Option<string>,
                               password: Option<string>, hash: string -> string)
    ensures var r := CredentialUpdate(admins, org, email, password, hash);
      && |r| == |admins|
      && (!Supplied(email) && !Supplied(password) ==> r == admins)
      && (FirstIndex(admins, OrgIs(org)).None? ==> r == admins)
      && (FirstIndex(admins, OrgIs(org)).Some? ==>
            var k := FirstIndex(admins, OrgIs(org)).value;
            && r[k].id == admins[k].id
            && r[k].organization == org
            && r[k].email == (if Supplied(email) then email.value else admins[k].email)
            && r[k].password == (if Supplied(password) then hash(password.value) else admins[k].password)
            && forall i :: 0 <= i < |admins| && i != k ==> r[i] == admins[i])
  {
    if Supplied(email) || Supplied(password) {
      if FirstIndex(admins, OrgIs(org)).Some? {
        var k := FirstIndex(admins, OrgIs(org)).value;
        assert OrgIs(org)(admins[k]);
        SetFieldsEffect(CredentialFields(email, password, hash), admins[k]);
      }
    }
  }

  /** The credential step keeps the registry and the stores consistent. */
  lemma CredentialUpdatePreserves(orgs: seq<OrgRecord>, admins: seq<Admin>, stores: Stores, next: ObjectId,
                                  org: string, email: Option<string>, password: Option<string>,
                                  hash: string -> string)
    requires Consistent(orgs, admins, stores, next)
    ensures Consistent(orgs, CredentialUpdate(admins, org, email, password, hash), stores, next)
  {
    var r := CredentialUpdate(admins, org, email, password, hash);
    CredentialUpdateEffect(admins, org, email, password, hash);
    assert forall i :: 0 <= i < |admins| ==> r[i].id == admins[i].id && r[i].organization == admins[i].organization;
    forall o | o in orgs
      ensures HasOwner(r, o)
    {
      var a :| a in admins && a.id == o.adminId && a.organization == o.name;
      var i :| 0 <= i < |admins| && admins[i] == a;
      assert r[i] in r;
    }
    forall a | a in r
      ensures Registered(orgs, a.organization)
    {
      var i :| 0 <= i < |r| && r[i] == a;
      assert admins[i] in admins;
    }
  }

  // ---------------------------------------------------------------- rename

  /** The stores after a rename: the stripped documents of the old store inserted into the
      new one, then the old database dropped. */
  function RenamedStores(stores: Stores, oldName: string, newName: string, storeNext: ObjectId): Stores
  {
    DropDb(Appended(stores, GetOrgCollection(newName), StripAll(Docs(stores, GetOrgCollection(oldName))), storeNext),
           OrgDbName(oldName))
  }

  /** A rename moves the data: the new store holds the old store's documents in order, equal
      up to `_id`; the old store is gone; every other store is untouched. */
  lemma RenameMovesData(stores: Stores, oldName: string, newName: string, storeNext: ObjectId)
    requires oldName != newName
    requires GetOrgCollection(newName) !in stores
    ensures var r := RenamedStores(stores, oldName, newName, storeNext);
      && StripAll(Docs(r, GetOrgCollection(newName))) == StripAll(Docs(stores, GetOrgCollection(oldName)))
      && GetOrgCollection(oldName) !in r
      && forall c: CollectionRef :: c.database != OrgDbName(oldName) && c != GetOrgCollection(newName) ==>
           (c in r <==> c in stores) && (c in r ==> r[c] == stores[c])
  {
    var src := Docs(stores, GetOrgCollection(oldName));
    var dst := GetOrgCollection(newName);
    var mid := Appended(stores, dst, StripAll(src), storeNext);
    var r := RenamedStores(stores, oldName, newName, storeNext);
    assert dst.database != OrgDbName(oldName) by {
      if dst.database == OrgDbName(oldName) {
        OrgDbNameInjective(newName, oldName);
      }
    }
    assert Docs(mid, dst) == AssignIds(StripAll(src), storeNext);
    assert Docs(r, dst) == Docs(mid, dst);
    StripAllAssignIds(StripAll(src), storeNext);
    StripAllIdempotent(src);
  }

  /** After a rename the registry record formerly named `oldName` carries `newName` and the
      new store name, keeps its identifier and admin, and `find_org` no longer sees `oldName`. */
  lemma RenameRegistry(orgs: seq<OrgRecord>, oldName: string, newName: string)
    requires UniqueNames(orgs)
    requires Registered(orgs, oldName) && !Registered(orgs, newName)
    ensures var o := FindOne(orgs, NameIs(oldName)).value;
            var r := UpdateOne(orgs, NameIs(oldName), Repoint(newName));
      && FindOne(r, NameIs(oldName)).None?
      && FindOne(r, NameIs(newName)) == Some(OrgRecord(o.id, newName, OrgDbName(newName), o.adminId))
  {
    var k := FirstIndex(orgs, NameIs(oldName)).value;
    var r := UpdateOne(orgs, NameIs(oldName), Repoint(newName));
    FoundIsOnly(orgs, oldName, k);
    assert r[k] == OrgRecord(orgs[k].id, newName, OrgDbName(newName), orgs[k].adminId);
    forall i | 0 <= i < |r|
      ensures !NameIs(oldName)(r[i])
    {
      if i != k {
        assert r[i] == orgs[i];
      }
    }
    forall i | 0 <= i < k
      ensures !NameIs(newName)(r[i])
    {
      assert r[i] == orgs[i] && orgs[i] in orgs;
    }
    assert NameIs(newName)(r[k]);
    assert FirstIndex(r, NameIs(newName)) == Some(k);
  }

  /** After a rename every admin of the old name belongs to the new name, no admin is left
      under the old name, and every other admin is unchanged. */
  lemma RenameAdmins(admins: seq<Admin>, oldName: string, newName: string)
    requires oldName != newName
    ensures var r := UpdateMany(admins, OrgIs(oldName), MoveAdmin(newName));
      && |r| == |admins|
      && (forall i :: 0 <= i < |r| ==> r[i].organization != oldName)
      && (forall i :: 0 <= i < |r| && admins[i].organization == oldName ==>
            r[i] == admins[i].(organization := newName))
      && (forall i :: 0 <= i < |r| && admins[i].organization != oldName ==> r[i] == admins[i])
  {
    var r := UpdateMany(admins, OrgIs(oldName), MoveAdmin(newName));
    forall i | 0 <= i < |r|
      ensures r[i].organization != oldName
    {
      if OrgIs(oldName)(admins[i]) {
        assert r[i] == MoveAdmin(newName)(admins[i]);
      }
    }
  }

  /** Renaming the one record named `oldName` to an unregistered name keeps names unique. */
  lemma RenameKeepsNamesUnique(orgs: seq<OrgRecord>, oldName: string, newName: string)
    requires UniqueNames(orgs)
    requires Registered(orgs, oldName) && !Registered(orgs, newName)
    ensures UniqueNames(UpdateOne(orgs, NameIs(oldName), Repoint(newName)))
  {
    var k := FirstIndex(orgs, NameIs(oldName)).value;
    var orgs' := UpdateOne(orgs, NameIs(oldName), Repoint(newName));
    assert orgs'[k].name == newName;
    forall i, j | 0 <= i < j < |orgs'|
      ensures orgs'[i].name != orgs'[j].name
    {
      if i == k {
        assert orgs[j] in orgs;
      } else if j == k {
        assert orgs[i] in orgs;
      }
    }
  }

  /** After a rename every record still carries its derived store name and points at an
      admin of its own (possibly new) name. */
  lemma RenameKeepsOwners(orgs: seq<OrgRecord>, admins: seq<Admin>, oldName: string, newName: string)
    requires UniqueNames(orgs)
    requires Registered(orgs, oldName) && !Registered(orgs, newName)
    requires forall o :: o in orgs ==> o.collectionName == OrgDbName(o.name) && HasOwner(admins, o)
    ensures var orgs', admins' := UpdateOne(orgs, NameIs(oldName), Repoint(newName)),
                                  UpdateMany(admins, OrgIs(oldName), MoveAdmin(newName));
      forall o :: o in orgs' ==> o.collectionName == OrgDbName(o.name) && HasOwner(admins', o)
  {
    var k := FirstIndex(orgs, NameIs(oldName)).value;
    var orgs' := UpdateOne(orgs, NameIs(oldName), Repoint(newName));
    var admins' := UpdateMany(admins, OrgIs(oldName), MoveAdmin(newName));
    FoundIsOnly(orgs, oldName, k);
    assert NameIs(oldName)(orgs[k]);
    forall o | o in orgs'
      ensures o.collectionName == OrgDbName(o.name) && HasOwner(admins', o)
    {
      var i :| 0 <= i < |orgs'| && orgs'[i] == o;
      assert orgs[i] in orgs;
      var a :| a in admins && a.id == orgs[i].adminId && a.organization == orgs[i].name;
      var m :| 0 <= m < |admins| && admins[m] == a;
      assert admins'[m] in admins';
    }
  }

  /** After a rename every admin still belongs to a registered tenant. */
  lemma RenameKeepsAdminsRegistered(orgs: seq<OrgRecord>, admins: seq<Admin>, oldName: string, newName: string)
    requires Registered(orgs, oldName)
    requires forall a :: a in admins ==> Registered(orgs, a.organization)
    ensures var orgs', admins' := UpdateOne(orgs, NameIs(oldName), Repoint(newName)),
                                  UpdateMany(admins, OrgIs(oldName), MoveAdmin(newName));
      forall a :: a in admins' ==> Registered(orgs', a.organization)
  {
    var k := FirstIndex(orgs, NameIs(oldName)).value;
    var orgs' := UpdateOne(orgs, NameIs(oldName), Repoint(newName));
    var admins' := UpdateMany(admins, OrgIs(oldName), MoveAdmin(newName));
    assert NameIs(oldName)(orgs[k]);
    assert orgs'[k] in orgs' && orgs'[k].name == newName;
    forall a | a in admins'
      ensures Registered(orgs', a.organization)
    {
      var m :| 0 <= m < |admins'| && admins'[m] == a;
      if !OrgIs(oldName)(admins[m]) {
        assert admins[m] in admins;
        var o :| o in orgs && o.name == admins[m].organization;
        var i :| 0 <= i < |orgs| && orgs[i] == o;
        if i == k {
          assert false;
        }
        assert orgs'[i] in orgs';
      }
    }
  }

  /** After a rename every store belongs to a registered tenant. */
  lemma RenameKeepsStoresOwned(orgs: seq<OrgRecord>, admins: seq<Admin>, stores: Stores, next: ObjectId,
                               storeNext: ObjectId, oldName: string, newName: string)
    requires Consistent(orgs, admins, stores, next)
    requires Registered(orgs, oldName) && !Registered(orgs, newName)
    ensures forall c :: c in RenamedStores(stores, oldName, newName, storeNext) ==>
              Owned(UpdateOne(orgs, NameIs(oldName), Repoint(newName)), c)
  {
    var k := FirstIndex(orgs, NameIs(oldName)).value;
    var orgs' := UpdateOne(orgs, NameIs(oldName), Repoint(newName));
    var stores' := RenamedStores(stores, oldName, newName, storeNext);
    assert NameIs(oldName)(orgs[k]);
    assert orgs'[k] in orgs' && orgs'[k].name == newName;
    UnregisteredHasNoStore(orgs, admins, stores, next, newName);
    RenameMovesData(stores, oldName, newName, storeNext);
    forall c | c in stores'
      ensures Owned(orgs', c)
    {
      if c != GetOrgCollection(newName) {
        assert c in stores && c.database != OrgDbName(oldName);
        var o :| o in orgs && c == GetOrgCollection(o.name);
        var i :| 0 <= i < |orgs| && orgs[i] == o;
        assert i != k;
        assert orgs'[i] in orgs';
      }
    }
  }

  /** A rename changes no identifier: every record and every admin keeps its id in place,
      so admin ids stay unique and every id stays below the counter. */
  lemma RenameKeepsIds(orgs: seq<OrgRecord>, admins: seq<Admin>, next: ObjectId, oldName: string, newName: string)
    requires UniqueAdminIds(admins) && IdsBelow(orgs, admins, next)
    ensures var orgs', admins' := UpdateOne(orgs, NameIs(oldName), Repoint(newName)),
                                  UpdateMany(admins, OrgIs(oldName), MoveAdmin(newName));
      && |orgs'| == |orgs| && (forall i :: 0 <= i < |orgs| ==> orgs'[i].id == orgs[i].id)
      && |admins'| == |admins| && (forall i :: 0 <= i < |admins| ==> admins'[i].id == admins[i].id)
      && UniqueAdminIds(admins') && IdsBelow(orgs', admins', next)
  {
    var orgs' := UpdateOne(orgs, NameIs(oldName), Repoint(newName));
    var admins' := UpdateMany(admins, OrgIs(oldName), MoveAdmin(newName));
    assert forall i :: 0 <= i < |orgs| ==> orgs'[i].id == orgs[i].id;
    assert forall i :: 0 <= i < |admins| ==> admins'[i].id == admins[i].id;
    forall o | o in orgs' ensures o.id < next {
      var i :| 0 <= i < |orgs'| && orgs'[i] == o;
      assert orgs[i] in orgs;
    }
    forall a | a in admins' ensures a.id < next {
      var i :| 0 <= i < |admins'| && admins'[i] == a;
      assert admins[i] in admins;
    }
  }

  /** A rename to an unregistered name keeps the registry and the stores consistent. */
  lemma RenamePreserves(orgs: seq<OrgRecord>, admins: seq<Admin>, stores: Stores, next: ObjectId,
                        storeNext: ObjectId, oldName: string, newName: string)
    requires Consistent(orgs, admins, stores, next)
    requires Registered(orgs, oldName) && !Registered(orgs, newName)
    ensures Consistent(UpdateOne(orgs, NameIs(oldName), Repoint(newName)),
                       UpdateMany(admins, OrgIs(oldName), MoveAdmin(newName)),
                       RenamedStores(stores, oldName, newName, storeNext), next)
  {
    RenameKeepsIds(orgs, admins, next, oldName, newName);
    RenameKeepsNamesUnique(orgs, oldName, newName);
    RenameKeepsOwners(orgs, admins, oldName, newName);
    RenameKeepsAdminsRegistered(orgs, admins, oldName, newName);
    RenameKeepsStoresOwned(orgs, admins, stores, next, storeNext, oldName, newName);
  }

  // ---------------------------------------------------------------- delete

  /** With unique names, `delete_one` by name removes exactly the tenant's record: what is
      left is every other record. */
  lemma DeleteKeepsOthers(orgs: seq<OrgRecord>, name: string)
    requires UniqueNames(orgs)
    ensures forall o :: o in DeleteOne(orgs, NameIs(name)) ==> o in orgs && o.name != name
    ensures forall o :: o in orgs && o.name != name ==> o in DeleteOne(orgs, NameIs(name))
  {
    var orgs' := DeleteOne(orgs, NameIs(name));
    forall o | o in orgs'
      ensures o in orgs && o.name != name
    {
      var i :| 0 <= i < |orgs'| && orgs'[i] == o;
      var k := FirstIndex(orgs, NameIs(name));
      if k.Some? {
        FoundIsOnly(orgs, name, k.value);
        var i' := if i < k.value then i else i + 1;
        assert orgs'[i] == orgs[i'];
      } else {
        assert !NameIs(name)(orgs[i]);
      }
    }
    forall o | o in orgs && o.name != name
      ensures o in orgs'
    {
      DeleteOneKeepsUnselected(orgs, NameIs(name), o);
    }
  }

  /** `delete_many` by organization keeps every admin of another tenant. */
  lemma DeleteAdminsKeepsOthers(admins: seq<Admin>, name: string, a: Admin)
    requires a in admins && a.organization != name
    ensures a in DeleteMany(admins, OrgIs(name))
  {
    var m :| 0 <= m < |admins| && admins[m] == a;
    assert !OrgIs(name)(admins[m]);
  }

  /** Deleting a registered tenant removes exactly one record, and keeps every record and
      every admin of the other tenants. */
  lemma DeleteEffect(orgs: seq<OrgRecord>, admins: seq<Admin>, name: string)
    requires UniqueNames(orgs) && Registered(orgs, name)
    ensures |DeleteOne(orgs, NameIs(name))| == |orgs| - 1
    ensures forall o :: o in orgs && o.name != name ==> o in DeleteOne(orgs, NameIs(name))
    ensures forall a :: a in admins && a.organization != name ==> a in DeleteMany(admins, OrgIs(name))
  {
    var o :| o in orgs && o.name == name;
    assert NameIs(name)(o);
    DeleteKeepsOthers(orgs, name);
    forall a | a in admins && a.organization != name
      ensures a in DeleteMany(admins, OrgIs(name))
    {
      DeleteAdminsKeepsOthers(admins, name, a);
    }
  }

  /** After a delete every remaining record still carries its derived store name and points
      at an admin of its own tenant, because that admin is not deleted. */
  lemma DeleteKeepsOwners(orgs: seq<OrgRecord>, admins: seq<Admin>, name: string)
    requires UniqueNames(orgs)
    requires forall o :: o in orgs ==> o.collectionName == OrgDbName(o.name) && HasOwner(admins, o)
    ensures forall o :: o in DeleteOne(orgs, NameIs(name)) ==>
              o.collectionName == OrgDbName(o.name) && HasOwner(DeleteMany(admins, OrgIs(name)), o)
  {
    var orgs', admins' := DeleteOne(orgs, NameIs(name)), DeleteMany(admins, OrgIs(name));
    DeleteKeepsOthers(orgs, name);
    forall o | o in orgs'
      ensures o.collectionName == OrgDbName(o.name) && HasOwner(admins', o)
    {
      var a :| a in admins && a.id == o.adminId && a.organization == o.name;
      DeleteAdminsKeepsOthers(admins, name, a);
    }
  }

  /** After a delete every remaining admin belongs to a tenant that is still registered. */
  lemma DeleteKeepsAdminsRegistered(orgs: seq<OrgRecord>, admins: seq<Admin>, name: string)
    requires UniqueNames(orgs)
    requires forall a :: a in admins ==> Registered(orgs, a.organization)
    ensures forall a :: a in DeleteMany(admins, OrgIs(name)) ==> Registered(DeleteOne(orgs, NameIs(name)), a.organization)
  {
    var orgs', admins' := DeleteOne(orgs, NameIs(name)), DeleteMany(admins, OrgIs(name));
    DeleteKeepsOthers(orgs, name);
    forall a | a in admins'
      ensures Registered(orgs', a.organization)
    {
      var o :| o in orgs && o.name == a.organization;
      assert o in orgs';
    }
  }

  /** After a delete every remaining store belongs to a tenant that is still registered, and
      the tenant's own store is gone. */
  lemma DeleteKeepsStoresOwned(orgs: seq<OrgRecord>, stores: Stores, name: string)
    requires UniqueNames(orgs)
    requires forall c :: c in stores ==> Owned(orgs, c)
    ensures forall c :: c in DropDb(stores, OrgDbName(name)) ==> Owned(DeleteOne(orgs, NameIs(name)), c)
    ensures GetOrgCollection(name) !in DropDb(stores, OrgDbName(name))
  {
    var orgs', stores' := DeleteOne(orgs, NameIs(name)), DropDb(stores, OrgDbName(name));
    DeleteKeepsOthers(orgs, name);
    forall c | c in stores'
      ensures Owned(orgs', c)
    {
      var o :| o in orgs && c == GetOrgCollection(o.name);
      assert o in orgs';
    }
  }

  /** Deleting a tenant keeps the registry and the stores consistent, and the tenant is no
      longer registered, owns no admin and has no store. */
  lemma DeletePreserves(orgs: seq<OrgRecord>, admins: seq<Admin>, stores: Stores, next: ObjectId, name: string)
    requires Consistent(orgs, admins, stores, next)
    ensures var orgs', admins', stores' := DeleteOne(orgs, NameIs(name)), DeleteMany(admins, OrgIs(name)),
                                           DropDb(stores, OrgDbName(name));
      && Consistent(orgs', admins', stores', next)
      && FindOne(orgs', NameIs(name)).None?
      && (forall a :: a in admins' ==> a.organization != name)
      && GetOrgCollection(name) !in stores'
  {
    var orgs', admins' := DeleteOne(orgs, NameIs(name)), DeleteMany(admins, OrgIs(name));
    DeleteOneKeepsDistinct(orgs, NameIs(name), (o: OrgRecord) => o.name);
    DeleteManyKeepsDistinct(admins, OrgIs(name), (a: Admin) => a.id);
    DeleteKeepsOthers(orgs, name);
    DeleteKeepsOwners(orgs, admins, name);
    DeleteKeepsAdminsRegistered(orgs, admins, name);
    DeleteKeepsStoresOwned(orgs, stores, name);
    assert FindOne(orgs', NameIs(name)).None? by {
      forall o | o in orgs'
        ensures !NameIs(name)(o)
      {
      }
    }
  }
}
