/** The tenant lifecycle coordinator: create, look up, update (rename and credentials) and
    delete a tenant, sequencing the registry and the tenant stores. */
module Service {
  import opened Collections
  import opened Documents
  import opened Db
  import opened Master
  import opened Lifecycle

  /** The failures the coordinator raises ("Organization already exists", "Organization not
      found", "New organization name already exists"); `InvalidDbName` is the store client's
      refusal of a tenant database name it cannot address. */
  datatype OrgError = OrgAlreadyExists | OrgNotFound | NewNameAlreadyExists | InvalidDbName

  datatype Result<T> = Ok(value: T) | Err(error: OrgError)

  /** The payload of a successful create. */
  datatype Created = Created(organizationName: string, collectionName: string, adminId: ObjectId)

  /** The payload of a successful update. */
  datatype Updated = Updated(message: string, organizationName: string)

  const UpdatedMessage: string := "Organization updated"
  const DeletedMessage: string := "Organization deleted"

  /** An update renames when the new name is supplied and differs from the current one. */
  predicate IsRename(name: string, newName: Option<string>)
  {
    Supplied(newName) && newName.value != name
  }

  /** The batch sizes of the rename copy: none empty, none over `BatchSize`, and every one
      but the last holding exactly `BatchSize`. */
  ghost predicate Batched(batches: seq<seq<Doc>>)
  {
    && (forall b :: b in batches ==> 0 < |b| <= BatchSize)
    && (forall j :: 0 <= j < |batches| - 1 ==> |batches[j]| == BatchSize)
  }

  /** Bulk inserts that together carry exactly `docs`, in order, sized as `Batched` says. */
  ghost predicate CopyBatches(batches: seq<seq<Doc>>, docs: seq<Doc>)
  {
    Flatten(batches) == docs && Batched(batches)
  }

  /** The bulk-insert log `after` extends `before` by bulk inserts that carry `docs` as
      `CopyBatches` says. */
  ghost predicate CopyLogged(before: seq<seq<Doc>>, after: seq<seq<Doc>>, docs: seq<Doc>)
  {
    |before| <= |after| && after[..|before|] == before && CopyBatches(after[|before|..], docs)
  }

  lemma CopyLoggedIntro(log: seq<seq<Doc>>, batches: seq<seq<Doc>>, docs: seq<Doc>)
    requires CopyBatches(batches, docs)
    ensures CopyLogged(log, log + batches, docs)
  {
    assert (log + batches)[..|log|] == log;
    assert (log + batches)[|log|..] == batches;
  }

  /** Every batch holds exactly `BatchSize` documents. */
  ghost predicate FullBatches(batches: seq<seq<Doc>>)
  {
    forall j :: 0 <= j < |batches| ==> |batches[j]| == BatchSize
  }

  /** Flushing a full batch keeps every flushed batch full. */
  lemma FullBatchesSnoc(batches: seq<seq<Doc>>, batch: seq<Doc>)
    requires FullBatches(batches) && |batch| == BatchSize
    ensures FullBatches(batches + [batch])
  {
  }

  /** Full batches followed by at most one non-empty remainder of at most `BatchSize`
      documents are sized as `Batched` says. */
  lemma FullThenRest(batches: seq<seq<Doc>>, rest: seq<seq<Doc>>)
    requires FullBatches(batches)
    requires |rest| <= 1 && forall b :: b in rest ==> 0 < |b| <= BatchSize
    ensures Batched(batches + rest)
  {
    var all := batches + rest;
    forall b | b in all
      ensures 0 < |b| <= BatchSize
    {
      var j :| 0 <= j < |all| && all[j] == b;
      if j < |batches| {
        assert b == batches[j];
      } else {
        assert b == rest[j - |batches|];
      }
    }
  }

  class OrgService {
    const repo: MasterRepo
    const client: Client
    /** The password-hashing collaborator. */
    const hash: string -> string

    ghost predicate Valid()
      reads this, repo, client
    {
      repo.Valid() && Consistent(repo.orgs, repo.admins, client.stores, repo.nextOid)
    }

    constructor (repo: MasterRepo, client: Client, hash: string -> string)
      requires Consistent(repo.orgs, repo.admins, client.stores, repo.nextOid)
      ensures Valid()
      ensures this.repo == repo && this.client == client && this.hash == hash
    {
      this.repo := repo;
      this.client := client;
      this.hash := hash;
    }

    /** `create_org`: refuses a registered name before writing anything; otherwise writes the
        marker into the new store, creates the admin, then the registry record. */
    method CreateOrg(name: string, email: string, password: string, createdAt: Value) returns (r: Result<Created>)
      requires Valid()
      modifies repo, client
      ensures Valid()
      ensures r.Err? ==> r == Err(OrgAlreadyExists) || r == Err(InvalidDbName)
      ensures r == Err(OrgAlreadyExists) <==> old(Registered(repo.orgs, name))
      ensures r == Err(InvalidDbName) <==> old(!Registered(repo.orgs, name)) && !Addressable(name)
      ensures r.Err? ==> unchanged(repo, client)
      ensures r.Ok? ==>
        var adminId := old(repo.nextOid);
        && repo.nextOid == old(repo.nextOid) + 2
        && client.nextOid == old(client.nextOid) + 1
        && client.bulkInserts == old(client.bulkInserts)
        && r.value == Created(name, OrgDbName(name), adminId)
        && (forall a :: a in old(repo.admins) ==> a.id != adminId)
        && repo.admins == old(repo.admins) + [Admin(adminId, email, hash(password), name)]
        && repo.orgs == old(repo.orgs) + [OrgRecord(adminId + 1, name, OrgDbName(name), adminId)]
        && repo.FindOrg(name) == Some(OrgRecord(adminId + 1, name, OrgDbName(name), adminId))
        && client.stores == Appended(old(client.stores), GetOrgCollection(name), [Marker(createdAt)], old(client.nextOid))
        && client.Find(GetOrgCollection(name)) == [WithId(Marker(createdAt), old(client.nextOid))]
    {
      var found := repo.FindOrg(name);
      if found.Some? {
        return Err(OrgAlreadyExists);
      }
      if !Addressable(name) {
        return Err(InvalidDbName);
      }
      ghost var orgs0, admins0, stores0, next0, storeNext0 :=
        repo.orgs, repo.admins, client.stores, repo.nextOid, client.nextOid;

      var coll := GetOrgCollection(name);
      client.InsertOne(coll, Marker(createdAt));

      var hashed := hash(password);
      var adminId := repo.CreateAdmin(email, hashed, name);

      var collectionName := OrgDbPrefix + name;
      var _ := repo.CreateOrgRecord(name, collectionName, adminId);

      CreatePreserves(orgs0, admins0, stores0, next0, storeNext0, name, email, hashed, Marker(createdAt));
      CreateEffect(orgs0, admins0, stores0, next0, storeNext0, name, Marker(createdAt));
      r := Ok(Created(name, collectionName, adminId));
    }

    /** `get_org`: the registry record of the tenant, which carries its derived store name. */
    function GetOrg(name: string): (r: Option<OrgRecord>)
      reads this, repo, client
      ensures r.None? <==> forall o :: o in repo.orgs ==> o.name != name
      ensures r.Some? ==> r.value in repo.orgs && r.value.name == name
      ensures Valid() && r.Some? ==> r.value.collectionName == OrgDbName(name) && HasOwner(repo.admins, r.value)
    {
      repo.FindOrg(name)
    }

    /** The rename copy: every document of `src`, in order and without its `_id`, is inserted
        into `dst` in bulk inserts of exactly `BatchSize` documents, the last one possibly
        shorter but never empty. */
    method CopyCollection(src: CollectionRef, dst: CollectionRef) returns (ghost batches: seq<seq<Doc>>)
      modifies client
      ensures client.stores == Appended(old(client.stores), dst, StripAll(old(client.Find(src))), old(client.nextOid))
      ensures client.nextOid == old(client.nextOid) + |old(client.Find(src))|
      ensures Flatten(batches) == StripAll(old(client.Find(src)))
      ensures Batched(batches)
      ensures client.bulkInserts == old(client.bulkInserts) + batches
    {
      var docs := client.Find(src);
      ghost var before, start, log := client.stores, client.nextOid, client.bulkInserts;
      var batch: seq<Doc> := [];
      batches := [];
      for i := 0 to |docs|
        invariant Flatten(batches) + batch == StripAll(docs[..i])
        invariant FullBatches(batches)
        invariant |batch| < BatchSize
        invariant Copied(dst, before, start, log, batches)
      {
        var d := PopId(docs[i]);
        CopyStep(docs, i, Flatten(batches), batch, d);
        batch := batch + [d];
        if |batch| >= BatchSize {
          Flush(dst, batches, batch, before, start, log);
          FullBatchesSnoc(batches, batch);
          batches := batches + [batch];
          batch := [];
          assert Flatten(batches) + batch == Flatten(batches);
        }
      }
      assert docs[..|docs|] == docs;
      if |batch| > 0 {
        Flush(dst, batches, batch, before, start, log);
        FullThenRest(batches, [batch]);
        batches := batches + [batch];
      } else {
        assert Flatten(batches) + batch == Flatten(batches);
        FullThenRest(batches, []);
        assert batches + [] == batches;
      }
    }

    /** `if "_id" in d: d.pop("_id")`: the copy of one document without its store identifier. */
    static method PopId(d: Doc) returns (r: Doc)
      ensures r == Strip(d)
      ensures IdKey !in r && forall k :: k in d && k != IdKey ==> k in r && r[k] == d[k]
    {
      r := d;
      if IdKey in r {
        r := r - {IdKey};
      } else {
        StripAbsent(r);
      }
    }

    /** The client after the copy has flushed `batches` into `dst`: the batches follow the
        documents `dst` held, numbered from `start`, and are logged after `log`. */
    ghost predicate Copied(dst: CollectionRef, before: Stores, start: ObjectId, log: seq<seq<Doc>>, batches: seq<seq<Doc>>)
      reads client
    {
      && client.stores == Appended(before, dst, Flatten(batches), start)
      && client.nextOid == start + |Flatten(batches)|
      && client.bulkInserts == log + batches
    }

    /** One `insert_many` of the copy, stated against the batches flushed before it. */
    method Flush(dst: CollectionRef, ghost batches: seq<seq<Doc>>, batch: seq<Doc>,
                 ghost before: Stores, ghost start: ObjectId, ghost log: seq<seq<Doc>>)
      requires |batch| > 0
      requires Copied(dst, before, start, log, batches)
      modifies client
      ensures Flatten(batches + [batch]) == Flatten(batches) + batch
      ensures Copied(dst, before, start, log, batches + [batch])
    {
      ghost var written := Flatten(batches);
      ghost var mid := Appended(before, dst, written, start);
      assert client.stores == mid && client.nextOid == start + |written|;
      client.InsertMany(dst, batch);
      FlattenSnoc(batches, batch);
      AppendedTwice(before, dst, written, batch, start);
      assert client.stores == Appended(before, dst, written + batch, start);
      assert client.nextOid == start + |written + batch|;
      assert client.bulkInserts == log + (batches + [batch]);
    }

    /** `update_org`: optionally renames the tenant (copy the store, repoint the registry
        record and the admins, drop the old store), then applies supplied credentials to the
        first admin of the tenant under its current name. */
    method UpdateOrg(name: string, email: Option<string>, password: Option<string>, newName: Option<string>)
      returns (r: Result<Updated>)
      requires Valid()
      modifies repo, client
      ensures Valid()
      ensures r.Err? ==> r == Err(OrgNotFound) || r == Err(NewNameAlreadyExists) || r == Err(InvalidDbName)
      ensures r == Err(OrgNotFound) <==> old(!Registered(repo.orgs, name))
      ensures r == Err(NewNameAlreadyExists) <==>
                old(Registered(repo.orgs, name)) && IsRename(name, newName) && old(Registered(repo.orgs, newName.value))
      ensures r == Err(InvalidDbName) <==>
                && old(Registered(repo.orgs, name)) && IsRename(name, newName) && old(!Registered(repo.orgs, newName.value))
                && !(Addressable(name) && Addressable(newName.value))
      ensures r.Err? ==> unchanged(repo, client)
      ensures repo.nextOid == old(repo.nextOid)
      ensures r.Ok? && !IsRename(name, newName) ==>
        && r.value == Updated(UpdatedMessage, name)
        && repo.orgs == old(repo.orgs)
        && unchanged(client)
        && repo.admins == CredentialUpdate(old(repo.admins), name, email, password, hash)
      ensures r.Ok? && IsRename(name, newName) ==>
        var newName := newName.value;
        var o := old(repo.FindOrg(name)).value;
        && r.value == Updated(UpdatedMessage, newName)
        && repo.orgs == UpdateOne(old(repo.orgs), NameIs(name), Repoint(newName))
        && repo.FindOrg(name).None?
        && repo.FindOrg(newName) == Some(OrgRecord(o.id, newName, OrgDbName(newName), o.adminId))
        && repo.admins == CredentialUpdate(UpdateMany(old(repo.admins), OrgIs(name), MoveAdmin(newName)),
                                           newName, email, password, hash)
        && client.stores == RenamedStores(old(client.stores), name, newName, old(client.nextOid))
        && StripAll(client.Find(GetOrgCollection(newName))) == StripAll(old(client.Find(GetOrgCollection(name))))
        && GetOrgCollection(name) !in client.stores
        && client.nextOid == old(client.nextOid) + |old(client.Find(GetOrgCollection(name)))|
        && CopyLogged(old(client.bulkInserts), client.bulkInserts, StripAll(old(client.Find(GetOrgCollection(name)))))
    {
      var rec := repo.FindOrg(name);
      if rec.None? {
        return Err(OrgNotFound);
      }
      if Supplied(newName) && newName.value != name {
        var target := newName.value;
        var clash := repo.FindOrg(target);
        if clash.Some? {
          return Err(NewNameAlreadyExists);
        }
        if !Addressable(name) || !Addressable(target) {
          return Err(InvalidDbName);
        }
        var updated := RenameAndSetCredentials(name, target, email, password);
        return Ok(updated);
      }
      SetCredentials(name, email, password);
      r := Ok(Updated(UpdatedMessage, name));
    }

    /** `update_org` past its checks when it renames: the rename, then the credential step
        under the new name. */
    method RenameAndSetCredentials(name: string, target: string, email: Option<string>, password: Option<string>)
      returns (r: Updated)
      requires Valid()
      requires Registered(repo.orgs, name) && !Registered(repo.orgs, target)
      requires Addressable(name) && Addressable(target)
      modifies repo, client
      ensures Valid()
      ensures repo.nextOid == old(repo.nextOid)
      ensures
        var o := old(repo.FindOrg(name)).value;
        && r == Updated(UpdatedMessage, target)
        && repo.orgs == UpdateOne(old(repo.orgs), NameIs(name), Repoint(target))
        && repo.FindOrg(name).None?
        && repo.FindOrg(target) == Some(OrgRecord(o.id, target, OrgDbName(target), o.adminId))
        && repo.admins == CredentialUpdate(UpdateMany(old(repo.admins), OrgIs(name), MoveAdmin(target)),
                                           target, email, password, hash)
        && client.stores == RenamedStores(old(client.stores), name, target, old(client.nextOid))
        && StripAll(client.Find(GetOrgCollection(target))) == StripAll(old(client.Find(GetOrgCollection(name))))
        && GetOrgCollection(name) !in client.stores
        && client.nextOid == old(client.nextOid) + |old(client.Find(GetOrgCollection(name)))|
        && CopyLogged(old(client.bulkInserts), client.bulkInserts, StripAll(old(client.Find(GetOrgCollection(name)))))
    {
      ghost var orgs0, admins0, stores0, next0, storeNext0, log0 :=
        repo.orgs, repo.admins, client.stores, repo.nextOid, client.nextOid, client.bulkInserts;
      ghost var batches := Rename(name, target);
      CopyLoggedIntro(log0, batches, StripAll(Docs(stores0, GetOrgCollection(name))));
      RenameRegistry(orgs0, name, target);
      UnregisteredHasNoStore(orgs0, admins0, stores0, next0, target);
      RenameMovesData(stores0, name, target, storeNext0);
      // from here on the tenant goes by its new name
      SetCredentials(target, email, password);
      r := Updated(UpdatedMessage, target);
    }

    /** The rename steps of `update_org`: copy the store, repoint the registry record and
        every admin of the tenant, then drop the old store. */
    method Rename(name: string, target: string) returns (ghost batches: seq<seq<Doc>>)
      requires Valid()
      requires Registered(repo.orgs, name) && !Registered(repo.orgs, target)
      requires Addressable(name) && Addressable(target)
      modifies repo, client
      ensures Valid()
      ensures repo.nextOid == old(repo.nextOid)
      ensures client.nextOid == old(client.nextOid) + |old(client.Find(GetOrgCollection(name)))|
      ensures client.bulkInserts == old(client.bulkInserts) + batches
      ensures CopyBatches(batches, StripAll(old(client.Find(GetOrgCollection(name)))))
      ensures repo.orgs == UpdateOne(old(repo.orgs), NameIs(name), Repoint(target))
      ensures repo.admins == UpdateMany(old(repo.admins), OrgIs(name), MoveAdmin(target))
      ensures client.stores == RenamedStores(old(client.stores), name, target, old(client.nextOid))
    {
      ghost var orgs0, admins0, stores0, next0, storeNext0 :=
        repo.orgs, repo.admins, client.stores, repo.nextOid, client.nextOid;
      var oldColl := GetOrgCollection(name);
      var newColl := GetOrgCollection(target);
      ghost var src0, log0 := client.Find(oldColl), client.bulkInserts;
      batches := CopyCollection(oldColl, newColl);
      ghost var next2, log2 := client.nextOid, client.bulkInserts;
      assert next2 == storeNext0 + |src0| && log2 == log0 + batches;
      assert CopyBatches(batches, StripAll(src0));
      RepointRegistry(name, target);
      var _ := DropOrgDatabase(client, name);

      ghost var orgs1, admins1, stores1, next1 := repo.orgs, repo.admins, client.stores, repo.nextOid;
      assert orgs1 == UpdateOne(orgs0, NameIs(name), Repoint(target));
      assert admins1 == UpdateMany(admins0, OrgIs(name), MoveAdmin(target));
      assert stores1 == RenamedStores(stores0, name, target, storeNext0);
      assert next1 == next0;
      assert client.nextOid == next2 && client.bulkInserts == log2;
      RenamePreserves(orgs0, admins0, stores0, next0, storeNext0, name, target);
      assert Consistent(orgs1, admins1, stores1, next1);
    }

    /** The registry steps of a rename: the record of `name` takes the new name and store
        name, and every admin of `name` moves to `target`. */
    method RepointRegistry(name: string, target: string)
      modifies repo`orgs, repo`admins
      ensures repo.orgs == UpdateOne(old(repo.orgs), NameIs(name), Repoint(target))
      ensures repo.admins == UpdateMany(old(repo.admins), OrgIs(name), MoveAdmin(target))
    {
      repo.orgs := UpdateOne(repo.orgs, NameIs(name), Repoint(target));
      repo.admins := UpdateMany(repo.admins, OrgIs(name), MoveAdmin(target));
    }

    /** The credential step of `update_org`: the supplied email and the hash of the supplied
        password are set on the first admin of `org`; with neither supplied nothing is written. */
    method SetCredentials(org: string, email: Option<string>, password: Option<string>)
      requires Valid()
      modifies repo`admins
      ensures Valid()
      ensures repo.admins == CredentialUpdate(old(repo.admins), org, email, password, hash)
    {
      ghost var admins0 := repo.admins;
      var fields := AdminFields(None, None);
      if Supplied(email) {
        fields := fields.(email := Some(email.value));
      }
      if Supplied(password) {
        fields := fields.(password := Some(hash(password.value)));
      }
      assert fields == CredentialFields(email, password, hash);
      if fields.email.Some? || fields.password.Some? {
        repo.UpdateAdminByOrg(org, fields);
      }
      CredentialUpdatePreserves(repo.orgs, admins0, client.stores, repo.nextOid, org, email, password, hash);
    }

    /** `delete_org`: drops the tenant's store, then removes its registry record, then its admins. */
    method DeleteOrg(name: string) returns (r: Result<string>)
      requires Valid()
      modifies repo, client
      ensures Valid()
      ensures r.Err? ==> r == Err(OrgNotFound) || r == Err(InvalidDbName)
      ensures r == Err(OrgNotFound) <==> old(!Registered(repo.orgs, name))
      ensures r == Err(InvalidDbName) <==> old(Registered(repo.orgs, name)) && !Addressable(name)
      ensures r.Err? ==> unchanged(repo, client)
      ensures repo.nextOid == old(repo.nextOid) && client.nextOid == old(client.nextOid)
      ensures client.bulkInserts == old(client.bulkInserts)
      ensures r.Ok? ==>
        && r.value == DeletedMessage
        && client.stores == DropDb(old(client.stores), OrgDbName(name))
        && GetOrgCollection(name) !in client.stores
        && repo.orgs == DeleteOne(old(repo.orgs), NameIs(name))
        && |repo.orgs| == |old(repo.orgs)| - 1
        && repo.FindOrg(name).None?
        && (forall o :: o in old(repo.orgs) && o.name != name ==> o in repo.orgs)
        && repo.admins == DeleteMany(old(repo.admins), OrgIs(name))
        && (forall a :: a in repo.admins ==> a.organization != name)
        && (forall a :: a in old(repo.admins) && a.organization != name ==> a in repo.admins)
    {
      var rec := repo.FindOrg(name);
      if rec.None? {
        return Err(OrgNotFound);
      }
      ghost var orgs0, admins0, stores0, next0 := repo.orgs, repo.admins, client.stores, repo.nextOid;

      var dropped := DropOrgDatabase(client, name);
      if !dropped {
        return Err(InvalidDbName);
      }
      repo.DeleteOrg(name);
      repo.DeleteAdminByOrg(name);

      ghost var orgs1, admins1, stores1, next1 := repo.orgs, repo.admins, client.stores, repo.nextOid;
      assert orgs1 == DeleteOne(orgs0, NameIs(name));
      assert admins1 == DeleteMany(admins0, OrgIs(name));
      assert stores1 == DropDb(stores0, OrgDbName(name));
      assert next1 == next0;
      DeletePreserves(orgs0, admins0, stores0, next0, name);
      assert Consistent(orgs1, admins1, stores1, next1);
      DeleteEffect(orgs0, admins0, name);
      r := Ok(DeletedMessage);
    }
  }
}
