/** The master registry: the `orgs` collection of tenant records and the `admins`
    collection of admin credential records, both in the registry database. */
module Master {
  import opened Collections
  import opened Documents

  /** A document of `orgs`: `{_id, organization_name, collection_name, admin_id}`. */
  datatype OrgRecord = OrgRecord(id: ObjectId, name: string, collectionName: string, adminId: ObjectId)

  /** A document of `admins`: `{_id, email, password, organization}`; `password` holds a hash. */
  datatype Admin = Admin(id: ObjectId, email: string, password: string, organization: string)

  /** The fields of a `$set` on an admin: a field is set when present. */
  datatype AdminFields = AdminFields(email: Option<string>, password: Option<string>)

  /** The filter `{"organization_name": name}` on `orgs`. */
  function NameIs(name: string): OrgRecord -> bool
  {
    (o: OrgRecord) => o.name == name
  }

  /** The filter `{"organization": org}` on `admins`. */
  function OrgIs(org: string): Admin -> bool
  {
    (a: Admin) => a.organization == org
  }

  /** The filter `{"email": email}` on `admins`. */
  function EmailIs(email: string): Admin -> bool
  {
    (a: Admin) => a.email == email
  }

  /** The update `{"$set": fields}` on one admin. */
  function SetFields(f: AdminFields): Admin -> Admin
  {
    (a: Admin) => a.(email := if f.email.Some? then f.email.value else a.email,
                     password := if f.password.Some? then f.password.value else a.password)
  }

  /** `$set` writes exactly the given fields and never the identifier or the organization. */
  lemma SetFieldsEffect(f: AdminFields, a: Admin)
    ensures SetFields(f)(a).id == a.id && SetFields(f)(a).organization == a.organization
    ensures SetFields(f)(a).email == (if f.email.Some? then f.email.value else a.email)
    ensures SetFields(f)(a).password == (if f.password.Some? then f.password.value else a.password)
    ensures f.email.None? && f.password.None? ==> SetFields(f)(a) == a
  {
  }

  /** Every identifier handed out so far is below the generator's next value. */
  ghost predicate IdsBelow(orgs: seq<OrgRecord>, admins: seq<Admin>, next: ObjectId)
  {
    && (forall o :: o in orgs ==> o.id < next)
    && (forall a :: a in admins ==> a.id < next)
  }

  class MasterRepo {
    var orgs: seq<OrgRecord>
    var admins: seq<Admin>
    /** The ObjectId generator for documents inserted into the registry. */
    var nextOid: ObjectId

    ghost predicate Valid()
      reads this
    {
      IdsBelow(orgs, admins, nextOid)
    }

    constructor (orgs: seq<OrgRecord>, admins: seq<Admin>, nextOid: ObjectId)
      requires IdsBelow(orgs, admins, nextOid)
      ensures Valid()
      ensures this.orgs == orgs && this.admins == admins && this.nextOid == nextOid
    {
      this.orgs := orgs;
      this.admins := admins;
      this.nextOid := nextOid;
    }

    /** `find_org`: the first record with that name, or nothing when there is none. */
    function FindOrg(name: string): (r: Option<OrgRecord>)
      reads this
      ensures r.Some? ==> r.value in orgs && r.value.name == name
      ensures r.None? <==> forall o :: o in orgs ==> o.name != name
      ensures r.Some? ==> exists k :: 0 <= k < |orgs| && orgs[k] == r.value &&
                                      forall j :: 0 <= j < k ==> orgs[j].name != name
    {
      FindOne(orgs, NameIs(name))
    }

    /** `create_org_record`: appends one record, with no uniqueness check of its own. */
    method CreateOrgRecord(name: string, collectionName: string, adminId: ObjectId) returns (id: ObjectId)
      requires Valid()
      modifies this
      ensures Valid()
      ensures id == old(nextOid) && nextOid == old(nextOid) + 1
      ensures orgs == old(orgs) + [OrgRecord(id, name, collectionName, adminId)]
      ensures admins == old(admins)
    {
      id := nextOid;
      orgs := orgs + [OrgRecord(id, name, collectionName, adminId)];
      nextOid := nextOid + 1;
    }

    /** `delete_org`: removes the first record with that name, if any. */
    method DeleteOrg(name: string)
      modifies this`orgs
      ensures orgs == DeleteOne(old(orgs), NameIs(name))
    {
      orgs := DeleteOne(orgs, NameIs(name));
    }

    /** `create_admin`: appends one admin and returns its new identifier, which no existing
        admin carries. */
    method CreateAdmin(email: string, hashedPassword: string, organization: string) returns (id: ObjectId)
      requires Valid()
      modifies this
      ensures Valid()
      ensures id == old(nextOid) && nextOid == old(nextOid) + 1
      ensures forall a :: a in old(admins) ==> a.id != id
      ensures admins == old(admins) + [Admin(id, email, hashedPassword, organization)]
      ensures orgs == old(orgs)
    {
      id := nextOid;
      admins := admins + [Admin(id, email, hashedPassword, organization)];
      nextOid := nextOid + 1;
    }

    /** `find_admin_by_email`: the first admin with that email, or nothing. */
    function FindAdminByEmail(email: string): (r: Option<Admin>)
      reads this
      ensures r.Some? ==> r.value in admins && r.value.email == email
      ensures r.None? <==> forall a :: a in admins ==> a.email != email
      ensures r.Some? ==> exists k :: 0 <= k < |admins| && admins[k] == r.value &&
                                      forall j :: 0 <= j < k ==> admins[j].email != email
    {
      FindOne(admins, EmailIs(email))
    }

    /** `delete_admin_by_org`: removes every admin of the organization, keeps the others in order. */
    method DeleteAdminByOrg(organization: string)
      modifies this`admins
      ensures admins == DeleteMany(old(admins), OrgIs(organization))
      ensures forall a :: a in admins ==> a in old(admins) && a.organization != organization
    {
      admins := DeleteMany(admins, OrgIs(organization));
    }

    /** `update_admin_by_org`: sets the given fields on the first admin of the organization only. */
    method UpdateAdminByOrg(organization: string, fields: AdminFields)
      modifies this`admins
      ensures admins == UpdateOne(old(admins), OrgIs(organization), SetFields(fields))
    {
      admins := UpdateOne(admins, OrgIs(organization), SetFields(fields));
    }
  }
}
