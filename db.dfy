/** The store locator: one shared client holding every tenant database, the deterministic
    name of each tenant's database, and dropping a database. */
module Db {
  import opened Collections
  import opened Documents

  /** Prefix of every tenant database name. */
  const OrgDbPrefix: string := "org_"
  /** The one collection a tenant database holds. */
  const DataCollection: string := "data"

  /** `f"org_{org_name}"`: the database name of a tenant. */
  function OrgDbName(orgName: string): string
  {
    OrgDbPrefix + orgName
  }

  /** The tenant whose database carries the name `db`, if `db` is a tenant database name. */
  function OrgNameOf(db: string): Option<string>
  {
    if |OrgDbPrefix| <= |db| && db[..|OrgDbPrefix|] == OrgDbPrefix then Some(db[|OrgDbPrefix|..]) else None
  }

  /** `OrgNameOf` inverts `OrgDbName` exactly: a database name belongs to tenant `n`
      if and only if it is `n`'s derived name. */
  lemma OrgNameOfInverse(db: string, n: string)
    ensures OrgNameOf(db) == Some(n) <==> db == OrgDbName(n)
  {
    if db == OrgDbName(n) {
      assert db[..|OrgDbPrefix|] == OrgDbPrefix;
      assert db[|OrgDbPrefix|..] == n;
    }
    if OrgNameOf(db) == Some(n) {
      assert db == db[..|OrgDbPrefix|] + db[|OrgDbPrefix|..];
    }
  }

  /** The name derivation is injective: distinct tenants never share a database. */
  lemma OrgDbNameInjective(a: string, b: string)
    requires OrgDbName(a) == OrgDbName(b)
    ensures a == b
  {
    OrgNameOfInverse(OrgDbName(a), a);
    OrgNameOfInverse(OrgDbName(a), b);
  }

  /** A character the store client refuses in a database name: space, `.`, `$`, `/`,
      backslash, double quote and NUL. */
  predicate ReservedInDbName(ch: char)
  {
    ch == ' ' || ch == '.' || ch == '$' || ch == '/' || ch == '\\' || ch == '"' || ch == '\0'
  }

  /** A database name the store client accepts: non-empty and free of reserved characters. */
  predicate ValidDbName(db: string)
  {
    db != "" && forall i :: 0 <= i < |db| ==> !ReservedInDbName(db[i])
  }

  /** A tenant whose database the client can address, so that `get_org_collection` and
      `drop_org_database` do not raise the client's invalid-name error. */
  predicate Addressable(orgName: string)
  {
    ValidDbName(OrgDbName(orgName))
  }

  /** The prefix never makes a name invalid: a tenant is addressable exactly when its own
      name holds no reserved character (the empty tenant name included). */
  lemma AddressableChars(orgName: string)
    ensures Addressable(orgName) <==> forall i :: 0 <= i < |orgName| ==> !ReservedInDbName(orgName[i])
  {
    var db := OrgDbName(orgName);
    assert forall i :: 0 <= i < |orgName| ==> db[|OrgDbPrefix| + i] == orgName[i];
    assert forall i :: 0 <= i < |OrgDbPrefix| ==> !ReservedInDbName(db[i]);
  }

  /** A handle on one collection of one database. */
  datatype CollectionRef = CollectionRef(database: string, collection: string)

  /** `get_org_collection`: the `data` collection of the tenant's database. */
  function GetOrgCollection(orgName: string): (c: CollectionRef)
    ensures OrgNameOf(c.database) == Some(orgName)
    ensures c.collection == DataCollection
  {
    OrgNameOfInverse(OrgDbName(orgName), orgName);
    CollectionRef(OrgDbName(orgName), DataCollection)
  }

  /** Distinct tenants resolve to distinct collections. */
  lemma GetOrgCollectionInjective(a: string, b: string)
    requires GetOrgCollection(a) == GetOrgCollection(b)
    ensures a == b
  {
    OrgDbNameInjective(a, b);
  }

  /** The contents of every existing collection of every tenant database. */
  type Stores = map<CollectionRef, seq<Doc>>

  /** `find({})`: a collection's documents in natural order; a missing collection reads empty. */
  function Docs(stores: Stores, c: CollectionRef): (r: seq<Doc>)
    ensures c !in stores ==> r == []
    ensures c in stores ==> r == stores[c]
  {
    if c in stores then stores[c] else []
  }

  /** The stores after `docs` are inserted into `c` with identifiers from `start`.
      A collection comes into existence on its first insert; inserting nothing creates nothing. */
  function Appended(stores: Stores, c: CollectionRef, docs: seq<Doc>, start: ObjectId): (r: Stores)
    ensures Docs(r, c) == Docs(stores, c) + AssignIds(docs, start)
    ensures c in r <==> c in stores || |docs| > 0
    ensures forall c' :: c' != c ==> (c' in r <==> c' in stores)
    ensures forall c' :: c' in r && c' != c ==> r[c'] == stores[c']
  {
    if |docs| == 0 then stores else stores[c := Docs(stores, c) + AssignIds(docs, start)]
  }

  /** A non-empty insert writes the collection's new contents. */
  lemma AppendedUnfold(stores: Stores, c: CollectionRef, docs: seq<Doc>, start: ObjectId)
    requires |docs| > 0
    ensures Appended(stores, c, docs, start) == stores[c := Docs(stores, c) + AssignIds(docs, start)]
  {
  }

  /** Concatenation is associative. */
  lemma ConcatAssoc<T>(x: seq<T>, y: seq<T>, z: seq<T>)
    ensures (x + y) + z == x + (y + z)
  {
  }

  /** Writing a key twice leaves the second value. */
  lemma OverwriteTwice(stores: Stores, c: CollectionRef, first: seq<Doc>, second: seq<Doc>)
    ensures stores[c := first][c := second] == stores[c := second]
  {
  }

  /** Two inserts into the same collection, the second taking identifiers where the first
      stopped, leave the stores as one insert of both lists. */
  lemma AppendedTwice(stores: Stores, c: CollectionRef, a: seq<Doc>, b: seq<Doc>, start: ObjectId)
    ensures Appended(Appended(stores, c, a, start), c, b, start + |a|) == Appended(stores, c, a + b, start)
  {
    if |a| == 0 {
      assert a + b == b;
    } else if |b| == 0 {
      assert a + b == a;
    } else {
      var d := Docs(stores, c);
      var first, second := AssignIds(a, start), AssignIds(b, start + |a|);
      var s1 := Appended(stores, c, a, start);
      AppendedUnfold(stores, c, a, start);
      AppendedUnfold(s1, c, b, start + |a|);
      OverwriteTwice(stores, c, d + first, (d + first) + second);
      AppendedUnfold(stores, c, a + b, start);
      AssignIdsAppend(a, b, start);
      ConcatAssoc(d, first, second);
    }
  }

  /** `drop_database(db)`: every collection of database `db` is gone, every other one is kept. */
  function DropDb(stores: Stores, db: string): (r: Stores)
    ensures forall c :: c in r <==> c in stores && c.database != db
    ensures forall c :: c in r ==> r[c] == stores[c]
  {
    map c | c in stores && c.database != db :: stores[c]
  }

  /** The shared client: the tenant databases it holds and the ObjectId generator used
      for documents inserted without an `_id`. */
  class Client {
    var stores: Stores
    var nextOid: ObjectId
    /** The document lists passed to `insert_many`, in call order. */
    ghost var bulkInserts: seq<seq<Doc>>

    constructor (stores: Stores, nextOid: ObjectId)
      ensures this.stores == stores && this.nextOid == nextOid
      ensures bulkInserts == []
    {
      this.stores := stores;
      this.nextOid := nextOid;
      bulkInserts := [];
    }

    /** `collection.find({})`. */
    function Find(c: CollectionRef): (r: seq<Doc>)
      reads this
      ensures c !in stores ==> r == []
      ensures c in stores ==> r == stores[c]
    {
      Docs(stores, c)
    }

    /** `collection.insert_one(d)`. */
    method InsertOne(c: CollectionRef, d: Doc)
      modifies this
      ensures stores == Appended(old(stores), c, [d], old(nextOid))
      ensures nextOid == old(nextOid) + 1
      ensures bulkInserts == old(bulkInserts)
    {
      stores := Appended(stores, c, [d], nextOid);
      nextOid := nextOid + 1;
    }

    /** `collection.insert_many(docs)`; the driver refuses an empty list. */
    method InsertMany(c: CollectionRef, docs: seq<Doc>)
      requires |docs| > 0
      modifies this
      ensures stores == Appended(old(stores), c, docs, old(nextOid))
      ensures nextOid == old(nextOid) + |docs|
      ensures bulkInserts == old(bulkInserts) + [docs]
    {
      stores := Appended(stores, c, docs, nextOid);
      nextOid := nextOid + |docs|;
      bulkInserts := bulkInserts + [docs];
    }

    /** `client.drop_database(db)`; a name the client cannot address is refused (`ok` is
        false) and nothing is dropped. */
    method DropDatabase(db: string) returns (ok: bool)
      modifies this`stores
      ensures ok == ValidDbName(db)
      ensures stores == if ok then DropDb(old(stores), db) else old(stores)
    {
      ok := ValidDbName(db);
      if ok {
        stores := DropDb(stores, db);
      }
    }
  }

  /** `drop_org_database`: drops exactly the database `get_org_collection` resolves for the
      tenant, so its data collection is gone, and keeps every other database; an
      unaddressable tenant name is refused and nothing changes. */
  method DropOrgDatabase(client: Client, orgName: string) returns (ok: bool)
    modifies client`stores
    ensures ok == Addressable(orgName)
    ensures !ok ==> client.stores == old(client.stores)
    ensures ok ==> client.stores == DropDb(old(client.stores), OrgDbName(orgName))
    ensures ok ==> GetOrgCollection(orgName) !in client.stores
    ensures ok ==> client.Find(GetOrgCollection(orgName)) == []
    ensures forall c :: c in old(client.stores) && c.database != OrgDbName(orgName) ==>
              c in client.stores && client.stores[c] == old(client.stores)[c]
  {
    ok := client.DropDatabase(OrgDbName(orgName));
  }
}
