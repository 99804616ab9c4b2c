/** The four tables of the shelter registry (centers, animals, species, auths),
    their rows, the dictionary views the API returns, and the store operations
    that read and write the tables. The database is an in-memory store: one map
    per table keyed by primary key, and one counter per table standing in for
    the auto-increment key. */
module Models {
  import opened Wrappers

  // ---------------------------------------------------------------------------
  // Rows
  // ---------------------------------------------------------------------------

  datatype Center = Center(id: int, name: string, login: string, password: string, address: string)

  /** `description` and `price` are nullable columns; `price` is an Integer column. */
  datatype Animal = Animal(id: int, centerId: int, name: string, description: Option<string>,
                           age: int, specie: int, price: Option<int>)

  datatype Specie = Specie(id: int, name: string, description: string, price: int)

  /** One row of the auths table: a successful login of `centerId` at `timestamp`. */
  datatype AuthEvent = AuthEvent(id: int, centerId: int, timestamp: int)

  /** The parsed body of an animal update: a field is `Some` exactly when the
      client sent it (fields that were not sent are not stored). */
  datatype AnimalPatch = AnimalPatch(name: Option<string>, description: Option<string>,
                                     age: Option<int>, specie: Option<int>, price: Option<int>)

  // ---------------------------------------------------------------------------
  // Dictionary views (the JSON objects the API builds from rows)
  // ---------------------------------------------------------------------------

  datatype Value = Int(i: int) | Str(s: string) | Null

  type Dict = map<string, Value>

  function StrOrNull(o: Option<string>): Value {
    if o.Some? then Str(o.value) else Null
  }

  function IntOrNull(o: Option<int>): Value {
    if o.Some? then Int(o.value) else Null
  }

  /** The columns of each table, as named in the schema. */
  const CenterColumns: set<string> := {"id", "name", "login", "password", "address"}
  const AnimalColumns: set<string> := {"id", "center_id", "name", "description", "age", "specie", "price"}
  const SpecieColumns: set<string> := {"id", "name", "description", "price"}

  /** Columns a safe Center view drops, and the only columns a safe Animal view keeps. */
  const CenterHidden: set<string> := {"login", "password", "address"}
  const AnimalShown: set<string> := {"name", "id", "specie"}

  /** Reading a nullable column back from a view: `Some(None)` for null, and
      None for a value of the wrong type. */
  function NullableStr(v: Value): Option<Option<string>> {
    match v
    case Null => Some(None)
    case Str(x) => Some(Some(x))
    case Int(_) => None
  }

  function NullableInt(v: Value): Option<Option<int>> {
    match v
    case Null => Some(None)
    case Int(x) => Some(Some(x))
    case Str(_) => None
  }

  /** The row a full view describes, when every column is present with a
      value of the column's type. */
  function DictToCenter(d: Dict): Option<Center> {
    if && "id" in d && d["id"].Int? && "name" in d && d["name"].Str?
       && "login" in d && d["login"].Str? && "password" in d && d["password"].Str?
       && "address" in d && d["address"].Str?
    then Some(Center(d["id"].i, d["name"].s, d["login"].s, d["password"].s, d["address"].s))
    else None
  }

  function DictToAnimal(d: Dict): Option<Animal> {
    if && "id" in d && d["id"].Int? && "center_id" in d && d["center_id"].Int?
       && "name" in d && d["name"].Str? && "description" in d && NullableStr(d["description"]).Some?
       && "age" in d && d["age"].Int? && "specie" in d && d["specie"].Int?
       && "price" in d && NullableInt(d["price"]).Some?
    then Some(Animal(d["id"].i, d["center_id"].i, d["name"].s, NullableStr(d["description"]).value,
                     d["age"].i, d["specie"].i, NullableInt(d["price"]).value))
    else None
  }

  function DictToSpecie(d: Dict): Option<Specie> {
    if && "id" in d && d["id"].Int? && "name" in d && d["name"].Str?
       && "description" in d && d["description"].Str? && "price" in d && d["price"].Int?
    then Some(Specie(d["id"].i, d["name"].s, d["description"].s, d["price"].i))
    else None
  }

  /** `to_dict`: every column of the row, keyed by column name, holding the
      row's value (the view decodes back to the row). */
  function CenterToDict(c: Center): (d: Dict)
    ensures d.Keys == CenterColumns
    ensures DictToCenter(d) == Some(c)
  {
    map["id" := Int(c.id), "name" := Str(c.name), "login" := Str(c.login),
        "password" := Str(c.password), "address" := Str(c.address)]
  }

  function AnimalToDict(a: Animal): (d: Dict)
    ensures d.Keys == AnimalColumns
    ensures DictToAnimal(d) == Some(a)
  {
    map["id" := Int(a.id), "center_id" := Int(a.centerId), "name" := Str(a.name),
        "description" := StrOrNull(a.description), "age" := Int(a.age),
        "specie" := Int(a.specie), "price" := IntOrNull(a.price)]
  }

  function SpecieToDict(s: Specie): (d: Dict)
    ensures d.Keys == SpecieColumns
    ensures DictToSpecie(d) == Some(s)
  {
    map["id" := Int(s.id), "name" := Str(s.name), "description" := Str(s.description),
        "price" := Int(s.price)]
  }

  /** `Center.to_safe_dict`: the full view without the credential and address columns.
      What is left is exactly the id and the name, with the row's values. */
  function CenterToSafeDict(c: Center): (d: Dict)
    ensures "login" !in d && "password" !in d && "address" !in d
    ensures d.Keys == {"id", "name"}
    ensures d["id"] == Int(c.id) && d["name"] == Str(c.name)
  {
    var full := CenterToDict(c);
    map k | k in full && k !in CenterHidden :: full[k]
  }

  /** `Animal.to_safe_dict`: only the id, name and specie columns of the full view. */
  function AnimalToSafeDict(a: Animal): (d: Dict)
    ensures d.Keys == {"id", "name", "specie"}
    ensures d["id"] == Int(a.id) && d["name"] == Str(a.name) && d["specie"] == Int(a.specie)
  {
    var full := AnimalToDict(a);
    map k | k in full && k in AnimalShown :: full[k]
  }

  // ---------------------------------------------------------------------------
  // Partial update
  // ---------------------------------------------------------------------------

  /** The update data as the handler passes it on: a dictionary holding only
      the keys the client sent. */
  function PatchToDict(p: AnimalPatch): Dict {
    var d0: Dict := map[];
    var d1 := if p.name.Some? then d0["name" := Str(p.name.value)] else d0;
    var d2 := if p.description.Some? then d1["description" := Str(p.description.value)] else d1;
    var d3 := if p.age.Some? then d2["age" := Int(p.age.value)] else d2;
    var d4 := if p.specie.Some? then d3["specie" := Int(p.specie.value)] else d3;
    if p.price.Some? then d4["price" := Int(p.price.value)] else d4
  }

  /** The row after `Animal.update`: each field present in the patch overwritten. */
  function ApplyPatch(a: Animal, p: AnimalPatch): Animal {
    a.(name := if p.name.Some? then p.name.value else a.name,
       description := if p.description.Some? then p.description else a.description,
       age := if p.age.Some? then p.age.value else a.age,
       specie := if p.specie.Some? then p.specie.value else a.specie,
       price := if p.price.Some? then p.price else a.price)
  }

  /** The update is a dictionary merge: the new row's view is the old view with
      the update data laid over it. The update data never names `id` or
      `center_id`, so those two never change. */
  lemma PatchIsDictMerge(a: Animal, p: AnimalPatch)
    ensures PatchToDict(p).Keys <= AnimalColumns - {"id", "center_id"}
    ensures AnimalToDict(ApplyPatch(a, p)) == AnimalToDict(a) + PatchToDict(p)
  {
  }

  /** Applying the same update twice gives the same row as applying it once. */
  lemma PatchIdempotent(a: Animal, p: AnimalPatch)
    ensures ApplyPatch(ApplyPatch(a, p), p) == ApplyPatch(a, p)
  {
  }

  // ---------------------------------------------------------------------------
  // Query results in primary-key order
  // ---------------------------------------------------------------------------

  /** The keys of a table that lie in [1, n). */
  ghost function KeysBelow<T>(m: map<int, T>, n: int): set<int> {
    set id | id in m && 1 <= id < n
  }

  /** The rows of a table whose keys lie in [1, n), in ascending key order:
      what `query.all()` returns when `n` is the next free key. */
  function InIdOrder<T>(m: map<int, T>, n: int): (r: seq<T>)
    decreases n
    ensures |r| <= if n < 1 then 0 else n - 1
    ensures forall x :: x in r ==> exists id :: id in m && 1 <= id < n && m[id] == x
    ensures forall id :: id in m && 1 <= id < n ==> m[id] in r
  {
    if n <= 1 then [] else InIdOrder(m, n - 1) + (if n - 1 in m then [m[n - 1]] else [])
  }

  /** `query.all()` has one entry per stored key in range. */
  lemma {:induction false} InIdOrderCount<T>(m: map<int, T>, n: int)
    decreases n
    ensures |InIdOrder(m, n)| == |KeysBelow(m, n)|
  {
    if n <= 1 {
      assert KeysBelow(m, n) == {};
    } else {
      InIdOrderCount(m, n - 1);
      KeysBelowStep(m, n);
    }
  }

  /** Raising the bound by one adds the key `n - 1` exactly when it is stored. */
  lemma KeysBelowStep<T>(m: map<int, T>, n: int)
    requires n > 1
    ensures |KeysBelow(m, n)| == |KeysBelow(m, n - 1)| + (if n - 1 in m then 1 else 0)
  {
    if n - 1 in m {
      assert KeysBelow(m, n) == KeysBelow(m, n - 1) + {n - 1};
    } else {
      assert KeysBelow(m, n) == KeysBelow(m, n - 1);
    }
  }

  /** When every row carries its own key, `InIdOrder` lists the rows in
      strictly ascending key order. */
  lemma {:induction false} InIdOrderAscending<T>(m: map<int, T>, n: int, key: T -> int)
    requires forall id :: id in m ==> key(m[id]) == id
    decreases n
    ensures forall i, j :: 0 <= i < j < |InIdOrder(m, n)| ==> key(InIdOrder(m, n)[i]) < key(InIdOrder(m, n)[j])
  {
    if n > 1 {
      InIdOrderAscending(m, n - 1, key);
      var prev := InIdOrder(m, n - 1);
      forall x | x in prev
        ensures key(x) < n - 1
      {
        var id :| id in m && 1 <= id < n - 1 && m[id] == x;
      }
      var r := InIdOrder(m, n);
      forall i, j | 0 <= i < j < |r|
        ensures key(r[i]) < key(r[j])
      {
        if j >= |prev| {
          assert r[i] == prev[i];
          assert r[j] == m[n - 1];
        } else {
          assert r[i] == prev[i] && r[j] == prev[j];
        }
      }
    }
  }

  /** The Animal columns a query filters on. */
  datatype AnimalKey = ByCenter | BySpecie

  function KeyOf(a: Animal, k: AnimalKey): int {
    match k
    case ByCenter => a.centerId
    case BySpecie => a.specie
  }

  /** `filter_by(column=v)`: the rows whose column `k` equals `v`, in their
      original order. */
  function FilterBy(rows: seq<Animal>, k: AnimalKey, v: int): (r: seq<Animal>)
    ensures |r| <= |rows|
    ensures forall a :: a in r <==> a in rows && KeyOf(a, k) == v
  {
    if rows == [] then []
    else (if KeyOf(rows[0], k) == v then [rows[0]] else []) + FilterBy(rows[1..], k, v)
  }

  lemma {:induction false} FilterByAppend(xs: seq<Animal>, ys: seq<Animal>, k: AnimalKey, v: int)
    ensures FilterBy(xs + ys, k, v) == FilterBy(xs, k, v) + FilterBy(ys, k, v)
  {
    if xs != [] {
      assert (xs + ys)[1..] == xs[1..] + ys;
      FilterByAppend(xs[1..], ys, k, v);
    } else {
      assert xs + ys == ys;
    }
  }

  /** The keys in [1, n) of the rows whose column `k` equals `v`. */
  ghost function KeysWith(m: map<int, Animal>, n: int, k: AnimalKey, v: int): set<int> {
    set id | id in m && 1 <= id < n && KeyOf(m[id], k) == v
  }

  /** Filtering the ordered rows lists each matching row once: the length of
      the filtered list is the number of matching keys. */
  lemma {:induction false} FilterCountsKeys(m: map<int, Animal>, n: int, k: AnimalKey, v: int)
    decreases n
    ensures |FilterBy(InIdOrder(m, n), k, v)| == |KeysWith(m, n, k, v)|
  {
    if n <= 1 {
      assert KeysWith(m, n, k, v) == {};
    } else {
      FilterCountsKeys(m, n - 1, k, v);
      var last := if n - 1 in m then [m[n - 1]] else [];
      assert InIdOrder(m, n) == InIdOrder(m, n - 1) + last;
      FilterByAppend(InIdOrder(m, n - 1), last, k, v);
      KeysWithStep(m, n, k, v);
    }
  }

  /** Raising the bound by one adds the key `n - 1` exactly when it matches. */
  lemma KeysWithStep(m: map<int, Animal>, n: int, k: AnimalKey, v: int)
    requires n > 1
    ensures |KeysWith(m, n, k, v)|
         == |KeysWith(m, n - 1, k, v)| + |FilterBy(if n - 1 in m then [m[n - 1]] else [], k, v)|
  {
    var before := KeysWith(m, n - 1, k, v);
    if n - 1 in m && KeyOf(m[n - 1], k) == v {
      assert FilterBy([m[n - 1]], k, v) == [m[n - 1]];
      KeysWithGrow(m, n, k, v);
      assert n - 1 !in before;
      assert |before + {n - 1}| == |before| + 1;
    } else {
      assert n - 1 in m ==> FilterBy([m[n - 1]], k, v) == [];
      KeysWithSame(m, n, k, v);
    }
  }

  lemma KeysWithGrow(m: map<int, Animal>, n: int, k: AnimalKey, v: int)
    requires n > 1 && n - 1 in m && KeyOf(m[n - 1], k) == v
    ensures KeysWith(m, n, k, v) == KeysWith(m, n - 1, k, v) + {n - 1}
  {
  }

  lemma KeysWithSame(m: map<int, Animal>, n: int, k: AnimalKey, v: int)
    requires n > 1 && !(n - 1 in m && KeyOf(m[n - 1], k) == v)
    ensures KeysWith(m, n, k, v) == KeysWith(m, n - 1, k, v)
  {
  }

  // ---------------------------------------------------------------------------
  // The store
  // ---------------------------------------------------------------------------

  /** Every table and counter at once, to state what an operation leaves alone. */
  datatype Snapshot = Snapshot(centers: map<int, Center>, animals: map<int, Animal>,
                               species: map<int, Specie>, auths: seq<AuthEvent>,
                               nextCenterId: int, nextAnimalId: int, nextSpecieId: int)

  /** True when `c` is found by `filter_by(login=login)`, or by
      `filter_by(login=login, password=password)` when a password is given. */
  predicate Matches(c: Center, login: string, password: Option<string>) {
    c.login == login && (password.Some? ==> c.password == password.value)
  }

  class Store {
    var centers: map<int, Center>
    var animals: map<int, Animal>
    var species: map<int, Specie>
    var auths: seq<AuthEvent>
    var nextCenterId: int
    var nextAnimalId: int
    var nextSpecieId: int

    /** Keys are positive, below the table's counter, and equal to the row's id;
        the auth log is numbered 1, 2, 3, ... */
    ghost predicate Valid()
      reads this
    {
      && 1 <= nextCenterId && 1 <= nextAnimalId && 1 <= nextSpecieId
      && (forall id :: id in centers ==> 1 <= id < nextCenterId && centers[id].id == id)
      && (forall id :: id in animals ==> 1 <= id < nextAnimalId && animals[id].id == id)
      && (forall id :: id in species ==> 1 <= id < nextSpecieId && species[id].id == id)
      && (forall i :: 0 <= i < |auths| ==> auths[i].id == i + 1)
    }

    ghost function State(): Snapshot
      reads this
    {
      Snapshot(centers, animals, species, auths, nextCenterId, nextAnimalId, nextSpecieId)
    }

    /** No two Centers share a login. The tables do not enforce this; the
        registration handler keeps it by checking before it inserts. */
    ghost predicate LoginsUnique()
      reads this
    {
      forall i, j :: i in centers && j in centers && centers[i].login == centers[j].login ==> i == j
    }

    /** Every Animal names an existing Specie. The handlers keep this: they
        check the specie before every insert and update, and no Specie is
        ever removed. */
    ghost predicate SpeciesResolve()
      reads this
    {
      forall id :: id in animals ==> animals[id].specie in species
    }

    ghost predicate HasLogin(login: string)
      reads this
    {
      exists id :: id in centers && centers[id].login == login
    }

    constructor ()
      ensures Valid() && LoginsUnique() && SpeciesResolve()
      ensures centers == map[] && animals == map[] && species == map[] && auths == []
      ensures nextCenterId == 1 && nextAnimalId == 1 && nextSpecieId == 1
    {
      centers, animals, species, auths := map[], map[], map[], [];
      nextCenterId, nextAnimalId, nextSpecieId := 1, 1, 1;
    }

    // ----- Center -----------------------------------------------------------

    /** `Center.register`: inserts one Center under the next free id. */
    method Register(name: string, login: string, password: string, address: string) returns (id: int)
      requires Valid()
      modifies this
      ensures Valid()
      ensures id == old(nextCenterId) && id !in old(centers)
      ensures State() == old(State()).(centers := old(centers)[id := Center(id, name, login, password, address)],
                                       nextCenterId := id + 1)
      ensures HasLogin(login)
    {
      id := nextCenterId;
      centers := centers[id := Center(id, name, login, password, address)];
      nextCenterId := nextCenterId + 1;
      assert centers[id].login == login;
    }

    /** `filter_by(...).first()` on the centers table: the least id whose row
        matches, or None when no row does. */
    method FirstCenter(login: string, password: Option<string>) returns (r: Option<int>)
      requires Valid()
      ensures r.None? <==> forall id :: id in centers ==> !Matches(centers[id], login, password)
      ensures r.Some? ==> r.value in centers && Matches(centers[r.value], login, password)
      ensures r.Some? ==> forall id :: id in centers && id < r.value ==> !Matches(centers[id], login, password)
    {
      var id := 1;
      while id < nextCenterId
        invariant 1 <= id <= nextCenterId
        invariant forall j :: j in centers && j < id ==> !Matches(centers[j], login, password)
      {
        if id in centers && Matches(centers[id], login, password) {
          return Some(id);
        }
        id := id + 1;
      }
      return None;
    }

    /** `Center.exists`: some Center has this login. */
    method Exists(login: string) returns (b: bool)
      requires Valid()
      ensures b <==> HasLogin(login)
    {
      var r := FirstCenter(login, None);
      b := r.Some?;
      if b {
        assert centers[r.value].login == login;
      }
    }

    /** `Center.authenticate`: the id of a Center whose login and password both
        equal the inputs (the least such id), or None when there is none. */
    method Authenticate(login: string, password: string) returns (r: Option<int>)
      requires Valid()
      ensures r.None? <==> forall id :: id in centers ==> !(centers[id].login == login && centers[id].password == password)
      ensures r.Some? ==> r.value in centers && centers[r.value].login == login && centers[r.value].password == password
      ensures r.Some? ==> r.value >= 1
      ensures r.Some? ==> forall id :: id in centers && id < r.value ==>
                            !(centers[id].login == login && centers[id].password == password)
    {
      r := FirstCenter(login, Some(password));
    }

    /** `Center.get_by_id`. */
    function CenterById(id: int): (r: Option<Center>)
      reads this
      ensures r.Some? <==> id in centers
      ensures r.Some? ==> r.value == centers[id]
    {
      if id in centers then Some(centers[id]) else None
    }

    /** `Center.get_all`, in id order. */
    function AllCenters(): (r: seq<Center>)
      reads this
      requires Valid()
      ensures forall x :: x in r <==> x in centers.Values
      ensures |r| == |centers|
      ensures forall i, j :: 0 <= i < j < |r| ==> r[i].id < r[j].id
    {
      InIdOrderCount(centers, nextCenterId);
      assert KeysBelow(centers, nextCenterId) == centers.Keys;
      InIdOrderAscending(centers, nextCenterId, (x: Center) => x.id);
      InIdOrder(centers, nextCenterId)
    }

    // ----- Animal -----------------------------------------------------------

    /** `Animal.add`: inserts one Animal under the next free id. */
    method AddAnimal(centerId: int, name: string, description: Option<string>, age: int,
                     specie: int, price: Option<int>) returns (id: int)
      requires Valid()
      modifies this
      ensures Valid()
      ensures id == old(nextAnimalId) && id !in old(animals)
      ensures State() == old(State()).(animals := old(animals)[id := Animal(id, centerId, name, description, age, specie, price)],
                                       nextAnimalId := id + 1)
    {
      id := nextAnimalId;
      animals := animals[id := Animal(id, centerId, name, description, age, specie, price)];
      nextAnimalId := nextAnimalId + 1;
    }

    /** `Animal.get_by_id`. */
    function AnimalById(id: int): (r: Option<Animal>)
      reads this
      ensures r.Some? <==> id in animals
      ensures r.Some? ==> r.value == animals[id]
    {
      if id in animals then Some(animals[id]) else None
    }

    /** `Animal.exists`: `get_by_id` finds a row. */
    function AnimalExists(id: int): (b: bool)
      reads this
      ensures b <==> AnimalById(id).Some?
    {
      id in animals
    }

    /** `Animal.get_all`, in id order. */
    function AllAnimals(): (r: seq<Animal>)
      reads this
      requires Valid()
      ensures forall x :: x in r <==> x in animals.Values
      ensures |r| == |animals|
      ensures forall i, j :: 0 <= i < j < |r| ==> r[i].id < r[j].id
    {
      InIdOrderCount(animals, nextAnimalId);
      assert KeysBelow(animals, nextAnimalId) == animals.Keys;
      InIdOrderAscending(animals, nextAnimalId, (x: Animal) => x.id);
      InIdOrder(animals, nextAnimalId)
    }

    /** `Animal.get_owned_by`: exactly the stored Animals of this Center. */
    function OwnedBy(centerId: int): (r: seq<Animal>)
      reads this
      requires Valid()
      ensures forall a :: a in r <==> a in animals.Values && a.centerId == centerId
      ensures |r| == |set id | id in animals && animals[id].centerId == centerId|
    {
      FilterCountsKeys(animals, nextAnimalId, ByCenter, centerId);
      assert KeysWith(animals, nextAnimalId, ByCenter, centerId)
          == set id | id in animals && animals[id].centerId == centerId;
      FilterBy(AllAnimals(), ByCenter, centerId)
    }

    /** `Animal.get_all_by_specie`: exactly the stored Animals of this Specie. */
    function AllBySpecie(specieId: int): (r: seq<Animal>)
      reads this
      requires Valid()
      ensures forall a :: a in r <==> a in animals.Values && a.specie == specieId
      ensures |r| == |set id | id in animals && animals[id].specie == specieId|
    {
      FilterCountsKeys(animals, nextAnimalId, BySpecie, specieId);
      assert KeysWith(animals, nextAnimalId, BySpecie, specieId)
          == set id | id in animals && animals[id].specie == specieId;
      FilterBy(AllAnimals(), BySpecie, specieId)
    }

    /** `Animal.get_count_by_specie`: the length of `get_all_by_specie`, which is
        the number of stored Animals that reference the Specie. */
    function CountBySpecie(specieId: int): (n: nat)
      reads this
      requires Valid()
      ensures n == |set id | id in animals && animals[id].specie == specieId|
    {
      |AllBySpecie(specieId)|
    }

    /** `Animal.is_owner`. The program reads the row's `center_id` without a
        check, so it fails on a missing Animal: callers test `exists` first. */
    function IsOwner(animalId: int, centerId: int): (b: bool)
      reads this
      requires animalId in animals
      ensures b <==> AnimalById(animalId).value.centerId == centerId
    {
      animals[animalId].centerId == centerId
    }

    /** `is_owner` agrees with `get_owned_by`: a Center owns a stored Animal
        exactly when the Animal is listed among the Center's Animals. */
    lemma IsOwnerIffListed(animalId: int, centerId: int)
      requires Valid() && animalId in animals
      ensures IsOwner(animalId, centerId) <==> animals[animalId] in OwnedBy(centerId)
    {
    }

    /** `Animal.update`: the row is replaced by the patched row; every other
        row and table is unchanged. The program loops over the keys of the
        update data; each key appears once, so the loop is one conditional
        assignment per field. */
    method Update(animalId: int, patch: AnimalPatch)
      requires Valid() && animalId in animals
      modifies this
      ensures Valid()
      ensures State() == old(State()).(animals := old(animals)[animalId := ApplyPatch(old(animals)[animalId], patch)])
    {
      var a := animals[animalId];
      if patch.name.Some? { a := a.(name := patch.name.value); }
      if patch.description.Some? { a := a.(description := patch.description); }
      if patch.age.Some? { a := a.(age := patch.age.value); }
      if patch.specie.Some? { a := a.(specie := patch.specie.value); }
      if patch.price.Some? { a := a.(price := patch.price); }
      animals := animals[animalId := a];
    }

    /** `Animal.delete`: removes exactly that row. */
    method Delete(animalId: int)
      requires Valid() && animalId in animals
      modifies this
      ensures Valid()
      ensures !AnimalExists(animalId)
      ensures State() == old(State()).(animals := old(animals) - {animalId})
    {
      animals := animals - {animalId};
    }

    // ----- Specie -----------------------------------------------------------

    /** `Specie.add`: inserts one Specie under the next free id. */
    method AddSpecie(name: string, description: string, price: int) returns (id: int)
      requires Valid()
      modifies this
      ensures Valid()
      ensures id == old(nextSpecieId) && id !in old(species)
      ensures State() == old(State()).(species := old(species)[id := Specie(id, name, description, price)],
                                       nextSpecieId := id + 1)
    {
      id := nextSpecieId;
      species := species[id := Specie(id, name, description, price)];
      nextSpecieId := nextSpecieId + 1;
    }

    /** `Specie.get_by_id`. */
    function SpecieById(id: int): (r: Option<Specie>)
      reads this
      ensures r.Some? <==> id in species
      ensures r.Some? ==> r.value == species[id]
    {
      if id in species then Some(species[id]) else None
    }

    /** `Specie.exists`: `get_by_id` finds a row. */
    function SpecieExists(id: int): (b: bool)
      reads this
      ensures b <==> SpecieById(id).Some?
    {
      id in species
    }

    /** `Specie.get_price`: the Specie's price when it exists, None otherwise. */
    function GetPrice(specieId: int): (r: Option<int>)
      reads this
      ensures r.Some? <==> SpecieExists(specieId)
      ensures r.Some? ==> r.value == SpecieById(specieId).value.price
    {
      if specieId in species then Some(species[specieId].price) else None
    }

    /** `Specie.get_all`, in id order. */
    function AllSpecies(): (r: seq<Specie>)
      reads this
      requires Valid()
      ensures forall x :: x in r <==> x in species.Values
      ensures |r| == |species|
      ensures forall i, j :: 0 <= i < j < |r| ==> r[i].id < r[j].id
    {
      InIdOrderCount(species, nextSpecieId);
      assert KeysBelow(species, nextSpecieId) == species.Keys;
      InIdOrderAscending(species, nextSpecieId, (x: Specie) => x.id);
      InIdOrder(species, nextSpecieId)
    }

    // ----- Authenticator ----------------------------------------------------

    /** `Authenticator.log_auth`: appends one entry for the Center. The clock
        reading is a parameter. */
    method LogAuth(centerId: int, timestamp: int)
      requires Valid()
      modifies this
      ensures Valid()
      ensures State() == old(State()).(auths := old(auths) + [AuthEvent(|old(auths)| + 1, centerId, timestamp)])
    {
      auths := auths + [AuthEvent(|auths| + 1, centerId, timestamp)];
    }
  }
}
