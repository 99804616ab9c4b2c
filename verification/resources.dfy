/** The decision logic of the HTTP handlers: each handler is a function (the
    read-only GETs) or a method (the handlers that write) over the store. A
    handler that needs an authenticated caller receives the identity its access
    token carried; request bodies arrive already parsed into typed values. */
module Resources {
  import opened Wrappers
  import opened Models

  /** A handler's reply: a body, or an error message with its HTTP status. */
  datatype Outcome<+T> =
    | Ok(body: T)
    | NotFound(error: string)
    | Forbidden(error: string)
    | Conflict(error: string)
    | Unauthorized(error: string)
  {
    function Code(): int {
      match this
      case Ok(_) => 200
      case NotFound(_) => 404
      case Forbidden(_) => 403
      case Conflict(_) => 409
      case Unauthorized(_) => 401
    }
  }

  /** The identity an access token carries: `{"center_id": id}`. */
  datatype Token = Token(centerId: int)

  /** A detail view: the entity's fields plus the embedded `animals` list. */
  datatype Detail = Detail(fields: Dict, animals: seq<Dict>)

  /** The invariants the handlers keep on top of the store's own. */
  ghost predicate Consistent(s: Store)
    reads s
  {
    s.Valid() && s.LoginsUnique() && s.SpeciesResolve()
  }

  // ---------------------------------------------------------------------------
  // Animals
  // ---------------------------------------------------------------------------

  /** An Animal's full view with the display-time price fallback: a missing
      price shows the Specie's price (or null when the Specie is missing too);
      every other column shows the stored value. */
  function PriceFilled(s: Store, a: Animal): (d: Dict)
    reads s
    ensures d.Keys == AnimalColumns
    ensures d["price"] == if a.price.Some? then Int(a.price.value) else IntOrNull(s.GetPrice(a.specie))
    ensures forall k :: k in d && k != "price" ==> d[k] == AnimalToDict(a)[k]
  {
    var d := AnimalToDict(a);
    if d["price"] == Null then d["price" := IntOrNull(s.GetPrice(a.specie))] else d
  }

  /** When every Animal names an existing Specie, no shown price is null. */
  lemma FilledPriceNeverNull(s: Store, id: int)
    requires s.SpeciesResolve() && id in s.animals
    ensures PriceFilled(s, s.animals[id])["price"].Int?
    ensures s.animals[id].price.None? ==>
              PriceFilled(s, s.animals[id])["price"] == Int(s.species[s.animals[id].specie].price)
  {
  }

  /** `AnimalsResource.get`: every Animal in id order, each view price-filled
      in place. The stored rows are not touched. */
  method ListAnimals(s: Store) returns (views: seq<Dict>)
    requires s.Valid()
    ensures |views| == |s.AllAnimals()|
    ensures forall i :: 0 <= i < |views| ==> views[i] == PriceFilled(s, s.AllAnimals()[i])
  {
    var rows := s.AllAnimals();
    views := seq(|rows|, i requires 0 <= i < |rows| => AnimalToDict(rows[i]));
    views := FillPrices(s, rows, views);
  }

  /** The loop of `AnimalsResource.get`: each view whose price is null gets
      the price of its row's Specie, in place. */
  method FillPrices(s: Store, rows: seq<Animal>, views0: seq<Dict>) returns (views: seq<Dict>)
    requires |views0| == |rows|
    requires forall j :: 0 <= j < |rows| ==> views0[j] == AnimalToDict(rows[j])
    ensures |views| == |rows|
    ensures forall j :: 0 <= j < |rows| ==> views[j] == PriceFilled(s, rows[j])
  {
    views := views0;
    var i := 0;
    while i < |views|
      invariant 0 <= i <= |views| == |rows|
      invariant forall j :: 0 <= j < i ==> views[j] == PriceFilled(s, rows[j])
      invariant forall j :: i <= j < |views| ==> views[j] == AnimalToDict(rows[j])
    {
      if views[i]["price"] == Null {
        views := views[i := views[i]["price" := IntOrNull(s.GetPrice(rows[i].specie))]];
      }
      i := i + 1;
    }
  }

  /** `AnimalResource.get`. */
  function GetAnimal(s: Store, animalId: int): (r: Outcome<Dict>)
    reads s
    ensures r.Ok? || r.NotFound?
    ensures r.NotFound? <==> animalId !in s.animals
    ensures r.NotFound? ==> r.error == "Animal not found"
    ensures r.Ok? ==> r.body == PriceFilled(s, s.animals[animalId])
  {
    var animal := s.AnimalById(animalId);
    if animal.Some? then Ok(PriceFilled(s, animal.value)) else NotFound("Animal not found")
  }

  /** `AnimalsResource.post`: 409 for an unknown specie, otherwise one new
      Animal owned by the caller's token identity. */
  method CreateAnimal(s: Store, identity: Token, name: string, description: Option<string>,
                      age: int, specie: int, price: Option<int>) returns (r: Outcome<string>)
    requires s.Valid()
    modifies s
    ensures s.Valid()
    ensures r.Ok? || r.Conflict?
    ensures r.Conflict? <==> specie !in old(s.species)
    ensures r.Conflict? ==> r.error == "Specified specie does not exist" && s.State() == old(s.State())
    ensures r.Ok? ==> r.body == "Animal added successfully"
    ensures r.Ok? ==> s.State() == old(s.State()).(
              animals := old(s.animals)[old(s.nextAnimalId) := Animal(old(s.nextAnimalId), identity.centerId,
                                                                      name, description, age, specie, price)],
              nextAnimalId := old(s.nextAnimalId) + 1)
    ensures r.Ok? ==> |s.animals| == |old(s.animals)| + 1
    ensures old(Consistent(s)) ==> Consistent(s)
  {
    if !s.SpecieExists(specie) {
      return Conflict("Specified specie does not exist");
    }
    var id := s.AddAnimal(identity.centerId, name, description, age, specie, price);
    r := Ok("Animal added successfully");
  }

  /** `AnimalResource.put`: 404, then 403, then 409, and only then the update. */
  method UpdateAnimal(s: Store, identity: Token, animalId: int, patch: AnimalPatch) returns (r: Outcome<string>)
    requires s.Valid()
    modifies s
    ensures s.Valid()
    ensures r.Ok? || r.NotFound? || r.Forbidden? || r.Conflict?
    ensures r.NotFound? <==> animalId !in old(s.animals)
    ensures r.Forbidden? <==> animalId in old(s.animals) && old(s.animals[animalId].centerId) != identity.centerId
    ensures r.Conflict? <==> && animalId in old(s.animals)
                             && old(s.animals[animalId].centerId) == identity.centerId
                             && patch.specie.Some? && patch.specie.value !in old(s.species)
    ensures r.NotFound? ==> r.error == "Animal not found"
    ensures r.Forbidden? ==> r.error == "You are not allowed to update this animal"
    ensures r.Conflict? ==> r.error == "Specified specie does not exist"
    ensures !r.Ok? ==> s.State() == old(s.State())
    ensures r.Ok? ==> r.body == "Animal updated successfully"
    ensures r.Ok? ==> s.State() == old(s.State()).(
              animals := old(s.animals)[animalId := ApplyPatch(old(s.animals[animalId]), patch)])
    ensures old(Consistent(s)) ==> Consistent(s)
  {
    if !s.AnimalExists(animalId) {
      return NotFound("Animal not found");
    }
    if !s.IsOwner(animalId, identity.centerId) {
      return Forbidden("You are not allowed to update this animal");
    }
    if patch.specie.Some? {
      if !s.SpecieExists(patch.specie.value) {
        return Conflict("Specified specie does not exist");
      }
    }
    s.Update(animalId, patch);
    r := Ok("Animal updated successfully");
  }

  /** `AnimalResource.delete`: 404, then 403, and only then the removal. */
  method DeleteAnimal(s: Store, identity: Token, animalId: int) returns (r: Outcome<string>)
    requires s.Valid()
    modifies s
    ensures s.Valid()
    ensures r.Ok? || r.NotFound? || r.Forbidden?
    ensures r.NotFound? <==> animalId !in old(s.animals)
    ensures r.Forbidden? <==> animalId in old(s.animals) && old(s.animals[animalId].centerId) != identity.centerId
    ensures r.NotFound? ==> r.error == "Animal not found"
    ensures r.Forbidden? ==> r.error == "You are not allowed to delete this animal"
    ensures !r.Ok? ==> s.State() == old(s.State())
    ensures r.Ok? ==> r.body == "Animal deleted successfully"
    ensures r.Ok? ==> s.State() == old(s.State()).(animals := old(s.animals) - {animalId})
    ensures old(Consistent(s)) ==> Consistent(s)
  {
    if !s.AnimalExists(animalId) {
      return NotFound("Animal not found");
    }
    if !s.IsOwner(animalId, identity.centerId) {
      return Forbidden("You are not allowed to delete this animal");
    }
    s.Delete(animalId);
    r := Ok("Animal deleted successfully");
  }

  // ---------------------------------------------------------------------------
  // Centers
  // ---------------------------------------------------------------------------

  /** The safe views of a list of Animals, in the list's order. */
  function SafeViews(rows: seq<Animal>): (r: seq<Dict>)
    ensures |r| == |rows|
    ensures forall i :: 0 <= i < |rows| ==> r[i] == AnimalToSafeDict(rows[i])
  {
    seq(|rows|, i requires 0 <= i < |rows| => AnimalToSafeDict(rows[i]))
  }

  /** The safe views of the stored Animals whose column `k` is `v` hold the
      view of a stored Animal exactly when its column `k` is `v`: safe views
      carry the id, and stored rows with the same id are the same row. */
  lemma EmbeddedViewsExact(s: Store, k: AnimalKey, v: int)
    requires s.Valid()
    ensures forall a :: a in s.animals.Values ==>
              (AnimalToSafeDict(a) in SafeViews(FilterBy(s.AllAnimals(), k, v)) <==> KeyOf(a, k) == v)
    ensures forall d :: d in SafeViews(FilterBy(s.AllAnimals(), k, v)) ==>
              exists a :: a in s.animals.Values && KeyOf(a, k) == v && d == AnimalToSafeDict(a)
  {
    var rows := FilterBy(s.AllAnimals(), k, v);
    var views := SafeViews(rows);
    forall d | d in views
      ensures exists a :: a in s.animals.Values && KeyOf(a, k) == v && d == AnimalToSafeDict(a)
    {
      var i :| 0 <= i < |views| && views[i] == d;
      assert rows[i] in rows;
      assert rows[i] in s.animals.Values && KeyOf(rows[i], k) == v;
    }
    forall a | a in s.animals.Values
      ensures AnimalToSafeDict(a) in views <==> KeyOf(a, k) == v
    {
      var ida :| ida in s.animals && s.animals[ida] == a;
      if KeyOf(a, k) == v {
        assert a in s.AllAnimals();
        assert a in rows;
        var i :| 0 <= i < |rows| && rows[i] == a;
        assert views[i] == AnimalToSafeDict(a);
      }
      if AnimalToSafeDict(a) in views {
        var i :| 0 <= i < |views| && views[i] == AnimalToSafeDict(a);
        var b := rows[i];
        assert b in rows;
        assert b in s.AllAnimals() && KeyOf(b, k) == v;
        var idb :| idb in s.animals && 1 <= idb < s.nextAnimalId && s.animals[idb] == b;
        assert AnimalToSafeDict(b)["id"] == AnimalToSafeDict(a)["id"];
        assert idb == ida;
      }
    }
  }

  /** `CentersResource.get`: the safe view of every Center, in id order. */
  function ListCenters(s: Store): (r: seq<Dict>)
    reads s
    requires s.Valid()
    ensures |r| == |s.AllCenters()|
    ensures forall i :: 0 <= i < |r| ==> r[i] == CenterToSafeDict(s.AllCenters()[i])
    ensures forall i :: 0 <= i < |r| ==> "login" !in r[i] && "password" !in r[i] && "address" !in r[i]
  {
    var centers := s.AllCenters();
    seq(|centers|, i requires 0 <= i < |centers| => CenterToSafeDict(centers[i]))
  }

  /** `CenterResource.get`: 404 for an unknown Center; otherwise its safe view
      with the safe views of exactly the Animals it owns embedded. */
  function GetCenter(s: Store, centerId: int): (r: Outcome<Detail>)
    reads s
    requires s.Valid()
    ensures r.Ok? || r.NotFound?
    ensures r.NotFound? <==> centerId !in s.centers
    ensures r.NotFound? ==> r.error == "Center not found"
    ensures r.Ok? ==> r.body.fields == CenterToSafeDict(s.centers[centerId])
    ensures r.Ok? ==> forall a :: a in s.animals.Values ==>
                        (AnimalToSafeDict(a) in r.body.animals <==> a.centerId == centerId)
    ensures r.Ok? ==> forall d :: d in r.body.animals ==>
                        exists a :: a in s.animals.Values && a.centerId == centerId && d == AnimalToSafeDict(a)
    ensures r.Ok? ==> |r.body.animals| == |set id | id in s.animals && s.animals[id].centerId == centerId|
    ensures r.Ok? ==> forall d :: d in r.body.animals ==> d.Keys == {"id", "name", "specie"}
  {
    var center := s.CenterById(centerId);
    if center.None? then NotFound("Center not found")
    else
      EmbeddedViewsExact(s, ByCenter, centerId);
      Ok(Detail(CenterToSafeDict(center.value), SafeViews(s.OwnedBy(centerId))))
  }

  // ---------------------------------------------------------------------------
  // Species
  // ---------------------------------------------------------------------------

  /** One entry of the species list: the Specie's id and name from its full
      view, and `animals_count`, the number of Animals that reference it. */
  function SpecieSummary(s: Store, sp: Specie): (d: Dict)
    reads s
    requires s.Valid()
    ensures d.Keys == {"id", "name", "animals_count"}
    ensures d["id"] == Int(sp.id) && d["name"] == Str(sp.name)
    ensures d["animals_count"] == Int(|set id | id in s.animals && s.animals[id].specie == sp.id|)
  {
    var full := SpecieToDict(sp);
    map["id" := full["id"], "name" := full["name"], "animals_count" := Int(s.CountBySpecie(sp.id))]
  }

  /** `SpeciesResource.get`: the summary of every Specie, in id order. */
  function ListSpecies(s: Store): (r: seq<Dict>)
    reads s
    requires s.Valid()
    ensures |r| == |s.AllSpecies()|
    ensures forall i :: 0 <= i < |r| ==> r[i] == SpecieSummary(s, s.AllSpecies()[i])
  {
    var species := s.AllSpecies();
    seq(|species|, i reads s requires 0 <= i < |species| && s.Valid() => SpecieSummary(s, species[i]))
  }

  /** `SpeciesResource.post`: always adds one Specie. */
  method CreateSpecie(s: Store, name: string, description: string, price: int) returns (r: Outcome<string>)
    requires s.Valid()
    modifies s
    ensures s.Valid()
    ensures r == Ok("Specie added successfully")
    ensures s.State() == old(s.State()).(
              species := old(s.species)[old(s.nextSpecieId) := Specie(old(s.nextSpecieId), name, description, price)],
              nextSpecieId := old(s.nextSpecieId) + 1)
    ensures old(Consistent(s)) ==> Consistent(s)
  {
    var id := s.AddSpecie(name, description, price);
    r := Ok("Specie added successfully");
  }

  /** `SpecieResource.get`: 404 for an unknown Specie; otherwise its full view
      with the safe views of exactly the Animals of that Specie embedded. */
  function GetSpecie(s: Store, specieId: int): (r: Outcome<Detail>)
    reads s
    requires s.Valid()
    ensures r.Ok? || r.NotFound?
    ensures r.NotFound? <==> specieId !in s.species
    ensures r.NotFound? ==> r.error == "Specie not found"
    ensures r.Ok? ==> r.body.fields == SpecieToDict(s.species[specieId])
    ensures r.Ok? ==> forall a :: a in s.animals.Values ==>
                        (AnimalToSafeDict(a) in r.body.animals <==> a.specie == specieId)
    ensures r.Ok? ==> forall d :: d in r.body.animals ==>
                        exists a :: a in s.animals.Values && a.specie == specieId && d == AnimalToSafeDict(a)
    ensures r.Ok? ==> |r.body.animals| == s.CountBySpecie(specieId)
  {
    var specie := s.SpecieById(specieId);
    if specie.None? then NotFound("Specie not found")
    else
      EmbeddedViewsExact(s, BySpecie, specieId);
      Ok(Detail(SpecieToDict(specie.value), SafeViews(s.AllBySpecie(specieId))))
  }

  // ---------------------------------------------------------------------------
  // Registration and login
  // ---------------------------------------------------------------------------

  /** `RegisterResource.post`: 409 when the login is taken, otherwise one new
      Center. Either way the login is in use afterwards, and logins stay unique. */
  method RegisterCenter(s: Store, name: string, login: string, password: string, address: string)
    returns (r: Outcome<string>)
    requires s.Valid()
    modifies s
    ensures s.Valid()
    ensures r.Ok? || r.Conflict?
    ensures r.Conflict? <==> old(s.HasLogin(login))
    ensures r.Conflict? ==> r.error == "This login is already in use" && s.State() == old(s.State())
    ensures r.Ok? ==> r.body == "Center registered successfully"
    ensures r.Ok? ==> s.State() == old(s.State()).(
              centers := old(s.centers)[old(s.nextCenterId) := Center(old(s.nextCenterId), name, login, password, address)],
              nextCenterId := old(s.nextCenterId) + 1)
    ensures s.HasLogin(login)
    ensures old(Consistent(s)) ==> Consistent(s)
  {
    var taken := s.Exists(login);
    if !taken {
      var id := s.Register(name, login, password, address);
      r := Ok("Center registered successfully");
    } else {
      r := Conflict("This login is already in use");
    }
  }

  /** `LoginResource.get`: 401 and no log entry on bad credentials; otherwise a
      token for the matching Center and exactly one log entry for it. The
      program tests the returned id for truth, which an id of 0 would fail;
      stored ids start at 1, so only bad credentials are refused. */
  method Login(s: Store, login: string, password: string, timestamp: int) returns (r: Outcome<Token>)
    requires s.Valid()
    modifies s
    ensures s.Valid()
    ensures r.Ok? || r.Unauthorized?
    ensures r.Unauthorized? <==> old(forall id :: id in s.centers ==> !(s.centers[id].login == login && s.centers[id].password == password))
    ensures r.Unauthorized? ==> r.error == "Invalid credentials" && s.State() == old(s.State())
    ensures r.Ok? ==> && r.body.centerId in s.centers
                      && s.centers[r.body.centerId].login == login
                      && s.centers[r.body.centerId].password == password
    ensures r.Ok? ==> forall id :: id in s.centers && id < r.body.centerId ==>
                        !(s.centers[id].login == login && s.centers[id].password == password)
    ensures old(s.LoginsUnique()) && r.Ok? ==>
              forall j :: j in s.centers && s.centers[j].login == login ==> j == r.body.centerId
    ensures r.Ok? ==> s.State() == old(s.State()).(
              auths := old(s.auths) + [AuthEvent(|old(s.auths)| + 1, r.body.centerId, timestamp)])
    ensures old(Consistent(s)) ==> Consistent(s)
  {
    var authResult := s.Authenticate(login, password);
    if authResult.Some? && authResult.value != 0 {
      var token := Token(authResult.value);
      s.LogAuth(authResult.value, timestamp);
      r := Ok(token);
    } else {
      r := Unauthorized("Invalid credentials");
    }
  }
}
