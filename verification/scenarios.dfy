/** Walk-throughs of the API as a client sees it, each proved from the
    handlers' contracts alone, starting from an empty store. */
module Scenarios {
  import opened Wrappers
  import opened Models
  import opened Resources

  /** Register a Center, log in with its credentials, then add a Specie priced
      150 as that Center: each step succeeds with the program's own reply. */
  method AddSpecieScenario() returns (registered: Outcome<string>, login: Outcome<Token>, added: Outcome<string>)
    ensures registered == Ok("Center registered successfully")
    ensures login.Ok? && login.body.centerId == 1
    ensures added == Ok("Specie added successfully")
  {
    var s := new Store();
    registered := RegisterCenter(s, "Name", "login", "password", "Address");
    assert s.centers[1].login == "login" && s.centers[1].password == "password";
    login := Login(s, "login", "password", 0);
    added := CreateSpecie(s, "Specie name", "Specie description", 150);
  }

  /** Register, log in, add a Specie priced 100, add an Animal without a price,
      read it back: the view shows the Specie's price, the stored row keeps no
      price, and the login left one entry in the auth log. */
  method PriceFallbackScenario() returns (shown: Value, stored: Option<int>, logged: nat)
    ensures shown == Int(100)
    ensures stored == None
    ensures logged == 1
  {
    var s := new Store();
    var registered := RegisterCenter(s, "N", "a", "p", "Addr");
    assert registered.Ok?;
    assert s.centers[1].login == "a" && s.centers[1].password == "p";
    var login := Login(s, "a", "p", 0);
    assert login.Ok?;
    var token := login.body;
    var specie := CreateSpecie(s, "Dog", "d", 100);
    var created := CreateAnimal(s, token, "Rex", None, 2, 1, None);
    assert created.Ok?;
    var got := GetAnimal(s, 1);
    shown := got.body["price"];
    stored := s.animals[1].price;
    logged := |s.auths|;
  }

  /** Registering the same login twice: the first call succeeds, the second is
      a conflict and adds no Center. */
  method DuplicateRegistrationScenario() returns (first: Outcome<string>, second: Outcome<string>, count: nat)
    ensures first.Ok? && second.Conflict?
    ensures count == 1
  {
    var s := new Store();
    first := RegisterCenter(s, "N", "login", "password", "Address");
    second := RegisterCenter(s, "M", "login", "other", "Elsewhere");
    count := |s.centers.Keys|;
  }

  /** Center 1 adds Animal 1; Center 2 may neither update nor delete it; the
      owner's update `{age: 5}` changes the age and nothing else. */
  method OwnershipScenario() returns (update: Outcome<string>, delete: Outcome<string>,
                                      own: Outcome<string>, after: Animal)
    ensures update.Forbidden? && delete.Forbidden? && own.Ok?
    ensures after == Animal(1, 1, "Rex", None, 5, 1, None)
  {
    var s := new Store();
    var a := RegisterCenter(s, "A", "a", "pa", "Addr A");
    var b := RegisterCenter(s, "B", "b", "pb", "Addr B");
    var specie := CreateSpecie(s, "Dog", "d", 100);
    var created := CreateAnimal(s, Token(1), "Rex", None, 2, 1, None);
    var ageOnly := AnimalPatch(None, None, Some(5), None, None);
    update := UpdateAnimal(s, Token(2), 1, ageOnly);
    delete := DeleteAnimal(s, Token(2), 1);
    own := UpdateAnimal(s, Token(1), 1, ageOnly);
    after := s.animals[1];
  }
}
