# Shelter registry (aswp-api) — a Dafny model

This project models the core of a small animal-shelter registry API. Shelter
*Centers* register and log in. They list *Animals*, and each Animal belongs to
one Center and one *Specie*. A Specie is shared reference data that supplies a
default price. Every successful login is recorded in an *auth log*.

The model has two layers, as the program has:

- **Store operations** (`api/models.py`), in module `Models`. Each table
  (centers, animals, species, auths) is a field of one `Store` class:
  - `centers`, `animals` and `species` are maps keyed by primary key;
  - `auths` is a sequence;
  - one counter per table stands in for the auto-increment key.

  The inserts (`register`, `add`, `log_auth`), `update` and `delete` are
  methods. Each states the whole new state of the store through `State()`,
  so "nothing else changes" is part of every contract. The queries are
  functions or read-only methods:
  - `filter_by(...).first()` is a scan in key order that returns the least
    matching id;
  - `query.all()` is `InIdOrder`, which gives the rows in ascending key
    order;
  - `filter_by(column=v)` on animals is `FilterBy`.

  `to_dict` and `to_safe_dict` build dictionaries (`map<string, Value>`), so
  the redaction rules are stated key by key.
- **Handler logic** (`api/resources.py`), in module `Resources`. Each handler
  takes the store and already-typed inputs. The handlers that need a logged-in
  caller also take the identity the access token carried. Each handler returns
  an `Outcome`: `Ok`, `NotFound` (404), `Forbidden` (403), `Conflict` (409) or
  `Unauthorized` (401), carrying the program's own messages.
  - The guards run in the program's order. For example, update checks
    existence, then ownership, then the specie, and only then writes.
  - On every error the store is unchanged.
  - Two invariants that the tables themselves do not enforce are kept by the
    handlers: unique logins, and every Animal naming an existing Specie.

Module `Scenarios` replays the register / login / add-specie walk-through of
`api/tests.py` with the test's own inputs, plus three more client scenarios.
Each scenario's result is proved from the handlers' contracts alone.

The model follows the code:

- Age is any integer. The code does not check that it is non-negative.
- Login uniqueness is not a table constraint. Only the registration handler's
  check keeps it, so it is a handler-level invariant (`Store.LoginsUnique`).
- A price absent from both the Animal and its Specie shows as null. This can
  only happen when the Specie does not exist.

## Model

| member | source | states |
|---|---|---|
| `Models.CenterToDict` | api/models.py:86-95 | the full view has exactly the five center columns as keys, and decodes back to the same Center |
| `Models.AnimalToDict` | api/models.py:252-261 | the full view has exactly the seven animal columns as keys, and decodes back to the same Animal (a null description or price decodes to an absent one) |
| `Models.SpecieToDict` | api/models.py:348-357 | the full view has exactly the four specie columns as keys, and decodes back to the same Specie |
| `Models.CenterToSafeDict` | api/models.py:97-106 | the safe center view never has `login`, `password` or `address`; it is exactly `{id, name}` with the row's values |
| `Models.AnimalToSafeDict` | api/models.py:263-272 | the safe animal view is exactly `{id, name, specie}` with the row's values |
| `Models.PatchIsDictMerge` | api/models.py:221-240 | an update is a dictionary merge: the new row's view is the old view overlaid with the sent keys only; the update data never contains `id` or `center_id` |
| `Models.PatchIdempotent` | api/models.py:229-239 | applying the same update twice gives the same row as applying it once |
| `Models.InIdOrder` | api/models.py:188-194 | `query.all()` lists a row exactly when its key is in range and stored, and lists nothing else |
| `Models.InIdOrderCount` | api/models.py:188-194 | `query.all()` has exactly one entry per stored key in range |
| `Models.KeysBelowStep` | api/models.py:188-194 | raising the key bound by one adds the new key exactly when it is stored |
| `Models.InIdOrderAscending` | api/models.py:188-194 | when each row carries its own key, `query.all()` lists the rows in strictly ascending key order |
| `Models.FilterBy` | api/models.py:153-174 | `filter_by(column=v)` keeps exactly the rows whose column equals `v`, never more rows than it was given |
| `Models.FilterByAppend` | api/models.py:165-174 | filtering a concatenation is the concatenation of the filtered parts |
| `Models.FilterCountsKeys` | api/models.py:176-186 | the length of the filtered ordered list equals the number of matching keys, so each matching row is listed once |
| `Models.KeysWithStep` | api/models.py:176-186 | raising the key bound by one adds the new key to the matching set exactly when the filter keeps that row |
| `Models.Store.constructor` | api/models.py:14-19 | an empty store satisfies every invariant, with all counters at 1 |
| `Models.Store.Register` | api/models.py:21-33 | adds exactly one Center, with the four given fields, under a fresh id; no other row or table changes; afterwards the login is in use |
| `Models.Store.FirstCenter` | api/models.py:79-80 | the scan returns None iff no Center matches; otherwise it returns the least matching id |
| `Models.Store.Exists` | api/models.py:35-45 | true iff some Center has the login |
| `Models.Store.Authenticate` | api/models.py:68-84 | returns the id of a Center whose login and password both equal the inputs; returns None iff no such Center exists; a returned id is positive and is the least id of a matching Center |
| `Models.Store.CenterById` | api/models.py:47-58 | finds the Center stored under the id, or None when the id is not stored |
| `Models.Store.AllCenters` | api/models.py:60-66 | lists exactly the stored Centers, one entry per row, in strictly ascending id order |
| `Models.Store.AddAnimal` | api/models.py:124-138 | adds exactly one Animal, with the given fields, under a fresh id; nothing else changes |
| `Models.Store.AnimalById` | api/models.py:140-151 | finds the Animal stored under the id, or None when the id is not stored |
| `Models.Store.AnimalExists` | api/models.py:196-206 | true iff `get_by_id` finds a row |
| `Models.Store.AllAnimals` | api/models.py:188-194 | lists exactly the stored Animals, one entry per row, in strictly ascending id order |
| `Models.Store.OwnedBy` | api/models.py:153-163 | lists exactly the stored Animals whose `center_id` is the Center, one entry per such Animal |
| `Models.Store.AllBySpecie` | api/models.py:165-174 | lists exactly the stored Animals whose `specie` is the Specie, one entry per such Animal |
| `Models.Store.CountBySpecie` | api/models.py:176-186 | equals the number of stored Animals that reference the Specie |
| `Models.Store.IsOwner` | api/models.py:208-219 | true iff the stored Animal's `center_id` equals the Center; defined only for a stored Animal |
| `Models.Store.IsOwnerIffListed` | api/models.py:153-163 | a Center owns a stored Animal iff that Animal is listed by `get_owned_by` for the Center |
| `Models.Store.Update` | api/models.py:221-240 | replaces the Animal with the patched row and changes nothing else |
| `Models.Store.Delete` | api/models.py:242-250 | afterwards the Animal does not exist; all other Animals and tables are unchanged |
| `Models.Store.AddSpecie` | api/models.py:287-297 | adds exactly one Specie under a fresh id; nothing else changes |
| `Models.Store.SpecieById` | api/models.py:307-318 | finds the Specie stored under the id, or None when the id is not stored |
| `Models.Store.SpecieExists` | api/models.py:336-346 | true iff `get_by_id` finds a row |
| `Models.Store.GetPrice` | api/models.py:320-334 | the Specie's price when the Specie exists, None otherwise |
| `Models.Store.AllSpecies` | api/models.py:299-305 | lists exactly the stored Species, one entry per row, in strictly ascending id order |
| `Models.Store.LogAuth` | api/models.py:371-380 | appends exactly one auth entry, numbered next, for the Center at the given time; nothing else changes |
| `Resources.PriceFilled` | api/resources.py:110-113 | a shown Animal has every column; its price is the stored price, or the Specie's price when none is stored; every other column is the stored value |
| `Resources.FilledPriceNeverNull` | api/resources.py:48-53 | when every Animal names an existing Specie, no shown price is null, and a missing price shows as the Specie's price |
| `Resources.ListAnimals` | api/resources.py:42-53 | one view per stored Animal, in id order, each price-filled; the store is not modified |
| `Resources.FillPrices` | api/resources.py:49-52 | after the in-place loop, each view is its row's price-filled view |
| `Resources.GetAnimal` | api/resources.py:99-116 | 404 "Animal not found" iff the Animal is missing; otherwise the price-filled view of the stored row |
| `Resources.CreateAnimal` | api/resources.py:57-72 | 409 iff the specie does not exist, and then the store is unchanged; otherwise exactly one Animal is added, owned by the token's center id; logins stay unique and species stay resolved |
| `Resources.UpdateAnimal` | api/resources.py:120-140 | 404 iff the Animal is missing; otherwise 403 iff the caller is not the owner; otherwise 409 iff the patch names a nonexistent specie; any error leaves the store unchanged; Ok applies the patch to that Animal only |
| `Resources.DeleteAnimal` | api/resources.py:144-160 | 404 iff the Animal is missing; otherwise 403 iff the caller is not the owner; either error leaves the store unchanged; Ok removes exactly that Animal |
| `Resources.SafeViews` | api/resources.py:219-220 | one safe view per listed Animal, in the same order |
| `Resources.EmbeddedViewsExact` | api/resources.py:219-221 | the embedded views hold a stored Animal's safe view iff the Animal matches the filter, and every embedded view is the safe view of a matching stored Animal |
| `Resources.ListCenters` | api/resources.py:187-194 | one safe view per Center, in id order; none contains `login`, `password` or `address` |
| `Resources.GetCenter` | api/resources.py:204-222 | 404 "Center not found" iff the Center is missing; otherwise its safe view, with the safe views of the Animals it owns embedded: every owned Animal's view is there, nothing else is, and there is one entry per owned Animal |
| `Resources.SpecieSummary` | api/resources.py:239-240 | a species-list entry has exactly `id`, `name` and `animals_count`; the count is the number of Animals that reference the Specie |
| `Resources.ListSpecies` | api/resources.py:232-241 | one summary per Specie, in id order |
| `Resources.CreateSpecie` | api/resources.py:245-253 | always Ok; adds exactly one Specie and changes nothing else |
| `Resources.GetSpecie` | api/resources.py:276-294 | 404 "Specie not found" iff the Specie is missing; otherwise its full view, with the safe views of the Animals of that Specie embedded: every such Animal's view is there, nothing else is, and there are `get_count_by_specie` entries |
| `Resources.RegisterCenter` | api/resources.py:304-317 | 409 iff the login is already in use, and then the store is unchanged; otherwise exactly one Center is added; the login is in use afterwards; logins stay unique |
| `Resources.Login` | api/resources.py:343-358 | 401 iff no Center has both credentials, and then no auth entry is added; otherwise the token carries the least id of a Center with those credentials, and exactly one auth entry for that id is appended; with unique logins it is the only Center with that login |
| `Scenarios.AddSpecieScenario` | api/tests.py:57-76 | register a Center, log in with its credentials, add a Specie priced 150: registration replies "Center registered successfully", login yields a token for Center 1, and the addition replies "Specie added successfully" |
| `Scenarios.PriceFallbackScenario` | api/resources.py:109-114 | register, login, add a Specie priced 100, add an Animal with no price: reading it shows price 100; the stored row keeps no price; one auth entry was logged |
| `Scenarios.DuplicateRegistrationScenario` | api/resources.py:311-317 | registering a login twice: the first call succeeds, the second conflicts, and one Center exists |
| `Scenarios.OwnershipScenario` | api/resources.py:132-140 | another Center's update and delete are forbidden; the owner's `{age: 5}` update changes the age and nothing else |

## Left out

- JWT issuing and validation (`create_access_token`, `jwt_required`, `get_jwt_identity`) come from a library outside this model. The model does not cover a missing, invalid or expired token being refused before a handler runs. A token is the center id it carries, and handlers receive it already validated.
- The `log` decorator only writes to the process logger.
- Request parsing (`reqparse`) is left out: inputs arrive as typed values, and the 400 replies for malformed bodies are not modelled. An update body that sends an explicit JSON `null` is not modelled. For `description` or `price` such a body would clear the column; for `name` or `age` the commit would fail on a non-null column; for `specie` the existence check finds no Specie, so the handler replies 409 before any write.
- Prices are parsed as floats but stored in Integer columns. The model uses `int` throughout, and the float-to-integer conversion is not modelled.
- SQLAlchemy sessions, commits, column lengths, `nullable=False` failures and store failures are left out.
- Concurrency is left out. In particular, the check-then-write sequences are not atomic in the program; the model runs calls one at a time.
- `Authenticator.log_auth` reads the clock; the model takes the timestamp as a parameter.
- Keys come from counters that never go back. A store that reuses the largest key after that row is deleted (SQLite's default) is not modelled.
- Queries with no `ORDER BY` are taken to return rows in ascending key order.
- `Resources.Outcome.Code` maps each outcome to its HTTP status and carries no contract.
- `api/app.py` (configuration, logging, database bootstrap) and `api/main.py` (route registration) are not part of this model.
