/** The `/api/properties` endpoints. The controller owns the property table (a
    map from generated id to row) and the next id the database will hand out. */
module PropertyApi {
  import opened Lang
  import opened Http
  import opened Properties
  import opened Constraints
  import Repository

  /** The body of every 404 this controller returns. */
  function NotFoundMessage(id: int): string
  {
    "Property not found with ID: " + IntToString(id)
  }

  /** The 404 for a missing id. */
  function NotFound(id: int): (r: Response<PropertyData>)
    ensures r.status == NOT_FOUND && r.body.StatusMessage? && r.body.status == r.status
    ensures r.body.message == NotFoundMessage(id)
  {
    Response(NOT_FOUND, StatusMessage(NOT_FOUND, NotFoundMessage(id)))
  }

  /** A not-found response names the id asked for and no other. */
  lemma NotFoundNamesTheId(a: int, b: int)
    requires NotFound(a) == NotFound(b)
    ensures a == b
  {
    assert NotFoundMessage(a) == NotFoundMessage(b);
    IdMessageInjective("Property not found with ID: ", a, b, "");
  }

  /** The 400 for failed validation, built both by `createProperty` from its
      binding result and by the controller's handler for a payload that
      `@Valid` rejects: every message, joined by ", ", after a fixed prefix. */
  function HandleValidationExceptions(messages: seq<string>): (r: Response<PropertyData>)
    ensures r.status == BAD_REQUEST && r.body.StatusMessage? && r.body.status == r.status
    ensures |r.body.message| >= |"Validation failed: "|
    ensures r.body.message[..|"Validation failed: "|] == "Validation failed: "
    ensures r.body.message == "Validation failed: " + Join(messages, ", ")
    ensures forall m :: m in messages ==> Contains(r.body.message, m)
  {
    var text := "Validation failed: " + Join(messages, ", ");
    forall m | m in messages ensures Contains(text, m) {
      JoinContainsEach(messages, ", ", m);
      ContainsInRight("Validation failed: ", Join(messages, ", "), m);
    }
    Response(BAD_REQUEST, StatusMessage(BAD_REQUEST, text))
  }

  /** The sparse patch `updateProperty` applies to the stored row: each field is
      taken from the payload only when it passes its guard; the id never changes. */
  function Merge(current: PropertyData, payload: PropertyData): PropertyData
  {
    current.(
      name := if ProvidedText(payload.name) then payload.name else current.name,
      address := if ProvidedText(payload.address) then payload.address else current.address,
      price := if payload.price > 0.0 then payload.price else current.price,
      availability := if payload.availability.Some? then payload.availability else current.availability,
      propertyType := if payload.propertyType.Some? then payload.propertyType else current.propertyType)
  }

  /** The id survives the patch, and a field is overwritten exactly when its guard passes. */
  lemma MergeFieldwise(current: PropertyData, payload: PropertyData)
    ensures Merge(current, payload).id == current.id
    ensures Merge(current, payload).name == (if ProvidedText(payload.name) then payload.name else current.name)
    ensures Merge(current, payload).address == (if ProvidedText(payload.address) then payload.address else current.address)
    ensures Merge(current, payload).price == (if payload.price > 0.0 then payload.price else current.price)
    ensures Merge(current, payload).availability == (if payload.availability.Some? then payload.availability else current.availability)
    ensures Merge(current, payload).propertyType == (if payload.propertyType.Some? then payload.propertyType else current.propertyType)
  {
  }

  /** Applying the same patch twice changes nothing more than applying it once. */
  lemma MergeIdempotent(current: PropertyData, payload: PropertyData)
    ensures Merge(Merge(current, payload), payload) == Merge(current, payload)
  {
  }

  /** A payload that passes validation passes every guard, so the patch replaces
      all five fields and keeps only the id. */
  lemma ValidPayloadReplacesAll(current: PropertyData, payload: PropertyData)
    requires IsValid(payload)
    ensures Merge(current, payload) == payload.(id := current.id)
  {
    ValidIff(payload);
    NotBlankIsNonEmpty(payload.name);
    NotBlankIsNonEmpty(payload.address);
  }

  /** A payload with only the price set leaves every other field as stored. */
  lemma PriceOnlyPatch(current: PropertyData, price: real)
    requires price > 0.0
    ensures Merge(current, PropertyData(0, None, None, price, None, None)) == current.(price := price)
  {
  }

  /** `findByAvailability(AVAILABLE)`'s condition. */
  predicate IsAvailable(p: PropertyData)
  {
    p.availability == Some(Available)
  }

  /** Every row sits under its own id, below the next id, and satisfies the
      field constraints (rows only enter through validated payloads). */
  ghost predicate TableInvariant(rows: map<int, PropertyData>, nextId: int)
  {
    && 1 <= nextId
    && forall id :: id in rows ==> 1 <= id < nextId && rows[id].id == id && IsValid(rows[id])
  }

  /** Writing a valid row under an id below the next id keeps the invariant. */
  lemma PutKeepsInvariant(rows: map<int, PropertyData>, nextId: int, id: int, row: PropertyData)
    requires TableInvariant(rows, nextId)
    requires 1 <= id < nextId && row.id == id && IsValid(row)
    ensures TableInvariant(rows[id := row], nextId)
  {
  }

  /** Inserting a valid row under the next id, and moving the next id on, keeps the invariant. */
  lemma InsertKeepsInvariant(rows: map<int, PropertyData>, nextId: int, row: PropertyData)
    requires TableInvariant(rows, nextId)
    requires row.id == nextId && IsValid(row)
    ensures nextId !in rows
    ensures TableInvariant(rows[nextId := row], nextId + 1)
  {
  }

  class PropertyController {
    /** The property table: id to row. */
    var repository: map<int, PropertyData>
    /** The id the next insert receives (identity column, starting at 1). */
    var nextId: int

    /** Every row sits under its own id, below the next id, and satisfies the
        field constraints (rows only enter through validated payloads). */
    ghost predicate Valid()
      reads this
    {
      TableInvariant(repository, nextId)
    }

    constructor ()
      ensures Valid() && repository == map[] && nextId == 1
    {
      repository := map[];
      nextId := 1;
    }

    lemma RowsDistinct()
      requires Valid()
      ensures Repository.Distinct(repository)
    {
      forall a, b | a in repository && b in repository && repository[a] == repository[b] ensures a == b {
        assert repository[a].id == a && repository[b].id == b;
      }
    }

    /** POST: 400 with every violation message if the payload fails validation,
        leaving the table as it was; otherwise the row is inserted under a fresh
        id and returned with 201. */
    method CreateProperty(payload: PropertyData) returns (r: Response<PropertyData>)
      requires Valid()
      modifies this
      ensures Valid()
      ensures !IsValid(payload) ==>
        && r == HandleValidationExceptions(Messages(payload))
        && repository == old(repository) && nextId == old(nextId)
      ensures IsValid(payload) ==>
        var saved := payload.(id := old(nextId));
        && old(nextId) !in old(repository)
        && repository == old(repository)[old(nextId) := saved]
        && nextId == old(nextId) + 1
        && r == Response(CREATED, Entity(saved))
    {
      var errors := Messages(payload);
      if errors != [] {
        ValidIffNoViolations(payload);
        return HandleValidationExceptions(errors);
      }
      ValidIffNoViolations(payload);
      ValidIgnoresId(payload, nextId);
      var property := new Property.Load(payload);
      property.SetId(nextId);
      var saved := property.Value();
      InsertKeepsInvariant(repository, nextId, saved);
      repository := repository[nextId := saved];
      nextId := nextId + 1;
      r := Response(CREATED, Entity(saved));
    }

    /** GET all: 204 with no body when the table is empty, otherwise 200 with
        every row, each once. */
    method GetAllProperties() returns (r: Response<PropertyData>)
      requires Valid()
      ensures repository == map[] ==> r == Response(NO_CONTENT, Empty)
      ensures repository != map[] ==>
        && r.status == OK && r.body.Entities?
        && Repository.Lists(r.body.entities, Repository.Stored(repository))
    {
      RowsDistinct();
      var all := Repository.Select(repository, (p: PropertyData) => true);
      Repository.WhereAll(repository, (p: PropertyData) => true);
      Repository.ListsEmpty(all, Repository.Stored(repository));
      Repository.StoredEmpty(repository);
      if all == [] {
        return Response(NO_CONTENT, Empty);
      }
      r := Response(OK, Entities(all));
    }

    /** GET one: the stored row with 200, or a 404 naming the id. */
    function GetPropertyById(id: int): (r: Response<PropertyData>)
      reads this
      ensures id in repository <==> r.status == OK
      ensures id in repository ==> r.body == Entity(repository[id])
      ensures id !in repository ==> r == NotFound(id)
    {
      if id in repository then Response(OK, Entity(repository[id])) else NotFound(id)
    }

    /** GET available: the rows whose availability is AVAILABLE, each once, with
        200; 204 when there is none. An OCCUPIED row is never listed. */
    method GetAllAvailableProperties() returns (r: Response<PropertyData>)
      requires Valid()
      ensures r.status == NO_CONTENT <==> forall id :: id in repository ==> !IsAvailable(repository[id])
      ensures r.status == NO_CONTENT ==> r.body == Empty
      ensures r.status != NO_CONTENT ==>
        && r.status == OK && r.body.Entities?
        && Repository.Lists(r.body.entities, Repository.Where(repository, IsAvailable))
        && forall i :: 0 <= i < |r.body.entities| ==> r.body.entities[i].availability != Some(Occupied)
    {
      RowsDistinct();
      var available := Repository.Select(repository, IsAvailable);
      Repository.ListsEmpty(available, Repository.Where(repository, IsAvailable));
      Repository.WhereEmpty(repository, IsAvailable);
      if available == [] {
        return Response(NO_CONTENT, Empty);
      }
      r := Response(OK, Entities(available));
    }

    /** PUT: the payload is validated first (400, whatever the id); then a
        missing id is a 404; otherwise the stored bean is patched field by
        field and saved, and returned with 200. Only that row changes. */
    method UpdateProperty(id: int, payload: PropertyData) returns (r: Response<PropertyData>)
      requires Valid()
      modifies this
      ensures Valid() && nextId == old(nextId)
      ensures !IsValid(payload) ==>
        r == HandleValidationExceptions(Messages(payload)) && repository == old(repository)
      ensures IsValid(payload) && id !in old(repository) ==>
        r == NotFound(id) && repository == old(repository)
      ensures IsValid(payload) && id in old(repository) ==>
        && repository == old(repository)[id := Merge(old(repository)[id], payload)]
        && repository[id] == payload.(id := id)
        && r == Response(OK, Entity(repository[id]))
    {
      var errors := Messages(payload);
      ValidIffNoViolations(payload);
      if errors != [] {
        return HandleValidationExceptions(errors);
      }
      if id !in repository {
        return NotFound(id);
      }
      var stored := repository[id];
      var current := new Property.Load(stored);
      Patch(current, payload);
      ValidPayloadReplacesAll(stored, payload);
      ValidIgnoresId(payload, id);
      var updated := current.Value();
      PutKeepsInvariant(repository, nextId, id, updated);
      repository := repository[id := updated];
      r := Response(OK, Entity(updated));
    }

    /** DELETE: 404 and no change for a missing id; otherwise exactly that row
        is removed and a 200 confirmation names the id. */
    method DeleteProperty(id: int) returns (r: Response<PropertyData>)
      requires Valid()
      modifies this
      ensures Valid() && nextId == old(nextId)
      ensures id !in old(repository) ==> r == NotFound(id) && repository == old(repository)
      ensures id in old(repository) ==>
        && repository == old(repository) - {id}
        && r == Response(OK, StatusMessage(OK, "Property with ID: " + IntToString(id) + " was successfully deleted."))
    {
      if id !in repository {
        return NotFound(id);
      }
      repository := repository - {id};
      r := Response(OK, StatusMessage(OK, "Property with ID: " + IntToString(id) + " was successfully deleted."));
    }
  }

  /** The field-by-field edit of the loaded bean that `updateProperty` performs before saving. */
  method Patch(current: Property, payload: PropertyData)
    modifies current
    ensures current.Value() == Merge(old(current.Value()), payload)
  {
    if payload.name.Some? && payload.name.value != "" {
      current.SetName(payload.name);
    }
    if payload.address.Some? && payload.address.value != "" {
      current.SetAddress(payload.address);
    }
    if payload.price > 0.0 {
      current.SetPrice(payload.price);
    }
    if payload.availability.Some? {
      current.SetAvailability(payload.availability);
    }
    if payload.propertyType.Some? {
      current.SetType(payload.propertyType);
    }
  }

  /** Deleting is not idempotent: the second delete of an id finds nothing. */
  method DeleteTwice(c: PropertyController, id: int) returns (first: Response<PropertyData>, second: Response<PropertyData>)
    requires c.Valid()
    modifies c
    ensures id in old(c.repository) ==> first.status == OK
    ensures second == NotFound(id)
  {
    first := c.DeleteProperty(id);
    second := c.DeleteProperty(id);
  }
}
