/** The `/api/tenants` endpoints. The controller owns the tenant table (a map
    from generated id to row), the next id the database will hand out, and a
    password encoder whose hashing is not modelled. */
module TenantApi {
  import opened Lang
  import opened Http
  import opened Constraints
  import opened Tenants
  import ProfileUpdate
  import PasswordUpdate
  import Repository

  /** The password encoder: `encode` hashes a raw password, `matches(raw, encoded)`
      says whether a raw password fits a stored hash. Both are left uninterpreted. */
  datatype PasswordEncoder = PasswordEncoder(
    encode: string -> string,
    matches: (string, string) -> bool)

  /** What every real encoder promises: a password fits its own encoding. */
  ghost predicate Verifies(e: PasswordEncoder)
  {
    forall p :: e.matches(p, e.encode(p))
  }

  /** An encoder that never lets one password match the encoding of another. */
  ghost predicate Distinguishes(e: PasswordEncoder)
  {
    forall p, q :: e.matches(p, e.encode(q)) ==> p == q
  }

  /** The 400 that `createTenant`, `editProfile` and `updatePassword` build
      from their binding result: every message, each followed by one space. */
  function ValidationFailed(messages: seq<string>): (r: Response<TenantData>)
    ensures r.status == BAD_REQUEST && r.body.ErrorMessage? && r.body.status == r.status
    ensures r.body.error == "Validation Failed"
    ensures forall m :: m in messages ==> Contains(r.body.message, m)
    ensures messages != [] ==> r.body.message == Join(messages, " ") + " "
    ensures messages == [] ==> r.body.message == ""
  {
    var text := Terminated(messages, " ");
    forall m | m in messages ensures Contains(text, m) {
      TerminatedContainsEach(messages, " ", m);
    }
    assert messages != [] ==> text == Join(messages, " ") + " " by {
      if messages != [] {
        TerminatedIsJoinThenSuffix(messages, " ");
      }
    }
    Response(BAD_REQUEST, ErrorMessage("Validation Failed", text, BAD_REQUEST))
  }

  /** The `StringBuilder` loop that builds the 400 above. */
  method BindingErrors(messages: seq<string>) returns (r: Response<TenantData>)
    ensures r == ValidationFailed(messages)
  {
    var text := AppendEach(messages, " ");
    r := Response(BAD_REQUEST, ErrorMessage("Validation Failed", text, BAD_REQUEST));
  }

  /** The controller's own handler for a missing tenant: 404, the exception's
      message passed on unchanged under the error "Tenant Not Found". */
  function HandleResourceNotFound(message: string): (r: Response<TenantData>)
    ensures r.status == NOT_FOUND && r.body.ErrorMessage? && r.body.status == r.status
    ensures r.body.error == "Tenant Not Found" && r.body.message == message
  {
    Response(NOT_FOUND, ErrorMessage("Tenant Not Found", message, NOT_FOUND))
  }

  function NotFoundMessage(id: int): string
  {
    "Tenant not found with id: " + IntToString(id)
  }

  /** The 404 for a lookup of a missing id. */
  function NotFound(id: int): (r: Response<TenantData>)
    ensures r.status == NOT_FOUND && r.body.ErrorMessage? && r.body.status == r.status
    ensures r.body.error == "Tenant Not Found" && r.body.message == NotFoundMessage(id)
  {
    HandleResourceNotFound(NotFoundMessage(id))
  }

  /** A not-found response names the id asked for and no other. */
  lemma NotFoundNamesTheId(a: int, b: int)
    requires NotFound(a) == NotFound(b)
    ensures a == b
  {
    assert NotFoundMessage(a) == NotFoundMessage(b);
    IdMessageInjective("Tenant not found with id: ", a, b, "");
  }

  const UNAUTHORIZED_RESPONSE: Response<TenantData> :=
    Response(UNAUTHORIZED, ErrorMessage("Unauthorized", "Old password is incorrect", UNAUTHORIZED))

  /** The contact number in a profile payload overwrites only when present and positive. */
  predicate ProvidedNumber(n: Option<int>)
  {
    n.Some? && n.value > 0
  }

  /** The sparse patch `editProfile` applies to the stored row. */
  function MergeProfile(current: TenantData, payload: ProfileUpdate.ProfileUpdateDto): TenantData
  {
    current.(
      name := if ProvidedText(payload.name) then payload.name else current.name,
      email := if ProvidedText(payload.email) then payload.email else current.email,
      contactNumber := if ProvidedNumber(payload.contactNumber) then payload.contactNumber else current.contactNumber)
  }

  /** The patch never touches the id or the password, and overwrites a field
      exactly when its guard passes. */
  lemma MergeProfileFieldwise(current: TenantData, payload: ProfileUpdate.ProfileUpdateDto)
    ensures MergeProfile(current, payload).id == current.id
    ensures MergeProfile(current, payload).password == current.password
    ensures MergeProfile(current, payload).name == (if ProvidedText(payload.name) then payload.name else current.name)
    ensures MergeProfile(current, payload).email == (if ProvidedText(payload.email) then payload.email else current.email)
    ensures MergeProfile(current, payload).contactNumber ==
      (if ProvidedNumber(payload.contactNumber) then payload.contactNumber else current.contactNumber)
  {
  }

  /** Applying the same profile patch twice changes nothing more than applying it once. */
  lemma MergeProfileIdempotent(current: TenantData, payload: ProfileUpdate.ProfileUpdateDto)
    ensures MergeProfile(MergeProfile(current, payload), payload) == MergeProfile(current, payload)
  {
  }

  /** A payload that passes validation always passes the name guard, passes the
      email guard unless the email is empty (which the email check alone decides),
      and passes the contact-number guard exactly when it carries a number. */
  lemma ValidProfilePassesGuards(payload: ProfileUpdate.ProfileUpdateDto, isEmail: string -> bool)
    requires ProfileUpdate.IsValid(payload, isEmail)
    ensures ProvidedText(payload.name)
    ensures ProvidedText(payload.email) <==> payload.email != Some("")
    ensures !isEmail("") ==> ProvidedText(payload.email)
    ensures ProvidedNumber(payload.contactNumber) <==> payload.contactNumber.Some?
  {
    ProfileUpdate.ValidIff(payload, isEmail);
  }

  /** Patching a valid row with a valid profile payload keeps it valid. */
  lemma MergeProfileKeepsValid(current: TenantData, payload: ProfileUpdate.ProfileUpdateDto, isEmail: string -> bool)
    requires IsValid(current, isEmail) && ProfileUpdate.IsValid(payload, isEmail)
    ensures IsValid(MergeProfile(current, payload), isEmail)
  {
    ValidIff(current, isEmail);
    ProfileUpdate.ValidIff(payload, isEmail);
    ValidIff(MergeProfile(current, payload), isEmail);
  }

  /** Every row sits under its own id, below the next id, satisfies the field
      constraints, and stores the encoding of the plaintext recorded in `secrets`. */
  ghost predicate TableInvariant(rows: map<int, TenantData>, secrets: map<int, string>, nextId: int,
                                 encoder: PasswordEncoder, isEmail: string -> bool)
  {
    && 1 <= nextId
    && forall id :: id in rows ==>
        && 1 <= id < nextId && rows[id].id == id && IsValid(rows[id], isEmail)
        && id in secrets && rows[id].password == Some(encoder.encode(secrets[id]))
  }

  /** Writing a valid row that stores the encoding of `secret` keeps the invariant. */
  lemma PutKeepsInvariant(rows: map<int, TenantData>, secrets: map<int, string>, nextId: int,
                          encoder: PasswordEncoder, isEmail: string -> bool,
                          id: int, row: TenantData, secret: string)
    requires TableInvariant(rows, secrets, nextId, encoder, isEmail)
    requires 1 <= id < nextId && row.id == id && IsValid(row, isEmail)
    requires row.password == Some(encoder.encode(secret))
    ensures TableInvariant(rows[id := row], secrets[id := secret], nextId, encoder, isEmail)
  {
  }

  /** Saving a stored row patched with a valid profile payload keeps the invariant. */
  lemma ProfileSaveKeepsInvariant(rows: map<int, TenantData>, secrets: map<int, string>, nextId: int,
                                  encoder: PasswordEncoder, isEmail: string -> bool,
                                  id: int, payload: ProfileUpdate.ProfileUpdateDto)
    requires TableInvariant(rows, secrets, nextId, encoder, isEmail) && id in rows
    requires ProfileUpdate.IsValid(payload, isEmail)
    ensures TableInvariant(rows[id := MergeProfile(rows[id], payload)], secrets, nextId, encoder, isEmail)
  {
    MergeProfileKeepsValid(rows[id], payload, isEmail);
    PutKeepsInvariant(rows, secrets, nextId, encoder, isEmail, id, MergeProfile(rows[id], payload), secrets[id]);
    assert secrets[id := secrets[id]] == secrets;
  }

  /** A stored row has a password, and that password is the encoding of its secret. */
  lemma StoredPassword(rows: map<int, TenantData>, secrets: map<int, string>, nextId: int,
                       encoder: PasswordEncoder, isEmail: string -> bool, id: int)
    requires TableInvariant(rows, secrets, nextId, encoder, isEmail) && id in rows
    ensures rows[id].password == Some(encoder.encode(secrets[id]))
    ensures IsValid(rows[id], isEmail)
  {
  }

  class TenantController {
    /** The tenant table: id to row. */
    var repository: map<int, TenantData>
    /** The id the next insert receives (identity column, starting at 1). */
    var nextId: int
    /** The plaintext each stored hash was made from; it exists only in the proof. */
    ghost var secrets: map<int, string>
    const encoder: PasswordEncoder
    /** The validation library's email shape check. */
    const isEmail: string -> bool

    ghost predicate Valid()
      reads this
    {
      TableInvariant(repository, secrets, nextId, encoder, isEmail)
    }

    constructor (encoder: PasswordEncoder, isEmail: string -> bool)
      ensures Valid() && repository == map[] && nextId == 1
      ensures this.encoder == encoder && this.isEmail == isEmail
    {
      repository := map[];
      secrets := map[];
      nextId := 1;
      this.encoder := encoder;
      this.isEmail := isEmail;
    }

    lemma RowsDistinct()
      requires Valid()
      ensures Repository.Distinct(repository)
    {
      forall a, b | a in repository && b in repository && repository[a] == repository[b] ensures a == b {
        assert repository[a].id == a && repository[b].id == b;
      }
    }

    /** GET all: 200 with every row, each once; an empty table gives an empty
        list, not a 204. */
    method GetAllTenants() returns (r: Response<TenantData>)
      requires Valid()
      ensures r.status == OK && r.body.Entities?
      ensures Repository.Lists(r.body.entities, Repository.Stored(repository))
      ensures r.body.entities == [] <==> repository == map[]
    {
      RowsDistinct();
      var all := Repository.Select(repository, (t: TenantData) => true);
      Repository.WhereAll(repository, (t: TenantData) => true);
      Repository.ListsEmpty(all, Repository.Stored(repository));
      Repository.StoredEmpty(repository);
      r := Response(OK, Entities(all));
    }

    /** GET one: the stored row with 200, or the controller's 404 naming the id. */
    function GetTenantById(id: int): (r: Response<TenantData>)
      reads this
      ensures id in repository <==> r.status == OK
      ensures id in repository ==> r.body == Entity(repository[id])
      ensures id !in repository ==> r == NotFound(id)
    {
      if id in repository then Response(OK, Entity(repository[id])) else NotFound(id)
    }

    /** POST: 400 with every violation message if the payload fails validation,
        leaving the table as it was; otherwise the row is inserted under a fresh
        id with its password replaced by the encoding, and returned with 201. */
    method CreateTenant(payload: TenantData) returns (r: Response<TenantData>)
      requires Valid()
      modifies this
      ensures Valid()
      ensures !IsValid(payload, isEmail) ==>
        && r == ValidationFailed(Messages(payload, isEmail))
        && repository == old(repository) && nextId == old(nextId)
      ensures IsValid(payload, isEmail) ==>
        && payload.password.Some?
        && var saved := payload.(id := old(nextId), password := Some(encoder.encode(payload.password.value)));
        && old(nextId) !in old(repository)
        && repository == old(repository)[old(nextId) := saved]
        && nextId == old(nextId) + 1
        && r == Response(CREATED, Entity(saved))
    {
      var errors := Messages(payload, isEmail);
      ValidIffNoViolations(payload, isEmail);
      if errors != [] {
        r := BindingErrors(errors);
        return;
      }
      ValidIff(payload, isEmail);
      var tenant := new Tenant.Load(payload);
      var plaintext := payload.password.value;
      tenant.SetPassword(Some(encoder.encode(plaintext)));
      tenant.SetId(nextId);
      var saved := tenant.Persisted();
      ValidIff(saved, isEmail);
      assert nextId !in repository;
      PutKeepsInvariant(repository, secrets, nextId + 1, encoder, isEmail, nextId, saved, plaintext);
      repository := repository[nextId := saved];
      secrets := secrets[nextId := plaintext];
      nextId := nextId + 1;
      r := Response(CREATED, Entity(saved));
    }

    /** PUT edit-profile: the payload is validated first (400, whatever the id);
        then a missing id is a 404; otherwise the stored row is patched (never its
        id or password), saved and returned with 200. Only that row changes. */
    method EditProfile(id: int, payload: ProfileUpdate.ProfileUpdateDto) returns (r: Response<TenantData>)
      requires Valid()
      modifies this
      ensures Valid() && nextId == old(nextId)
      ensures !ProfileUpdate.IsValid(payload, isEmail) ==>
        r == ValidationFailed(ProfileUpdate.Messages(payload, isEmail)) && repository == old(repository)
      ensures ProfileUpdate.IsValid(payload, isEmail) && id !in old(repository) ==>
        r == NotFound(id) && repository == old(repository)
      ensures ProfileUpdate.IsValid(payload, isEmail) && id in old(repository) ==>
        && repository == old(repository)[id := MergeProfile(old(repository)[id], payload)]
        && r == Response(OK, Entity(repository[id]))
    {
      var errors := ProfileUpdate.Messages(payload, isEmail);
      ProfileUpdate.ValidIffNoViolations(payload, isEmail);
      if errors != [] {
        r := BindingErrors(errors);
        return;
      }
      if id !in repository {
        return NotFound(id);
      }
      var tenant := new Tenant.Load(repository[id]);
      PatchProfile(tenant, payload);
      var updated := tenant.Persisted();
      ProfileSaveKeepsInvariant(repository, secrets, nextId, encoder, isEmail, id, payload);
      repository := repository[id := updated];
      r := Response(OK, Entity(updated));
    }

    /** PUT update-password: the payload is validated first (400); then a
        missing id is a 404; then an old password that does not fit the stored
        hash is a 401 with nothing saved; otherwise only the stored hash changes,
        to the encoding of the new password, and the row is returned with 200. */
    method UpdatePassword(id: int, payload: PasswordUpdate.PasswordUpdateDto) returns (r: Response<TenantData>)
      requires Valid()
      modifies this
      ensures Valid() && nextId == old(nextId)
      ensures !PasswordUpdate.IsValid(payload) ==>
        r == ValidationFailed(PasswordUpdate.Messages(payload)) && repository == old(repository)
      ensures PasswordUpdate.IsValid(payload) && id !in old(repository) ==>
        r == NotFound(id) && repository == old(repository)
      ensures PasswordUpdate.IsValid(payload) && id in old(repository) ==>
        && payload.oldPassword.Some? && payload.newPassword.Some? && old(repository)[id].password.Some?
        && (!encoder.matches(payload.oldPassword.value, old(repository)[id].password.value) ==>
              r == UNAUTHORIZED_RESPONSE && repository == old(repository))
        && (encoder.matches(payload.oldPassword.value, old(repository)[id].password.value) ==>
              && repository == old(repository)[id := old(repository)[id].(password := Some(encoder.encode(payload.newPassword.value)))]
              && r == Response(OK, Entity(repository[id])))
      ensures (&& Verifies(encoder) && PasswordUpdate.IsValid(payload) && id in old(repository)
               && payload.oldPassword == Some(old(secrets)[id])) ==> r.status == OK
    {
      var errors := PasswordUpdate.Messages(payload);
      PasswordUpdate.ValidIffNoViolations(payload);
      PasswordUpdate.ValidIff(payload);
      if errors != [] {
        r := BindingErrors(errors);
        return;
      }
      if id !in repository {
        return NotFound(id);
      }
      var stored := repository[id];
      StoredPassword(repository, secrets, nextId, encoder, isEmail, id);
      var tenant := new Tenant.Load(stored);
      if !encoder.matches(payload.oldPassword.value, tenant.password.value) {
        return UNAUTHORIZED_RESPONSE;
      }
      var plaintext := payload.newPassword.value;
      tenant.SetPassword(Some(encoder.encode(plaintext)));
      var updated := tenant.Persisted();
      ValidIff(stored, isEmail);
      ValidIff(updated, isEmail);
      PutKeepsInvariant(repository, secrets, nextId, encoder, isEmail, id, updated, plaintext);
      repository := repository[id := updated];
      secrets := secrets[id := plaintext];
      r := Response(OK, Entity(updated));
    }

    /** DELETE: 404 and no change for a missing id; otherwise exactly that row
        is removed and a 200 confirmation is returned. */
    method DeleteTenant(id: int) returns (r: Response<TenantData>)
      requires Valid()
      modifies this
      ensures Valid() && nextId == old(nextId)
      ensures id !in old(repository) ==> r == NotFound(id) && repository == old(repository)
      ensures id in old(repository) ==>
        && repository == old(repository) - {id}
        && r == Response(OK, SuccessMessage("Tenant deleted successfully", OK))
    {
      if id !in repository {
        return NotFound(id);
      }
      repository := repository - {id};
      r := Response(OK, SuccessMessage("Tenant deleted successfully", OK));
    }
  }

  /** The field-by-field edit of the loaded bean that `editProfile` performs before saving. */
  method PatchProfile(tenant: Tenant, payload: ProfileUpdate.ProfileUpdateDto)
    modifies tenant
    ensures tenant.Persisted() == MergeProfile(old(tenant.Persisted()), payload)
  {
    if payload.name.Some? && payload.name.value != "" {
      tenant.SetName(payload.name);
    }
    if payload.email.Some? && payload.email.value != "" {
      tenant.SetEmail(payload.email);
    }
    if payload.contactNumber.Some? && payload.contactNumber.value > 0 {
      tenant.SetContactNumber(payload.contactNumber);
    }
  }

  /** After a password change, the new password fits the stored hash and, for an
      encoder that tells passwords apart, an old password that differs from the
      new one no longer does. */
  method ChangeThenCheck(c: TenantController, id: int, payload: PasswordUpdate.PasswordUpdateDto)
    returns (r: Response<TenantData>)
    requires c.Valid() && Verifies(c.encoder)
    modifies c
    ensures r.status == OK ==>
      && id in c.repository && payload.oldPassword.Some? && payload.newPassword.Some?
      && c.repository[id].password.Some?
      && c.encoder.matches(payload.newPassword.value, c.repository[id].password.value)
    ensures r.status == OK && Distinguishes(c.encoder) && payload.oldPassword != payload.newPassword ==>
      && id in c.repository && payload.oldPassword.Some? && c.repository[id].password.Some?
      && !c.encoder.matches(payload.oldPassword.value, c.repository[id].password.value)
  {
    r := c.UpdatePassword(id, payload);
    if r.status == OK {
      PasswordUpdate.ValidIff(payload);
    }
  }

  /** Deleting is not idempotent: the second delete of an id finds nothing. */
  method DeleteTwice(c: TenantController, id: int) returns (first: Response<TenantData>, second: Response<TenantData>)
    requires c.Valid()
    modifies c
    ensures id in old(c.repository) ==> first.status == OK
    ensures second == NotFound(id)
  {
    first := c.DeleteTenant(id);
    second := c.DeleteTenant(id);
  }
}
