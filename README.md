# Real-estate backend: property and tenant endpoints in Dafny

This project models the request-level rules of a Spring Boot real-estate backend.

- **Property table** (`/api/properties`): create, list-all, get-by-id, list-available, sparse-patch update and delete.
- **Tenant table** (`/api/tenants`): create (the password is stored encoded), get-all, get-by-id, profile edit, password change and delete.
- **Bean Validation constraints** on `Property`, `Tenant`, `ProfileUpdateDTO` and `PasswordUpdateDTO`. Each becomes an ordered list of violations with their messages.
- **Application-wide exception translation** (`GlobalExceptionHandler`).

How the model is built:

- Each table is a `map<int, Row>` plus the next identity value, which starts at 1.
- The controllers are classes that own these fields.
- `updateProperty`, `editProfile` and `updatePassword` load the stored row into a bean (a `class` with setters), edit it in place and write it back; `createTenant` loads the request payload into a bean, replaces its password with the encoded one and saves it, as the source does.
- `@Size` measures `String.length()`, the number of UTF-16 code units; the model counts a character above U+FFFF as two.
- The `StringBuilder` loop that builds the tenant controller's validation message is a method with a loop invariant.
- Listing a table is a loop over the stored keys. It is proved to return every matching row exactly once.

Modules:

| module | what it holds |
|---|---|
| `Lang` | Java `null` as `Option`; decimal rendering of an int; `String.join`; the append-each loop; `filter` |
| `Http` | status codes and response bodies |
| `Repository` | the listing query (`findAll`, `findByAvailability`) |
| `Constraints` | what `@NotBlank`, `@Size`, `@Positive` and `@Email` accept |
| `Properties` | the property entity |
| `Tenants` | the tenant entity |
| `ProfileUpdate` | the profile-edit payload |
| `PasswordUpdate` | the password-change payload |
| `ExceptionHandling` | the application-wide handler |
| `PropertyApi` | the property controller |
| `TenantApi` | the tenant controller |

The password encoder is a pair of uninterpreted functions, `encode` and `matches`. Properties that need `matches(p, encode(p))` take it as the hypothesis `Verifies(encoder)`. The email shape check of the validation library is an uninterpreted `isEmail`.

The model follows the code:

- `PUT /api/properties/{id}` also answers 400, before looking the id up. Its payload is `@Valid` without a `BindingResult`, so the controller's own `MethodArgumentNotValidException` handler answers.
- A consequence: a property update whose payload sets only one field is rejected with 400. Every accepted update replaces all five fields, so the merge rule is only visible on `Merge` itself (`PriceOnlyPatch`).
- `editProfile` validates the payload before it looks the tenant up. An invalid payload for a missing id therefore gets 400, not 404.
- A tenant's contact number has no positivity constraint at creation. Only the profile-edit payload requires it to be positive.
- The persisted-property invariant "positive price" holds because validation demands at least 0.01. `TableInvariant` records this for every stored row.

## Model

| member | source | states |
|---|---|---|
| Lang.AppendEach | src/main/java/net/java/realEstate/controller/TenantController.java:46-47 | the `StringBuilder` loop yields every message followed by one space, in order |
| Lang.TerminatedIsJoinThenSuffix | src/main/java/net/java/realEstate/controller/TenantController.java:46-47 | appending "m " per message equals joining with " " plus one trailing space |
| Lang.FilterAppend | src/main/java/net/java/realEstate/exception/GlobalExceptionHandler.java:23-25 | filtering a concatenation is the concatenation of the filtered parts, so violations keep their declaration order |
| Lang.JoinAppend | src/main/java/net/java/realEstate/exception/GlobalExceptionHandler.java:30 | joining one more message appends the separator and that message |
| Lang.JoinContainsEach | src/main/java/net/java/realEstate/exception/GlobalExceptionHandler.java:23-30 | every message occurs in the joined text |
| Lang.IntToStringRoundTrip | src/main/java/net/java/realEstate/controller/PropertyController.java:81 | the id written into a message reads back as the same id |
| Lang.IdMessageInjective | src/main/java/net/java/realEstate/controller/PropertyController.java:81 | two messages built around different ids differ |
| Repository.Select | src/main/java/net/java/realEstate/repository/PropertyRepository.java:12 | a query returns every stored row satisfying the condition, each exactly once, and nothing else |
| Repository.StoredEmpty | src/main/java/net/java/realEstate/controller/PropertyController.java:57-59 | the stored rows are none exactly when the table is empty |
| Constraints.Utf16LengthBounds | src/main/java/net/java/realEstate/model/Tenant.java:18 | the UTF-16 length of a text is between its character count and twice it, and equals the character count when no character lies above U+FFFF |
| Constraints.AstralCharacterCountsTwice | src/main/java/net/java/realEstate/model/Tenant.java:18 | a single character above U+FFFF counts as two towards `@Size` |
| Constraints.NotBlankIsNonEmpty | src/main/java/net/java/realEstate/model/Property.java:18 | a text `@NotBlank` accepts is not empty |
| Properties.ViolationsExact | src/main/java/net/java/realEstate/model/Property.java:18-41 | a constraint is reported exactly when it fails |
| Properties.ValidIffNoViolations | src/main/java/net/java/realEstate/model/Property.java:18-41 | a property passes validation exactly when no violation, and so no message, is reported |
| Properties.ValidIff | src/main/java/net/java/realEstate/model/Property.java:18-41 | valid iff name and address are not blank and have at most 255 UTF-16 code units, the price is at least 0.01, and availability and type are set |
| Properties.ValidIgnoresId | src/main/java/net/java/realEstate/model/Property.java:13-16 | the id takes no part in validation |
| Properties.ValidPriceIsPositive | src/main/java/net/java/realEstate/model/Property.java:28-31 | a valid price is strictly positive |
| Properties.SmallPriceRejected | src/main/java/net/java/realEstate/model/Property.java:28-31 | a price in (0, 0.01) is rejected with the price violation |
| Properties.Property.Load | src/main/java/net/java/realEstate/model/Property.java:11-41 | a bean read from a row holds exactly that row |
| Properties.Property.SetId | src/main/java/net/java/realEstate/model/Property.java:49-51 | changes the id only |
| Properties.Property.SetName | src/main/java/net/java/realEstate/model/Property.java:57-59 | changes the name only |
| Properties.Property.SetAddress | src/main/java/net/java/realEstate/model/Property.java:65-67 | changes the address only |
| Properties.Property.SetPrice | src/main/java/net/java/realEstate/model/Property.java:73-75 | changes the price only |
| Properties.Property.SetAvailability | src/main/java/net/java/realEstate/model/Property.java:81-83 | changes the availability only |
| Properties.Property.SetType | src/main/java/net/java/realEstate/model/Property.java:89-91 | changes the type only |
| PropertyApi.NotFound | src/main/java/net/java/realEstate/controller/PropertyController.java:79-83 | 404, with the body status equal to the response status, and the message "Property not found with ID: " followed by the id |
| PropertyApi.NotFoundNamesTheId | src/main/java/net/java/realEstate/controller/PropertyController.java:81 | two not-found responses are equal only for the same id |
| PropertyApi.HandleValidationExceptions | src/main/java/net/java/realEstate/controller/PropertyController.java:163-175 | 400, with the body status equal to the response status; the message is exactly "Validation failed: " followed by the violation messages joined in order by ", ", and contains every one of them |
| PropertyApi.MergeFieldwise | src/main/java/net/java/realEstate/controller/PropertyController.java:113-128 | the id survives the patch; name and address are overwritten exactly when non-null and non-empty, the price exactly when positive, availability and type exactly when non-null |
| PropertyApi.MergeIdempotent | src/main/java/net/java/realEstate/controller/PropertyController.java:113-128 | applying a patch twice equals applying it once |
| PropertyApi.ValidPayloadReplacesAll | src/main/java/net/java/realEstate/controller/PropertyController.java:107-128 | a validated payload passes every guard, so the row becomes the payload under the stored id |
| PropertyApi.PriceOnlyPatch | src/main/java/net/java/realEstate/controller/PropertyController.java:120-122 | a patch that sets only a positive price changes only the price |
| PropertyApi.Patch | src/main/java/net/java/realEstate/controller/PropertyController.java:113-128 | the setter calls leave the bean equal to `Merge` of its old value and the payload |
| PropertyApi.PropertyController.CreateProperty | src/main/java/net/java/realEstate/controller/PropertyController.java:29-51 | invalid payload: 400 with every message, table unchanged. Valid payload: inserted under a fresh id, 201 with the saved row. The table invariant is kept |
| PropertyApi.PropertyController.GetAllProperties | src/main/java/net/java/realEstate/controller/PropertyController.java:55-69 | 204 with no body exactly when the table is empty; otherwise 200 with every row once |
| PropertyApi.PropertyController.GetPropertyById | src/main/java/net/java/realEstate/controller/PropertyController.java:73-85 | 200 with the stored row iff the id is present, else the 404 naming the id |
| PropertyApi.PropertyController.GetAllAvailableProperties | src/main/java/net/java/realEstate/controller/PropertyController.java:89-103 | 204 exactly when no row is AVAILABLE; otherwise 200 with exactly the AVAILABLE rows, each once, never an OCCUPIED one |
| PropertyApi.PropertyController.UpdateProperty | src/main/java/net/java/realEstate/controller/PropertyController.java:107-140 | invalid payload: 400 whatever the id. Missing id: 404. Otherwise only that row changes, to the merge, which equals the payload under the stored id. Nothing changes on an error |
| PropertyApi.PropertyController.DeleteProperty | src/main/java/net/java/realEstate/controller/PropertyController.java:143-160 | missing id: 404 and no change. Otherwise exactly that row is removed, with 200 and "Property with ID: <id> was successfully deleted." |
| PropertyApi.DeleteTwice | src/main/java/net/java/realEstate/controller/PropertyController.java:143-160 | a second delete of the same id is a 404 |
| Tenants.ViolationsExact | src/main/java/net/java/realEstate/model/Tenant.java:17-30 | a constraint is reported exactly when it fails |
| Tenants.ValidIffNoViolations | src/main/java/net/java/realEstate/model/Tenant.java:17-30 | a tenant passes validation exactly when no violation, and so no message, is reported |
| Tenants.ValidIff | src/main/java/net/java/realEstate/model/Tenant.java:17-30 | valid iff the name has 3 to 100 UTF-16 code units, the email is email-shaped, and the contact number and password are present, with no further bound on either |
| Tenants.Tenant.Load | src/main/java/net/java/realEstate/model/Tenant.java:11-34 | a bean read from a row persists exactly that row; the transient field starts null |
| Tenants.Tenant.SetId | src/main/java/net/java/realEstate/model/Tenant.java:41-43 | changes the id only |
| Tenants.Tenant.SetName | src/main/java/net/java/realEstate/model/Tenant.java:49-51 | changes the name only |
| Tenants.Tenant.SetEmail | src/main/java/net/java/realEstate/model/Tenant.java:57-59 | changes the email only |
| Tenants.Tenant.SetContactNumber | src/main/java/net/java/realEstate/model/Tenant.java:65-67 | changes the contact number only |
| Tenants.Tenant.SetPassword | src/main/java/net/java/realEstate/model/Tenant.java:73-75 | changes the password only |
| Tenants.Tenant.SetOldPassword | src/main/java/net/java/realEstate/model/Tenant.java:32-34 | changes the transient field only; the persisted record is untouched |
| ProfileUpdate.ViolationsExact | src/main/java/net/java/realEstate/dto/ProfileUpdateDTO.java:10-19 | a constraint is reported exactly when it fails |
| ProfileUpdate.ValidIffNoViolations | src/main/java/net/java/realEstate/dto/ProfileUpdateDTO.java:10-19 | a payload passes validation exactly when no message is reported |
| ProfileUpdate.ValidIff | src/main/java/net/java/realEstate/dto/ProfileUpdateDTO.java:10-19 | valid iff the name has 3 to 100 UTF-16 code units, the email is email-shaped, and the contact number is either absent or positive |
| PasswordUpdate.ViolationsExact | src/main/java/net/java/realEstate/dto/PasswordUpdateDTO.java:8-13 | a constraint is reported exactly when it fails |
| PasswordUpdate.ValidIffNoViolations | src/main/java/net/java/realEstate/dto/PasswordUpdateDTO.java:8-13 | a payload passes validation exactly when no message is reported |
| PasswordUpdate.ValidIff | src/main/java/net/java/realEstate/dto/PasswordUpdateDTO.java:8-13 | valid iff both passwords are present and the new one has at least 6 UTF-16 code units |
| PasswordUpdate.NoUpperBound | src/main/java/net/java/realEstate/dto/PasswordUpdateDTO.java:11-13 | any new password of 6 or more UTF-16 code units is accepted, however long |
| ExceptionHandling.HandleValidationExceptions | src/main/java/net/java/realEstate/exception/GlobalExceptionHandler.java:18-35 | 400, with the body status equal to the response status; the message is exactly the messages joined in order by ", ", with no prefix, so every message appears; a single message passes through unchanged |
| ExceptionHandling.HandleTenantNotFound | src/main/java/net/java/realEstate/exception/GlobalExceptionHandler.java:38-46 | 404, with the body status equal to the response status and the exception's message unchanged |
| ExceptionHandling.HandleGeneralExceptions | src/main/java/net/java/realEstate/exception/GlobalExceptionHandler.java:49-57 | 500, with the body status equal to the response status; the message is "An unexpected error occurred: " followed by the cause ("null" when absent) |
| ExceptionHandling.Translate | src/main/java/net/java/realEstate/exception/GlobalExceptionHandler.java:18-57 | the body status always equals the response status; 400, 404 and 500 correspond exactly to validation, tenant-not-found and any other exception |
| ExceptionHandling.TranslateSeparatesKinds | src/main/java/net/java/realEstate/exception/GlobalExceptionHandler.java:18-57 | different exception kinds never produce the same response; a 404 determines its message |
| TenantApi.ValidationFailed | src/main/java/net/java/realEstate/controller/TenantController.java:45-50 | 400 "Validation Failed", with the body status equal to the response status; the message contains every violation message and is their " "-join plus a trailing space |
| TenantApi.BindingErrors | src/main/java/net/java/realEstate/controller/TenantController.java:46-49 | the loop-built response equals `ValidationFailed` |
| TenantApi.HandleResourceNotFound | src/main/java/net/java/realEstate/controller/TenantController.java:135-140 | 404 "Tenant Not Found", with the exception's message unchanged and the body status equal to the response status |
| TenantApi.NotFound | src/main/java/net/java/realEstate/controller/TenantController.java:37-38 | the 404 for a missing id says "Tenant not found with id: " followed by the id |
| TenantApi.NotFoundNamesTheId | src/main/java/net/java/realEstate/controller/TenantController.java:38 | two not-found responses are equal only for the same id |
| TenantApi.MergeProfileFieldwise | src/main/java/net/java/realEstate/controller/TenantController.java:76-84 | the profile patch never touches id or password; name and email are overwritten exactly when non-null and non-empty, and the contact number exactly when non-null and positive |
| TenantApi.MergeProfileIdempotent | src/main/java/net/java/realEstate/controller/TenantController.java:76-84 | applying a profile patch twice equals applying it once |
| TenantApi.ValidProfilePassesGuards | src/main/java/net/java/realEstate/dto/ProfileUpdateDTO.java:10-19 | a valid payload always passes the name guard; it passes the email guard unless the email is empty, and always does when the email check rejects ""; the contact number is taken exactly when present |
| TenantApi.MergeProfileKeepsValid | src/main/java/net/java/realEstate/controller/TenantController.java:65-88 | patching a valid tenant with a valid payload leaves it valid |
| TenantApi.PatchProfile | src/main/java/net/java/realEstate/controller/TenantController.java:76-84 | the setter calls leave the bean equal to `MergeProfile` of its old value and the payload |
| TenantApi.TenantController.GetAllTenants | src/main/java/net/java/realEstate/controller/TenantController.java:30-32 | always 200 with every row once; an empty table gives an empty list, not a 204 |
| TenantApi.TenantController.GetTenantById | src/main/java/net/java/realEstate/controller/TenantController.java:36-40 | 200 with the stored row iff the id is present, else the 404 naming the id |
| TenantApi.TenantController.CreateTenant | src/main/java/net/java/realEstate/controller/TenantController.java:44-59 | invalid payload: 400 and table unchanged. Valid payload: inserted under a fresh id with the password replaced by `encode(password)`, 201 with the saved row |
| TenantApi.TenantController.EditProfile | src/main/java/net/java/realEstate/controller/TenantController.java:63-89 | invalid payload: 400 whatever the id. Then missing id: 404. Otherwise only that row changes, to the profile merge, and 200 with it |
| TenantApi.TenantController.UpdatePassword | src/main/java/net/java/realEstate/controller/TenantController.java:93-119 | 400, then 404, then 401 "Old password is incorrect" with nothing saved when the old password does not match the stored hash. Otherwise only the stored hash changes, to `encode(new)`, with 200. With a sound encoder the current password is always accepted |
| TenantApi.TenantController.DeleteTenant | src/main/java/net/java/realEstate/controller/TenantController.java:123-132 | missing id: 404 and no change. Otherwise exactly that row is removed, with 200 "Tenant deleted successfully" |
| TenantApi.ChangeThenCheck | src/main/java/net/java/realEstate/controller/TenantController.java:106-118 | after a successful change, the new password matches the stored hash; with an encoder whose hashes match only their own password, an old password different from the new one no longer matches |
| TenantApi.DeleteTwice | src/main/java/net/java/realEstate/controller/TenantController.java:123-132 | a second delete of the same id is a 404 |

## Left out

- Spring wiring, routing, JSON binding and dependency injection. Each endpoint is a method that takes its typed payload.
- Timestamps in the error bodies. They come from the clock and are dropped.
- The `catch (Exception e)` branches of `createProperty`, `getAllProperties` and `getAllAvailableProperties`. They answer persistence failures, which the in-memory table does not have.
- `PropertyController.handleGeneralExceptions`. It is reached only through such failures. Its response has the same shape as `ExceptionHandling.HandleGeneralExceptions`.
- The hashing inside the password encoder. It is foreign code: `encode` and `matches` are uninterpreted.
- The regular expression behind `@Email`. The library is not shown, so `isEmail` stands for it. Whether `""` passes depends on it, so the lemmas about the email guard state both cases.
- The order in which the validation library reports violations. The library does not fix it; the model reports them in declaration order.
- Floating-point `price`. It is a `real`; only the comparisons with 0 and 0.01 matter.
- The 32-bit `int` ids and the 64-bit `Long` contact numbers. Both are unbounded integers; identity values never overflow in the model.
- An id sent in a create payload. JPA would treat a non-zero id as an update of that row. The model always inserts under the next identity value.
- `TenantDTO`. No endpoint binds it.
- The `ErrorResponse` classes. They are body constructors of `Http.Body`.
- `ResourceNotFoundException` and `TenantNotFoundException`. They are the message they carry.
- ExceptionHandling.HandleTenantNotFound: does not model a `TenantNotFoundException` whose message is null. Its message is a plain string.
