/** The Tenant entity: the record a request body or a table row holds, the
    mutable bean the controller edits through setters, and the field
    constraints request validation checks. The email shape check belongs to
    the validation library and is passed in as `isEmail`. */
module Tenants {
  import opened Lang
  import opened Constraints

  /** The persisted fields of a Tenant. `contactNumber` is a `Long` and may be
      null; `password` holds the encoded password once stored. */
  datatype TenantData = TenantData(
    id: int,
    name: Option<string>,
    email: Option<string>,
    contactNumber: Option<int>,
    password: Option<string>)

  const NAME_MIN := 3
  const NAME_MAX := 100

  /** One failed field constraint of a Tenant. */
  datatype Violation =
    | NameNull | NameSize
    | EmailNull | EmailFormat
    | ContactNumberNull
    | PasswordNull
  {
    function Message(): string
    {
      match this
      case NameNull => "Name cannot be null"
      case NameSize => "Name should be between 3 and 100 characters"
      case EmailNull => "Email cannot be null"
      case EmailFormat => "Invalid email format"
      case ContactNumberNull => "Contact number cannot be null"
      case PasswordNull => "Password cannot be null"
    }
  }

  /** Every constraint, in the order the fields and their annotations are declared. */
  const CONSTRAINTS: seq<Violation> :=
    [NameNull, NameSize, EmailNull, EmailFormat, ContactNumberNull, PasswordNull]

  /** Whether constraint `v` fails on `t`. The contact number only has to be
      present, and the password only non-null: neither has a further bound. */
  predicate Fails(t: TenantData, isEmail: string -> bool, v: Violation)
  {
    match v
    case NameNull => t.name.None?
    case NameSize => !SizeBetween(t.name, NAME_MIN, NAME_MAX)
    case EmailNull => t.email.None?
    case EmailFormat => !EmailShaped(t.email, isEmail)
    case ContactNumberNull => t.contactNumber.None?
    case PasswordNull => t.password.None?
  }

  /** Every constraint the tenant violates, in declaration order. */
  function Violations(t: TenantData, isEmail: string -> bool): seq<Violation>
  {
    Filter(CONSTRAINTS, (v: Violation) => Fails(t, isEmail, v))
  }

  function Messages(t: TenantData, isEmail: string -> bool): seq<string>
  {
    MapSeq(Violations(t, isEmail), (v: Violation) => v.Message())
  }

  /** Passes validation: no constraint fails. */
  predicate IsValid(t: TenantData, isEmail: string -> bool)
  {
    forall v :: !Fails(t, isEmail, v)
  }

  /** Each constraint is reported exactly when it fails. */
  lemma ViolationsExact(t: TenantData, isEmail: string -> bool, v: Violation)
    ensures v in Violations(t, isEmail) <==> Fails(t, isEmail, v)
  {
    assert v in CONSTRAINTS by {
      match v
      case NameNull => assert CONSTRAINTS[0] == v;
      case NameSize => assert CONSTRAINTS[1] == v;
      case EmailNull => assert CONSTRAINTS[2] == v;
      case EmailFormat => assert CONSTRAINTS[3] == v;
      case ContactNumberNull => assert CONSTRAINTS[4] == v;
      case PasswordNull => assert CONSTRAINTS[5] == v;
    }
  }

  /** Validation reports nothing exactly when no constraint fails. */
  lemma ValidIffNoViolations(t: TenantData, isEmail: string -> bool)
    ensures IsValid(t, isEmail) <==> Violations(t, isEmail) == []
    ensures IsValid(t, isEmail) <==> Messages(t, isEmail) == []
  {
    if Violations(t, isEmail) != [] {
      ViolationsExact(t, isEmail, Violations(t, isEmail)[0]);
    } else {
      forall v ensures !Fails(t, isEmail, v) {
        ViolationsExact(t, isEmail, v);
      }
    }
  }

  /** The field constraints of a Tenant, all together: a name of 3 to 100
      UTF-16 code units, an email of the right shape, a contact number of any value
      and a password of any length, none of them null. */
  lemma ValidIff(t: TenantData, isEmail: string -> bool)
    ensures IsValid(t, isEmail) <==>
      && t.name.Some? && NAME_MIN <= Utf16Length(t.name.value) <= NAME_MAX
      && t.email.Some? && isEmail(t.email.value)
      && t.contactNumber.Some?
      && t.password.Some?
  {
    if forall v :: !Fails(t, isEmail, v) {
      assert !Fails(t, isEmail, NameNull) && !Fails(t, isEmail, NameSize);
      assert !Fails(t, isEmail, EmailNull) && !Fails(t, isEmail, EmailFormat);
      assert !Fails(t, isEmail, ContactNumberNull) && !Fails(t, isEmail, PasswordNull);
    }
  }

  /** The mutable entity bean. `oldPassword` is transient: it lives on the bean
      only and is not part of the persisted record. */
  class Tenant {
    var id: int
    var name: Option<string>
    var email: Option<string>
    var contactNumber: Option<int>
    var password: Option<string>
    var oldPassword: Option<string>

    /** The record a save writes: every field but the transient one. */
    function Persisted(): TenantData
      reads this
    {
      TenantData(id, name, email, contactNumber, password)
    }

    /** A bean read back from a row: the transient field starts out null. */
    constructor Load(d: TenantData)
      ensures Persisted() == d && oldPassword.None?
    {
      id, name, email, contactNumber, password := d.id, d.name, d.email, d.contactNumber, d.password;
      oldPassword := None;
    }

    method SetId(v: int)
      modifies this
      ensures Persisted() == old(Persisted()).(id := v) && oldPassword == old(oldPassword)
    {
      id := v;
    }

    method SetName(v: Option<string>)
      modifies this
      ensures Persisted() == old(Persisted()).(name := v) && oldPassword == old(oldPassword)
    {
      name := v;
    }

    method SetEmail(v: Option<string>)
      modifies this
      ensures Persisted() == old(Persisted()).(email := v) && oldPassword == old(oldPassword)
    {
      email := v;
    }

    method SetContactNumber(v: Option<int>)
      modifies this
      ensures Persisted() == old(Persisted()).(contactNumber := v) && oldPassword == old(oldPassword)
    {
      contactNumber := v;
    }

    method SetPassword(v: Option<string>)
      modifies this
      ensures Persisted() == old(Persisted()).(password := v) && oldPassword == old(oldPassword)
    {
      password := v;
    }

    /** Changes the bean only: what a save writes stays as it was. */
    method SetOldPassword(v: Option<string>)
      modifies this
      ensures Persisted() == old(Persisted()) && oldPassword == v
    {
      oldPassword := v;
    }
  }
}
