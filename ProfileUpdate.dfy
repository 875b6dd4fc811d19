/** The edit-profile payload: a name, an email and an optional contact number. */
module ProfileUpdate {
  import opened Lang
  import opened Constraints

  datatype ProfileUpdateDto = ProfileUpdateDto(
    name: Option<string>,
    email: Option<string>,
    contactNumber: Option<int>)

  const NAME_MIN := 3
  const NAME_MAX := 100

  datatype Violation =
    | NameNull | NameSize
    | EmailNull | EmailFormat
    | ContactNumberNotPositive
  {
    function Message(): string
    {
      match this
      case NameNull => "Name cannot be null"
      case NameSize => "Name should be between 3 and 100 characters"
      case EmailNull => "Email cannot be null"
      case EmailFormat => "Invalid email format"
      case ContactNumberNotPositive => "Contact number must be positive"
    }
  }

  const CONSTRAINTS: seq<Violation> :=
    [NameNull, NameSize, EmailNull, EmailFormat, ContactNumberNotPositive]

  /** Whether constraint `v` fails on `d`. The contact number may be left out. */
  predicate Fails(d: ProfileUpdateDto, isEmail: string -> bool, v: Violation)
  {
    match v
    case NameNull => d.name.None?
    case NameSize => !SizeBetween(d.name, NAME_MIN, NAME_MAX)
    case EmailNull => d.email.None?
    case EmailFormat => !EmailShaped(d.email, isEmail)
    case ContactNumberNotPositive => !Positive(d.contactNumber)
  }

  function Violations(d: ProfileUpdateDto, isEmail: string -> bool): seq<Violation>
  {
    Filter(CONSTRAINTS, (v: Violation) => Fails(d, isEmail, v))
  }

  function Messages(d: ProfileUpdateDto, isEmail: string -> bool): seq<string>
  {
    MapSeq(Violations(d, isEmail), (v: Violation) => v.Message())
  }

  /** Passes validation: no constraint fails. */
  predicate IsValid(d: ProfileUpdateDto, isEmail: string -> bool)
  {
    forall v :: !Fails(d, isEmail, v)
  }

  lemma ViolationsExact(d: ProfileUpdateDto, isEmail: string -> bool, v: Violation)
    ensures v in Violations(d, isEmail) <==> Fails(d, isEmail, v)
  {
    assert v in CONSTRAINTS by {
      match v
      case NameNull => assert CONSTRAINTS[0] == v;
      case NameSize => assert CONSTRAINTS[1] == v;
      case EmailNull => assert CONSTRAINTS[2] == v;
      case EmailFormat => assert CONSTRAINTS[3] == v;
      case ContactNumberNotPositive => assert CONSTRAINTS[4] == v;
    }
  }

  /** Validation reports nothing exactly when no constraint fails. */
  lemma ValidIffNoViolations(d: ProfileUpdateDto, isEmail: string -> bool)
    ensures IsValid(d, isEmail) <==> Violations(d, isEmail) == []
    ensures IsValid(d, isEmail) <==> Messages(d, isEmail) == []
  {
    if Violations(d, isEmail) != [] {
      ViolationsExact(d, isEmail, Violations(d, isEmail)[0]);
    } else {
      forall v ensures !Fails(d, isEmail, v) {
        ViolationsExact(d, isEmail, v);
      }
    }
  }

  /** The payload's constraints, all together: a name of 3 to 100 UTF-16 code units
      and an email of the right shape, both required; a contact number that,
      when given, is positive. */
  lemma ValidIff(d: ProfileUpdateDto, isEmail: string -> bool)
    ensures IsValid(d, isEmail) <==>
      && d.name.Some? && NAME_MIN <= Utf16Length(d.name.value) <= NAME_MAX
      && d.email.Some? && isEmail(d.email.value)
      && (d.contactNumber.Some? ==> d.contactNumber.value > 0)
  {
    if forall v :: !Fails(d, isEmail, v) {
      assert !Fails(d, isEmail, NameNull) && !Fails(d, isEmail, NameSize);
      assert !Fails(d, isEmail, EmailNull) && !Fails(d, isEmail, EmailFormat);
      assert !Fails(d, isEmail, ContactNumberNotPositive);
    }
  }
}
