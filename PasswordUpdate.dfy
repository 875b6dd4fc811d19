/** The update-password payload: the current password and the new one. */
module PasswordUpdate {
  import opened Lang
  import opened Constraints

  datatype PasswordUpdateDto = PasswordUpdateDto(
    oldPassword: Option<string>,
    newPassword: Option<string>)

  /** The shortest new password accepted; there is no upper bound. */
  const NEW_PASSWORD_MIN := 6

  datatype Violation =
    | OldPasswordNull
    | NewPasswordNull | NewPasswordTooShort
  {
    function Message(): string
    {
      match this
      case OldPasswordNull => "Old password cannot be null"
      case NewPasswordNull => "New password cannot be null"
      case NewPasswordTooShort => "New password should be at least 6 characters long"
    }
  }

  const CONSTRAINTS: seq<Violation> := [OldPasswordNull, NewPasswordNull, NewPasswordTooShort]

  predicate Fails(d: PasswordUpdateDto, v: Violation)
  {
    match v
    case OldPasswordNull => d.oldPassword.None?
    case NewPasswordNull => d.newPassword.None?
    case NewPasswordTooShort => !SizeAtLeast(d.newPassword, NEW_PASSWORD_MIN)
  }

  function Violations(d: PasswordUpdateDto): seq<Violation>
  {
    Filter(CONSTRAINTS, (v: Violation) => Fails(d, v))
  }

  function Messages(d: PasswordUpdateDto): seq<string>
  {
    MapSeq(Violations(d), (v: Violation) => v.Message())
  }

  /** Passes validation: no constraint fails. */
  predicate IsValid(d: PasswordUpdateDto)
  {
    forall v :: !Fails(d, v)
  }

  lemma ViolationsExact(d: PasswordUpdateDto, v: Violation)
    ensures v in Violations(d) <==> Fails(d, v)
  {
    assert v in CONSTRAINTS by {
      match v
      case OldPasswordNull => assert CONSTRAINTS[0] == v;
      case NewPasswordNull => assert CONSTRAINTS[1] == v;
      case NewPasswordTooShort => assert CONSTRAINTS[2] == v;
    }
  }

  /** Validation reports nothing exactly when no constraint fails. */
  lemma ValidIffNoViolations(d: PasswordUpdateDto)
    ensures IsValid(d) <==> Violations(d) == []
    ensures IsValid(d) <==> Messages(d) == []
  {
    if Violations(d) != [] {
      ViolationsExact(d, Violations(d)[0]);
    } else {
      forall v ensures !Fails(d, v) {
        ViolationsExact(d, v);
      }
    }
  }

  /** The payload's constraints, all together: both passwords present (the old
      one of any length), the new one at least 6 UTF-16 code units long. */
  lemma ValidIff(d: PasswordUpdateDto)
    ensures IsValid(d) <==>
      && d.oldPassword.Some?
      && d.newPassword.Some? && Utf16Length(d.newPassword.value) >= NEW_PASSWORD_MIN
  {
    if IsValid(d) {
      assert !Fails(d, OldPasswordNull) && !Fails(d, NewPasswordNull) && !Fails(d, NewPasswordTooShort);
    }
  }

  /** However long, a new password of at least 6 UTF-16 code units is accepted. */
  lemma NoUpperBound(current: string, replacement: string)
    requires Utf16Length(replacement) >= NEW_PASSWORD_MIN
    ensures IsValid(PasswordUpdateDto(Some(current), Some(replacement)))
  {
    ValidIff(PasswordUpdateDto(Some(current), Some(replacement)));
  }
}
