/** The Property entity: its two enumerations, the record a request body or a
    table row holds, the mutable bean the controller edits through setters, and
    the field constraints that request validation checks. */
module Properties {
  import opened Lang
  import opened Constraints

  datatype Availability = Available | Occupied

  datatype PropertyType = House | Condominium | Apartment

  /** The fields of a Property. Reference-typed fields may be null (`None`);
      `price` is a primitive `double` in the source and is never null, and is
      modelled as an exact `real`. */
  datatype PropertyData = PropertyData(
    id: int,
    name: Option<string>,
    address: Option<string>,
    price: real,
    availability: Option<Availability>,
    propertyType: Option<PropertyType>)

  const MAX_TEXT := 255
  const MIN_PRICE: real := 0.01

  /** One failed field constraint of a Property. */
  datatype Violation =
    | NameRequired | NameTooLong
    | AddressRequired | AddressTooLong
    | PriceTooLow
    | AvailabilityRequired
    | TypeRequired
  {
    /** The message the constraint's annotation declares. */
    function Message(): string
    {
      match this
      case NameRequired => "Name is required"
      case NameTooLong => "Name cannot exceed 255 characters"
      case AddressRequired => "Address is required"
      case AddressTooLong => "Address cannot exceed 255 characters"
      case PriceTooLow => "Price must be greater than 0"
      case AvailabilityRequired => "Availability is required"
      case TypeRequired => "Type is required"
    }
  }

  /** Every constraint, in the order the fields and their annotations are declared. */
  const CONSTRAINTS: seq<Violation> :=
    [NameRequired, NameTooLong, AddressRequired, AddressTooLong, PriceTooLow, AvailabilityRequired, TypeRequired]

  /** Whether constraint `v` fails on `p`. `@NotNull` on the primitive price can never fail. */
  predicate Fails(p: PropertyData, v: Violation)
  {
    match v
    case NameRequired => !NotBlank(p.name)
    case NameTooLong => !SizeBetween(p.name, 0, MAX_TEXT)
    case AddressRequired => !NotBlank(p.address)
    case AddressTooLong => !SizeBetween(p.address, 0, MAX_TEXT)
    case PriceTooLow => p.price < MIN_PRICE
    case AvailabilityRequired => p.availability.None?
    case TypeRequired => p.propertyType.None?
  }

  /** Every constraint the payload violates, in declaration order. */
  function Violations(p: PropertyData): seq<Violation>
  {
    Filter(CONSTRAINTS, (v: Violation) => Fails(p, v))
  }

  /** The messages of the violated constraints, in the same order. */
  function Messages(p: PropertyData): seq<string>
  {
    MapSeq(Violations(p), (v: Violation) => v.Message())
  }

  /** Passes validation: no constraint fails. */
  predicate IsValid(p: PropertyData)
  {
    forall v :: !Fails(p, v)
  }

  /** Each constraint is reported exactly when it fails. */
  lemma ViolationsExact(p: PropertyData, v: Violation)
    ensures v in Violations(p) <==> Fails(p, v)
  {
    assert v in CONSTRAINTS by {
      match v
      case NameRequired => assert CONSTRAINTS[0] == v;
      case NameTooLong => assert CONSTRAINTS[1] == v;
      case AddressRequired => assert CONSTRAINTS[2] == v;
      case AddressTooLong => assert CONSTRAINTS[3] == v;
      case PriceTooLow => assert CONSTRAINTS[4] == v;
      case AvailabilityRequired => assert CONSTRAINTS[5] == v;
      case TypeRequired => assert CONSTRAINTS[6] == v;
    }
  }

  /** Validation reports nothing exactly when no constraint fails. */
  lemma ValidIffNoViolations(p: PropertyData)
    ensures IsValid(p) <==> Violations(p) == []
    ensures IsValid(p) <==> Messages(p) == []
  {
    if Violations(p) != [] {
      ViolationsExact(p, Violations(p)[0]);
    } else {
      forall v ensures !Fails(p, v) {
        ViolationsExact(p, v);
      }
    }
  }

  /** The field constraints of a Property, all together. */
  lemma ValidIff(p: PropertyData)
    ensures IsValid(p) <==>
      && NotBlank(p.name) && Utf16Length(p.name.value) <= MAX_TEXT
      && NotBlank(p.address) && Utf16Length(p.address.value) <= MAX_TEXT
      && p.price >= MIN_PRICE
      && p.availability.Some?
      && p.propertyType.Some?
  {
    if IsValid(p) {
      assert !Fails(p, NameRequired) && !Fails(p, NameTooLong);
      assert !Fails(p, AddressRequired) && !Fails(p, AddressTooLong);
      assert !Fails(p, PriceTooLow) && !Fails(p, AvailabilityRequired) && !Fails(p, TypeRequired);
    }
  }

  /** Validation does not look at the id. */
  lemma ValidIgnoresId(p: PropertyData, id: int)
    ensures IsValid(p.(id := id)) <==> IsValid(p)
  {
    ValidIff(p);
    ValidIff(p.(id := id));
  }

  /** A price that validates is strictly positive (the converse fails for prices in (0, 0.01)). */
  lemma ValidPriceIsPositive(p: PropertyData)
    requires IsValid(p)
    ensures p.price > 0.0
  {
    assert !Fails(p, PriceTooLow);
  }

  /** A positive price below 0.01 is still rejected, with the price violation reported. */
  lemma SmallPriceRejected(p: PropertyData)
    requires 0.0 < p.price < MIN_PRICE
    ensures !IsValid(p) && PriceTooLow in Violations(p)
  {
    assert Fails(p, PriceTooLow);
    ViolationsExact(p, PriceTooLow);
  }

  /** The mutable entity bean. A bean is loaded from a row, edited through its
      setters and written back; each setter changes its own field only. */
  class Property {
    var id: int
    var name: Option<string>
    var address: Option<string>
    var price: real
    var availability: Option<Availability>
    var propertyType: Option<PropertyType>

    /** The record the bean currently holds. */
    function Value(): PropertyData
      reads this
    {
      PropertyData(id, name, address, price, availability, propertyType)
    }

    constructor Load(d: PropertyData)
      ensures Value() == d
    {
      id, name, address, price := d.id, d.name, d.address, d.price;
      availability, propertyType := d.availability, d.propertyType;
    }

    method SetId(v: int)
      modifies this
      ensures Value() == old(Value()).(id := v)
    {
      id := v;
    }

    method SetName(v: Option<string>)
      modifies this
      ensures Value() == old(Value()).(name := v)
    {
      name := v;
    }

    method SetAddress(v: Option<string>)
      modifies this
      ensures Value() == old(Value()).(address := v)
    {
      address := v;
    }

    method SetPrice(v: real)
      modifies this
      ensures Value() == old(Value()).(price := v)
    {
      price := v;
    }

    method SetAvailability(v: Option<Availability>)
      modifies this
      ensures Value() == old(Value()).(availability := v)
    {
      availability := v;
    }

    method SetType(v: Option<PropertyType>)
      modifies this
      ensures Value() == old(Value()).(propertyType := v)
    {
      propertyType := v;
    }
  }
}
