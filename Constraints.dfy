/** What the Bean Validation annotations used on the entities and payloads
    accept. Every constraint except `@NotNull` and `@NotBlank` lets null pass. */
module Constraints {
  import opened Lang

  /** `@NotBlank`: not null, and something other than characters at or below
      U+0020 (what `String.trim` strips) remains. */
  predicate NotBlank(s: Option<string>)
  {
    s.Some? && exists i :: 0 <= i < |s.value| && s.value[i] > ' '
  }

  /** Java's `String.length()`: the number of UTF-16 code units, where a
      character beyond U+FFFF takes two. */
  function Utf16Length(s: string): nat
    decreases |s|
  {
    if s == [] then 0
    else Utf16Length(s[..|s| - 1]) + (if s[|s| - 1] as int > 0xFFFF then 2 else 1)
  }

  /** A text is at least as long in UTF-16 units as in characters, and at most
      twice as long; the two agree when no character lies beyond U+FFFF. */
  lemma {:induction false} Utf16LengthBounds(s: string)
    ensures |s| <= Utf16Length(s) <= 2 * |s|
    ensures (forall i :: 0 <= i < |s| ==> s[i] as int <= 0xFFFF) ==> Utf16Length(s) == |s|
    decreases |s|
  {
    if s != [] {
      Utf16LengthBounds(s[..|s| - 1]);
    }
  }

  /** A character beyond U+FFFF counts twice, as a surrogate pair. */
  lemma AstralCharacterCountsTwice()
    ensures Utf16Length("\U{1F600}") == 2 && |"\U{1F600}"| == 1
  {
  }

  /** `@Size(min, max)`, which measures `String.length()`. */
  predicate SizeBetween(s: Option<string>, min: nat, max: nat)
  {
    s.None? || min <= Utf16Length(s.value) <= max
  }

  /** `@Size(min)` with no upper bound. */
  predicate SizeAtLeast(s: Option<string>, min: nat)
  {
    s.None? || min <= Utf16Length(s.value)
  }

  /** `@Positive`. */
  predicate Positive(n: Option<int>)
  {
    n.None? || n.value > 0
  }

  /** `@Email`, with the shape check itself left to the validation library:
      `isEmail` stands for it. */
  predicate EmailShaped(s: Option<string>, isEmail: string -> bool)
  {
    s.None? || isEmail(s.value)
  }

  /** A text field in an update payload overwrites only when present and
      non-empty (`s != null && !s.isEmpty()`). */
  predicate ProvidedText(s: Option<string>)
  {
    s.Some? && s.value != ""
  }

  /** A text that is not blank is not empty either. */
  lemma NotBlankIsNonEmpty(s: Option<string>)
    requires NotBlank(s)
    ensures s.value != ""
  {
    var i :| 0 <= i < |s.value| && s.value[i] > ' ';
  }
}
