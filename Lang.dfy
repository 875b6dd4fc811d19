/** The few java.lang facilities the controllers rely on: nullable references,
    the decimal text of an int (what `"..." + id` produces), `String.join` /
    `Collectors.joining`, and the `StringBuilder` loop that appends a suffix
    after every message. */
module Lang {

  /** A Java reference that may be null. */
  datatype Option<+T> = None | Some(value: T)

  // ---------------------------------------------------------------------------
  // Decimal text of an integer
  // ---------------------------------------------------------------------------

  predicate IsDigit(c: char) { '0' <= c <= '9' }

  function DigitChar(d: nat): (c: char)
    requires d < 10
    ensures IsDigit(c) && c as int - '0' as int == d
  {
    ('0' as int + d) as char
  }

  /** The decimal digits of `n`, most significant first, without leading zeros. */
  function Digits(n: nat): (s: string)
    ensures |s| >= 1
    ensures forall i :: 0 <= i < |s| ==> IsDigit(s[i])
    decreases n
  {
    if n < 10 then [DigitChar(n)] else Digits(n / 10) + [DigitChar(n % 10)]
  }

  /** Java's `Integer.toString`, which string concatenation with an int uses. */
  function IntToString(i: int): (s: string)
    ensures |s| >= 1
    ensures i < 0 <==> s[0] == '-'
  {
    if i < 0 then "-" + Digits(-i) else Digits(i)
  }

  /** Reads back a sequence of decimal digits. */
  function DigitsValue(s: string): nat
    requires forall i :: 0 <= i < |s| ==> IsDigit(s[i])
  {
    if s == [] then 0
    else
      var last := s[|s| - 1];
      assert IsDigit(last);
      DigitsValue(s[..|s| - 1]) * 10 + (last as int - '0' as int)
  }

  /** Reads back what `IntToString` writes. */
  function ParseInt(s: string): int
    requires |s| >= 1
    requires forall i :: 1 <= i < |s| ==> IsDigit(s[i])
    requires s[0] == '-' || IsDigit(s[0])
  {
    if s[0] == '-' then -(DigitsValue(s[1..]) as int) else DigitsValue(s)
  }

  lemma {:induction false} DigitsRoundTrip(n: nat)
    ensures DigitsValue(Digits(n)) == n
    decreases n
  {
    if n >= 10 {
      var s := Digits(n);
      DigitsRoundTrip(n / 10);
      assert s[..|s| - 1] == Digits(n / 10);
    }
  }

  /** The decimal text of an int determines the int. */
  lemma IntToStringRoundTrip(i: int)
    ensures ParseInt(IntToString(i)) == i
  {
    if i < 0 {
      DigitsRoundTrip(-i);
      assert IntToString(i)[1..] == Digits(-i);
    } else {
      DigitsRoundTrip(i);
    }
  }

  /** Two messages that differ only in the id they name are equal only when the ids are. */
  lemma IdMessageInjective(prefix: string, a: int, b: int, suffix: string)
    requires prefix + IntToString(a) + suffix == prefix + IntToString(b) + suffix
    ensures a == b
  {
    var sa, sb := IntToString(a), IntToString(b);
    var whole := prefix + sa + suffix;
    assert sa == whole[|prefix|..|whole| - |suffix|];
    assert sb == whole[|prefix|..|whole| - |suffix|];
    IntToStringRoundTrip(a);
    IntToStringRoundTrip(b);
  }

  /** `xs.stream().map(f)`: `f` applied to every element, in order. */
  function MapSeq<A, B>(xs: seq<A>, f: A -> B): (ys: seq<B>)
    ensures |ys| == |xs|
    ensures forall i :: 0 <= i < |xs| ==> ys[i] == f(xs[i])
  {
    seq(|xs|, i requires 0 <= i < |xs| => f(xs[i]))
  }

  /** `xs.stream().filter(keep)`: the elements that satisfy `keep`, in order
      (`FilterAppend` states the order). */
  function Filter<T>(xs: seq<T>, keep: T -> bool): (ys: seq<T>)
    ensures |ys| <= |xs|
    ensures forall i :: 0 <= i < |ys| ==> ys[i] in xs && keep(ys[i])
    ensures forall i :: 0 <= i < |xs| && keep(xs[i]) ==> xs[i] in ys
    ensures ys == [] <==> forall i :: 0 <= i < |xs| ==> !keep(xs[i])
    decreases |xs|
  {
    if xs == [] then []
    else (if keep(xs[0]) then [xs[0]] else []) + Filter(xs[1..], keep)
  }

  /** Filtering keeps the order of the input: the filter of a concatenation is
      the concatenation of the filters. */
  lemma {:induction false} FilterAppend<T>(xs: seq<T>, ys: seq<T>, keep: T -> bool)
    ensures Filter(xs + ys, keep) == Filter(xs, keep) + Filter(ys, keep)
    decreases |xs|
  {
    if xs == [] {
      assert xs + ys == ys;
    } else {
      assert (xs + ys)[1..] == xs[1..] + ys;
      FilterAppend(xs[1..], ys, keep);
    }
  }

  // ---------------------------------------------------------------------------
  // Joining messages
  // ---------------------------------------------------------------------------

  /** `String.join(sep, ms)`, which is also what `Collectors.joining(sep)` yields. */
  function Join(ms: seq<string>, sep: string): string
    decreases |ms|
  {
    if |ms| == 0 then ""
    else if |ms| == 1 then ms[0]
    else Join(ms[..|ms| - 1], sep) + sep + ms[|ms| - 1]
  }

  /** One more message is appended after the separator, at the end. */
  lemma JoinAppend(ms: seq<string>, m: string, sep: string)
    requires |ms| >= 1
    ensures Join(ms + [m], sep) == Join(ms, sep) + sep + m
  {
    assert (ms + [m])[..|ms|] == ms;
  }

  /** Every message followed by `suffix`: what appending `message` then `suffix`
      to a `StringBuilder`, once per message, produces. */
  function Terminated(ms: seq<string>, suffix: string): string
    decreases |ms|
  {
    if |ms| == 0 then "" else Terminated(ms[..|ms| - 1], suffix) + ms[|ms| - 1] + suffix
  }

  /** The `StringBuilder` loop: `ms.forEach(m -> sb.append(m).append(suffix))`. */
  method AppendEach(ms: seq<string>, suffix: string) returns (s: string)
    ensures s == Terminated(ms, suffix)
  {
    s := "";
    var i := 0;
    while i < |ms|
      invariant 0 <= i <= |ms|
      invariant s == Terminated(ms[..i], suffix)
    {
      assert ms[..i + 1][..i] == ms[..i];
      s := s + ms[i] + suffix;
      i := i + 1;
    }
    assert ms[..i] == ms;
  }

  /** The two ways of building a message agree up to the separator left after the last one. */
  lemma {:induction false} TerminatedIsJoinThenSuffix(ms: seq<string>, sep: string)
    requires |ms| >= 1
    ensures Terminated(ms, sep) == Join(ms, sep) + sep
    decreases |ms|
  {
    if |ms| == 1 {
      assert ms[..0] == [];
    } else {
      TerminatedIsJoinThenSuffix(ms[..|ms| - 1], sep);
    }
  }

  /** `t` occurs in `s` starting at position `k`. */
  predicate OccursAt(s: string, t: string, k: int)
  {
    0 <= k <= |s| - |t| && s[k..k + |t|] == t
  }

  /** `t` occurs in `s` as a contiguous piece. */
  ghost predicate Contains(s: string, t: string)
  {
    exists k :: OccursAt(s, t, k)
  }

  lemma ContainsInLeft(a: string, b: string, t: string)
    requires Contains(a, t)
    ensures Contains(a + b, t)
  {
    var k :| OccursAt(a, t, k);
    assert (a + b)[k..k + |t|] == t;
    assert OccursAt(a + b, t, k);
  }

  lemma ContainsInRight(a: string, b: string, t: string)
    requires Contains(b, t)
    ensures Contains(a + b, t)
  {
    var k :| OccursAt(b, t, k);
    assert (a + b)[|a| + k..|a| + k + |t|] == t;
    assert OccursAt(a + b, t, |a| + k);
  }

  lemma ContainsItself(t: string)
    ensures Contains(t, t)
  {
    assert OccursAt(t, t, 0);
  }

  /** Every message that is joined shows up in the joined text, whatever the separator. */
  lemma {:induction false} JoinContainsEach(ms: seq<string>, sep: string, m: string)
    requires m in ms
    ensures Contains(Join(ms, sep), m)
    decreases |ms|
  {
    if |ms| == 1 {
      ContainsItself(m);
    } else {
      var init, last := ms[..|ms| - 1], ms[|ms| - 1];
      if m == last {
        ContainsItself(m);
        ContainsInRight(Join(init, sep) + sep, last, m);
      } else {
        assert m in init by {
          var j :| 0 <= j < |ms| && ms[j] == m;
          assert j < |ms| - 1 && init[j] == m;
        }
        JoinContainsEach(init, sep, m);
        ContainsInLeft(Join(init, sep), sep + last, m);
        assert Join(init, sep) + (sep + last) == Join(ms, sep);
      }
    }
  }

  /** The same for the `StringBuilder` form. */
  lemma TerminatedContainsEach(ms: seq<string>, suffix: string, m: string)
    requires m in ms
    ensures Contains(Terminated(ms, suffix), m)
  {
    TerminatedIsJoinThenSuffix(ms, suffix);
    JoinContainsEach(ms, suffix, m);
    ContainsInLeft(Join(ms, suffix), suffix, m);
  }
}
