/** The two pieces of Python's string formatting that building a request
    target relies on: `str.format` filling named fields of a template with
    text taken verbatim, and the decimal rendering of a non-negative integer. */
module Formatting {

  predicate IsDigit(c: char) {
    '0' <= c <= '9'
  }

  predicate AllDigits(s: string) {
    forall i :: 0 <= i < |s| ==> IsDigit(s[i])
  }

  function DigitChar(d: nat): (c: char)
    requires d < 10
    ensures IsDigit(c) && c as int - '0' as int == d
  {
    ('0' as int + d) as char
  }

  /** `str(n)` for `n >= 0`: the decimal digits of `n`, most significant
      first, with no leading zero. */
  function Decimal(n: nat): (s: string)
    ensures |s| > 0 && AllDigits(s)
    ensures s[0] == '0' ==> n == 0 && s == "0"
    decreases n
  {
    if n < 10 then [DigitChar(n)] else Decimal(n / 10) + [DigitChar(n % 10)]
  }

  /** The number a string of decimal digits denotes. */
  function DecimalValue(s: string): (n: nat)
    requires AllDigits(s)
  {
    if s == [] then 0
    else DecimalValue(s[..|s| - 1]) * 10 + (s[|s| - 1] as int - '0' as int)
  }

  /** Reading the digits back gives the number that was rendered. */
  lemma {:induction false} DecimalRoundTrip(n: nat)
    ensures DecimalValue(Decimal(n)) == n
    decreases n
  {
    if n >= 10 {
      var s := Decimal(n);
      assert s[..|s| - 1] == Decimal(n / 10);
      DecimalRoundTrip(n / 10);
    }
  }

  /** Different numbers are rendered differently. */
  lemma DecimalInjective(m: nat, n: nat)
    ensures Decimal(m) == Decimal(n) ==> m == n
  {
    DecimalRoundTrip(m);
    DecimalRoundTrip(n);
  }

  /** A `str.format` template: literal text and named replacement fields;
      `K` is the type of the field names. */
  datatype Piece<K> = Literal(text: string) | Field(name: K)

  /** `template.format(**values)`: literals are copied and every field is
      replaced by its value, as is, with no escaping or encoding. */
  function Format<K>(template: seq<Piece<K>>, values: K -> string): (r: string)
    ensures template == [] ==> r == ""
    ensures |template| == 1 ==> r == Text(template[0], values)
  {
    if template == [] then "" else Text(template[0], values) + Format(template[1..], values)
  }

  function Text<K>(piece: Piece<K>, values: K -> string): string
  {
    match piece
    case Literal(text) => text
    case Field(name) => values(name)
  }

  /** Formatting distributes over the concatenation of templates. */
  lemma {:induction false} FormatAppend<K>(a: seq<Piece<K>>, b: seq<Piece<K>>, values: K -> string)
    ensures Format(a + b, values) == Format(a, values) + Format(b, values)
    decreases |a|
  {
    if a == [] {
      assert a + b == b;
    } else {
      assert (a + b)[1..] == a[1..] + b;
      FormatAppend(a[1..], b, values);
    }
  }

  /** Formatting a template that starts with a given piece. */
  lemma FormatCons<K>(piece: Piece<K>, rest: seq<Piece<K>>, values: K -> string)
    ensures Format([piece] + rest, values) == Text(piece, values) + Format(rest, values)
  {
    assert ([piece] + rest)[1..] == rest;
  }
}
