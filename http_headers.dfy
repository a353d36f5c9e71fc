/**
 * HTTP headers as a multi-valued map from header name to its values, with the two
 * mutators the handler uses: `add` (append a value) and `setContentLength` (replace the
 * Content-Length values by the decimal rendering of a length).
 */
module Headers {
  import opened Wrappers

  type Headers = map<string, seq<string>>

  const CONTENT_LENGTH: string := "Content-Length"

  /** The values under `name`, empty when the header is absent. */
  function Values(h: Headers, name: string): seq<string>
  {
    if name in h then h[name] else []
  }

  /** `r` agrees with `h` on every header other than `name`. */
  ghost predicate SameExcept(h: Headers, r: Headers, name: string)
  {
    forall k :: k != name ==> (k in h <==> k in r) && (k in h ==> h[k] == r[k])
  }

  predicate IsDigit(c: char)
  {
    '0' <= c <= '9'
  }

  predicate AllDigits(s: string)
  {
    forall i :: 0 <= i < |s| ==> IsDigit(s[i])
  }

  function DigitChar(d: nat): char
    requires d < 10
  {
    ('0' as int + d) as char
  }

  /** `Long.toString(n)` for a non-negative `n`. */
  function Decimal(n: nat): string
    decreases n
  {
    if n < 10 then [DigitChar(n)] else Decimal(n / 10) + [DigitChar(n % 10)]
  }

  /** The value of a string of decimal digits, most significant first. */
  function DigitsValue(s: string): nat
    requires AllDigits(s)
    decreases |s|
  {
    if s == [] then 0 else DigitsValue(s[..|s| - 1]) * 10 + (s[|s| - 1] as int - '0' as int)
  }

  /** `Long.parseLong` restricted to non-negative numbers without a sign. */
  function ParseDecimal(s: string): Option<nat>
  {
    if s != [] && AllDigits(s) then Some(DigitsValue(s)) else None
  }

  /** Rendering a length and parsing it back gives the length. */
  lemma {:induction false} DecimalRoundTrip(n: nat)
    ensures Decimal(n) != [] && AllDigits(Decimal(n))
    ensures ParseDecimal(Decimal(n)) == Some(n)
    decreases n
  {
    if n >= 10 {
      DecimalRoundTrip(n / 10);
      var s := Decimal(n);
      assert s[..|s| - 1] == Decimal(n / 10);
      assert s[|s| - 1] as int - '0' as int == n % 10;
      assert DigitsValue(s) == (n / 10) * 10 + n % 10;
    } else {
      var s := Decimal(n);
      assert s[..|s| - 1] == [];
      assert DigitsValue(s) == DigitsValue([]) * 10 + (s[0] as int - '0' as int);
    }
  }

  /** `getContentLength()`: the first Content-Length value, parsed. */
  function ContentLength(h: Headers): Option<nat>
  {
    if CONTENT_LENGTH in h && h[CONTENT_LENGTH] != [] then ParseDecimal(h[CONTENT_LENGTH][0]) else None
  }

  /** `add(name, value)`: appends `value` to the values of `name`, creating it if absent. */
  function Add(h: Headers, name: string, value: string): (r: Headers)
    ensures Values(r, name) == Values(h, name) + [value]
    ensures SameExcept(h, r, name)
  {
    h[name := Values(h, name) + [value]]
  }

  /** `setContentLength(n)`: Content-Length now reads back as `n`; every other header is kept. */
  function SetContentLength(h: Headers, n: nat): (r: Headers)
    ensures ContentLength(r) == Some(n)
    ensures Values(r, CONTENT_LENGTH) == [Decimal(n)]
    ensures SameExcept(h, r, CONTENT_LENGTH)
  {
    DecimalRoundTrip(n);
    h[CONTENT_LENGTH := [Decimal(n)]]
  }
}
