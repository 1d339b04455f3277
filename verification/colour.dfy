/** `hexToRgb`: turns a palette colour such as `#4facfe` into the `r,g,b` text
    that goes inside a CSS `rgba(...)`. A string the pattern
    `^#?([a-f\d]{2})([a-f\d]{2})([a-f\d]{2})$` (case-insensitive) rejects
    becomes white. */
module Colour {

  datatype Option<T> = None | Some(value: T)

  /** The fallback for any string the pattern rejects. */
  const White: string := "255,255,255"

  predicate IsHexDigit(c: char) {
    '0' <= c <= '9' || 'a' <= c <= 'f' || 'A' <= c <= 'F'
  }

  predicate AllHex(s: string) {
    forall i :: 0 <= i < |s| ==> IsHexDigit(s[i])
  }

  predicate IsDigit(c: char) {
    '0' <= c <= '9'
  }

  predicate AllDigits(s: string) {
    forall i :: 0 <= i < |s| ==> IsDigit(s[i])
  }

  /** The strings the pattern accepts: six hex digits, optionally after one `#`.
      The `$` anchor (no multiline flag) admits nothing after the sixth digit. */
  predicate Accepts(hex: string) {
    || (|hex| == 6 && AllHex(hex))
    || (|hex| == 7 && hex[0] == '#' && AllHex(hex[1..]))
  }

  /** The value of one hex digit, either case. */
  function HexValue(c: char): (v: nat)
    requires IsHexDigit(c)
    ensures v < 16
  {
    if '0' <= c <= '9' then c as int - '0' as int
    else if 'a' <= c <= 'f' then c as int - 'a' as int + 10
    else c as int - 'A' as int + 10
  }

  /** `parseInt(pair, 16)` on a capture group of two hex digits. */
  function ParseHexPair(pair: string): (v: nat)
    requires |pair| == 2 && AllHex(pair)
    ensures v < 256
  {
    16 * HexValue(pair[0]) + HexValue(pair[1])
  }

  /** `RegExp.prototype.exec` on the pattern: the three capture groups, or
      nothing when the string does not match. The optional `#` is taken when
      present; the pattern has no other way to match. */
  function Exec(hex: string): (m: Option<(string, string, string)>)
    ensures m.Some? <==> Accepts(hex)
    ensures m.Some? ==>
      var body := hex[|hex| - 6..];
      m.value == (body[..2], body[2..4], body[4..])
  {
    var body := if |hex| > 0 && hex[0] == '#' then hex[1..] else hex;
    if |body| == 6 && AllHex(body) then Some((body[..2], body[2..4], body[4..]))
    else None
  }

  /** The decimal digit character for `d`. */
  function DigitChar(d: nat): (c: char)
    requires d < 10
    ensures IsDigit(c)
  {
    ('0' as int + d) as char
  }

  /** JavaScript's decimal rendering of a non-negative integer in a template
      string: at least one digit, no leading zero. */
  function Decimal(n: nat): (s: string)
    ensures |s| > 0 && AllDigits(s)
    ensures |s| > 1 ==> s[0] != '0'
    decreases n
  {
    if n < 10 then [DigitChar(n)] else Decimal(n / 10) + [DigitChar(n % 10)]
  }

  /** `${r},${g},${b}`: decimal channels joined by commas, no spaces. */
  function FormatTriple(r: nat, g: nat, b: nat): string {
    Decimal(r) + "," + Decimal(g) + "," + Decimal(b)
  }

  /** The three channel values an accepted string spells: its last six
      characters read as three hex pairs. */
  function Channels(hex: string): (c: (nat, nat, nat))
    requires Accepts(hex)
    ensures c.0 < 256 && c.1 < 256 && c.2 < 256
  {
    var body := hex[|hex| - 6..];
    assert AllHex(body);
    var p0, p1, p2 := body[..2], body[2..4], body[4..];
    assert AllHex(p0) && AllHex(p1) && AllHex(p2);
    (ParseHexPair(p0), ParseHexPair(p1), ParseHexPair(p2))
  }

  function HexToRgb(hex: string): (rgb: string)
    ensures !Accepts(hex) ==> rgb == White
    ensures Accepts(hex) ==> var c := Channels(hex); rgb == FormatTriple(c.0, c.1, c.2)
  {
    match Exec(hex)
    case None => White
    case Some((r, g, b)) => FormatTriple(ParseHexPair(r), ParseHexPair(g), ParseHexPair(b))
  }

  /** Shorthand colours (`#fff`) and strings with anything before or after the
      six digits fall back to white. */
  lemma RejectedShapes(hex: string)
    requires |hex| != 6 && |hex| != 7
    ensures HexToRgb(hex) == White
  {
  }

  // ---------------------------------------------------------------------
  // An encoder and a decoder for the two sides of `hexToRgb`, used to state
  // what it computes without repeating how.

  /** The hex digit for `d`, in lower or upper case. */
  function HexChar(d: nat, upper: bool): (c: char)
    requires d < 16
    ensures IsHexDigit(c)
  {
    if d < 10 then DigitChar(d)
    else if upper then ('A' as int + d - 10) as char
    else ('a' as int + d - 10) as char
  }

  function HexByte(v: nat, upper: bool): (s: string)
    requires v < 256
    ensures |s| == 2 && AllHex(s)
  {
    [HexChar(v / 16, upper), HexChar(v % 16, upper)]
  }

  /** The palette notation of a colour: an optional `#` and two hex digits per channel. */
  function EncodeHex(r: nat, g: nat, b: nat, upper: bool, hash: bool): (s: string)
    requires r < 256 && g < 256 && b < 256
    ensures Accepts(s)
  {
    (if hash then "#" else "") + HexByte(r, upper) + HexByte(g, upper) + HexByte(b, upper)
  }

  /** The value of a run of decimal digits, most significant first. */
  function DigitsValue(s: string): nat
    requires AllDigits(s)
  {
    if |s| == 0 then 0
    else DigitsValue(s[..|s| - 1]) * 10 + (s[|s| - 1] as int - '0' as int)
  }

  /** The index of the first `c` in `s`, or `|s|` when there is none. */
  function IndexOf(s: string, c: char): (i: nat)
    ensures i <= |s|
    ensures forall k :: 0 <= k < i ==> s[k] != c
    ensures i < |s| ==> s[i] == c
  {
    if |s| == 0 then 0
    else if s[0] == c then 0
    else 1 + IndexOf(s[1..], c)
  }

  predicate IsNumeral(s: string) {
    |s| > 0 && AllDigits(s)
  }

  /** Reads `r,g,b` text back into its three decimal channels. */
  function ParseTriple(s: string): Option<(nat, nat, nat)> {
    var i := IndexOf(s, ',');
    if i == |s| then None
    else
      var rest := s[i + 1..];
      var j := IndexOf(rest, ',');
      if j == |rest| then None
      else
        var r, g, b := s[..i], rest[..j], rest[j + 1..];
        if IsNumeral(r) && IsNumeral(g) && IsNumeral(b) then
          Some((DigitsValue(r), DigitsValue(g), DigitsValue(b)))
        else None
  }

  lemma ParseHexByte(v: nat, upper: bool)
    requires v < 256
    ensures ParseHexPair(HexByte(v, upper)) == v
  {
  }

  /** Reading the decimal rendering gives the number back. */
  lemma {:induction false} DecimalRoundTrip(n: nat)
    ensures DigitsValue(Decimal(n)) == n
    decreases n
  {
    var s := Decimal(n);
    if n >= 10 {
      assert s[..|s| - 1] == Decimal(n / 10);
      DecimalRoundTrip(n / 10);
    }
  }

  lemma NoCommaInDigits(s: string)
    requires AllDigits(s)
    ensures forall k :: 0 <= k < |s| ==> s[k] != ','
  {
  }

  lemma IndexOfAfter(a: string, rest: string, c: char)
    requires forall k :: 0 <= k < |a| ==> a[k] != c
    ensures IndexOf(a + [c] + rest, c) == |a|
  {
    var s := a + [c] + rest;
    assert s[|a|] == c;
    assert forall k :: 0 <= k < |a| ==> s[k] == a[k];
  }

  /** `r,g,b` text reads back as the three channels it was formatted from. */
  lemma FormatTripleRoundTrip(r: nat, g: nat, b: nat)
    ensures ParseTriple(FormatTriple(r, g, b)) == Some((r, g, b))
  {
    var dr, dg, db := Decimal(r), Decimal(g), Decimal(b);
    var s := FormatTriple(r, g, b);
    assert s == dr + [','] + (dg + [','] + db);
    NoCommaInDigits(dr);
    NoCommaInDigits(dg);
    IndexOfAfter(dr, dg + [','] + db, ',');
    var rest := s[|dr| + 1..];
    assert rest == dg + [','] + db;
    IndexOfAfter(dg, db, ',');
    assert s[..|dr|] == dr;
    assert rest[..|dg|] == dg;
    assert rest[|dg| + 1..] == db;
    DecimalRoundTrip(r);
    DecimalRoundTrip(g);
    DecimalRoundTrip(b);
  }

  /** `hexToRgb` inverts the palette notation, whatever the case of the digits
      and whether or not the `#` is present. */
  lemma HexToRgbRoundTrip(r: nat, g: nat, b: nat, upper: bool, hash: bool)
    requires r < 256 && g < 256 && b < 256
    ensures HexToRgb(EncodeHex(r, g, b, upper, hash)) == FormatTriple(r, g, b)
  {
    var s := EncodeHex(r, g, b, upper, hash);
    var body := s[|s| - 6..];
    assert body == HexByte(r, upper) + HexByte(g, upper) + HexByte(b, upper);
    assert body[..2] == HexByte(r, upper);
    assert body[2..4] == HexByte(g, upper);
    assert body[4..] == HexByte(b, upper);
    ParseHexByte(r, upper);
    ParseHexByte(g, upper);
    ParseHexByte(b, upper);
  }

  lemma WhiteIsFormatted()
    ensures FormatTriple(255, 255, 255) == White
  {
  }

  /** Whatever the input, the result reads back as three channels in 0..255:
      those of the three digit pairs for an accepted colour, all 255 otherwise. */
  lemma HexToRgbChannels(hex: string)
    ensures Accepts(hex) ==> ParseTriple(HexToRgb(hex)) == Some(Channels(hex))
    ensures !Accepts(hex) ==> ParseTriple(HexToRgb(hex)) == Some((255, 255, 255))
  {
    if Accepts(hex) {
      var c := Channels(hex);
      FormatTripleRoundTrip(c.0, c.1, c.2);
    } else {
      WhiteIsFormatted();
      FormatTripleRoundTrip(255, 255, 255);
    }
  }
}
