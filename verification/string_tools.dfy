/**
 * The string helpers of the tools package: emptiness and blankness tests,
 * the shape of the random share-code / stream-key generator, and the integer
 * unit selection of the human-readable byte count.
 *
 * A Go string is a sequence of bytes; here each `char` of a Dafny `string`
 * stands for one byte.
 */
module StringTools {

  type byte = b: int | 0 <= b < 256

  const MinInt64: int := -0x8000_0000_0000_0000
  const MaxInt64: int := 0x7FFF_FFFF_FFFF_FFFF

  predicate IsInt64(x: int) {
    MinInt64 <= x <= MaxInt64
  }

  // ---------------------------------------------------------------------------
  // Go string <-> []byte conversions
  // ---------------------------------------------------------------------------

  /** Go's `string(b)`: every byte becomes one character. */
  function StringOfBytes(b: seq<byte>): (s: string)
    ensures |s| == |b|
    ensures forall i :: 0 <= i < |b| ==> s[i] as int == b[i]
  {
    seq(|b|, i requires 0 <= i < |b| => b[i] as char)
  }

  /** A string whose characters are all single bytes, as every Go string is. */
  predicate IsByteString(s: string) {
    forall i :: 0 <= i < |s| ==> s[i] as int < 256
  }

  /** Go's `[]byte(s)` for a byte string. */
  function BytesOfString(s: string): (b: seq<byte>)
    ensures |b| == |s|
  {
    seq(|s|, i requires 0 <= i < |s| => (s[i] as int) % 256)
  }

  lemma BytesStringRoundTrip(b: seq<byte>)
    ensures IsByteString(StringOfBytes(b))
    ensures BytesOfString(StringOfBytes(b)) == b
  {
  }

  lemma StringBytesRoundTrip(s: string)
    requires IsByteString(s)
    ensures StringOfBytes(BytesOfString(s)) == s
  {
    var t := StringOfBytes(BytesOfString(s));
    forall i | 0 <= i < |s|
      ensures t[i] == s[i]
    {
      assert t[i] as int == s[i] as int;
    }
  }

  // ---------------------------------------------------------------------------
  // Trimming
  // ---------------------------------------------------------------------------

  /** Drops the longest prefix of `s` whose characters all satisfy `cut`. */
  function TrimLeft(s: string, cut: char -> bool): (r: string)
    ensures |r| <= |s| && r == s[|s| - |r|..]
    ensures forall i :: 0 <= i < |s| - |r| ==> cut(s[i])
    ensures r == [] || !cut(r[0])
  {
    if |s| > 0 && cut(s[0]) then TrimLeft(s[1..], cut) else s
  }

  /** Drops the longest suffix of `s` whose characters all satisfy `cut`. */
  function TrimRight(s: string, cut: char -> bool): (r: string)
    ensures |r| <= |s| && r == s[..|r|]
    ensures forall i :: |r| <= i < |s| ==> cut(s[i])
    ensures r == [] || !cut(r[|r| - 1])
  {
    if |s| > 0 && cut(s[|s| - 1]) then TrimRight(s[..|s| - 1], cut) else s
  }

  /** Both ends trimmed, as Go's `strings.Trim` and `strings.TrimSpace` do. */
  function TrimBoth(s: string, cut: char -> bool): string {
    TrimRight(TrimLeft(s, cut), cut)
  }

  /** Trimming leaves nothing exactly when every character is cut. */
  lemma TrimBothEmpty(s: string, cut: char -> bool)
    ensures TrimBoth(s, cut) == [] <==> forall i :: 0 <= i < |s| ==> cut(s[i])
  {
    var t := TrimLeft(s, cut);
    if TrimBoth(s, cut) == [] {
      assert t == [];
    }
  }

  // ---------------------------------------------------------------------------
  // IsEmpty / IsBlank (tools/string.go)
  // ---------------------------------------------------------------------------

  function IsEmpty(s: string): (r: bool)
    ensures r <==> s == []
  {
    |s| == 0
  }

  predicate IsSpaceChar(c: char) {
    c == ' '
  }

  /** `strings.Trim(s, " ")` is empty: only the space character counts as blank. */
  function IsBlank(s: string): (r: bool)
    ensures r <==> forall i :: 0 <= i < |s| ==> s[i] == ' '
  {
    TrimBothEmpty(s, IsSpaceChar);
    |TrimBoth(s, IsSpaceChar)| == 0
  }

  /** An empty string is blank, and a blank string is empty or starts with a space. */
  lemma EmptyIsBlank(s: string)
    ensures IsEmpty(s) ==> IsBlank(s)
    ensures IsBlank(s) && !IsEmpty(s) ==> s[0] == ' '
  {
  }

  // ---------------------------------------------------------------------------
  // Input normalisation used by the yes/no prompts
  // ---------------------------------------------------------------------------

  /** The ASCII white-space characters Go's `strings.TrimSpace` removes. */
  predicate IsAsciiSpace(c: char) {
    c == ' ' || c == '\t' || c == '\n' || c == '\r' || c == '\U{B}' || c == '\U{C}'
  }

  function TrimSpace(s: string): (r: string)
    ensures r == [] || (!IsAsciiSpace(r[0]) && !IsAsciiSpace(r[|r| - 1]))
  {
    TrimBoth(s, IsAsciiSpace)
  }

  /**
   * `TrimSpace` keeps one slice of its input: everything before and after the
   * slice is white space, and the slice neither starts nor ends with it.
   */
  lemma TrimSpaceSlice(s: string)
    ensures exists i, j :: 0 <= i <= j <= |s| && TrimSpace(s) == s[i..j]
                           && (forall k :: 0 <= k < i ==> IsAsciiSpace(s[k]))
                           && (forall k :: j <= k < |s| ==> IsAsciiSpace(s[k]))
  {
    var i, j := TrimSpaceBounds(s);
  }

  /** The bounds of the slice `TrimSpace` keeps. */
  lemma TrimSpaceBounds(s: string) returns (i: nat, j: nat)
    ensures i <= j <= |s| && TrimSpace(s) == s[i..j]
    ensures forall k :: 0 <= k < i ==> IsAsciiSpace(s[k])
    ensures forall k :: j <= k < |s| ==> IsAsciiSpace(s[k])
  {
    i, j := TrimBothBounds(s, IsAsciiSpace);
  }

  /** `TrimBoth` keeps the slice `s[i..j]`, and only characters to cut lie outside it. */
  lemma TrimBothBounds(s: string, cut: char -> bool) returns (i: nat, j: nat)
    ensures i <= j <= |s| && TrimBoth(s, cut) == s[i..j]
    ensures forall k :: 0 <= k < i ==> cut(s[k])
    ensures forall k :: j <= k < |s| ==> cut(s[k])
  {
    var t := TrimLeft(s, cut);
    var r := TrimRight(t, cut);
    i := |s| - |t|;
    j := i + |r|;
    SuffixPrefix(s, i, |r|);
    forall k | j <= k < |s|
      ensures cut(s[k])
    {
      assert s[k] == t[k - i];
    }
  }

  /** A string that neither starts nor ends with white space is its own `TrimSpace`. */
  lemma TrimSpaceUnspaced(s: string)
    requires s == [] || (!IsAsciiSpace(s[0]) && !IsAsciiSpace(s[|s| - 1]))
    ensures TrimSpace(s) == s
  {
    var i, j := TrimBothBounds(s, IsAsciiSpace);
    assert i == 0 && j == |s|;
    assert s[i..j] == s;
  }

  /** A prefix of a suffix is a slice. */
  lemma SuffixPrefix<T>(s: seq<T>, i: nat, n: nat)
    requires i + n <= |s|
    ensures s[i..][..n] == s[i..i + n]
  {
  }

  function LowerChar(c: char): char {
    if 'A' <= c <= 'Z' then (c as int + 32) as char else c
  }

  /** `strings.ToLower` restricted to ASCII letters. */
  function ToLower(s: string): (r: string)
    ensures |r| == |s|
    ensures forall i :: 0 <= i < |s| ==> r[i] == LowerChar(s[i])
    ensures forall i :: 0 <= i < |s| ==> !('A' <= r[i] <= 'Z')
  {
    seq(|s|, i requires 0 <= i < |s| => LowerChar(s[i]))
  }

  // ---------------------------------------------------------------------------
  // GenRandStr (tools/string.go)
  // ---------------------------------------------------------------------------

  predicate IsLowerHex(c: char) {
    ('0' <= c <= '9') || ('a' <= c <= 'f')
  }

  /** The lower-case hexadecimal digit of a nibble. */
  function HexDigit(d: int): (c: char)
    requires 0 <= d < 16
    ensures IsLowerHex(c)
  {
    if d < 10 then ('0' as int + d) as char else ('a' as int + d - 10) as char
  }

  function HexDigitValue(c: char): nat {
    if '0' <= c <= '9' then c as int - '0' as int
    else if 'a' <= c <= 'f' then c as int - 'a' as int + 10
    else 0
  }

  /** `hex.EncodeToString` of one byte: high nibble first, lower-case digits. */
  function HexByte(b: byte): (r: string)
    ensures |r| == 2 && IsLowerHex(r[0]) && IsLowerHex(r[1])
  {
    [HexDigit(b / 16), HexDigit(b % 16)]
  }

  /** The two hex digits of a byte decode back to that byte. */
  lemma HexByteRoundTrip(b: byte)
    ensures HexDigitValue(HexByte(b)[0]) * 16 + HexDigitValue(HexByte(b)[1]) == b
  {
    var hi, lo := b / 16, b % 16;
    assert HexDigitValue(HexDigit(hi)) == hi;
    assert HexDigitValue(HexDigit(lo)) == lo;
  }

  /** The i-th group: the hex encoding of the two random bytes read in round i. */
  function Group(draw: nat -> byte, i: nat): (r: string)
    ensures |r| == 4
    ensures forall k :: 0 <= k < 4 ==> IsLowerHex(r[k])
  {
    HexByte(draw(2 * i)) + HexByte(draw(2 * i + 1))
  }

  /** `strings.Join`: the parts separated by `sep`, no leading or trailing separator. */
  function Joined(parts: seq<string>, sep: string): string
    decreases |parts|
  {
    if |parts| == 0 then ""
    else if |parts| == 1 then parts[0]
    else parts[0] + sep + Joined(parts[1..], sep)
  }

  /** Appending one part to a non-empty list adds the separator and the part at the end. */
  lemma {:induction false} JoinedSnoc(parts: seq<string>, p: string, sep: string)
    requires |parts| > 0
    ensures Joined(parts + [p], sep) == Joined(parts, sep) + sep + p
    decreases |parts|
  {
    if |parts| == 1 {
      assert (parts + [p])[1..] == [p];
    } else {
      assert (parts + [p])[1..] == parts[1..] + [p];
      JoinedSnoc(parts[1..], p, sep);
    }
  }

  /** Joining n parts of width w gives w*n + (n-1)*|sep| characters. */
  lemma {:induction false} JoinedLength(parts: seq<string>, sep: string, w: nat)
    requires |parts| > 0
    requires forall i :: 0 <= i < |parts| ==> |parts[i]| == w
    ensures |Joined(parts, sep)| == w * |parts| + (|parts| - 1) * |sep|
    decreases |parts|
  {
    if |parts| > 1 {
      JoinedLength(parts[1..], sep, w);
    }
  }

  function Groups(draw: nat -> byte, n: nat): (r: seq<string>)
    ensures |r| == n
    ensures forall i :: 0 <= i < n ==> r[i] == Group(draw, i)
  {
    seq(n, i requires 0 <= i => Group(draw, i))
  }

  /**
   * `GenRandStr(n, join)`, with the pseudo-random source given as `draw`: the
   * k-th byte `rand.Read` produces. The result is the n groups joined by `join`.
   */
  method GenRandStr(n: int, join: string, draw: nat -> byte) returns (r: string)
    ensures n <= 0 ==> r == ""
    ensures n > 0 ==> r == Joined(Groups(draw, n), join)
    ensures n > 0 ==> |r| == 4 * n + (n - 1) * |join|
  {
    r := "";
    var i := 0;
    while i < n
      invariant 0 <= i && (n > 0 ==> i <= n) && (n <= 0 ==> i == 0)
      invariant i == 0 ==> r == ""
      invariant 0 < i < n ==> r == Joined(Groups(draw, i), join) + join
      invariant 0 < i && i == n ==> r == Joined(Groups(draw, i), join)
    {
      var g := Group(draw, i);
      if i > 0 {
        assert Groups(draw, i + 1) == Groups(draw, i) + [g];
        JoinedSnoc(Groups(draw, i), g, join);
      } else {
        assert Groups(draw, 1) == [g];
      }
      r := r + g;
      if i < n - 1 {
        r := r + join;
      }
      i := i + 1;
    }
    if n > 0 {
      JoinedLength(Groups(draw, n), join, 4);
    }
  }

  // ---------------------------------------------------------------------------
  // ByteCountDecimal (tools/string.go): integer part only
  // ---------------------------------------------------------------------------

  const Unit: int := 1024
  const UnitLetters: string := "kMGTPE"

  function Pow1024(e: nat): (r: int)
    ensures r >= 1
  {
    if e == 0 then 1 else Unit * Pow1024(e - 1)
  }

  function DigitChar(d: int): char
    requires 0 <= d < 10
  {
    HexDigit(d)
  }

  /** Decimal digits of a natural number, most significant first, no leading zeros. */
  function NatDigits(n: nat): (r: string)
    ensures |r| > 0
    ensures forall i :: 0 <= i < |r| ==> '0' <= r[i] <= '9'
    ensures r[0] == '0' <==> n == 0
    ensures n == 0 ==> r == "0"
    decreases n
  {
    if n < 10 then [DigitChar(n)] else NatDigits(n / 10) + [DigitChar(n % 10)]
  }

  /** A non-empty run of decimal digits without a leading zero (a lone "0" is allowed). */
  predicate IsCanonicalDigits(d: string) {
    && |d| > 0
    && (forall i :: 0 <= i < |d| ==> '0' <= d[i] <= '9')
    && (d[0] == '0' ==> |d| == 1)
  }

  /** The shape of Go's `%d` output: canonical digits, preceded by '-' only for a non-zero value. */
  predicate IsDecimalText(t: string) {
    if |t| > 0 && t[0] == '-' then IsCanonicalDigits(t[1..]) && t[1..] != "0"
    else IsCanonicalDigits(t)
  }

  /** Go's `%d`: a minus sign for negative values, then the digits of the magnitude. */
  function DecimalString(x: int): string {
    if x < 0 then "-" + NatDigits(-x) else NatDigits(x)
  }

  function ParseNat(s: string): nat
    decreases |s|
  {
    if |s| == 0 then 0 else ParseNat(s[..|s| - 1]) * 10 + HexDigitValue(s[|s| - 1])
  }

  function ParseDecimal(s: string): int {
    if |s| > 0 && s[0] == '-' then 0 - ParseNat(s[1..]) else ParseNat(s)
  }

  lemma {:induction false} NatDigitsRoundTrip(n: nat)
    ensures ParseNat(NatDigits(n)) == n
    decreases n
  {
    var s := NatDigits(n);
    if n >= 10 {
      NatDigitsRoundTrip(n / 10);
      assert s[..|s| - 1] == NatDigits(n / 10);
    }
  }

  /** Canonical digits are the digits of the number they denote. */
  lemma {:induction false} CanonicalDigitsUnique(d: string)
    requires IsCanonicalDigits(d)
    ensures NatDigits(ParseNat(d)) == d
    decreases |d|
  {
    var c := d[|d| - 1];
    var v := HexDigitValue(c);
    assert v < 10 && DigitChar(v) == c;
    if |d| == 1 {
      assert d == [c];
    } else {
      var d' := d[..|d| - 1];
      assert d'[0] == d[0];
      CanonicalDigitsUnique(d');
      LeadingDigitPositive(d');
      var m := ParseNat(d');
      var n := m * 10 + v;
      assert ParseNat(d) == n;
      assert n / 10 == m && n % 10 == v;
      assert NatDigits(n) == NatDigits(m) + [DigitChar(v)];
      assert d == d' + [c];
    }
  }

  lemma {:induction false} LeadingDigitPositive(d: string)
    requires IsCanonicalDigits(d) && d[0] != '0'
    ensures ParseNat(d) >= 1
    decreases |d|
  {
    if |d| > 1 {
      var d' := d[..|d| - 1];
      assert d'[0] == d[0];
      LeadingDigitPositive(d');
    }
  }

  /** Reading back the `%d` rendering of any integer gives the integer. */
  lemma DecimalRoundTrip(x: int)
    ensures ParseDecimal(DecimalString(x)) == x
  {
    if x < 0 {
      var d := NatDigits(-x);
      NatDigitsRoundTrip(-x);
      assert ("-" + d)[1..] == d;
      assert ("-" + d)[0] == '-';
    } else {
      NatDigitsRoundTrip(x);
      assert NatDigits(x)[0] != '-';
    }
  }

  /** The `%d` rendering is in canonical form, and it is the only canonical text denoting its value. */
  lemma DecimalTextUnique(x: int, t: string)
    ensures IsDecimalText(DecimalString(x))
    ensures IsDecimalText(t) && ParseDecimal(t) == x ==> t == DecimalString(x)
  {
    if x < 0 {
      var s := "-" + NatDigits(-x);
      assert s[0] == '-' && s[1..] == NatDigits(-x);
    } else {
      assert DecimalString(x) == NatDigits(x);
    }
    if IsDecimalText(t) && ParseDecimal(t) == x {
      if |t| > 0 && t[0] == '-' {
        var d := t[1..];
        CanonicalDigitsUnique(d);
        LeadingDigitPositive(d);
        assert ParseDecimal(t) == 0 - ParseNat(d);
        assert -x == ParseNat(d);
        assert t == "-" + d;
      } else {
        CanonicalDigitsUnique(t);
        assert ParseDecimal(t) == ParseNat(t);
      }
    }
  }

  /**
   * The outcome of `ByteCountDecimal`: either the exact text `"<b> B"`, or the
   * divisor and unit letter the `%.1f %cB` formatting would use.
   */
  datatype ByteCount =
    | Exact(text: string)
    | Scaled(div: int, exp: nat, unit: char)

  method ByteCountDecimal(b: int) returns (r: ByteCount)
    requires IsInt64(b)
    ensures b < Unit <==> r.Exact?
    ensures r.Exact? ==> |r.text| >= 3 && r.text[|r.text| - 2..] == " B"
                         && IsDecimalText(r.text[..|r.text| - 2])
                         && ParseDecimal(r.text[..|r.text| - 2]) == b
    ensures r.Scaled? ==> r.exp <= 5 && r.div == Pow1024(r.exp + 1)
                          && r.div <= b < Unit * r.div
                          && r.unit == UnitLetters[r.exp]
  {
    if b < Unit {
      var text := DecimalString(b) + " B";
      assert text[..|text| - 2] == DecimalString(b);
      DecimalRoundTrip(b);
      DecimalTextUnique(b, DecimalString(b));
      return Exact(text);
    }
    var div, exp := SelectUnit(b);
    return Scaled(div, exp, UnitLetters[exp]);
  }

  /** The loop of `ByteCountDecimal`: the largest power of 1024 (at least 1024) not above b. */
  method SelectUnit(b: int) returns (div: int, exp: nat)
    requires Unit <= b <= MaxInt64
    ensures exp <= 5 && div == Pow1024(exp + 1)
    ensures div <= b < Unit * div
  {
    div, exp := Unit, 0;
    var n := b / Unit;
    while n >= Unit
      invariant exp <= 5
      invariant div == Pow1024(exp + 1)
      invariant n >= 1
      invariant div * n <= b < div * (n + 1)
    {
      var n' := n / Unit;
      ShrinkStep(div, n, n', b);
      div := div * Unit;
      exp := exp + 1;
      n := n';
      MulLe(div, 1, n);
      if exp > 5 {
        PowMonotone(7, exp + 1);
        PowSevenExceedsInt64();
        assert false;
      }
    }
    MulLe(div, 1, n);
    MulLe(div, n + 1, Unit);
  }

  /** One division step keeps b between the bracketing multiples of the divisor. */
  lemma ShrinkStep(div: int, n: int, n': int, b: int)
    requires div >= 0 && n >= 0 && n' == n / Unit
    requires div * n <= b < div * (n + 1)
    ensures (div * Unit) * n' <= b < (div * Unit) * (n' + 1)
  {
    assert Unit * n' <= n < Unit * (n' + 1);
    MulLe(div, Unit * n', n);
    MulLe(div, n + 1, Unit * (n' + 1));
    assert div * (Unit * n') == (div * Unit) * n';
    assert div * (Unit * (n' + 1)) == (div * Unit) * (n' + 1);
  }

  lemma PowSevenExceedsInt64()
    ensures Pow1024(7) > MaxInt64
  {
    assert Pow1024(7) == 0x40_0000_0000_0000_0000;
  }

  lemma MulLe(d: int, a: int, c: int)
    requires d >= 0 && a <= c
    ensures d * a <= d * c
  {
  }

  lemma {:induction false} PowMonotone(a: nat, b: nat)
    requires a <= b
    ensures Pow1024(a) <= Pow1024(b)
    decreases b
  {
    if a < b {
      PowMonotone(a, b - 1);
    }
  }
}
