/** Decimal numbers, separated lists, string order and hexadecimal, as the Go code prints, reads and sorts them. */
module Text {
  import opened Base

  // ---------------------------------------------------------------- decimal

  predicate IsDigit(c: char) {
    '0' <= c <= '9'
  }

  function DigitChar(d: nat): (c: char)
    requires d < 10
    ensures IsDigit(c) && c as nat - '0' as nat == d
  {
    ('0' as nat + d) as char
  }

  predicate AllDigits(s: string) {
    s != "" && forall i :: 0 <= i < |s| ==> IsDigit(s[i])
  }

  /** The number a string of digits denotes; leading zeros are fine. */
  function Digits(s: string): nat
    requires forall i :: 0 <= i < |s| ==> IsDigit(s[i])
  {
    if s == "" then 0
    else
      assert IsDigit(s[|s| - 1]);
      Digits(s[..|s| - 1]) * 10 + (s[|s| - 1] as nat - '0' as nat)
  }

  /** An optional sign and at least one digit: big.Int.SetString and strconv.Atoi in base 10. */
  function ParseInt(s: string): Option<int> {
    var signed := s != "" && (s[0] == '-' || s[0] == '+');
    var digits := if signed then s[1..] else s;
    if !AllDigits(digits) then None
    else
      var magnitude: int := Digits(digits);
      Some(if signed && s[0] == '-' then -magnitude else magnitude)
  }

  function PrintNat(n: nat): (s: string)
    ensures AllDigits(s)
  {
    if n < 10 then [DigitChar(n)] else PrintNat(n / 10) + [DigitChar(n % 10)]
  }

  /** big.Int.String */
  function PrintInt(n: int): string {
    if n < 0 then "-" + PrintNat(-n) else PrintNat(n)
  }

  lemma {:induction false} PrintedDigits(n: nat)
    ensures Digits(PrintNat(n)) == n
  {
    var s := PrintNat(n);
    if n >= 10 {
      PrintedDigits(n / 10);
      assert s[..|s| - 1] == PrintNat(n / 10);
    } else {
      assert s[..|s| - 1] == "";
    }
  }

  /** Reading back what was printed, whatever the sign. */
  lemma ParsePrinted(n: int)
    ensures ParseInt(PrintInt(n)) == Some(n)
  {
    var digits := PrintNat(if n < 0 then -n else n);
    PrintedDigits(if n < 0 then -n else n);
    assert PrintInt(n)[if n < 0 then 1 else 0..] == digits;
    assert IsDigit(digits[0]);
  }

  /** strconv.Atoi also refuses what does not fit a 64-bit int. */
  function Atoi(s: string): Option<int> {
    var n := ParseInt(s);
    if n.Some? && -0x8000_0000_0000_0000 <= n.value < 0x8000_0000_0000_0000 then n else None
  }

  // ---------------------------------------------------------------- lists

  /** strings.Split with a one-character separator. */
  function Split(s: string, separator: char): (parts: seq<string>)
    ensures parts != []
  {
    if s == "" then [""]
    else
      var rest := Split(s[1..], separator);
      if s[0] == separator then [""] + rest else [[s[0]] + rest[0]] + rest[1..]
  }

  // ---------------------------------------------------------------- order

  /** Byte order of strings; characters are compared by code point, which for UTF-8 is the same order. */
  predicate Less(a: string, b: string) {
    b != "" && (a == "" || a[0] < b[0] || (a[0] == b[0] && Less(a[1..], b[1..])))
  }

  lemma {:induction false} LessTotal(a: string, b: string)
    ensures !Less(a, a)
    ensures a != b ==> Less(a, b) || Less(b, a)
    decreases |a|
  {
    if a != "" {
      LessTotal(a[1..], if b == "" then "" else b[1..]);
      if b != "" && a[0] == b[0] {
        assert a == [a[0]] + a[1..] && b == [b[0]] + b[1..];
      }
    }
  }

  lemma {:induction false} LessTransitive(a: string, b: string, c: string)
    requires Less(a, b) && Less(b, c)
    ensures Less(a, c)
    decreases |a|
  {
    if a != "" && a[0] == b[0] && b[0] == c[0] {
      LessTransitive(a[1..], b[1..], c[1..]);
    }
  }

  lemma {:induction false} LessAfterPrefix(prefix: string, a: string, b: string)
    ensures Less(prefix + a, prefix + b) == Less(a, b)
  {
    if prefix == "" {
      assert prefix + a == a && prefix + b == b;
    } else {
      assert (prefix + a)[1..] == prefix[1..] + a && (prefix + b)[1..] == prefix[1..] + b;
      LessAfterPrefix(prefix[1..], a, b);
    }
  }

  // ---------------------------------------------------------------- hexadecimal

  function HexValue(c: char): Option<nat> {
    if '0' <= c <= '9' then Some(c as nat - '0' as nat)
    else if 'a' <= c <= 'f' then Some(c as nat - 'a' as nat + 10)
    else if 'A' <= c <= 'F' then Some(c as nat - 'A' as nat + 10)
    else None
  }

  function HexChar(d: nat): (c: char)
    requires d < 16
    ensures HexValue(c) == Some(d)
  {
    if d < 10 then ('0' as nat + d) as char else ('a' as nat + d - 10) as char
  }

  /** hex.DecodeString: either case, two digits a byte. */
  function DecodeHex(s: string): Option<Bytes> {
    if s == "" then Some([])
    else if |s| == 1 || HexValue(s[0]).None? || HexValue(s[1]).None? then None
    else
      var rest := DecodeHex(s[2..]);
      if rest.None? then None else Some([HexValue(s[0]).value * 16 + HexValue(s[1]).value] + rest.value)
  }

  function HexDigits(bytes: Bytes): (s: string)
    ensures |s| == 2 * |bytes|
  {
    if bytes == [] then "" else [HexChar(bytes[0] / 16), HexChar(bytes[0] % 16)] + HexDigits(bytes[1..])
  }

  /** upstream.EncodeHex: always lower case. */
  function EncodeHex(bytes: Bytes): string {
    "0x" + HexDigits(bytes)
  }

  predicate IsSpace(c: char) {
    c in "\t\n\r " || c == 11 as char || c == 12 as char || c == 0x85 as char || c == 0xA0 as char
    || c == 0x1680 as char || 0x2000 as char <= c <= 0x200A as char || c == 0x2028 as char || c == 0x2029 as char
    || c == 0x202F as char || c == 0x205F as char || c == 0x3000 as char
  }

  /** strings.TrimSpace */
  function TrimSpace(s: string): string {
    if s != "" && IsSpace(s[0]) then TrimSpace(s[1..])
    else if s != "" && IsSpace(s[|s| - 1]) then TrimSpace(s[..|s| - 1])
    else s
  }

  function TrimHexPrefix(s: string): string {
    if |s| >= 2 && s[..2] == "0x" then s[2..] else s
  }

  /** decodeBytes: an odd digit count gets a leading zero. */
  function DecodeBytes(s: string): Option<Bytes> {
    var digits := TrimHexPrefix(TrimSpace(s));
    DecodeHex(if |digits| % 2 == 1 then "0" + digits else digits)
  }

  function DecodeFixed(s: string, size: nat): (r: Option<Bytes>)
    ensures r.Some? ==> |r.value| == size
  {
    var bytes := DecodeBytes(s);
    if bytes.Some? && |bytes.value| == size then bytes else None
  }

  /** normalizeHex32 pads on the left; the case of the digits is kept. */
  function NormalizeHex32(s: string): string {
    var digits := TrimHexPrefix(s);
    "0x" + seq(if |digits| < 64 then 64 - |digits| else 0, _ => '0') + digits
  }

  /** decodeHashString */
  function DecodeHash(s: string): Option<Hash> {
    var bytes := DecodeFixed(NormalizeHex32(s), 32);
    if bytes.None? then None else var hash: Hash := bytes.value; Some(hash)
  }

  /** parseAddress */
  function ParseAddress(s: string): Option<Address> {
    var bytes := DecodeFixed(s, 20);
    if TrimSpace(s) == "" || bytes.None? then None else var a: Address := bytes.value; Some(a)
  }

  lemma {:induction false} DecodeHexDigits(bytes: Bytes)
    ensures DecodeHex(HexDigits(bytes)) == Some(bytes)
  {
    if bytes != [] {
      DecodeHexDigits(bytes[1..]);
      assert HexDigits(bytes)[2..] == HexDigits(bytes[1..]);
      assert bytes == [bytes[0]] + bytes[1..];
    }
  }

  lemma {:induction false} NoSpaceInHex(bytes: Bytes)
    ensures forall i :: 0 <= i < |HexDigits(bytes)| ==> !IsSpace(HexDigits(bytes)[i])
  {
    if bytes != [] {
      NoSpaceInHex(bytes[1..]);
    }
  }

  lemma PrefixedDigits(digits: string)
    requires |digits| % 2 == 0 && forall i :: 0 <= i < |digits| ==> !IsSpace(digits[i])
    ensures DecodeBytes("0x" + digits) == DecodeHex(digits)
  {
    var s := "0x" + digits;
    assert forall i :: 0 <= i < |s| ==> !IsSpace(s[i]);
    assert TrimSpace(s) == s;
    assert s[..2] == "0x" && s[2..] == digits;
  }

  /** What is encoded reads back, whatever the length. */
  lemma DecodeEncoded(bytes: Bytes)
    ensures DecodeBytes(EncodeHex(bytes)) == Some(bytes)
  {
    NoSpaceInHex(bytes);
    PrefixedDigits(HexDigits(bytes));
    DecodeHexDigits(bytes);
  }

  lemma AddressParses(a: Address)
    ensures ParseAddress(EncodeHex(a)) == Some(a)
  {
    DecodeEncoded(a);
    var s := EncodeHex(a);
    NoSpaceInHex(a);
    assert forall i :: 0 <= i < |s| ==> !IsSpace(s[i]);
  }

  /** Normalizing twice is normalizing once, so a slot or value reads the same before and after. */
  lemma NormalizedReadsSame(s: string)
    ensures NormalizeHex32(NormalizeHex32(s)) == NormalizeHex32(s)
    ensures DecodeHash(NormalizeHex32(s)) == DecodeHash(s)
  {
    var once := NormalizeHex32(s);
    assert once[..2] == "0x" && |once| >= 66;
    assert once == "0x" + once[2..];
    assert seq(0, _ => '0') == "";
    assert TrimHexPrefix(once) == once[2..];
    assert NormalizeHex32(once) == "0x" + "" + once[2..];
  }

  /** A hash is encoded at full length, so it is its own normal form and reads back. */
  lemma HashParses(h: Hash)
    ensures |EncodeHex(h)| == 66 && NormalizeHex32(EncodeHex(h)) == EncodeHex(h)
    ensures DecodeHash(EncodeHex(h)) == Some(h)
  {
    DecodeEncoded(h);
    var s := EncodeHex(h);
    assert s[..2] == "0x" && s[2..] == HexDigits(h);
    assert seq(0, _ => '0') == "";
    assert NormalizeHex32(s) == "0x" + "" + HexDigits(h);
  }

  /** Fewer bytes than a word read as a word with zeros in front. */
  lemma ShortHashParses(bytes: Bytes)
    requires |bytes| <= 32
    ensures DecodeHash(EncodeHex(bytes)) == Some(Zeros(32 - |bytes|) + bytes)
  {
    hide NormalizeHex32, DecodeHash, HexDigits, EncodeHex;
    var h: Hash := Zeros(32 - |bytes|) + bytes;
    HashParses(h);
    ShortNormalizes(bytes);
    NormalizedReadsSame(EncodeHex(bytes));
  }

  lemma ShortNormalizes(bytes: Bytes)
    requires |bytes| <= 32
    ensures NormalizeHex32(EncodeHex(bytes)) == EncodeHex(Zeros(32 - |bytes|) + bytes)
  {
    hide HexDigits;
    var s := EncodeHex(bytes);
    assert TrimHexPrefix(s) == HexDigits(bytes) by { assert s[..2] == "0x" && s[2..] == HexDigits(bytes); }
    ZeroDigits(32 - |bytes|, bytes);
  }

  lemma {:induction false} ZeroDigits(n: nat, bytes: Bytes)
    ensures HexDigits(Zeros(n) + bytes) == seq(2 * n, _ => '0') + HexDigits(bytes)
  {
    hide HexDigits;
    if n == 0 {
      assert Zeros(n) + bytes == bytes;
    } else {
      ZeroDigits(n - 1, bytes);
      ZeroDigit(Zeros(n - 1) + bytes);
      assert Zeros(n) + bytes == [0] + (Zeros(n - 1) + bytes);
      assert seq(2 * n, _ => '0') == "00" + seq(2 * (n - 1), _ => '0');
    }
  }

  lemma ZeroDigit(bytes: Bytes)
    ensures HexDigits([0] + bytes) == "00" + HexDigits(bytes)
  {
    assert ([0] + bytes)[1..] == bytes;
    assert HexChar(0) == '0';
  }

  /** Either case of a digit reads the same. */
  lemma CasesAgree(d: nat)
    requires 10 <= d < 16
    ensures HexValue((('a' as nat) + d - 10) as char) == HexValue((('A' as nat) + d - 10) as char) == Some(d)
  {
  }
}
