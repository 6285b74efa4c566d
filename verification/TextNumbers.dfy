/** Numbers as text: decimal as `operator<<` prints and `std::stoul` reads it, and key bytes
    as pairs of hexadecimal digits. */
module TextNumbers {
  import opened Prelude
  import opened KeyRecords

  lemma {:induction false} Regroup(a: string, b: string, c: string)
    ensures a + b + c == a + (b + c)
  {
  }

  predicate IsDigit(c: char) {
    '0' <= c <= '9'
  }

  predicate IsHex(c: char) {
    '0' <= c <= '9' || 'a' <= c <= 'f' || 'A' <= c <= 'F'
  }

  function DigitValue(c: char): (d: nat)
    requires IsDigit(c)
    ensures d < 10
  {
    (c - '0') as nat
  }

  function HexValue(c: char): (d: nat)
    requires IsHex(c)
    ensures d < 16
  {
    if c <= '9' then (c - '0') as nat
    else if c <= 'F' then (c - 'A') as nat + 10
    else (c - 'a') as nat + 10
  }

  // ---- Decimal ----

  function Decimal(n: nat): (s: string)
    ensures s != "" && forall i :: 0 <= i < |s| ==> IsDigit(s[i])
  {
    (if n < 10 then "" else Decimal(n / 10)) + [(n % 10) as char + '0']
  }

  function DecimalValue(s: string): nat
    requires forall i :: 0 <= i < |s| ==> IsDigit(s[i])
  {
    if s == "" then 0 else DecimalValue(s[..|s| - 1]) * 10 + DigitValue(s[|s| - 1])
  }

  lemma {:induction false} DecimalRoundTrip(n: nat)
    ensures DecimalValue(Decimal(n)) == n
  {
    var s := Decimal(n);
    assert s[..|s| - 1] == if n < 10 then "" else Decimal(n / 10);
    if n >= 10 {
      DecimalRoundTrip(n / 10);
    }
  }

  lemma {:induction false} DigitTable(c: char)
    ensures IsDigit(c) <==> c in "0123456789"
    ensures IsDigit(c) ==> "0123456789"[DigitValue(c)] == c
  {
  }

  /** A number is printed digit by digit, without leading zeros. */
  lemma {:induction false} DecimalForm(n: nat)
    ensures n < 10 ==> Decimal(n) == ["0123456789"[n]]
    ensures n >= 10 ==> Decimal(n) == Decimal(n / 10) + ["0123456789"[n % 10]]
    ensures Decimal(n)[0] == '0' ==> Decimal(n) == "0"
  {
    LastDigitPrinted(n);
    if n >= 10 {
      DecimalForm(n / 10);
      if Decimal(n / 10)[0] == '0' {
        DecimalRoundTrip(n / 10);
      }
    }
  }

  lemma {:induction false} LastDigitPrinted(n: nat)
    ensures (n % 10) as char + '0' == "0123456789"[n % 10]
  {
  }

  /** Every run of digits without leading zeros is the printed form of its value. */
  lemma {:induction false} PrintedAgain(s: string)
    requires s != "" && (forall i :: 0 <= i < |s| ==> IsDigit(s[i])) && (s[0] == '0' ==> s == "0")
    ensures Decimal(DecimalValue(s)) == s
  {
    var start, last := s[..|s| - 1], s[|s| - 1];
    assert s == start + [last];
    assert DecimalValue(s) == DecimalValue(start) * 10 + DigitValue(last);
    if start != "" {
      PrintedAgain(start);
      PositiveValue(start);
    }
    hide Decimal, DecimalValue;
    OneMoreDigit(if start == "" then 0 else DecimalValue(start), last);
  }

  lemma {:induction false} OneMoreDigit(n: nat, c: char)
    requires IsDigit(c)
    ensures Decimal(n * 10 + DigitValue(c)) == (if n == 0 then "" else Decimal(n)) + [c]
  {
    assert (n * 10 + DigitValue(c)) / 10 == n && (n * 10 + DigitValue(c)) % 10 == DigitValue(c);
  }

  lemma {:induction false} PositiveValue(s: string)
    requires s != "" && (forall i :: 0 <= i < |s| ==> IsDigit(s[i])) && s[0] != '0'
    ensures DecimalValue(s) > 0
  {
    if |s| > 1 {
      PositiveValue(s[..|s| - 1]);
    }
  }

  /** `std::stoul` and `std::stoull` on a run of digits: 64 bits, out of range throws an
      exception that names the function. */
  function StoU64(name: string, s: string): Result<u64>
    requires forall i :: 0 <= i < |s| ==> IsDigit(s[i])
  {
    var n := DecimalValue(s);
    if n < 0x1_0000_0000_0000_0000 then Ok(n) else Err(name)
  }

  lemma {:induction false} NumberRoundTrip(name: string, n: u64)
    ensures StoU64(name, Decimal(n)) == Ok(n)
  {
    DecimalRoundTrip(n);
  }

  // ---- Hexadecimal ----

  function HexDigit(d: nat): (c: char)
    requires d < 16
    ensures IsHex(c) && HexValue(c) == d
  {
    if d < 10 then d as char + '0' else (d - 10) as char + 'a'
  }

  function Hex(b: bytes): (s: string)
    ensures |s| == 2 * |b| && forall i :: 0 <= i < |s| ==> IsHex(s[i])
  {
    if b == [] then ""
    else Hex(b[..|b| - 1]) + [HexDigit(b[|b| - 1] / 16), HexDigit(b[|b| - 1] % 16)]
  }

  function HexPair(s: string, i: nat): byte
    requires 2 * i + 1 < |s| && forall j :: 0 <= j < |s| ==> IsHex(s[j])
  {
    HexValue(s[2 * i]) * 16 + HexValue(s[2 * i + 1])
  }

  function HexToKey(hex: string): Result<Key16>
    requires forall j :: 0 <= j < |hex| ==> IsHex(hex[j])
  {
    if |hex| != 32 then Result<Key16>.Err("LE key hex string must be 32 characters")
    else Ok(seq(16, i requires 0 <= i < 16 => HexPair(hex, i)))
  }

  lemma {:induction false} HexTable(c: char)
    ensures IsHex(c) <==> c in "0123456789abcdefABCDEF"
    ensures IsHex(c) ==> c == "0123456789abcdef"[HexValue(c)] || c == "0123456789ABCDEF"[HexValue(c)]
  {
  }

  lemma {:induction false} HexDigitTable(d: nat)
    requires d < 16
    ensures HexDigit(d) == "0123456789abcdef"[d]
  {
  }

  lemma {:induction false} HexDigitsOf(b: bytes, i: nat)
    requires i < |b|
    ensures Hex(b)[2 * i] == HexDigit(b[i] / 16) && Hex(b)[2 * i + 1] == HexDigit(b[i] % 16)
  {
    if i < |b| - 1 {
      HexDigitsOf(b[..|b| - 1], i);
    }
  }

  /** Two lower-case digits a byte, high half first. */
  lemma {:induction false} HexForm(b: bytes, i: nat)
    requires i < |b|
    ensures Hex(b)[2 * i] == "0123456789abcdef"[b[i] / 16]
    ensures Hex(b)[2 * i + 1] == "0123456789abcdef"[b[i] % 16]
  {
    HexDigitsOf(b, i);
    HexDigitTable(b[i] / 16);
    HexDigitTable(b[i] % 16);
  }

  function LowerCaseChar(c: char): char {
    match c
    case 'A' => 'a'
    case 'B' => 'b'
    case 'C' => 'c'
    case 'D' => 'd'
    case 'E' => 'e'
    case 'F' => 'f'
    case _ => c
  }

  function LowerCase(hex: string): string {
    seq(|hex|, i requires 0 <= i < |hex| => LowerCaseChar(hex[i]))
  }

  lemma {:induction false} DigitAsWritten(c: char)
    requires IsHex(c)
    ensures HexDigit(HexValue(c)) == LowerCaseChar(c)
  {
  }

  lemma {:induction false} PairAsWritten(hex: string, i: nat)
    requires 2 * i + 1 < |hex| && forall j :: 0 <= j < |hex| ==> IsHex(hex[j])
    ensures HexDigit(HexPair(hex, i) / 16) == LowerCaseChar(hex[2 * i])
    ensures HexDigit(HexPair(hex, i) % 16) == LowerCaseChar(hex[2 * i + 1])
  {
    DigitAsWritten(hex[2 * i]);
    DigitAsWritten(hex[2 * i + 1]);
  }

  /** Any 32 digits are accepted as a key, and the key is the one written: printed, it is the
      text in lower case. */
  lemma {:induction false} KeyAsWritten(hex: string)
    requires forall j :: 0 <= j < |hex| ==> IsHex(hex[j])
    ensures HexToKey(hex).Ok? <==> |hex| == 32
    ensures HexToKey(hex).Ok? ==> Hex(HexToKey(hex).value) == LowerCase(hex)
  {
    if |hex| == 32 {
      var key := HexToKey(hex).value;
      hide HexToKey, Hex, HexPair, HexDigit, LowerCaseChar;
      forall i | 0 <= i < 16
        ensures Hex(key)[2 * i] == LowerCase(hex)[2 * i] && Hex(key)[2 * i + 1] == LowerCase(hex)[2 * i + 1]
      {
        HexDigitsOf(key, i);
        PairAsWritten(hex, i);
      }
      SamePairs(Hex(key), LowerCase(hex));
    }
  }

  lemma {:induction false} SamePairs(a: string, b: string)
    requires |a| == |b| == 32
    requires forall i :: 0 <= i < 16 ==> a[2 * i] == b[2 * i] && a[2 * i + 1] == b[2 * i + 1]
    ensures a == b
  {
    forall k | 0 <= k < 32
      ensures a[k] == b[k]
    {
      assert k == 2 * (k / 2) || k == 2 * (k / 2) + 1;
      assert a[2 * (k / 2)] == b[2 * (k / 2)];
    }
  }

  method BytesToHex(b: bytes) returns (s: string)
    ensures s == Hex(b)
  {
    s := "";
    for i := 0 to |b|
      invariant s == Hex(b[..i])
    {
      assert b[..i + 1][..i] == b[..i];
      s := s + [HexDigit(b[i] / 16), HexDigit(b[i] % 16)];
    }
    assert b[..|b|] == b;
  }

  method KeyOfHex(hex: string) returns (r: Result<Key16>)
    requires forall j :: 0 <= j < |hex| ==> IsHex(hex[j])
    ensures r == HexToKey(hex)
    ensures r.Ok? ==> Hex(r.value) == LowerCase(hex)
  {
    KeyAsWritten(hex);
    if |hex| != 32 {
      return Err("LE key hex string must be 32 characters");
    }
    var key: Key16 := seq(16, _ => 0);
    for i := 0 to 16
      invariant forall j :: 0 <= j < i ==> key[j] == HexPair(hex, j)
    {
      key := key[i := HexPair(hex, i)];
    }
    assert key == HexToKey(hex).value;
    r := Ok(key);
  }

  lemma {:induction false} HexPairAt(b: bytes, i: nat)
    requires i < |b|
    ensures HexPair(Hex(b), i) == b[i]
  {
    if i < |b| - 1 {
      HexPairAt(b[..|b| - 1], i);
    }
  }

  lemma {:induction false} HexRoundTrip(key: Key16)
    ensures HexToKey(Hex(key)) == Ok(key)
  {
    forall i | 0 <= i < 16
      ensures HexPair(Hex(key), i) == key[i]
    {
      HexPairAt(key, i);
    }
    assert HexToKey(Hex(key)).value == key;
  }
}
