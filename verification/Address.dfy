/**
 Dotted-decimal addresses: what sprintf("%d.%d.%d.%d") writes, and that it can be read back.
 */
module Address {
  import opened Wrappers
  import opened ByteOrder

  type Octet = n: nat | n < 256

  /** esp_ip_t: four bytes in memory order. */
  datatype Ip = Ip(o0: Octet, o1: Octet, o2: Octet, o3: Octet)

  function Octets(a: bv8, b: bv8, c: bv8, d: bv8): Ip {
    Ip(a as nat, b as nat, c as nat, d as nat)
  }

  /** The bytes of a word seen as an esp_ip_t. */
  function IpOf(x: bv32): Ip {
    Octets(Byte(x, 0), Byte(x, 1), Byte(x, 2), Byte(x, 3))
  }

  function Digit(d: nat): char
    requires d < 10
  {
    ('0' as int + d) as char
  }

  /** What %d writes for a number that is not negative. */
  function Decimal(n: nat): (s: string)
    ensures |s| > 0
  {
    if n < 10 then [Digit(n)] else Decimal(n / 10) + [Digit(n % 10)]
  }

  function Text(ip: Ip): string {
    Decimal(ip.o0) + "." + Decimal(ip.o1) + "." + Decimal(ip.o2) + "." + Decimal(ip.o3)
  }

  // ---------- Reading it back ----------

  predicate IsDigit(c: char) {
    '0' <= c <= '9'
  }

  function Value(c: char): nat
    requires IsDigit(c)
  {
    c as int - '0' as int
  }

  datatype Number = Number(n: nat, rest: string)

  /** The longest prefix of digits, as a number. */
  function ReadNumber(s: string, acc: nat): Number {
    if s == [] || !IsDigit(s[0]) then Number(acc, s) else ReadNumber(s[1..], 10 * acc + Value(s[0]))
  }

  function Parse(s: string): Option<Ip> {
    var a := ReadNumber(s, 0);
    if a.rest == [] || a.rest[0] != '.' || a.n >= 256 then None else
    var b := ReadNumber(a.rest[1..], 0);
    if b.rest == [] || b.rest[0] != '.' || b.n >= 256 then None else
    var c := ReadNumber(b.rest[1..], 0);
    if c.rest == [] || c.rest[0] != '.' || c.n >= 256 then None else
    var d := ReadNumber(c.rest[1..], 0);
    if d.rest != [] || d.n >= 256 then None else Some(Ip(a.n, b.n, c.n, d.n))
  }

  lemma ReadDigit(d: nat, rest: string, acc: nat)
    requires d < 10
    ensures ReadNumber([Digit(d)] + rest, acc) == ReadNumber(rest, 10 * acc + d)
  {
  }

  lemma {:induction false} ReadDecimal(n: nat, rest: string)
    ensures ReadNumber(Decimal(n) + rest, 0) == ReadNumber(rest, n)
    decreases n
  {
    if n < 10 {
      ReadDigit(n, rest, 0);
    } else {
      var last := [Digit(n % 10)] + rest;
      assert Decimal(n) + rest == Decimal(n / 10) + last;
      ReadDecimal(n / 10, last);
      ReadDigit(n % 10, rest, n / 10);
    }
  }

  lemma ReadField(n: nat, rest: string)
    requires rest == [] || rest[0] == '.'
    ensures ReadNumber(Decimal(n) + rest, 0) == Number(n, rest)
  {
    ReadDecimal(n, rest);
  }

  function Dotted(a: string, b: string, c: string, d: string): (s: string)
    ensures |s| == |a| + |b| + |c| + |d| + 3
  {
    a + ['.'] + b + ['.'] + c + ['.'] + d
  }

  lemma DottedFromRight(a: string, b: string, c: string, d: string)
    ensures Dotted(a, b, c, d) == a + ("." + (b + ("." + (c + ("." + d)))))
  {
  }

  /** How Parse goes through four fields. */
  lemma ParseFields(s: string, a: Number, b: Number, c: Number, d: Number)
    requires a == ReadNumber(s, 0) && a.rest != [] && a.rest[0] == '.'
    requires b == ReadNumber(a.rest[1..], 0) && b.rest != [] && b.rest[0] == '.'
    requires c == ReadNumber(b.rest[1..], 0) && c.rest != [] && c.rest[0] == '.'
    requires d == ReadNumber(c.rest[1..], 0) && d.rest == []
    ensures Parse(s) == if a.n < 256 && b.n < 256 && c.n < 256 && d.n < 256 then Some(Ip(a.n, b.n, c.n, d.n)) else None
  {
  }

  /** Four printed numbers with dots between them are an address exactly if they are all octets. */
  lemma ParseNumbers(w: nat, x: nat, y: nat, z: nat)
    ensures Parse(Dotted(Decimal(w), Decimal(x), Decimal(y), Decimal(z)))
            == if w < 256 && x < 256 && y < 256 && z < 256 then Some(Ip(w, x, y, z)) else None
  {
    var d := Decimal(z);
    var c := Decimal(y) + ("." + d);
    var b := Decimal(x) + ("." + c);
    DottedFromRight(Decimal(w), Decimal(x), Decimal(y), d);
    assert d + [] == d;
    ReadField(z, []);
    ReadField(y, "." + d);
    ReadField(x, "." + c);
    ReadField(w, "." + b);
    ParseFields(Decimal(w) + ("." + b), Number(w, "." + b), Number(x, "." + c), Number(y, "." + d), Number(z, []));
  }

  /** The text determines the address. */
  lemma ParseInvertsText(ip: Ip)
    ensures Parse(Text(ip)) == Some(ip)
  {
    TextIsDotted(ip);
    ParseNumbers(ip.o0, ip.o1, ip.o2, ip.o3);
  }

  lemma TextIsDotted(ip: Ip)
    ensures Text(ip) == Dotted(Decimal(ip.o0), Decimal(ip.o1), Decimal(ip.o2), Decimal(ip.o3))
  {
  }

  lemma TextIsInjective(a: Ip, b: Ip)
    requires Text(a) == Text(b)
    ensures a == b
  {
    ParseInvertsText(a);
    ParseInvertsText(b);
  }

  // ---------- The text is the shortest ----------

  /** A decimal numeral: digits only, and no zero before another digit. */
  ghost predicate IsNumeral(s: string) {
    s != "" && (forall i :: 0 <= i < |s| ==> s[i] in "0123456789") && (s[0] == '0' ==> |s| == 1)
  }

  lemma DigitIs(d: nat)
    requires d < 10
    ensures Digit(d) == "0123456789"[d]
  {
  }

  lemma {:induction false} DecimalIsNumeral(n: nat)
    ensures IsNumeral(Decimal(n)) && (Decimal(n)[0] == '0' <==> n == 0)
    decreases n
  {
    if n < 10 {
      DigitIs(n);
    } else {
      DecimalIsNumeral(n / 10);
      DigitIs(n % 10);
    }
  }

  /** Digit by digit, for the numbers that an octet can be. */
  lemma OctetIs(n: Octet)
    ensures var digits := "0123456789";
            Decimal(n) == if n < 10 then [digits[n]]
                          else if n < 100 then [digits[n / 10], digits[n % 10]]
                          else [digits[n / 100], digits[n / 10 % 10], digits[n % 10]]
  {
    DigitIs(n % 10);
    DigitIs(n / 10 % 10);
    if n >= 100 {
      DigitIs(n / 100);
      assert Decimal(n / 10) == Decimal(n / 10 / 10) + [Digit(n / 10 % 10)] && n / 10 / 10 == n / 100;
    }
  }

  function Width(n: Octet): nat {
    if n < 10 then 1 else if n < 100 then 2 else 3
  }

  /** Four numerals with three dots between them, and the length that this makes. */
  lemma TextIs(ip: Ip)
    ensures exists a, b, c, d :: Text(ip) == Dotted(a, b, c, d)
              && IsNumeral(a) && IsNumeral(b) && IsNumeral(c) && IsNumeral(d)
              && |a| == Width(ip.o0) && |b| == Width(ip.o1) && |c| == Width(ip.o2) && |d| == Width(ip.o3)
    ensures |Text(ip)| == Width(ip.o0) + Width(ip.o1) + Width(ip.o2) + Width(ip.o3) + 3
  {
    FieldIs(ip.o0);
    FieldIs(ip.o1);
    FieldIs(ip.o2);
    FieldIs(ip.o3);
    TextIsDotted(ip);
  }

  lemma FieldIs(n: Octet)
    ensures IsNumeral(Decimal(n)) && |Decimal(n)| == Width(n)
  {
    DecimalIsNumeral(n);
    OctetIs(n);
  }

  lemma {:induction false} ReadLast(s: string, c: char, acc: nat)
    requires IsDigit(c) && forall i :: 0 <= i < |s| ==> IsDigit(s[i])
    ensures ReadNumber(s, acc).rest == []
    ensures ReadNumber(s + [c], acc) == Number(10 * ReadNumber(s, acc).n + Value(c), [])
    ensures acc <= ReadNumber(s, acc).n
  {
    if s != [] {
      assert (s + [c])[1..] == s[1..] + [c];
      ReadLast(s[1..], c, 10 * acc + Value(s[0]));
    }
  }

  lemma ReadPositive(s: string)
    requires IsNumeral(s) && s[0] != '0'
    ensures ReadNumber(s, 0).n > 0
  {
    ReadLast(s[1..], '0', Value(s[0]));
  }

  /** A numeral is what %d prints for the number that it reads as. */
  lemma {:induction false} NumeralIsDecimal(s: string) returns (n: nat)
    requires IsNumeral(s)
    ensures n == ReadNumber(s, 0).n && Decimal(n) == s
    decreases |s|
  {
    var init, c := s[..|s| - 1], s[|s| - 1];
    assert s == init + [c];
    ReadLast(init, c, 0);
    n := ReadNumber(s, 0).n;
    if init != [] {
      var m := NumeralIsDecimal(init);
      ReadPositive(init);
      assert n / 10 == m && n % 10 == Value(c);
    }
  }

  /** The other round trip: every dotted text of four numerals that is an address is the one printed for it. */
  lemma TextInvertsParse(a: string, b: string, c: string, d: string)
    requires IsNumeral(a) && IsNumeral(b) && IsNumeral(c) && IsNumeral(d)
    requires Parse(Dotted(a, b, c, d)).Some?
    ensures Text(Parse(Dotted(a, b, c, d)).value) == Dotted(a, b, c, d)
  {
    var w := NumeralIsDecimal(a);
    var x := NumeralIsDecimal(b);
    var y := NumeralIsDecimal(c);
    var z := NumeralIsDecimal(d);
    ParseNumbers(w, x, y, z);
    TextIsDotted(Parse(Dotted(a, b, c, d)).value);
  }

  /** 7 to 15 characters: with the NUL the text fits the 16-byte and the 18-byte buffers. */
  lemma TextLength(ip: Ip)
    ensures 7 <= |Text(ip)| <= 15
  {
    OctetLength(ip.o0);
    OctetLength(ip.o1);
    OctetLength(ip.o2);
    OctetLength(ip.o3);
  }

  lemma OctetLength(n: Octet)
    ensures 1 <= |Decimal(n)| <= 3
  {
    if n >= 100 {
      assert |Decimal(n)| == |Decimal(n / 10)| + 1 && |Decimal(n / 10)| == |Decimal(n / 10 / 10)| + 1;
      assert n / 10 / 10 < 10;
    } else if n >= 10 {
      assert |Decimal(n)| == |Decimal(n / 10)| + 1;
    }
  }

  /** esp_ip_2_str: the text, a NUL, and nothing beyond it. */
  method EspIp2Str(buf: array<char>, ip: Ip) returns (n: int)
    requires buf.Length >= 16
    modifies buf
    ensures n == |Text(ip)| < buf.Length
    ensures buf[..n] == Text(ip) && buf[n] == '\0' && buf[n + 1..] == old(buf[n + 1..])
  {
    TextLength(ip);
    var text := Text(ip);
    n := |text|;
    forall i | 0 <= i < n {
      buf[i] := text[i];
    }
    buf[n] := '\0';
    assert buf[..n] == text;
  }

  // ---------- From octets to text ----------

  /** End to end: the octets given to IP4_ADDR are the ones printed, in that order. */
  lemma OctetsArePrinted(a: bv8, b: bv8, c: bv8, d: bv8, x: bv32)
    requires x == Ip4Addr(a as bv32, b as bv32, c as bv32, d as bv32)
    ensures IpOf(x) == Octets(a, b, c, d) && Parse(Text(IpOf(x))) == Some(Octets(a, b, c, d))
  {
    Ip4AddrBytes(a, b, c, d);
    ParseInvertsText(IpOf(x));
  }

  /** The bytes of a word determine the word. */
  lemma IpOfIsInjective(x: bv32, y: bv32)
    requires IpOf(x) == IpOf(y)
    ensures x == y
  {
    SameOctet(Byte(x, 0), Byte(y, 0));
    SameOctet(Byte(x, 1), Byte(y, 1));
    SameOctet(Byte(x, 2), Byte(y, 2));
    SameOctet(Byte(x, 3), Byte(y, 3));
    WordOfBytes(x);
    WordOfBytes(y);
  }

  /** Two addresses that are printed alike are the same 32-bit word. */
  lemma PrintedWordIsInjective(x: bv32, y: bv32)
    requires Text(IpOf(x)) == Text(IpOf(y))
    ensures x == y
  {
    TextIsInjective(IpOf(x), IpOf(y));
    IpOfIsInjective(x, y);
  }

  lemma SameOctet(x: bv8, y: bv8)
    requires x as nat == y as nat
    ensures x == y
  {
  }
}
