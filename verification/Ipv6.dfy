/**
 IPv6 addresses and prefixes as text, read by the rules of section 2.2 (address text) and section 2.3
 (prefix text) of RFC 4291. Addresses are their eight 16-bit groups.
 */
module Ipv6 {
  import opened Text
  import opened Arithmetic

  const GROUP: nat := 0x1_0000

  type Addr = seq<nat>

  datatype Prefix = Prefix(addr: Addr, bits: nat)

  // Hexadecimal, as "%x" prints it.

  function HexDigit(d: nat): char
    requires d < 16
  {
    if d < 10 then ('0' as int + d) as char else ('a' as int + (d - 10)) as char
  }

  function HexValue(c: char): Option<nat> {
    if '0' <= c <= '9' then Some(c as int - '0' as int)
    else if 'a' <= c <= 'f' then Some(c as int - 'a' as int + 10)
    else if 'A' <= c <= 'F' then Some(c as int - 'A' as int + 10)
    else None
  }

  function Hex(n: nat): string {
    if n < 16 then [HexDigit(n)] else Hex(n / 16) + [HexDigit(n % 16)]
  }

  /** The number a string of hexadecimal digits denotes. */
  function HexNumber(s: string): Option<nat> {
    if s == "" then Some(0)
    else match (HexNumber(s[..|s| - 1]), HexValue(s[|s| - 1]))
      case (Some(high), Some(low)) => Some(high * 16 + low)
      case _ => None
  }

  /** Numbers are printed in lower case and without leading zeros. */
  lemma {:induction false} HexIsCanonical(n: nat)
    ensures forall c :: c in Hex(n) ==> '0' <= c <= '9' || 'a' <= c <= 'f'
    ensures n > 0 ==> Hex(n)[0] != '0'
    ensures n == 0 ==> Hex(n) == "0"
  {
    if n >= 16 { HexIsCanonical(n / 16); }
  }

  lemma {:induction false} HexRoundTrip(n: nat)
    ensures HexNumber(Hex(n)) == Some(n)
    ensures |Hex(n)| >= 1
    ensures forall c :: c in Hex(n) ==> HexValue(c).Some?
  {
    if n < 16 {
      assert Hex(n)[..0] == "";
    } else {
      HexRoundTrip(n / 16);
      assert Hex(n)[..|Hex(n)| - 1] == Hex(n / 16);
    }
  }

  lemma {:induction false} HexWidth(n: nat)
    ensures |Hex(n)| <= 4 <==> n < GROUP
  {
    assert |Hex(n)| == 1 <==> n < 16;
    if n >= 16 {
      assert |Hex(n / 16)| == 1 <==> n / 16 < 16;
      if n >= 0x100 {
        assert |Hex(n / 16 / 16)| == 1 <==> n / 16 / 16 < 16;
        if n >= 0x1000 {
          assert |Hex(n / 16 / 16 / 16)| == 1 <==> n / 16 / 16 / 16 < 16;
        }
      }
    }
  }

  /** One group: one to four hexadecimal digits. */
  function ParseGroup(s: string): Option<nat> {
    if 1 <= |s| <= 4 then HexNumber(s) else None
  }

  lemma {:induction false} GroupReadsIffFits(n: nat)
    ensures ParseGroup(Hex(n)) == if n < GROUP then Some(n) else None
  {
    HexRoundTrip(n);
    HexWidth(n);
  }

  // Addresses.

  function ParseGroups(parts: seq<string>): Option<seq<nat>> {
    if parts == [] then Some([])
    else match (ParseGroup(parts[0]), ParseGroups(parts[1..]))
      case (Some(g), Some(gs)) => Some([g] + gs)
      case _ => None
  }

  /** Colon-separated groups on one side of a "::"; nothing at all is no group. */
  function ParseSide(s: string): Option<seq<nat>> {
    if s == "" then Some([]) else ParseGroups(Split(s, ':'))
  }

  /** The text before and after the first "::". */
  function CutDouble(s: string): (r: Option<(string, string)>) {
    if |s| < 2 then None
    else if s[0] == ':' && s[1] == ':' then Some(("", s[2..]))
    else match CutDouble(s[1..])
      case None => None
      case Some((a, b)) => Some(([s[0]] + a, b))
  }

  function Zeros(n: nat): seq<nat> { seq(n, _ => 0) }

  function ParseAddr(s: string): Option<Addr> {
    match CutDouble(s)
    case Some((a, b)) => (
      match (ParseSide(a), ParseSide(b))
      case (Some(l), Some(r)) => if |l| + |r| <= 7 then Some(l + Zeros(8 - |l| - |r|) + r) else None
      case _ => None)
    case None =>
      match ParseSide(s)
      case Some(gs) => if |gs| == 8 then Some(gs) else None
      case None => None
  }

  /** Every address of the platform: `fd00:{high}:{mid}::{low}`. */
  function Triple(high: nat, mid: nat, low: string): string {
    "fd00:" + (Hex(high) + (":" + (Hex(mid) + ("::" + low))))
  }

  function AddrText(high: nat, mid: nat, low: nat): string { Triple(high, mid, Hex(low)) }

  function AddrGroups(high: nat, mid: nat, low: nat): Addr { [0xfd00, high, mid, 0, 0, 0, 0, low] }

  lemma {:induction false} CutDoubleFirst(a: string, b: string)
    requires a != "" && a[|a| - 1] != ':'
    requires forall i :: 0 <= i < |a| - 1 ==> !(a[i] == ':' && a[i + 1] == ':')
    ensures CutDouble(a + ("::" + b)) == Some((a, b))
    decreases |a|
  {
    var s := a + ("::" + b);
    if |a| == 1 {
      var t := "::" + b;
      assert s[1..] == t && t[2..] == b;
      assert CutDouble(t) == Some(("", b));
      assert [s[0]] + "" == a;
    } else {
      assert s[1] == a[1];
      assert s[1..] == a[1..] + ("::" + b);
      CutDoubleFirst(a[1..], b);
      assert a == [a[0]] + a[1..];
    }
  }

  lemma {:induction false} HexHasNoColon(n: nat)
    ensures ':' !in Hex(n)
    ensures Hex(n) != ""
  {
    HexRoundTrip(n);
    assert HexValue(':').None?;
  }

  /** The left side of an address: three groups. */
  lemma {:induction false} LeftSide(high: nat, mid: nat)
    ensures var left := "fd00:" + (Hex(high) + (":" + Hex(mid)));
      && Split(left, ':') == ["fd00", Hex(high), Hex(mid)]
      && left[|left| - 1] != ':'
      && (forall i :: 0 <= i < |left| - 1 ==> !(left[i] == ':' && left[i + 1] == ':'))
  {
    HexHasNoColon(high);
    HexHasNoColon(mid);
    var left := "fd00:" + (Hex(high) + (":" + Hex(mid)));
    var rest := Hex(high) + (":" + Hex(mid));
    assert left == "fd00" + [':'] + rest;
    SplitFirst("fd00", ':', rest);
    assert rest == Hex(high) + [':'] + Hex(mid);
    SplitFirst(Hex(high), ':', Hex(mid));
    SplitWhole(Hex(mid), ':');
    forall i | 0 <= i < |left| - 1 ensures !(left[i] == ':' && left[i + 1] == ':') {
      if left[i] == ':' {
        assert i == 4 || i == 5 + |Hex(high)|;
      }
    }
  }

  lemma {:induction false} GroupFd00()
    ensures ParseGroup("fd00") == Some(0xfd00)
  {
    var s := "fd00";
    assert s[..3] == "fd0" && s[..3][..2] == "fd" && s[..3][..2][..1] == "f" && s[..3][..2][..1][..0] == "";
    assert HexNumber("f") == Some(0xf);
    assert HexNumber("fd") == Some(0xfd);
    assert HexNumber("fd0") == Some(0xfd0);
  }

  lemma {:induction false} OneGroup(s: string)
    ensures ParseGroups([s]) == match ParseGroup(s) case Some(g) => Some([g]) case None => None
  {
    assert [s][1..] == [];
    if ParseGroup(s).Some? { assert [ParseGroup(s).value] + [] == [ParseGroup(s).value]; }
  }

  lemma {:induction false} GroupsFirst(s: string, rest: seq<string>)
    ensures ParseGroups([s] + rest)
         == match (ParseGroup(s), ParseGroups(rest)) case (Some(g), Some(gs)) => Some([g] + gs) case _ => None
  {
    assert ([s] + rest)[1..] == rest;
  }

  lemma {:induction false} ThreeGroups(high: nat, mid: nat)
    ensures ParseGroups(["fd00", Hex(high), Hex(mid)])
         == if high < GROUP && mid < GROUP then Some([0xfd00, high, mid]) else None
  {
    GroupFd00();
    GroupReadsIffFits(high);
    GroupReadsIffFits(mid);
    OneGroup(Hex(mid));
    GroupsFirst(Hex(high), [Hex(mid)]);
    GroupsFirst("fd00", [Hex(high), Hex(mid)]);
    assert [Hex(high)] + [Hex(mid)] == [Hex(high), Hex(mid)];
    assert ["fd00"] + [Hex(high), Hex(mid)] == ["fd00", Hex(high), Hex(mid)];
    if high < GROUP && mid < GROUP {
      assert [0xfd00] + ([high] + [mid]) == [0xfd00, high, mid];
    }
  }

  /** Reading a printed address gives back its fields exactly when each fits a group. */
  lemma {:induction false} AddrReadsBackIffFits(high: nat, mid: nat, low: nat)
    ensures ParseAddr(AddrText(high, mid, low))
         == if high < GROUP && mid < GROUP && low < GROUP then Some(AddrGroups(high, mid, low)) else None
  {
    var left := "fd00:" + (Hex(high) + (":" + Hex(mid)));
    LeftSide(high, mid);
    assert AddrText(high, mid, low) == left + ("::" + Hex(low));
    CutDoubleFirst(left, Hex(low));
    ThreeGroups(high, mid);
    HexHasNoColon(low);
    SplitWhole(Hex(low), ':');
    GroupReadsIffFits(low);
    OneGroup(Hex(low));
    if high < GROUP && mid < GROUP && low < GROUP {
      assert [0xfd00, high, mid] + Zeros(4) + [low] == AddrGroups(high, mid, low);
    }
  }

  // Prefixes.

  function ParseBits(s: string): Option<nat> {
    if |s| == 0 || |s| > 3 || (|s| > 1 && s[0] == '0') then None
    else match Decimal(s)
      case Some(n) => if n <= 128 then Some(n) else None
      case None => None
  }

  function Decimal(s: string): Option<nat> {
    if s == "" then Some(0)
    else match Decimal(s[..|s| - 1])
      case Some(high) =>
        if '0' <= s[|s| - 1] <= '9' then Some(high * 10 + (s[|s| - 1] as int - '0' as int)) else None
      case None => None
  }

  /** Address, slash, prefix length. */
  function ParsePrefix(s: string): Option<Prefix> {
    match Cut(s, '/')
    case None => None
    case Some((a, b)) =>
      match (ParseAddr(a), ParseBits(b))
      case (Some(addr), Some(bits)) => Some(Prefix(addr, bits))
      case _ => None
  }

  lemma {:induction false} PrefixReadsBack(addr: string, bits: string, n: nat)
    requires '/' !in addr && ParseBits(bits) == Some(n)
    ensures ParsePrefix(addr + ("/" + bits))
         == match ParseAddr(addr) case Some(a) => Some(Prefix(a, n)) case None => None
  {
    assert addr + ("/" + bits) == addr + ['/'] + bits;
    CutFirst(addr, '/', bits);
  }

  lemma {:induction false} TwoDigits(s: string, tens: nat, ones: nat)
    requires |s| == 2 && s[0] as int == '0' as int + tens && s[1] as int == '0' as int + ones
    requires 1 <= tens <= 9 && ones <= 9
    ensures ParseBits(s) == Some(tens * 10 + ones)
  {
    assert s[..1][..0] == "";
    assert Decimal(s[..1]) == Some(tens);
  }

  lemma {:induction false} Bits128()
    ensures ParseBits("128") == Some(128)
  {
    var s := "128";
    assert s[..2] == "12" && s[..2][..1] == "1" && s[..2][..1][..0] == "";
    assert Decimal("1") == Some(1);
    assert Decimal("12") == Some(12);
  }

  lemma {:induction false} AddrTextHasNoSlash(high: nat, mid: nat, low: nat)
    ensures '/' !in AddrText(high, mid, low)
  {
    HexRoundTrip(high);
    HexRoundTrip(mid);
    HexRoundTrip(low);
    assert HexValue('/').None?;
  }

  /** The text of an address without a right side. */
  function Network(high: nat, mid: nat): string { "fd00:" + (Hex(high) + (":" + Hex(mid))) + ("::" + "") }

  lemma {:induction false} NetworkReadsBackIffFits(high: nat, mid: nat)
    ensures ParseAddr(Network(high, mid)) == if high < GROUP && mid < GROUP then Some(AddrGroups(high, mid, 0)) else None
  {
    LeftSide(high, mid);
    CutDoubleFirst("fd00:" + (Hex(high) + (":" + Hex(mid))), "");
    ThreeGroups(high, mid);
    if high < GROUP && mid < GROUP {
      assert [0xfd00, high, mid] + Zeros(5) + [] == AddrGroups(high, mid, 0);
    }
  }

  lemma {:induction false} NetworkHasNoSlash(high: nat, mid: nat)
    ensures '/' !in Network(high, mid)
  {
    HexRoundTrip(high);
    HexRoundTrip(mid);
    assert HexValue('/').None?;
  }

  /** `fd00:{high}:{mid}::/48` reads back as that prefix exactly when its fields fit. */
  lemma {:induction false} Prefix48ReadsBackIffFits(high: nat, mid: nat)
    ensures ParsePrefix(Triple(high, mid, "/48"))
         == if high < GROUP && mid < GROUP then Some(Prefix(AddrGroups(high, mid, 0), 48)) else None
  {
    assert Triple(high, mid, "/48") == Network(high, mid) + ("/" + "48");
    NetworkHasNoSlash(high, mid);
    TwoDigits("48", 4, 8);
    PrefixReadsBack(Network(high, mid), "48", 48);
    NetworkReadsBackIffFits(high, mid);
  }

  // Which addresses a prefix covers.

  /** The leading `bits` bits of the two addresses agree. */
  ghost predicate Covers(p: Prefix, addr: Addr) {
    && |addr| == |p.addr| == 8 && p.bits <= 128
    && (forall i :: 0 <= i < p.bits / 16 ==> addr[i] == p.addr[i])
    && (p.bits % 16 != 0 ==>
          var i, unit := p.bits / 16, PowerOfTwo(16 - p.bits % 16);
          Quotient(addr[i], unit) == Quotient(p.addr[i], unit))
  }

  /** A /48 covers exactly the addresses that share its three leading groups. */
  lemma {:induction false} Prefix48Covers(high: nat, mid: nat, addr: Addr)
    requires |addr| == 8
    ensures Covers(Prefix(AddrGroups(high, mid, 0), 48), addr)
       <==> addr[0] == 0xfd00 && addr[1] == high && addr[2] == mid
  {
    var p := AddrGroups(high, mid, 0);
    assert p[0] == 0xfd00 && p[1] == high && p[2] == mid;
    if Covers(Prefix(p, 48), addr) {
      assert addr[0] == p[0] && addr[1] == p[1] && addr[2] == p[2];
    }
  }

  // Addresses as 128-bit numbers.

  /** The number whose digits to the base 65536 are the first n groups. */
  function Value(addr: Addr, n: nat): nat
    requires n <= |addr|
  {
    if n == 0 then 0 else Value(addr, n - 1) * GROUP + addr[n - 1]
  }

  predicate IsAddress(addr: Addr) { |addr| == 8 && forall i :: 0 <= i < 8 ==> addr[i] < GROUP }

  lemma {:induction false} ValueBound(addr: Addr, n: nat)
    requires n <= |addr| && forall i :: 0 <= i < n ==> addr[i] < GROUP
    ensures Value(addr, n) < PowerOfTwo(16 * n)
  {
    if n == 0 {
    } else {
      ValueBound(addr, n - 1);
      PowerSixteen();
      PowerAdd(16 * (n - 1), 16);
      Arithmetic.TwoDigits(Value(addr, n - 1), addr[n - 1], GROUP, PowerOfTwo(16 * (n - 1)));
    }
  }

  /** Dropping the low groups of a number leaves the number of the high ones. */
  lemma {:induction false} HighPart(addr: Addr, k: nat, n: nat)
    requires k <= n <= |addr| && forall i :: 0 <= i < n ==> addr[i] < GROUP
    ensures Quotient(Value(addr, n), PowerOfTwo(16 * (n - k))) == Value(addr, k)
    decreases n
  {
    if n == k {
      QuotientIs(Value(addr, k), PowerOfTwo(0), Value(addr, k), 0);
    } else {
      HighPart(addr, k, n - 1);
      assert 16 * (n - k) == 16 * (n - 1 - k) + 16;
      DropSixteen(Value(addr, n - 1), addr[n - 1], 16 * (n - 1 - k));
    }
  }

  lemma {:induction false} ValueInjective(a: Addr, b: Addr, n: nat)
    requires n <= |a| && n <= |b| && forall i :: 0 <= i < n ==> a[i] < GROUP && b[i] < GROUP
    ensures Value(a, n) == Value(b, n) <==> forall i :: 0 <= i < n ==> a[i] == b[i]
  {
    if n == 0 {
    } else {
      ValueInjective(a, b, n - 1);
      DigitsAgree(Value(a, n - 1), Value(b, n - 1), a[n - 1], b[n - 1], GROUP);
    }
  }

  /** The number of an address without its last 128 - bits bits. */
  function Leading(addr: Addr, bits: nat): nat
    requires |addr| == 8 && bits <= 128
  {
    Quotient(Value(addr, 8), PowerOfTwo(128 - bits))
  }

  lemma {:induction false} LeadingGroups(addr: Addr, bits: nat)
    requires IsAddress(addr) && bits <= 128 && bits % 16 == 0
    ensures Leading(addr, bits) == Value(addr, bits / 16)
  {
    HighPart(addr, bits / 16, 8);
    assert 16 * (8 - bits / 16) == 128 - bits;
  }

  /** Where the prefix ends inside a group, the upper part of that group is the last digit. */
  lemma {:induction false} LeadingCut(addr: Addr, bits: nat, q: nat, r: nat)
    requires IsAddress(addr) && bits <= 128 && q == bits / 16 && r == bits % 16 && r != 0
    ensures Quotient(addr[q], PowerOfTwo(16 - r)) < PowerOfTwo(r)
    ensures Leading(addr, bits) == Value(addr, q) * PowerOfTwo(r) + Quotient(addr[q], PowerOfTwo(16 - r))
  {
    var rest, unit, top := 16 * (8 - (q + 1)), PowerOfTwo(16 - r), PowerOfTwo(r);
    assert 128 - bits == (16 - r) + rest;
    HighPart(addr, q + 1, 8);
    PowerAdd(16 - r, rest);
    QuotientTwice(Value(addr, 8), PowerOfTwo(rest), unit);
    PowerSixteen();
    PowerAdd(r, 16 - r);
    QuotientSplit(Value(addr, q), top, unit, addr[q]);
  }

  /** A prefix covers exactly the addresses whose 128-bit numbers agree with its own in the leading bits. */
  lemma {:induction false} CoversIsNumeric(p: Prefix, addr: Addr)
    requires IsAddress(p.addr) && IsAddress(addr) && p.bits <= 128
    ensures Covers(p, addr) <==> Leading(addr, p.bits) == Leading(p.addr, p.bits)
  {
    var q, r := p.bits / 16, p.bits % 16;
    ValueInjective(addr, p.addr, q);
    if r == 0 {
      LeadingGroups(addr, p.bits);
      LeadingGroups(p.addr, p.bits);
    } else {
      var unit, top := PowerOfTwo(16 - r), PowerOfTwo(r);
      LeadingCut(addr, p.bits, q, r);
      LeadingCut(p.addr, p.bits, q, r);
      DigitsAgree(Value(addr, q), Value(p.addr, q), Quotient(addr[q], unit), Quotient(p.addr[q], unit), top);
    }
  }

  /** In terms of division: the low 128 - bits bits do not matter, and all others do. */
  lemma {:induction false} CoversIsDivision(p: Prefix, addr: Addr)
    requires IsAddress(p.addr) && IsAddress(addr) && p.bits <= 128
    ensures Covers(p, addr)
       <==> Value(addr, 8) / PowerOfTwo(128 - p.bits) == Value(p.addr, 8) / PowerOfTwo(128 - p.bits)
  {
    CoversIsNumeric(p, addr);
    QuotientIsDivision(Value(addr, 8), PowerOfTwo(128 - p.bits));
    QuotientIsDivision(Value(p.addr, 8), PowerOfTwo(128 - p.bits));
  }

  /** The numbers of addresses are below 2^128. */
  lemma {:induction false} NumberBound(addr: Addr)
    requires IsAddress(addr)
    ensures Value(addr, 8) < PowerOfTwo(128)
  {
    ValueBound(addr, 8);
  }
}
