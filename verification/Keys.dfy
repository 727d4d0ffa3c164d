/** Keys of the datasync tree and their order (lib/datasync/path.c). A key is a C string; one
    `char` stands for one byte. Keys that `sscanf("%i")` reads completely are integers and sort
    before the others, by value. */
module Keys {

  datatype Option<+T> = None | Some(value: T)

  // ----- strcmp

  function StrCmp(a: string, b: string): int {
    if a == [] && b == [] then 0
    else if a == [] then -1
    else if b == [] then 1
    else if a[0] < b[0] then -1
    else if b[0] < a[0] then 1
    else StrCmp(a[1..], b[1..])
  }

  lemma {:induction false} StrCmpAntisymmetric(a: string, b: string)
    ensures StrCmp(a, b) == -StrCmp(b, a)
    ensures StrCmp(a, b) == 0 <==> a == b
  {
    if a != [] && b != [] && a[0] == b[0] {
      StrCmpAntisymmetric(a[1..], b[1..]);
      assert a == [a[0]] + a[1..] && b == [b[0]] + b[1..];
    }
  }

  lemma {:induction false} StrCmpTransitive(a: string, b: string, c: string)
    requires StrCmp(a, b) <= 0 && StrCmp(b, c) <= 0
    ensures StrCmp(a, c) <= 0
  {
    if a != [] && b != [] && c != [] && a[0] == b[0] == c[0] {
      StrCmpTransitive(a[1..], b[1..], c[1..]);
    }
  }

  /** `a` comes before `b` at byte `i`: they agree up to there, and `a` ends or has the smaller byte. */
  predicate BelowAt(a: string, b: string, i: nat) {
    && i <= |a| && i < |b| && a[..i] == b[..i]
    && (i == |a| || a[i] < b[i])
  }

  /** The comparison is decided at the first difference; a string comes before its extensions. */
  lemma {:induction false} StrCmpFirst(a: string, b: string)
    ensures StrCmp(a, b) < 0 <==> exists i: nat :: BelowAt(a, b, i)
  {
    if a == [] || b == [] {
      assert a == [] && b != [] ==> BelowAt(a, b, 0);
    } else if a[0] != b[0] {
      assert a[0] < b[0] ==> BelowAt(a, b, 0);
      assert forall i: nat :: BelowAt(a, b, i) && i > 0 ==> a[..i][0] == b[..i][0];
    } else {
      StrCmpFirst(a[1..], b[1..]);
      if i: nat :| BelowAt(a[1..], b[1..], i) {
        assert a[..i + 1] == [a[0]] + a[1..][..i] && b[..i + 1] == [b[0]] + b[1..][..i];
        assert BelowAt(a, b, i + 1);
      }
      if i: nat :| BelowAt(a, b, i) {
        assert a[1..][..i - 1] == a[..i][1..] && b[1..][..i - 1] == b[..i][1..];
        assert BelowAt(a[1..], b[1..], i - 1);
      }
    }
  }

  // ----- sscanf("%i%n") reading a whole string

  const INT64_MAX := 0x7FFF_FFFF_FFFF_FFFF

  predicate IsSpace(c: char) {
    c == ' ' || '\t' <= c <= '\r'
  }

  function DigitVal(c: char): nat {
    if '0' <= c <= '9' then c as int - '0' as int
    else if 'a' <= c <= 'f' then 10 + (c as int - 'a' as int)
    else if 'A' <= c <= 'F' then 10 + (c as int - 'A' as int)
    else 99
  }

  predicate AllDigits(s: string, base: nat) {
    forall i :: 0 <= i < |s| ==> DigitVal(s[i]) < base
  }

  function DigitsVal(s: string, base: nat): nat {
    if s == [] then 0 else DigitsVal(s[..|s| - 1], base) * base + DigitVal(s[|s| - 1])
  }

  function SkipSpaces(s: string): string {
    if s != [] && IsSpace(s[0]) then SkipSpaces(s[1..]) else s
  }

  /** The magnitude of a complete `%i` spelling: 0x.. is hexadecimal, 0.. octal, the rest decimal. */
  function Magnitude(s: string): Option<nat> {
    if |s| >= 2 && s[0] == '0' && (s[1] == 'x' || s[1] == 'X') then
      if AllDigits(s[2..], 16) then Some(DigitsVal(s[2..], 16)) else None
    else if |s| >= 1 && s[0] == '0' then
      if AllDigits(s[1..], 8) then Some(DigitsVal(s[1..], 8)) else None
    else if |s| >= 1 && AllDigits(s, 10) then Some(DigitsVal(s, 10))
    else None
  }

  /** `sscanf(s, "%i%n", &v, &read) == 1 && read == strlen(s)`, with strtoll's saturation. */
  function Scan(s: string): Option<int> {
    var t := SkipSpaces(s);
    var negative := t != [] && t[0] == '-';
    var signed := negative || (t != [] && t[0] == '+');
    match Magnitude(if signed then t[1..] else t)
    case None => None
    case Some(m) =>
      var v: int := if negative then 0 - m else m;
      Some(if v > INT64_MAX then INT64_MAX else if v < -INT64_MAX - 1 then -INT64_MAX - 1 else v)
  }

  // ----- wc_datasync_key_cmp

  const INT_SPAN := 0x1_0000_0000
  const INT_MIN := -0x8000_0000

  /** Conversion of a 64-bit difference to `int`. */
  function Narrow(d: int): int {
    (d - INT_MIN) % INT_SPAN + INT_MIN
  }

  lemma NarrowRange(d: int)
    requires -INT_SPAN < d < INT_SPAN
    ensures Narrow(d) == if d < INT_MIN then d + INT_SPAN else if d >= -INT_MIN then d - INT_SPAN else d
  {
  }

  /** The narrowed difference is its remainder modulo 2^32, read as a signed number. */
  lemma NarrowResidue(d: int)
    ensures Narrow(d) == d % INT_SPAN - if d % INT_SPAN >= -INT_MIN then INT_SPAN else 0
  {
    var k, r := d / INT_SPAN, d % INT_SPAN;
    var e := r - INT_MIN;
    assert d - INT_MIN == k * INT_SPAN + e;
    if e < INT_SPAN {
      QuotientUnique(d - INT_MIN, k, e);
    } else {
      QuotientUnique(d - INT_MIN, k + 1, e - INT_SPAN);
    }
  }

  lemma QuotientUnique(n: int, k: int, r: int)
    requires n == k * INT_SPAN + r && 0 <= r < INT_SPAN
    ensures n % INT_SPAN == r
  {
    var q := n / INT_SPAN;
    assert n == q * INT_SPAN + n % INT_SPAN;
    assert (q - k) * INT_SPAN == r - n % INT_SPAN;
  }

  /** `wc_datasync_key_cmp` on arbitrary strings. */
  function KeyCmp(a: string, b: string): int {
    match (Scan(a), Scan(b))
    case (None, None) => StrCmp(a, b)
    case (Some(_), None) => -1
    case (None, Some(_)) => 1
    case (Some(ia), Some(ib)) => if ia == ib then |a| - |b| else Narrow(ia - ib)
  }

  // ----- keys: what a string means to the comparison

  /** An integer key, or a string that is not an integer spelling. */
  datatype Key = Index(v: int) | Name(s: string)

  function KeyOrd(a: Key, b: Key): int {
    match (a, b)
    case (Index(v), Index(w)) => v - w
    case (Index(_), Name(_)) => -1
    case (Name(_), Index(_)) => 1
    case (Name(s), Name(t)) => StrCmp(s, t)
  }

  lemma KeyOrdAntisymmetric(a: Key, b: Key)
    ensures KeyOrd(a, b) == 0 <==> a == b
    ensures KeyOrd(a, b) < 0 <==> KeyOrd(b, a) > 0
    ensures KeyOrd(a, b) > 0 <==> KeyOrd(b, a) < 0
  {
    if a.Name? && b.Name? {
      StrCmpAntisymmetric(a.s, b.s);
    }
  }

  lemma KeyOrdTransitive(a: Key, b: Key, c: Key)
    requires KeyOrd(a, b) <= 0 && KeyOrd(b, c) <= 0
    ensures KeyOrd(a, c) <= 0
  {
    if a.Name? && b.Name? && c.Name? {
      StrCmpTransitive(a.s, b.s, c.s);
    }
  }

  function NatDecimal(n: nat): string {
    var d := [('0' as int + n % 10) as char];
    if n < 10 then d else NatDecimal(n / 10) + d
  }

  function Decimal(v: int): string {
    if v < 0 then "-" + NatDecimal(-v) else NatDecimal(v)
  }

  /** The canonical spelling of a key. */
  function Spell(k: Key): string {
    match k
    case Index(v) => Decimal(v)
    case Name(s) => s
  }

  function KeyOf(s: string): Key {
    match Scan(s)
    case None => Name(s)
    case Some(v) => Index(v)
  }

  /** The strings on which the comparison is an order: integers are spelled in canonical decimal
      and lie within one window of 2^31 values starting at `low`. */
  predicate Canonical(s: string, low: int) {
    && Spell(KeyOf(s)) == s
    && (KeyOf(s).Index? ==> low <= KeyOf(s).v < low + 0x8000_0000)
  }

  /** On canonical strings `wc_datasync_key_cmp` is the key order. */
  lemma {:induction false} KeyCmpIsKeyOrd(a: string, b: string, low: int)
    requires Canonical(a, low) && Canonical(b, low)
    ensures KeyCmp(a, b) == KeyOrd(KeyOf(a), KeyOf(b))
    ensures KeyCmp(a, b) == 0 <==> a == b
  {
    KeyOrdAntisymmetric(KeyOf(a), KeyOf(b));
    if KeyOf(a).Index? && KeyOf(b).Index? {
      NarrowRange(KeyOf(a).v - KeyOf(b).v);
    }
  }

  /** Strings that are no integers are compared byte by byte, whatever they hold. */
  lemma KeyCmpOfNames(a: string, b: string)
    requires Scan(a).None? && Scan(b).None?
    ensures KeyCmp(a, b) < 0 <==> exists i: nat :: BelowAt(a, b, i)
    ensures KeyCmp(a, b) > 0 <==> exists i: nat :: BelowAt(b, a, i)
  {
    hide Scan, StrCmp, BelowAt;
    StrCmpFirst(a, b);
    StrCmpFirst(b, a);
    StrCmpAntisymmetric(a, b);
  }

  // ----- every canonical decimal of the window is a key

  lemma {:induction false} NatDecimalDigits(n: nat)
    ensures |NatDecimal(n)| >= 1 && AllDigits(NatDecimal(n), 10)
    ensures DigitsVal(NatDecimal(n), 10) == n
    ensures n != 0 ==> NatDecimal(n)[0] != '0'
    ensures forall i :: 0 <= i < |NatDecimal(n)| ==> '0' <= NatDecimal(n)[i] <= '9'
  {
    var d := [('0' as int + n % 10) as char];
    if n < 10 {
      assert d[..0] == [] && DigitsVal(d[..0], 10) == 0;
    } else {
      NatDecimalDigits(n / 10);
      assert NatDecimal(n)[..|NatDecimal(n)| - 1] == NatDecimal(n / 10);
    }
  }

  lemma {:induction false} ScanDecimal(v: int)
    requires -INT64_MAX - 1 <= v <= INT64_MAX
    ensures Scan(Decimal(v)) == Some(v)
  {
    var m := if v < 0 then -v else v;
    var s := NatDecimal(m);
    NatDecimalDigits(m);
    assert SkipSpaces(Decimal(v)) == Decimal(v);
    if m == 0 {
      assert s == "0" && s[1..] == [];
    }
    assert Magnitude(s) == Some(m);
    if v < 0 {
      assert Decimal(v)[1..] == s;
    }
  }

  /** Beyond 64 bits a decimal is read as the nearest 64-bit integer. */
  lemma ScanSaturates(v: int)
    requires v > INT64_MAX || v < -INT64_MAX - 1
    ensures Scan(Decimal(v)) == Some(if v > 0 then INT64_MAX else -INT64_MAX - 1)
  {
    var m := if v < 0 then -v else v;
    NatDecimalDigits(m);
    hide NatDecimal, DigitsVal;
    assert SkipSpaces(Decimal(v)) == Decimal(v);
    assert Magnitude(NatDecimal(m)) == Some(m);
    assert v < 0 ==> Decimal(v)[1..] == NatDecimal(m);
  }

  /** Which keys have a canonical spelling that reads back. */
  lemma SpellRoundTrip(k: Key)
    requires match k
             case Index(v) => -INT64_MAX - 1 <= v <= INT64_MAX
             case Name(s) => Scan(s).None?
    ensures KeyOf(Spell(k)) == k
  {
    if k.Index? {
      ScanDecimal(k.v);
    }
  }

  // ----- what the comparison does outside the domain

  /** Exactly when two strings compare equal: beside equality, two integer spellings of the same
      value and length, or two values a non-zero multiple of 2^32 apart. */
  lemma {:induction false} KeyCmpZero(a: string, b: string)
    ensures KeyCmp(a, b) == 0 <==>
            || a == b
            || (&& Scan(a).Some? && Scan(b).Some?
                && if Scan(a) == Scan(b) then |a| == |b|
                   else (Scan(a).value - Scan(b).value) % INT_SPAN == 0)
  {
    hide Scan, Narrow, StrCmp;
    StrCmpAntisymmetric(a, b);
    if Scan(a).Some? && Scan(b).Some? {
      NarrowResidue(Scan(a).value - Scan(b).value);
    }
  }

  /** The sign for any two different 64-bit integers: what counts is the difference modulo 2^32. */
  lemma {:induction false} KeyCmpSign(v: int, w: int)
    requires -INT64_MAX - 1 <= v <= INT64_MAX && -INT64_MAX - 1 <= w <= INT64_MAX && v != w
    ensures KeyCmp(Decimal(v), Decimal(w)) > 0 <==> 0 < (v - w) % INT_SPAN < -INT_MIN
    ensures KeyCmp(Decimal(v), Decimal(w)) < 0 <==> (v - w) % INT_SPAN >= -INT_MIN
    ensures INT_MIN <= v - w < -INT_MIN ==> (KeyCmp(Decimal(v), Decimal(w)) < 0 <==> v < w)
  {
    hide Decimal, Narrow, Scan;
    ScanDecimal(v);
    ScanDecimal(w);
    NarrowResidue(v - w);
  }

  /** Three keys that the comparison puts in a circle: the last one sorts before the first. */
  lemma KeyCmpCircle()
    ensures var (a, b, c) := (Decimal(0), Decimal(1_500_000_000), Decimal(3_000_000_000));
            KeyCmp(a, b) < 0 && KeyCmp(b, c) < 0 && KeyCmp(c, a) < 0
  {
    hide KeyCmp, Decimal;
    KeyCmpSign(0, 1_500_000_000);
    KeyCmpSign(1_500_000_000, 3_000_000_000);
    KeyCmpSign(3_000_000_000, 0);
  }

  /** Spellings of each kind: hexadecimal, octal, signed, after a space, and out of range; and strings that are no
      integers. */
  lemma ScanExamples()
    ensures Scan("0x1f") == Some(31) && Scan("017") == Some(15) && Scan("+5") == Some(5) && Scan(" -5") == Some(-5)
    ensures Scan("09") == None && Scan("5a") == None && Scan("") == None && Scan("-") == None
  {
    assert "0x1f"[2..] == "1f" && "1f"[..1] == "1" && "1"[..0] == "";
    assert "017"[1..] == "17" && "17"[..1] == "1";
    assert "+5"[1..] == "5" && "5"[..0] == "" && " -5"[1..] == "-5" && "-5"[1..] == "5";
    assert DigitsVal("1f", 16) == 31 && DigitsVal("17", 8) == 15 && DigitsVal("5", 10) == 5;
    assert DigitVal("09"[1..][0]) == 9 && DigitVal("5a"[1]) == 10;
  }

  lemma KeyCmpExamples()
    ensures KeyCmp("-0", "00") == 0
    ensures KeyCmp("2", "10") < 0 && StrCmp("2", "10") > 0
    ensures KeyCmp("10", "a") < 0
  {
    ScanDecimal(2);
    ScanDecimal(10);
    assert NatDecimal(2) == "2" && NatDecimal(1) == "1" && NatDecimal(10) == "10";
    assert "-0"[1..] == "0" && "0"[1..] == "" && "00"[1..] == "0" && "0"[..0] == "";
    assert DigitsVal("0", 8) == 0;
    assert Scan("-0") == Some(0) && Scan("00") == Some(0);
    assert DigitVal("a"[0]) >= 10;
  }
}
