/** Number texts: fmt's %d, strconv.Atoi and 32-bit strconv.ParseUint. */
module Numbers {
  import opened Strings

  predicate IsDigit(c: char) {
    '0' <= c <= '9'
  }

  predicate AllDigits(s: string) {
    s != "" && forall c :: c in s ==> IsDigit(c)
  }

  /** Value of a digit string. */
  function Value(s: string): nat
    requires forall c :: c in s ==> IsDigit(c)
  {
    if s == "" then 0
    else
      var last := s[|s| - 1];
      assert last in s && IsDigit(last);
      10 * Value(s[..|s| - 1]) + (last as int - '0' as int)
  }

  function DigitChar(d: nat): (c: char)
    requires d < 10
    ensures IsDigit(c) && c as int - '0' as int == d
  {
    '0' + d as char
  }

  function DecimalNat(n: nat): (s: string)
    ensures AllDigits(s) && Value(s) == n
  {
    if n < 10 then [DigitChar(n)]
    else
      var front := DecimalNat(n / 10);
      var s := front + [DigitChar(n % 10)];
      assert s[..|s| - 1] == front;
      s
  }

  /** %d of a signed number. */
  function Decimal(n: int): string {
    if n < 0 then "-" + DecimalNat(-n) else DecimalNat(n)
  }

  const INT64_MAX: int := 0x7FFF_FFFF_FFFF_FFFF
  const UINT32_LIMIT: int := 0x1_0000_0000

  /** `strconv.Atoi`: an optional sign, digits, and a 64-bit range; None stands
      for its error. */
  function Atoi(s: string): Option<int> {
    var body := if s != "" && (s[0] == '-' || s[0] == '+') then s[1..] else s;
    if !AllDigits(body) then None
    else
      var n: int := if s[0] == '-' then -(Value(body) as int) else Value(body);
      if -INT64_MAX - 1 <= n <= INT64_MAX then Some(n) else None
  }

  /** `strconv.ParseUint(s, 10, 32)`: digits only. */
  function ParseUint32(s: string): Option<nat> {
    if AllDigits(s) && Value(s) < UINT32_LIMIT then Some(Value(s)) else None
  }

  /** Printing is injective. */
  lemma DecimalInjective(m: int, n: int)
    requires Decimal(m) == Decimal(n)
    ensures m == n
  {
    var a, b := DecimalNat(if m < 0 then -m else m), DecimalNat(if n < 0 then -n else n);
    assert a[0] in a && b[0] in b;
    if m < 0 {
      assert Decimal(m)[1..] == a;
    }
    if n < 0 {
      assert Decimal(n)[1..] == b;
    }
  }

  lemma DecimalChars(n: int)
    ensures forall c :: c in Decimal(n) ==> IsDigit(c) || c == '-'
  {
  }

  /** `n` is written with these digits, after a sign if there is one. */
  ghost predicate Writes(s: string, digits: string, n: int) {
    AllDigits(digits) &&
    ((s == digits && n == Value(digits)) || (s == "+" + digits && n == Value(digits))
     || (s == "-" + digits && n == -(Value(digits) as int)))
  }

  /** Atoi reads exactly the signed digit strings of numbers that fit 64 bits. */
  lemma AtoiMeans(s: string, n: int)
    ensures Atoi(s) == Some(n) <==>
      -0x8000_0000_0000_0000 <= n < 0x8000_0000_0000_0000 && exists digits :: Writes(s, digits, n)
  {
    hide Value;
    var body := if s != "" && (s[0] == '-' || s[0] == '+') then s[1..] else s;
    if s != "" && (s[0] == '-' || s[0] == '+') {
      assert s == [s[0]] + body;
    }
    if AllDigits(body) {
      assert s != "";
      assert Writes(s, body, if s[0] == '-' then -(Value(body) as int) else Value(body));
    }
    forall digits | Writes(s, digits, n)
      ensures body == digits && s != ""
    {
      assert digits[0] in digits;
      if s != digits {
        assert s[1..] == digits;
      }
    }
  }

  /** ParseUint reads exactly the unsigned ones below 2^32. */
  lemma ParseUint32Means(s: string, n: nat)
    ensures ParseUint32(s) == Some(n) <==> n < 0x1_0000_0000 && AllDigits(s) && Value(s) == n
  {
    hide Value;
  }

  /** Leading zeros do not count, and a number is written without them. */
  lemma {:induction false} ValueLeadingZero(s: string)
    requires AllDigits(s)
    ensures Value("0" + s) == Value(s)
  {
    var t := "0" + s;
    assert s[|s| - 1] in s && t[|t| - 1] == s[|s| - 1];
    if |s| == 1 {
      assert t[..|t| - 1] == "0" && s[..0] == "" && "0"[..0] == "";
    } else {
      assert t[..|t| - 1] == "0" + s[..|s| - 1];
      ValueLeadingZero(s[..|s| - 1]);
    }
  }

  /** Both read back what is printed; only negative numbers have a sign. */
  lemma PrintedIsRead(n: int)
    ensures n < 0 <==> Decimal(n)[0] == '-'
    ensures -0x8000_0000_0000_0000 <= n < 0x8000_0000_0000_0000 ==> Atoi(Decimal(n)) == Some(n)
    ensures 0 <= n < 0x1_0000_0000 ==> ParseUint32(Decimal(n)) == Some(n)
  {
    hide Value;
    var digits := DecimalNat(if n < 0 then -n else n);
    assert digits[0] in digits;
    AtoiMeans(Decimal(n), n);
    assert Writes(Decimal(n), digits, n);
  }
}
