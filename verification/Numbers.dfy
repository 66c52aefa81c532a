/** Decimal numbers in text (strconv.Atoi and fmt.Sprint). */
module Numbers {
  import opened Wrappers

  const MAX_INT: int := 0x7FFF_FFFF_FFFF_FFFF

  predicate Digits(s: string) {
    forall i :: 0 <= i < |s| ==> '0' <= s[i] <= '9'
  }

  function DigitsValue(s: string): nat
    requires Digits(s)
  {
    if s == "" then 0 else 10 * DigitsValue(s[..|s| - 1]) + (s[|s| - 1] as int - '0' as int)
  }

  /** An optional sign and decimal digits that fit 64 bits. */
  function Atoi(s: string): Option<int> {
    var signed := s != "" && (s[0] == '-' || s[0] == '+');
    var digits := if signed then s[1..] else s;
    if digits == "" || !Digits(digits) then None
    else
      var n: int := DigitsValue(digits);
      var v := if signed && s[0] == '-' then -n else n;
      if -MAX_INT - 1 <= v <= MAX_INT then Some(v) else None
  }

  function Digit(d: nat): char
    requires d < 10
  {
    ('0' as int + d) as char
  }

  function Sprint(n: nat): string {
    if n < 10 then [Digit(n)] else Sprint(n / 10) + [Digit(n % 10)]
  }

  lemma {:induction false} SprintValue(n: nat)
    ensures Sprint(n) != "" && Digits(Sprint(n)) && DigitsValue(Sprint(n)) == n
    decreases n
  {
    var s := Sprint(n);
    if n < 10 {
      assert s[..|s| - 1] == "";
    } else {
      SprintValue(n / 10);
      assert s[..|s| - 1] == Sprint(n / 10);
    }
  }

  /** A printed number is read back, behind either sign too, exactly while it fits 64 bits. */
  lemma AtoiSprint(n: nat)
    ensures Atoi(Sprint(n)) == Atoi("+" + Sprint(n)) == if n <= MAX_INT then Some(n) else None
    ensures Atoi("-" + Sprint(n)) == if n <= MAX_INT + 1 then Some(0 - n as int) else None
  {
    SprintValue(n);
    AtoiUnsigned(Sprint(n));
    AtoiSigned("+", Sprint(n));
    AtoiSigned("-", Sprint(n));
  }

  function Zeros(k: nat): string {
    if k == 0 then "" else Zeros(k - 1) + "0"
  }

  /** Digits are zeros and then the number they stand for, as it is printed. */
  lemma {:induction false} DigitsPrinted(s: string) returns (k: nat)
    requires s != "" && Digits(s)
    ensures s == Zeros(k) + Sprint(DigitsValue(s))
    decreases |s|
  {
    var front, d := s[..|s| - 1], s[|s| - 1] as int - '0' as int;
    assert s == front + [Digit(d)];
    k := 0;
    if front == "" {
      assert DigitsValue(front) == 0;
    } else {
      k := DigitsPrinted(front);
      k := OneMoreDigit(k, DigitsValue(front), d);
    }
  }

  lemma OneMoreDigit(zeros: nat, n: nat, d: nat) returns (k: nat)
    requires d < 10
    ensures Zeros(zeros) + Sprint(n) + [Digit(d)] == Zeros(k) + Sprint(10 * n + d)
  {
    k := if n == 0 then zeros + 1 else zeros;
    if n > 0 {
      assert (10 * n + d) / 10 == n && (10 * n + d) % 10 == d;
    }
  }

  lemma {:induction false} ZerosBefore(k: nat, n: nat)
    ensures var s := Zeros(k) + Sprint(n);
            s != "" && Digits(s) && DigitsValue(s) == n
    decreases k + n
  {
    var s := Zeros(k) + Sprint(n);
    if n >= 10 {
      ZerosBefore(k, n / 10);
      AppendDigit(Zeros(k) + Sprint(n / 10), n % 10);
      assert s == Zeros(k) + Sprint(n / 10) + [Digit(n % 10)];
    } else if k > 0 {
      ZerosBefore(k - 1, 0);
      assert Zeros(k - 1) + Sprint(0) == Zeros(k);
      AppendDigit(Zeros(k), n);
    } else {
      assert s == Sprint(n);
      SprintValue(n);
    }
  }

  lemma AppendDigit(s: string, d: nat)
    requires Digits(s) && d < 10
    ensures Digits(s + [Digit(d)]) && DigitsValue(s + [Digit(d)]) == 10 * DigitsValue(s) + d
  {
    assert (s + [Digit(d)])[..|s|] == s;
  }

  /** `s` spells `v`: a sign or none, any zeros and the printed number. */
  ghost predicate Spells(s: string, v: int) {
    exists sign, zeros: nat :: SpellsAs(s, v, sign, zeros)
  }

  predicate SpellsAs(s: string, v: int, sign: string, zeros: nat) {
    && (sign == "" || sign == "+" || sign == "-")
    && (if sign == "-" then v <= 0 else v >= 0)
    && s == sign + (Zeros(zeros) + Sprint(if v < 0 then -v else v))
  }

  /** A text is read as a number exactly when it spells that number and the number fits 64 bits. */
  lemma AtoiExact(s: string, v: int)
    ensures Atoi(s) == Some(v) <==> Spells(s, v) && -MAX_INT - 1 <= v <= MAX_INT
  {
    if Atoi(s) == Some(v) {
      ReadSpells(s, v);
    }
    if Spells(s, v) {
      var sign, k: nat :| SpellsAs(s, v, sign, k);
      SpelledRead(s, v, sign, k);
    }
  }

  lemma ReadSpells(s: string, v: int)
    requires Atoi(s) == Some(v)
    ensures Spells(s, v)
  {
    var sign := if s[0] == '-' || s[0] == '+' then s[..1] else "";
    var digits := s[|sign|..];
    assert s == sign + digits;
    var k := DigitsPrinted(digits);
    assert SpellsAs(s, v, sign, k);
  }

  lemma SpelledRead(s: string, v: int, sign: string, zeros: nat)
    requires SpellsAs(s, v, sign, zeros)
    ensures Atoi(s) == if -MAX_INT - 1 <= v <= MAX_INT then Some(v) else None
  {
    var n := if v < 0 then -v else v;
    var digits := Zeros(zeros) + Sprint(n);
    ZerosBefore(zeros, n);
    if sign == "" {
      assert s == digits;
      AtoiUnsigned(digits);
    } else {
      AtoiSigned(sign, digits);
    }
  }

  lemma AtoiUnsigned(s: string)
    requires s != "" && Digits(s)
    ensures Atoi(s) == if DigitsValue(s) <= MAX_INT then Some(DigitsValue(s) as int) else None
  {
    assert '0' <= s[0];
  }

  lemma AtoiSigned(sign: string, s: string)
    requires (sign == "+" || sign == "-") && s != "" && Digits(s)
    ensures var v: int := if sign == "-" then 0 - DigitsValue(s) as int else DigitsValue(s);
            Atoi(sign + s) == if -MAX_INT - 1 <= v <= MAX_INT then Some(v) else None
  {
    assert (sign + s)[1..] == s;
  }
}
