/** What a `tabindex` attribute says: which texts are integers, and which of those are negative. */
module TabindexTexts {

  // ---- the pattern and the parse ----

  /** White space and line ends as the pattern's `\s` has them. */
  predicate Blank(c: char) {
    var n := c as int;
    || 9 <= n <= 13 || n == 0x20 || n == 0xA0 || n == 0x1680 || 0x2000 <= n <= 0x200A
    || n == 0x2028 || n == 0x2029 || n == 0x202F || n == 0x205F || n == 0x3000 || n == 0xFEFF
  }

  predicate Digit(c: char) { '0' <= c <= '9' }

  function SkipBlanks(s: string): string { if s != "" && Blank(s[0]) then SkipBlanks(s[1..]) else s }

  /** Digits up to the first other character. */
  function Digits(s: string): (r: string)
    ensures |r| <= |s|
  {
    if s != "" && Digit(s[0]) then [s[0]] + Digits(s[1..]) else ""
  }

  function Unsigned(s: string): string {
    var t := SkipBlanks(s);
    if t != "" && (t[0] == '+' || t[0] == '-') then t[1..] else t
  }

  /** Optional blanks, optional sign, digits, optional blanks. */
  predicate IsInteger(s: string) {
    var t := Unsigned(s);
    Digits(t) != "" && SkipBlanks(t[|Digits(t)|..]) == ""
  }

  predicate IsNegative(s: string) {
    var t := SkipBlanks(s);
    t != "" && t[0] == '-' && exists c <- Digits(t[1..]) :: c != '0'
  }

  // ---- the number a text stands for ----

  function Decimal(digits: string): (value: int)
    ensures value >= 0
  {
    if digits == "" then 0
    else
      var n := |digits| - 1;
      var d := if '0' <= digits[n] <= '9' then digits[n] as int - '0' as int else 0;
      10 * Decimal(digits[..n]) + d
  }

  predicate Blanks(s: string) { forall c <- s :: Blank(c) }

  predicate Numeral(s: string) { s != "" && forall c <- s :: '0' <= c <= '9' }

  /** The text is this number in decimal, perhaps signed, perhaps between blanks. */
  ghost predicate StandsFor(s: string, value: int) {
    exists before, sign, digits, after :: SpelledOut(s, before, sign, digits, after, value)
  }

  predicate SpelledOut(s: string, before: string, sign: string, digits: string, after: string, value: int) {
    && s == before + sign + digits + after
    && Blanks(before) && sign in {"", "+", "-"} && Numeral(digits) && Blanks(after)
    && value == (if sign == "-" then -Decimal(digits) else Decimal(digits))
  }

  lemma {:induction false} SkipsBlanks(before: string, rest: string)
    requires Blanks(before) && (rest == "" || !Blank(rest[0]))
    ensures SkipBlanks(before + rest) == rest
  {
    if before == "" {
      assert before + rest == rest;
    } else {
      assert (before + rest)[1..] == before[1..] + rest;
      SkipsBlanks(before[1..], rest);
    }
  }

  lemma {:induction false} TakesDigits(digits: string, rest: string)
    requires (forall c <- digits :: Digit(c)) && (rest == "" || !Digit(rest[0]))
    ensures Digits(digits + rest) == digits
  {
    if digits == "" {
      assert digits + rest == rest;
    } else {
      assert (digits + rest)[1..] == digits[1..] + rest;
      TakesDigits(digits[1..], rest);
      assert digits == [digits[0]] + digits[1..];
    }
  }

  lemma {:induction false} BlanksSkipped(s: string) returns (before: string)
    ensures Blanks(before) && s == before + SkipBlanks(s)
    ensures SkipBlanks(s) == "" || !Blank(SkipBlanks(s)[0])
  {
    if s != "" && Blank(s[0]) {
      hide Blank;
      var more := BlanksSkipped(s[1..]);
      before := [s[0]] + more;
      assert s == [s[0]] + s[1..];
    } else {
      before := "";
    }
  }

  lemma {:induction false} DigitsTaken(s: string)
    ensures forall c <- Digits(s) :: Digit(c)
    ensures s == Digits(s) + s[|Digits(s)|..]
  {
    if s != "" && Digit(s[0]) {
      DigitsTaken(s[1..]);
      assert s == [s[0]] + s[1..];
    }
  }

  lemma ZerosLast(digits: string)
    requires digits != ""
    ensures var n := |digits| - 1;
            (forall c <- digits :: c == '0') <==> (forall c <- digits[..n] :: c == '0') && digits[n] == '0'
  {
    var n := |digits| - 1;
    if (forall c <- digits[..n] :: c == '0') && digits[n] == '0' {
      forall c | c in digits ensures c == '0' {
        var i :| 0 <= i < |digits| && digits[i] == c;
        assert i < n ==> digits[..n][i] == c && c in digits[..n];
      }
    }
    if forall c <- digits :: c == '0' {
      assert digits[n] in digits;
      forall c | c in digits[..n] ensures c == '0' {
        assert c in digits;
      }
    }
  }

  lemma {:induction false} ZeroDecimal(digits: string)
    requires forall c <- digits :: Digit(c)
    ensures Decimal(digits) == 0 <==> forall c <- digits :: c == '0'
  {
    if digits != "" {
      var n := |digits| - 1;
      assert digits == digits[..n] + [digits[n]];
      ZeroDecimal(digits[..n]);
      assert digits[n] in digits && Digit(digits[n]);
      ZerosLast(digits);
    }
  }

  lemma UnsignedIs(before: string, sign: string, rest: string)
    requires Blanks(before) && sign in {"", "+", "-"} && rest != "" && Digit(rest[0])
    ensures SkipBlanks(before + (sign + rest)) == sign + rest && Unsigned(before + (sign + rest)) == rest
    ensures (sign + rest)[0] == '-' <==> sign == "-"
  {
    var signed := sign + rest;
    assert sign == "" ==> signed == rest;
    assert sign != "" ==> signed[0] == sign[0] && signed[1..] == rest;
    SkipsBlanks(before, signed);
  }

  lemma {:induction false} DigitsEnd(digits: string, after: string)
    requires Numeral(digits) && Blanks(after)
    ensures (digits + after) != "" && Digit((digits + after)[0]) && Digits(digits + after) == digits
    ensures SkipBlanks((digits + after)[|digits|..]) == ""
  {
    assert digits[0] in digits && (after != "" ==> after[0] in after);
    TakesDigits(digits, after);
    SkipsBlanks(after, "");
    assert after + "" == after && (digits + after)[|digits|..] == after;
  }

  lemma SpelledIsInteger(s: string, before: string, sign: string, digits: string, after: string, value: int)
    requires SpelledOut(s, before, sign, digits, after, value)
    ensures IsInteger(s) && (IsNegative(s) <==> value < 0)
  {
    hide SkipBlanks, Digits, Decimal, Blank, Unsigned, Digit;
    Together(before, sign, digits, after);
    DigitsEnd(digits, after);
    UnsignedIs(before, sign, digits + after);
    DigitsAll(digits);
    ZeroDecimal(digits);
    assert sign == "-" ==> (sign + (digits + after))[1..] == digits + after;
  }

  lemma DigitsAll(digits: string)
    requires Numeral(digits)
    ensures forall c <- digits :: Digit(c)
  {
  }

  lemma Together(before: string, sign: string, digits: string, after: string)
    ensures before + (sign + (digits + after)) == before + sign + digits + after
  {
  }

  /** The sign a text starts with, if any. */
  function SignOf(t: string): string { if t != "" && (t[0] == '+' || t[0] == '-') then [t[0]] else "" }

  lemma IntegerIsSpelled(s: string)
    requires IsInteger(s)
    ensures exists value :: StandsFor(s, value)
  {
    var before := BlanksSkipped(s);
    var sign, u := SignOf(SkipBlanks(s)), Unsigned(s);
    assert SkipBlanks(s) == sign + u;
    var digits, after := Digits(u), u[|Digits(u)|..];
    DigitsTaken(u);
    var blanks := BlanksSkipped(after);
    assert after == blanks;
    hide SkipBlanks, Digits, Decimal, Blank;
    Together(before, sign, digits, after);
    var value := if sign == "-" then -Decimal(digits) else Decimal(digits);
    assert SpelledOut(s, before, sign, digits, after, value);
    assert StandsFor(s, value);
  }

  /** The pattern and the parse agree with the number the text stands for. */
  lemma TextsAreNumbers(s: string)
    ensures IsInteger(s) <==> exists value :: StandsFor(s, value)
    ensures forall value :: StandsFor(s, value) ==> (IsNegative(s) <==> value < 0)
  {
    if IsInteger(s) {
      IntegerIsSpelled(s);
    }
    forall value | StandsFor(s, value) ensures IsInteger(s) && (IsNegative(s) <==> value < 0) {
      var before, sign, digits, after :| SpelledOut(s, before, sign, digits, after, value);
      SpelledIsInteger(s, before, sign, digits, after, value);
    }
  }
}
