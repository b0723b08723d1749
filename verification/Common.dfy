/** Failure-compatible results, text as the journals judge it, and the fixed identity formats. */
module Common {

  datatype Option<+T> = None | Some(value: T)

  /** A call that either returns or raises the module's own error class. */
  datatype Result<+T> = Success(value: T) | Failure {
    predicate IsFailure() {
      Failure?
    }

    function PropagateFailure<U>(): Result<U>
      requires Failure?
    {
      Failure
    }

    function Extract(): T
      requires Success?
    {
      value
    }
  }

  newtype byte = b: int | 0 <= b < 256
  type Bytes = seq<byte>

  /** How a call ends: normally, by an exception, or with the process killed inside it. */
  datatype Outcome = Done | Raised | Crashed

  /** What becomes of one foreign call: anything, unless calls are reliable. */
  method Fate(reliable: bool) returns (outcome: Outcome)
    ensures reliable ==> outcome == Done
  {
    if reliable {
      outcome := Done;
    } else {
      outcome := *;
    }
  }

  /** One code point of a failure reason, with the verdict `str.isprintable` gives for it. */
  datatype Glyph = Glyph(code: nat, printable: bool)

  const MAX_FAILURE_REASON := 160

  predicate AllPrintable(text: seq<Glyph>) {
    forall i | 0 <= i < |text| :: text[i].printable
  }

  /** The test every "mark incomplete" step applies to its reason. */
  predicate AcceptableReason(reason: seq<Glyph>) {
    0 < |reason| <= MAX_FAILURE_REASON && AllPrintable(reason)
  }

  predicate IsLowerHex(s: string) {
    forall i | 0 <= i < |s| :: '0' <= s[i] <= '9' || 'a' <= s[i] <= 'f'
  }

  /** `tag[0-9a-f]{32}`, the shape of every operation identity. */
  predicate IsTaggedHex(tag: string, s: string) {
    |s| == |tag| + 32 && s[..|tag|] == tag && IsLowerHex(s[|tag|..])
  }

  /** `[0-9a-f]{64}`, the shape of a digest supplied as text. */
  predicate IsHexDigest(s: string) {
    |s| == 64 && IsLowerHex(s)
  }

  predicate AllDigits(s: string) {
    forall i | 0 <= i < |s| :: '0' <= s[i] <= '9'
  }

  function Decimal(digits: string): nat
    requires AllDigits(digits)
  {
    if digits == "" then 0
    else 10 * Decimal(digits[..|digits| - 1]) + (digits[|digits| - 1] as int - '0' as int)
  }

  /** The digits of a number, most significant first. */
  function DecimalText(n: nat): string {
    (if n < 10 then "" else DecimalText(n / 10)) + [(n % 10) as char + '0']
  }

  function Zeros(k: nat): string {
    seq(k, _ => '0')
  }

  lemma OneMoreDigit(digits: string, d: char)
    requires AllDigits(digits) && '0' <= d <= '9'
    ensures AllDigits(digits + [d])
    ensures Decimal(digits + [d]) == 10 * Decimal(digits) + (d as int - '0' as int)
  {
    assert (digits + [d])[..|digits|] == digits;
  }

  /** Reading a number's digits gives the number back. */
  lemma {:induction false} DecimalReadsBack(n: nat)
    ensures AllDigits(DecimalText(n)) && DecimalText(n) != "" && Decimal(DecimalText(n)) == n
  {
    var d := (n % 10) as char + '0';
    if n < 10 {
      OneMoreDigit("", d);
      assert DecimalText(n) == "" + [d];
    } else {
      DecimalReadsBack(n / 10);
      OneMoreDigit(DecimalText(n / 10), d);
    }
  }

  lemma {:induction false} ZerosAreZero(k: nat)
    ensures AllDigits(Zeros(k)) && Decimal(Zeros(k)) == 0
  {
    if k == 0 {
    } else {
      ZerosAreZero(k - 1);
      OneMoreDigit(Zeros(k - 1), '0');
      assert Zeros(k) == Zeros(k - 1) + ['0'];
    }
  }

  /** Leading zeros change nothing. */
  lemma {:induction false} LeadingZerosVanish(k: nat, digits: string)
    requires AllDigits(digits)
    ensures AllDigits(Zeros(k) + digits) && Decimal(Zeros(k) + digits) == Decimal(digits)
    decreases |digits|
  {
    if digits == "" {
      ZerosAreZero(k);
      assert Zeros(k) + digits == Zeros(k);
    } else {
      var front, last := digits[..|digits| - 1], digits[|digits| - 1];
      assert digits == front + [last];
      LeadingZerosVanish(k, front);
      hide Decimal, Zeros;
      OneMoreDigit(Zeros(k) + front, last);
      OneMoreDigit(front, last);
      assert Zeros(k) + digits == Zeros(k) + front + [last];
    }
  }

  lemma TextOfOneDigit(d: nat)
    requires d < 10
    ensures DecimalText(d) == [d as char + '0']
  {
    assert "" + [d as char + '0'] == [d as char + '0'];
  }

  lemma TextOfMoreDigits(n: nat, d: nat)
    requires n > 0 && d < 10
    ensures DecimalText(10 * n + d) == DecimalText(n) + [d as char + '0']
  {
    assert (10 * n + d) / 10 == n && (10 * n + d) % 10 == d;
  }

  lemma NumeralAndDigit(k: nat, n: nat, d: nat) returns (zeros: nat)
    requires d < 10
    ensures Zeros(k) + DecimalText(n) + [d as char + '0'] == Zeros(zeros) + DecimalText(10 * n + d)
  {
    hide DecimalText;
    TextOfOneDigit(d);
    if n == 0 {
      TextOfOneDigit(0);
      assert Zeros(k) + ['0'] == Zeros(k + 1);
      zeros := k + 1;
    } else {
      TextOfMoreDigits(n, d);
      zeros := k;
      assert Zeros(k) + DecimalText(n) + [d as char + '0'] == Zeros(k) + (DecimalText(n) + [d as char + '0']);
    }
  }

  lemma SplitLast(digits: string) returns (front: string, d: nat)
    requires AllDigits(digits) && digits != ""
    ensures |front| < |digits| && AllDigits(front) && d < 10 && digits == front + [d as char + '0']
    ensures Decimal(digits) == 10 * Decimal(front) + d
  {
    front, d := digits[..|digits| - 1], digits[|digits| - 1] as int - '0' as int;
  }

  /** Every text of digits is zeros and the digits of the number it is read as. */
  lemma {:induction false} DigitsAreZerosAndNumber(digits: string) returns (k: nat)
    requires AllDigits(digits) && digits != ""
    ensures digits == Zeros(k) + DecimalText(Decimal(digits))
    decreases |digits|
  {
    var front, d := SplitLast(digits);
    if front == "" {
      k := 0;
      TextOfOneDigit(d);
      assert Zeros(0) + [d as char + '0'] == digits;
    } else {
      hide Decimal, DecimalText, Zeros;
      var zeros := DigitsAreZerosAndNumber(front);
      k := NumeralAndDigit(zeros, Decimal(front), d);
    }
  }

  /** The text is the number's digits, perhaps after zeros. */
  ghost predicate IsNumeral(text: string, n: nat) {
    exists k: nat :: text == Zeros(k) + DecimalText(n)
  }

  /** A text of digits is read as the one number it is a numeral of. */
  lemma NumeralsAreRead(text: string, n: nat)
    ensures IsNumeral(text, n) <==> text != "" && AllDigits(text) && Decimal(text) == n
  {
    hide Decimal, DecimalText, Zeros;
    DecimalReadsBack(n);
    if IsNumeral(text, n) {
      var k: nat :| text == Zeros(k) + DecimalText(n);
      LeadingZerosVanish(k, DecimalText(n));
    }
    if text != "" && AllDigits(text) && Decimal(text) == n {
      var k := DigitsAreZerosAndNumber(text);
    }
  }

  predicate IsHexDigit(c: char) {
    c in "0123456789abcdef"
  }

  /** A digest's text is 64 lower-case hexadecimal digits. */
  lemma DigestsAreHex(s: string)
    ensures IsHexDigest(s) <==> |s| == 64 && forall i | 0 <= i < |s| :: IsHexDigit(s[i])
  {
    HexDigits(s);
  }

  /** An identity is its tag and 32 of them. */
  lemma IdentitiesAreTagAndHex(tag: string, s: string)
    ensures IsTaggedHex(tag, s)
            <==> exists h: string :: |h| == 32 && s == tag + h && forall i | 0 <= i < |h| :: IsHexDigit(h[i])
  {
    if IsTaggedHex(tag, s) {
      var h := s[|tag|..];
      HexDigits(h);
      assert s == tag + h;
    }
    forall h: string | |h| == 32 && s == tag + h && forall i | 0 <= i < |h| :: IsHexDigit(h[i])
      ensures IsTaggedHex(tag, s)
    {
      HexDigits(h);
      assert s[..|tag|] == tag && s[|tag|..] == h;
    }
  }

  lemma HexDigits(s: string)
    ensures IsLowerHex(s) <==> forall i | 0 <= i < |s| :: IsHexDigit(s[i])
  {
    forall i | 0 <= i < |s| ensures IsHexDigit(s[i]) <==> '0' <= s[i] <= '9' || 'a' <= s[i] <= 'f' {
      HexDigit(s[i]);
    }
  }

  lemma HexDigit(c: char)
    ensures IsHexDigit(c) <==> '0' <= c <= '9' || 'a' <= c <= 'f'
  {
    var all := "0123456789abcdef";
    assert forall k | 0 <= k < 16 :: all[k] == if k < 10 then '0' + k as char else 'a' + (k - 10) as char;
    if '0' <= c <= '9' {
      assert all[c as int - '0' as int] == c;
    } else if 'a' <= c <= 'f' {
      assert all[c as int - 'a' as int + 10] == c;
    }
  }
}
