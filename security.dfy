/** Credential primitives of `app/utils/security.py`: the symbolic password
    hasher, the strength and PIN-format validators, and the verification-code
    formatter. */
module Security {

  import opened Outcomes

  // ---------------------------------------------------------------------
  // Character classes (ASCII stand-ins for Python's str.isupper, str.islower
  // and str.isdigit applied to one character)
  // ---------------------------------------------------------------------

  predicate IsUpper(c: char) { 'A' <= c <= 'Z' }
  predicate IsLower(c: char) { 'a' <= c <= 'z' }
  predicate IsDigit(c: char) { '0' <= c <= '9' }

  datatype CharClass = Upper | Lower | Digit

  predicate InClass(c: char, k: CharClass) {
    match k
    case Upper => IsUpper(c)
    case Lower => IsLower(c)
    case Digit => IsDigit(c)
  }

  /** Some character of `s` belongs to class `k`. */
  ghost predicate Has(s: string, k: CharClass) {
    exists i :: 0 <= i < |s| && InClass(s[i], k)
  }

  /** The generator expression `any(<class test>(c) for c in s)`, scanning
      `s` from the left. */
  function AnyIn(s: string, k: CharClass): (r: bool)
    ensures r <==> Has(s, k)
  {
    if s == [] then false
    else if InClass(s[0], k) then true
    else
      var rest := AnyIn(s[1..], k);
      assert Has(s, k) ==> Has(s[1..], k) by {
        if Has(s, k) {
          var i :| 0 <= i < |s| && InClass(s[i], k);
          assert i != 0 && s[1..][i - 1] == s[i];
        }
      }
      rest
  }

  /** Every character of `s` is a decimal digit (true of the empty string). */
  function AllDigits(s: string): (r: bool)
    ensures r <==> forall i :: 0 <= i < |s| ==> IsDigit(s[i])
  {
    if s == [] then true
    else if !IsDigit(s[0]) then false
    else
      var rest := AllDigits(s[1..]);
      assert (forall i :: 0 <= i < |s[1..]| ==> IsDigit(s[1..][i])) ==> forall i :: 0 <= i < |s| ==> IsDigit(s[i]) by {
        if forall i :: 0 <= i < |s[1..]| ==> IsDigit(s[1..][i]) {
          forall i | 0 <= i < |s| ensures IsDigit(s[i]) {
            if i > 0 { assert s[i] == s[1..][i - 1]; }
          }
        }
      }
      rest
  }

  /** Python's `str.isdigit()`: false on the empty string. */
  function IsDigitString(s: string): bool {
    |s| > 0 && AllDigits(s)
  }

  // ---------------------------------------------------------------------
  // Hashing (bcrypt through passlib, security.py lines 8-30)
  // ---------------------------------------------------------------------

  const DigestPrefix := "$2b$"

  /** Symbolic stand-in for `pwd_context.hash`: a non-empty digest determined
      by the secret. Used for passwords and PINs alike. */
  function Hash(secret: string): (digest: string)
    ensures digest != ""
  {
    DigestPrefix + secret
  }

  /** `pwd_context.verify(plain, digest)`: the digest was produced from `plain`. */
  predicate Verify(plain: string, digest: string) {
    digest == Hash(plain)
  }

  /** A digest verifies exactly the secret it was made from. */
  lemma VerifyHash(plain: string, secret: string)
    ensures Verify(plain, Hash(secret)) <==> plain == secret
  {
    if Verify(plain, Hash(secret)) {
      assert plain == Hash(plain)[|DigestPrefix|..];
      assert secret == Hash(secret)[|DigestPrefix|..];
    }
  }

  /** Python truthiness of a nullable digest column: neither None nor "". */
  predicate Present(stored: Option<string>) {
    stored.Some? && stored.value != ""
  }

  /** `verify_password(plain, user.hashed_password)` on a nullable column:
      passlib answers False for a missing hash. */
  function VerifyPassword(plain: string, stored: Option<string>): (ok: bool)
    ensures ok <==> stored == Some(Hash(plain))
  {
    stored.Some? && Verify(plain, stored.value)
  }

  /** `verify_pin`: an empty or missing digest is refused before the hasher
      is consulted. */
  function VerifyPin(plain: string, stored: Option<string>): (ok: bool)
    ensures !Present(stored) ==> !ok
    ensures ok <==> stored == Some(Hash(plain))
  {
    if !Present(stored) then false
    else Verify(plain, stored.value)
  }

  // ---------------------------------------------------------------------
  // Validators
  // ---------------------------------------------------------------------

  /** The `(is_valid, message)` pair the validators return. */
  datatype Verdict = Verdict(ok: bool, message: string)

  const MinPasswordLength := 8
  const PasswordTooShort := "Password must be at least 8 characters long"
  const PasswordNeedsUpper := "Password must contain at least one uppercase letter"
  const PasswordNeedsLower := "Password must contain at least one lowercase letter"
  const PasswordNeedsDigit := "Password must contain at least one number"
  const PasswordIsValid := "Password is valid"

  /** The strength rule a password has to satisfy. */
  ghost predicate StrongPassword(p: string) {
    |p| >= MinPasswordLength && Has(p, Upper) && Has(p, Lower) && Has(p, Digit)
  }

  /** `validate_password`: accepts exactly the strong passwords; otherwise the
      message names the first failing check in the order length, uppercase,
      lowercase, digit. */
  function ValidatePassword(password: string): (r: Verdict)
    ensures r.ok <==> StrongPassword(password)
    ensures r.ok ==> r.message == PasswordIsValid
    ensures |password| < MinPasswordLength ==> r == Verdict(false, PasswordTooShort)
    ensures |password| >= MinPasswordLength && !Has(password, Upper) ==>
              r == Verdict(false, PasswordNeedsUpper)
    ensures |password| >= MinPasswordLength && Has(password, Upper) && !Has(password, Lower) ==>
              r == Verdict(false, PasswordNeedsLower)
    ensures |password| >= MinPasswordLength && Has(password, Upper) && Has(password, Lower)
              && !Has(password, Digit) ==>
              r == Verdict(false, PasswordNeedsDigit)
  {
    if |password| < MinPasswordLength then Verdict(false, PasswordTooShort)
    else if !AnyIn(password, Upper) then Verdict(false, PasswordNeedsUpper)
    else if !AnyIn(password, Lower) then Verdict(false, PasswordNeedsLower)
    else if !AnyIn(password, Digit) then Verdict(false, PasswordNeedsDigit)
    else Verdict(true, PasswordIsValid)
  }

  const MinPinLength := 4
  const MaxPinLength := 6
  const PinNotDigits := "PIN must contain only digits"
  const PinBadLength := "PIN must be 4-6 digits"
  const PinIsValid := "PIN is valid"

  /** `validate_pin`: accepts exactly the all-digit strings of length 4 to 6.
      A string with a non-digit, and the empty string, gets the "only digits"
      message before its length is looked at. */
  function ValidatePin(pin: string): (r: Verdict)
    ensures r.ok <==> MinPinLength <= |pin| <= MaxPinLength && forall i :: 0 <= i < |pin| ==> IsDigit(pin[i])
    ensures r.ok ==> r.message == PinIsValid
    ensures pin == [] ==> r == Verdict(false, PinNotDigits)
    ensures (exists i :: 0 <= i < |pin| && !IsDigit(pin[i])) ==> r == Verdict(false, PinNotDigits)
    ensures pin != [] && (forall i :: 0 <= i < |pin| ==> IsDigit(pin[i]))
              && (|pin| < MinPinLength || |pin| > MaxPinLength) ==>
              r == Verdict(false, PinBadLength)
  {
    if !IsDigitString(pin) then Verdict(false, PinNotDigits)
    else if |pin| < MinPinLength || |pin| > MaxPinLength then Verdict(false, PinBadLength)
    else Verdict(true, PinIsValid)
  }

  // ---------------------------------------------------------------------
  // Verification codes
  // ---------------------------------------------------------------------

  const CodeLength := 6
  const CodeMin := 100000
  const CodeMax := 999999

  function Pow10(n: nat): (p: nat)
    ensures p >= 1
  {
    if n == 0 then 1 else 10 * Pow10(n - 1)
  }

  function DigitChar(d: nat): (c: char)
    requires d < 10
    ensures IsDigit(c)
  {
    ('0' as int + d) as char
  }

  function DigitValue(c: char): (d: nat)
    requires IsDigit(c)
    ensures d < 10
  {
    c as int - '0' as int
  }

  /** The number a decimal digit string denotes, most significant digit first. */
  function DecimalValue(s: string): nat
    requires forall i :: 0 <= i < |s| ==> IsDigit(s[i])
  {
    if s == [] then 0
    else DecimalValue(s[..|s| - 1]) * 10 + DigitValue(s[|s| - 1])
  }

  /** The format `f"{n:0<width>d}"` for a number that fits in `width` digits:
      exactly `width` decimal digits that read back as `n`. */
  function ZeroPadded(n: nat, width: nat): (s: string)
    requires n < Pow10(width)
    ensures |s| == width
    ensures forall i :: 0 <= i < |s| ==> IsDigit(s[i])
    ensures DecimalValue(s) == n
  {
    if width == 0 then ""
    else
      var prefix := ZeroPadded(n / 10, width - 1);
      var s := prefix + [DigitChar(n % 10)];
      assert s[..|s| - 1] == prefix;
      s
  }

  /** `generate_verification_code`, given the draw of
      `random.randint(100000, 999999)`: six decimal digits whose value is the
      draw, so the value lies in [100000, 999999]. */
  function GenerateVerificationCode(draw: int): (code: string)
    requires CodeMin <= draw <= CodeMax
    ensures |code| == CodeLength
    ensures forall i :: 0 <= i < |code| ==> IsDigit(code[i])
    ensures DecimalValue(code) == draw
    ensures CodeMin <= DecimalValue(code) <= CodeMax
  {
    assert Pow10(CodeLength) == 1000000;
    ZeroPadded(draw, CodeLength)
  }

  /** A digit string never denotes more than its width allows. */
  lemma {:induction false} DecimalValueBound(s: string)
    requires forall i :: 0 <= i < |s| ==> IsDigit(s[i])
    ensures DecimalValue(s) < Pow10(|s|)
  {
    if s != [] {
      DecimalValueBound(s[..|s| - 1]);
    }
  }

  /** A leading zero contributes nothing to the value. */
  lemma {:induction false} LeadingZero(s: string)
    requires |s| > 0 && s[0] == '0'
    requires forall i :: 0 <= i < |s| ==> IsDigit(s[i])
    ensures DecimalValue(s) == DecimalValue(s[1..])
  {
    if |s| > 1 {
      var init := s[..|s| - 1];
      LeadingZero(init);
      assert init[1..] == s[1..][..|s[1..]| - 1];
    } else {
      assert s[1..] == [];
    }
  }

  /** The zero padding of `generate_verification_code` never applies: every
      code starts with a non-zero digit. */
  lemma VerificationCodeHasNoLeadingZero(draw: int)
    requires CodeMin <= draw <= CodeMax
    ensures GenerateVerificationCode(draw)[0] != '0'
  {
    var code := GenerateVerificationCode(draw);
    assert Pow10(5) == 100000;
    if code[0] == '0' {
      LeadingZero(code);
      DecimalValueBound(code[1..]);
      assert false;
    }
  }
}
