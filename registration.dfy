/**
 * Input validation of the registration form (`submitUserData`): the plate is
 * trimmed and upper-cased and must match /^[A-Z0-9]{6}$/, the phone is trimmed
 * and must match /^[0-9]{9}$/, the e-mail is trimmed and never checked.
 */
module Registration {
  import opened Wrappers
  import opened Text

  predicate IsPlateChar(c: char) {
    'A' <= c <= 'Z' || '0' <= c <= '9'
  }

  predicate IsDigit(c: char) {
    '0' <= c <= '9'
  }

  /** The regular expression /^[A-Z0-9]{6}$/. */
  predicate MatchesPlatePattern(s: string) {
    |s| == 6 && forall i :: 0 <= i < |s| ==> IsPlateChar(s[i])
  }

  /** The regular expression /^[0-9]{9}$/. */
  predicate MatchesPhonePattern(s: string) {
    |s| == 9 && forall i :: 0 <= i < |s| ==> IsDigit(s[i])
  }

  /** `plateInput.value.trim().toUpperCase()`. */
  function NormalizePlate(raw: string): string {
    Upper(Trim(raw))
  }

  /** A normalised plate has no ASCII small letter and no whitespace at either end. */
  lemma NormalizePlateShape(raw: string)
    ensures var p := NormalizePlate(raw);
            && (forall i :: 0 <= i < |p| ==> !('a' <= p[i] <= 'z'))
            && (p != [] ==> !IsWhitespace(p[0]) && !IsWhitespace(p[|p| - 1]))
  {
  }

  /**
   * Normalising a normalised plate changes nothing, and the order of the two
   * steps does not matter.
   */
  lemma {:induction false} NormalizePlateIdempotent(raw: string)
    ensures NormalizePlate(NormalizePlate(raw)) == NormalizePlate(raw)
    ensures NormalizePlate(raw) == Trim(Upper(raw))
  {
    var t := Trim(raw);
    UpperTrimCommute(t);
    TrimIdempotent(raw);
    UpperAfterLower(t);
    UpperTrimCommute(raw);
  }

  /** The JSON body sent to the registration endpoint. */
  datatype RegisterRequest = RegisterRequest(plate: string, email: string, phone: string)

  /** Which check stopped the form; the plate is checked first. */
  datatype ValidationError = InvalidPlate | InvalidPhone

  /**
   * The checks made before any request is sent: a request exists exactly when
   * both patterns match, and it carries the normalised fields.
   */
  function ValidateRegistration(plateInput: string, emailInput: string, phoneInput: string)
    : (r: Result<RegisterRequest, ValidationError>)
    ensures r.Success? <==>
              MatchesPlatePattern(NormalizePlate(plateInput)) && MatchesPhonePattern(Trim(phoneInput))
    ensures r == Failure(InvalidPlate) <==> !MatchesPlatePattern(NormalizePlate(plateInput))
    ensures r.Success? ==>
              && MatchesPlatePattern(r.value.plate)
              && MatchesPhonePattern(r.value.phone)
              && r.value.plate == NormalizePlate(plateInput)
              && r.value.email == Trim(emailInput)
              && r.value.phone == Trim(phoneInput)
  {
    var plate := NormalizePlate(plateInput);
    var email := Trim(emailInput);
    var phone := Trim(phoneInput);
    if !MatchesPlatePattern(plate) then Failure(InvalidPlate)
    else if !MatchesPhonePattern(phone) then Failure(InvalidPhone)
    else Success(RegisterRequest(plate, email, phone))
  }

  /** The e-mail field never decides whether the form is accepted. */
  lemma EmailNeverChecked(plateInput: string, email1: string, email2: string, phoneInput: string)
    ensures ValidateRegistration(plateInput, email1, phoneInput).Success?
        <==> ValidateRegistration(plateInput, email2, phoneInput).Success?
  {
  }

  /** A plate of six plate characters is its own normal form. */
  lemma PlatePatternIsNormal(plate: string)
    requires MatchesPlatePattern(plate)
    ensures NormalizePlate(plate) == plate
  {
  }

  /** A phone of nine digits is left alone by trimming. */
  lemma PhonePatternIsTrimmed(phone: string)
    requires MatchesPhonePattern(phone)
    ensures Trim(phone) == phone
  {
  }

  /** Submitting the request that was sent would send exactly the same request again. */
  lemma {:induction false} AcceptedRequestRevalidates(plateInput: string, emailInput: string, phoneInput: string)
    requires ValidateRegistration(plateInput, emailInput, phoneInput).Success?
    ensures var req := ValidateRegistration(plateInput, emailInput, phoneInput).value;
            ValidateRegistration(req.plate, req.email, req.phone) == Success(req)
  {
    var req := ValidateRegistration(plateInput, emailInput, phoneInput).value;
    PlatePatternIsNormal(req.plate);
    PhonePatternIsTrimmed(req.phone);
    TrimIdempotent(emailInput);
  }

  /** The plate is case-insensitive: typing it in lower case gives the same request. */
  lemma {:induction false} PlateIgnoresCase(plateInput: string, emailInput: string, phoneInput: string)
    ensures ValidateRegistration(Lower(plateInput), emailInput, phoneInput)
         == ValidateRegistration(plateInput, emailInput, phoneInput)
  {
    LowerTrimCommute(plateInput);
    UpperAfterLower(Trim(plateInput));
  }

  lemma PaddedPlateNormalizes()
    ensures NormalizePlate(" ab12c3 ") == "AB12C3"
  {
    var padded := " ab12c3 ";
    assert SkipForward(padded, 1) == 1;
    assert SkipForward(padded, 0) == 1;
    assert SkipBackward(padded, 1, 7) == 7;
    assert SkipBackward(padded, 1, 8) == 7;
    assert padded[1..7] == "ab12c3";
    assert Trim(padded) == "ab12c3";
    assert Upper("ab12c3") == "AB12C3";
  }

  /** " ab12c3 " is accepted, and the plate sent is "AB12C3". */
  lemma AcceptsLowerCasePlate()
    ensures ValidateRegistration(" ab12c3 ", "a@b.pe", "987654321")
         == Success(RegisterRequest("AB12C3", "a@b.pe", "987654321"))
  {
    PaddedPlateNormalizes();
    assert MatchesPlatePattern("AB12C3");
    PhonePatternIsTrimmed("987654321");
    assert Trim("a@b.pe") == "a@b.pe";
  }

  /** A five-digit phone is refused before any request. */
  lemma RejectsShortPhone()
    ensures ValidateRegistration("AB12C3", "a@b.pe", "12345") == Failure(InvalidPhone)
  {
    PlatePatternIsNormal("AB12C3");
    assert Trim("12345") == "12345";
  }
}
