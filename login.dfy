/**
 * The login page of src/pages/Login.jsx: the ABHA number field, which keeps its value
 * formatted and never longer than a full ABHA number, the submit check that opens the OTP
 * dialog, and what happens once the OTP has been verified.
 */
module Login {
  import opened Text
  import opened Abha

  /** The answer of `login(abhaId)` from the authentication context. */
  datatype LoginResult = LoginSucceeded | LoginFailed(message: string)

  const INVALID_ID_MESSAGE := "Please enter a valid ABHA ID"

  /** A value the field can hold: formatted, and at most 17 characters long. */
  predicate Storable(s: string)
  {
    FormatAbhaId(s) == s && |s| <= ABHA_LENGTH
  }

  /** A storable value has at most 14 digits, and it is a full ABHA number exactly when it
      has 17 characters. */
  lemma StorableShape(s: string)
    requires Storable(s)
    ensures |Digits(s)| <= ABHA_DIGITS
    ensures |s| == ABHA_LENGTH <==> IsValidAbhaId(s)
  {
    FormatLength(s);
    ValidIffFormatted(s);
  }

  class LoginPage {
    var abhaId: string
    var error: string
    var showOtpModal: bool
    /** Set when the page navigates to /dashboard. */
    var onDashboard: bool

    predicate Valid()
      reads this
    {
      Storable(abhaId)
    }

    constructor ()
      ensures Valid()
      ensures abhaId == "" && error == "" && !showOtpModal && !onDashboard
    {
      abhaId := "";
      error := "";
      showOtpModal := false;
      onDashboard := false;
    }

    /** `handleAbhaIdChange`: the typed value is formatted and kept only if it still fits. */
    method HandleAbhaIdChange(value: string)
      requires Valid()
      modifies this`abhaId
      ensures Valid()
      ensures |FormatAbhaId(value)| <= ABHA_LENGTH ==> abhaId == FormatAbhaId(value)
      ensures |FormatAbhaId(value)| > ABHA_LENGTH ==> abhaId == old(abhaId)
    {
      var formatted := FormatAbhaId(value);
      if |formatted| <= ABHA_LENGTH {
        FormatIdempotent(value);
        abhaId := formatted;
      }
    }

    /** `handleSubmit`: a short value sets the error; a full one opens the OTP dialog, and is
        then a well-formed ABHA number. */
    method HandleSubmit()
      requires Valid()
      modifies this`error, this`showOtpModal
      ensures Valid()
      ensures |abhaId| < ABHA_LENGTH ==> error == INVALID_ID_MESSAGE && showOtpModal == old(showOtpModal)
      ensures |abhaId| >= ABHA_LENGTH ==> error == "" && showOtpModal && IsValidAbhaId(abhaId)
    {
      error := "";
      if |abhaId| < ABHA_LENGTH {
        error := INVALID_ID_MESSAGE;
        return;
      }
      StorableShape(abhaId);
      showOtpModal := true;
    }

    /** `handleOTPVerify`, given what `login(abhaId)` answered. */
    method HandleOtpVerify(result: LoginResult)
      modifies this`error, this`showOtpModal, this`onDashboard
      ensures result.LoginSucceeded? ==> onDashboard && error == old(error) && showOtpModal == old(showOtpModal)
      ensures result.LoginFailed? ==> error == result.message && !showOtpModal && onDashboard == old(onDashboard)
    {
      if result.LoginSucceeded? {
        onDashboard := true;
      } else {
        error := result.message;
        showOtpModal := false;
      }
    }
  }
}
