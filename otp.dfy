/**
 * The OTP dialog of src/components/OTPModal.jsx: opening it resets its state and starts a
 * one-second interval counting down to the moment the resend button appears; the input keeps
 * at most six digits; submitting compares them with the generated OTP.
 *
 * The interval's updater is a pure step on the countdown (`Ticked`); the interval itself is the
 * environment calling `OtpModal.Tick` once a second. `Math.random()` is the parameter `draw`,
 * the integer part of `Math.random() * 900000`.
 */
module Otp {
  import opened Text

  const RESEND_SECONDS := 30
  const OTP_LENGTH := 6

  /** `resendTimer`, `canResend`, and whether the interval is still scheduled. */
  datatype Countdown = Countdown(timer: int, canResend: bool, running: bool)

  /** The state the opening effect sets and whose interval it starts. */
  function Started(): Countdown
  {
    Countdown(RESEND_SECONDS, false, true)
  }

  /** One firing of the interval: at 1 or below the timer stops at 0, the resend button
      appears and the interval is cleared. A cleared interval no longer fires. */
  function Ticked(c: Countdown): Countdown
  {
    if !c.running then c
    else if c.timer <= 1 then Countdown(0, true, false)
    else c.(timer := c.timer - 1)
  }

  function Ticks(c: Countdown, n: nat): Countdown
  {
    if n == 0 then c else Ticked(Ticks(c, n - 1))
  }

  /** A running countdown at `t` shows `t - n` after `n < t` seconds and lets the user resend
      after `t`. */
  lemma {:induction false} TicksFromRunning(t: int, n: nat)
    requires 1 <= t
    ensures n < t ==> Ticks(Countdown(t, false, true), n) == Countdown(t - n, false, true)
    ensures n >= t ==> Ticks(Countdown(t, false, true), n) == Countdown(0, true, false)
  {
    if n > 0 {
      TicksFromRunning(t, n - 1);
    }
  }

  /** After opening, the resend button appears after exactly 30 seconds. */
  lemma ResendAfterThirtySeconds(n: nat)
    ensures Ticks(Started(), n).canResend <==> n >= RESEND_SECONDS
  {
    TicksFromRunning(RESEND_SECONDS, n);
  }

  /** A countdown whose interval is cleared never changes again. */
  lemma {:induction false} StoppedStaysPut(c: Countdown, n: nat)
    requires !c.running
    ensures Ticks(c, n) == c
  {
    if n > 0 {
      StoppedStaysPut(c, n - 1);
    }
  }

  /** `handleResend` as written: the timer and the flag are reset, but the interval was
      cleared when the button appeared and is not started again. */
  function ResentAsWritten(c: Countdown): Countdown
  {
    c.(timer := RESEND_SECONDS, canResend := false)
  }

  /** The resend that was evidently intended: it starts the countdown again. */
  function ResentFixed(c: Countdown): Countdown
  {
    Started()
  }

  /** As written, a resend hides the resend button for good: the dialog shows
      "Resend in 30s" however long one waits. */
  lemma ResendAsWrittenStalls(c: Countdown, n: nat)
    requires c.canResend && !c.running
    ensures Ticks(ResentAsWritten(c), n) == Countdown(RESEND_SECONDS, false, false)
    ensures !Ticks(ResentAsWritten(c), n).canResend
  {
    StoppedStaysPut(ResentAsWritten(c), n);
  }

  /** With the fix, the button comes back 30 seconds after every resend. */
  lemma ResendFixedReturns(c: Countdown, n: nat)
    ensures Ticks(ResentFixed(c), n).canResend <==> n >= RESEND_SECONDS
  {
    ResendAfterThirtySeconds(n);
  }

  /** `10^k` */
  function Pow10(k: nat): nat
  {
    if k == 0 then 1 else 10 * Pow10(k - 1)
  }

  /** A number with `k + 1` decimal digits renders as `k + 1` characters. */
  lemma {:induction false} NatToStringLength(n: nat, k: nat)
    requires Pow10(k) <= n < Pow10(k + 1)
    ensures |NatToString(n)| == k + 1
  {
    if k > 0 {
      NatToStringLength(n / 10, k - 1);
    }
  }

  /** `Math.floor(100000 + Math.random() * 900000).toString()` with `draw` the integer part of
      the product. */
  function GenerateOtp(draw: nat): (otp: string)
    requires draw < 900000
    ensures |otp| == OTP_LENGTH && AllDigits(otp)
  {
    NatToStringLength(100000 + draw, 5);
    NatToString(100000 + draw)
  }

  /** The state of the dialog is well formed: the OTP typed so far has at most six digits, a
      generated OTP has exactly six, and the button shows only once the interval is over. */
  predicate WellFormed(otp: string, generated: string, c: Countdown)
  {
    && |otp| <= OTP_LENGTH && AllDigits(otp)
    && (generated == "" || (|generated| == OTP_LENGTH && AllDigits(generated)))
    && (c.canResend ==> !c.running)
  }

  class OtpModal {
    var isOpen: bool
    var otp: string
    var error: string
    var generatedOtp: string
    var countdown: Countdown

    predicate Valid()
      reads this
    {
      WellFormed(otp, generatedOtp, countdown) && (isOpen ==> generatedOtp != "")
    }

    constructor ()
      ensures Valid() && !isOpen && otp == "" && error == "" && generatedOtp == ""
      ensures countdown == Countdown(RESEND_SECONDS, false, false)
    {
      isOpen := false;
      otp := "";
      error := "";
      generatedOtp := "";
      countdown := Countdown(RESEND_SECONDS, false, false);
    }

    /** The effect run when `isOpen` becomes true. */
    method Open(draw: nat)
      requires Valid() && draw < 900000
      modifies this
      ensures Valid()
      ensures isOpen && otp == "" && error == "" && generatedOtp == GenerateOtp(draw)
      ensures countdown == Started()
    {
      isOpen := true;
      otp := "";
      error := "";
      countdown := Started();
      generatedOtp := GenerateOtp(draw);
    }

    /** `onClose`: the parent hides the dialog and the effect's cleanup clears the interval. */
    method Close()
      requires Valid()
      modifies this`isOpen, this`countdown
      ensures Valid() && !isOpen && countdown == old(countdown).(running := false)
    {
      isOpen := false;
      countdown := countdown.(running := false);
    }

    /** One second passes. */
    method Tick()
      requires Valid()
      modifies this`countdown
      ensures Valid() && countdown == Ticked(old(countdown))
    {
      countdown := Ticked(countdown);
    }

    /** The input's `onChange`: non-digits are dropped and a value longer than six digits is
        refused. */
    method InputChange(value: string)
      requires Valid()
      modifies this`otp
      ensures Valid()
      ensures |Digits(value)| <= OTP_LENGTH ==> otp == Digits(value)
      ensures |Digits(value)| > OTP_LENGTH ==> otp == old(otp)
    {
      var cleaned := Digits(value);
      if |cleaned| <= OTP_LENGTH {
        otp := cleaned;
      }
    }

    /** `handleSubmit`; `verified` says whether `onVerify` and then `onClose` were called. */
    method Submit() returns (verified: bool)
      requires Valid() && isOpen
      modifies this`error, this`isOpen, this`countdown
      ensures Valid()
      ensures verified <==> otp == generatedOtp
      ensures |otp| != OTP_LENGTH ==> error == "Please enter a valid 6-digit OTP" && isOpen
      ensures |otp| == OTP_LENGTH && !verified ==> error == "Invalid OTP. Please try again." && isOpen
      ensures verified ==> error == "" && !isOpen
    {
      if |otp| != OTP_LENGTH {
        error := "Please enter a valid 6-digit OTP";
        return false;
      }
      error := "";
      if otp == generatedOtp {
        Close();
        return true;
      }
      error := "Invalid OTP. Please try again.";
      return false;
    }

    /** `handleResend` as written, offered only while the resend button is shown. */
    method Resend(draw: nat)
      requires Valid() && isOpen && countdown.canResend && draw < 900000
      modifies this`error, this`generatedOtp, this`countdown
      ensures Valid()
      ensures error == "" && generatedOtp == GenerateOtp(draw)
      ensures countdown == ResentAsWritten(old(countdown))
    {
      countdown := countdown.(timer := RESEND_SECONDS, canResend := false);
      error := "";
      generatedOtp := GenerateOtp(draw);
    }

    /** `handleResend` with the countdown started again. */
    method ResendFixed(draw: nat)
      requires Valid() && isOpen && countdown.canResend && draw < 900000
      modifies this`error, this`generatedOtp, this`countdown
      ensures Valid()
      ensures error == "" && generatedOtp == GenerateOtp(draw)
      ensures countdown == ResentFixed(old(countdown))
    {
      countdown := Started();
      error := "";
      generatedOtp := GenerateOtp(draw);
    }
  }
}
