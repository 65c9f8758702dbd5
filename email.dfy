/**
 * The notification port. SMTP delivery is not modelled: a send either hands the
 * message over (and it joins `outbox`, the record of everything delivered) or throws,
 * which the service reports by rethrowing "Failed to send OTP email".
 */
module Email {

  /** A one-time-code message and its recipient. */
  datatype OtpEmail = OtpEmail(to: string, otp: string)

  /** The message the port's failure carries once rethrown. */
  const SendFailureMessage: string := "Failed to send OTP email"

  class EmailService {
    var outbox: seq<OtpEmail>

    constructor ()
      ensures outbox == []
    {
      outbox := [];
    }

    /** `sendOtpEmail(to, otp)`: whether delivery succeeds is up to the mail server. */
    method SendOtpEmail(to: string, otp: string) returns (delivered: bool)
      modifies this
      ensures outbox == if delivered then old(outbox) + [OtpEmail(to, otp)] else old(outbox)
    {
      delivered := *;
      if delivered {
        outbox := outbox + [OtpEmail(to, otp)];
      }
    }
  }
}
