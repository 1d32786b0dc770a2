/** What verification says about a request. */
module Outcomes {
  import opened Wrappers
  import StructuredFields
  import SignatureBase
  import Keys

  datatype Outcome = UNSIGNED | VERIFIED | INVALID | UNVERIFIED

  function OutcomeValue(o: Outcome): string {
    match o
    case UNSIGNED => "unsigned"
    case VERIFIED => "verified"
    case INVALID => "invalid"
    case UNVERIFIED => "unverified"
  }

  datatype Reason =
    | Good
    | NoSignatureHeaders | OneHeaderOnly | TooManySignatures | MalformedHeaders | NoUsableSignature
    | WrongType(param: string) | TagNotAccepted | Missing(param: string) | AlgNotAccepted | AuthorityNotCovered
    | CreatedInFuture | Expired | ValidityTooLong | NonceRequired
    | AgentNotSigned | AgentMalformed
    | TestKey | KeyUnavailable(why: Keys.Problem)
    | NoSignatureValue | SignatureNotBytes | BaseFailed(error: SignatureBase.BaseError) | SignatureMismatch
    | NonceReplayed

  /** `keyid` and `tag` are whatever the parameters carried, even when of the wrong type. */
  datatype VerificationResult = VerificationResult(
    outcome: Outcome, reason: Reason, lab: Option<string>, keyid: Option<StructuredFields.BareItem>,
    operator: Option<string>, tag: Option<StructuredFields.BareItem>, covered: seq<StructuredFields.BareItem>)
}
