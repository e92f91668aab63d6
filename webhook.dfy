/**
 * The HTTP webhook variant of payment verification: the notification
 * arrives as an already-decoded form or JSON mapping, is normalised with
 * the same alias table, and must additionally be in roubles
 * (`currency == "643"`). Rejections are HTTP 400 responses.
 */
module Webhook {
  import opened Wrappers
  import opened Strings
  import opened PyDict
  import opened YooMoney
  import opened Ledger
  import ChatNotification

  const RoublesCode: string := "643"

  /** The webhook's `is_valid`: the chat handler's two conjuncts and the currency. */
  predicate WebhookValid(params: Dict, configuredSecret: string, sha1: string -> string) {
    && SignatureMatches(params, configuredSecret, sha1)
    && CodeproAllowsCredit(params)
    && Get(params, "currency") == Some(RoublesCode)
  }

  /** Whether the webhook credits a notification, and whom. */
  function WebhookVerdict(params: Dict, configuredSecret: string, sha1: string -> string): Verdict {
    if !WebhookValid(params, configuredSecret, sha1) then InvalidSignature
    else
      match ResolveUserId(GetOr(params, "label", ""))
      case None => UnresolvedUser
      case Some(userId) => Credit(userId)
  }

  /**
   * On the same normalised parameters the webhook agrees with the chat
   * handler except that it also rejects every currency other than "643":
   * whatever the webhook accepts, the chat handler accepts too.
   */
  lemma WebhookStricterThanChat(params: Dict, configuredSecret: string, sha1: string -> string)
    ensures WebhookVerdict(params, configuredSecret, sha1) ==
      if Get(params, "currency") == Some(RoublesCode) then ChatNotification.ChatVerdict(params, configuredSecret, sha1)
      else InvalidSignature
    ensures WebhookVerdict(params, configuredSecret, sha1) != InvalidSignature ==>
      WebhookVerdict(params, configuredSecret, sha1) == ChatNotification.ChatVerdict(params, configuredSecret, sha1)
  {
  }

  /**
   * The webhook credits exactly when the hash matches case-insensitively,
   * `codepro` is "false" (or absent), the currency is "643" and the label
   * holds a digit; the user credited is the number its digits spell.
   */
  lemma WebhookVerdictCases(params: Dict, configuredSecret: string, sha1: string -> string)
    ensures var labelText := GetOr(params, "label", "");
      WebhookVerdict(params, configuredSecret, sha1) ==
        if !WebhookValid(params, configuredSecret, sha1) then InvalidSignature
        else if DigitsOf(labelText) == [] then UnresolvedUser
        else Credit(DecimalValue(DigitsOf(labelText)))
  {
    ResolveUserIdIsLabelDigits(GetOr(params, "label", ""));
  }

  /** The handler's answers. */
  datatype Response =
    | Ok
    | BadRequest(detail: string)
    | InternalError(detail: string)

  const InvalidSignatureDetail: string := "Invalid signature or parameters"
  const InvalidUserDetail: string := "Invalid user_id in label"
  const PaymentErrorDetail: string := "Internal error processing payment"

  /**
   * `yoomoney_webhook` from the decoded request parameters on: normalise,
   * verify, resolve the user and credit one generation through
   * payments.py's `increment_user_balance` (no username). Both rejections
   * are HTTP 400 and leave the table untouched. `notified` is whether the
   * Telegram message to the user went out; when it did not, the answer is
   * HTTP 500 although the credit has been made.
   */
  method HandleWebhook(table: PaymentsTable, request: Dict, configuredSecret: string,
                       sha1: string -> string, now: string, notified: bool) returns (response: Response)
    modifies table
    ensures var verdict := WebhookVerdict(Normalized(request), configuredSecret, sha1);
      match verdict
      case InvalidSignature => response == BadRequest(InvalidSignatureDetail) && table.rows == old(table.rows)
      case UnresolvedUser => response == BadRequest(InvalidUserDetail) && table.rows == old(table.rows)
      case Credit(userId) =>
        && response == (if notified then Ok else InternalError(PaymentErrorDetail))
        && table.rows == Incremented(old(table.rows), userId, 1, None, now).0
  {
    var params := NormalizeParams(request);
    if !WebhookValid(params, configuredSecret, sha1) {
      return BadRequest(InvalidSignatureDetail);
    }
    var userId := ResolveUserId(GetOr(params, "label", ""));
    if userId.None? {
      return BadRequest(InvalidUserDetail);
    }
    var newBalance := table.IncrementUserBalance(userId.value, 1, None, now);
    response := if notified then Ok else InternalError(PaymentErrorDetail);
  }
}
