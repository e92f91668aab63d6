# Kling video bot: payments, generation polling and sessions

A model of the logic in a Telegram bot that turns a start image and an end
image into a short video with the Kling image-to-video API. Users pay
through YooMoney. The project covers three pieces of that bot.

**Payment verification.** A payment notification arrives in one of two
ways. It can be pasted into the chat as text: a "Платеж получен!" header,
then `key=value` lines or an `&`-joined query string. Or it can reach the
FastAPI webhook as an already-decoded mapping. In both cases the keys are
lower-cased and renamed through one alias table. A signature base string is
built from eight fixed fields and the secret. The received hash is picked by
priority and compared case-insensitively with the digest, and `codepro`
must be "false". The webhook also requires `currency == "643"`. The user to
credit is read from the `label`. A valid notification credits that user one
paid generation; an invalid one changes nothing.

**The balance ledger.** The `payments` table has one row per user. Each row
holds the number of paid generations, the time of the last payment and an
optional username. An increment is one atomic read-modify-write, clamped at
0. A zero delta only reads. A positive delta refreshes the payment time. A
supplied username replaces the stored one.

**Video generation and the chat session.** Two image messages fill a
per-user session. The second one launches a background task, and the
session is reset. Before each call to `kling_generate_video` the task
sleeps, 30 seconds before the first call, then 60, 75 and 90 seconds.
After each call that raised, it sends a "still waiting" notice, at most 20
in all. Each call submits the job and then polls its status every 5, 8, 11,
14 and then 15 seconds, with a 20-minute deadline.

Some foreign or nondeterministic things are parameters of the model rather
than part of it:
- SHA-1 is a function `sha1: string -> string`.
- The clock ("now") is a string argument.
- Each status reply and its latency come from a function of the request's
  index.
- Each call's outcome in the background task comes from a function of the
  round.
- The downloaded image is `Some(base64 text)`, or `None` when the download
  raised.
- The working directory's name is an argument.
- Whether the Telegram confirmation was sent is a boolean argument.

Python dicts are sequences of pairs in insertion order. Assigning to an
existing key replaces its value in place; assigning to a new key appends
it. Order matters here: when two incoming keys normalise to the same name,
the later one wins.

The model follows the code as written, including these behaviours:
- A `failed` task status raises an exception. The background loop treats
  every exception other than `TimeoutError` as transient and calls again,
  which resubmits the job. When the job fails on every one of the 20
  calls, the user gets 20 notices and then the timeout message, never the
  failure reason (`PollSchedule.FailedGenerationEndsInTimeoutMessage`). When
  a later call returns a URL instead, that video is delivered
  (`PollSchedule.PollAndSend`).
- Every round of the background loop calls `kling_generate_video` again.
  That call submits the job again and starts its own 20-minute deadline, so
  the deadline is per call and not per job.
- `set_user_balance` stores its value unclamped. A negative balance is
  possible, so balances are `int`.
- `increment_user_balance` overwrites a stored username whenever one is
  supplied.
- `not session.start_b64` treats an empty start image ("") as unset, so the
  next image is taken as the start image again
  (`Sessions.EmptyStartImageIsRetaken`).
- The three-step label rule always yields the number spelled by all the
  digits of the label (`YooMoney.ResolveUserIdIsLabelDigits`). A label such
  as `user_id:12abc3` therefore credits user 123.

## Model

| member | source | states |
|---|---|---|
| Strings.Lower | kling_bot.py:480 | `str.lower()` on ASCII letters: same length, each character lower-cased |
| Strings.LowerIdempotent | kling_bot.py:480 | lower-casing twice is lower-casing once |
| Strings.Strip | kling_bot.py:447 | `strip()` is a slice `s[i..j]` of its input with only whitespace before `i` and from `j` on; it neither starts nor ends with whitespace, and is empty exactly when the string is all whitespace |
| Strings.StripUnpadded | kling_bot.py:458 | a non-empty string without whitespace at either end is its own strip |
| Strings.RemoveChar | kling_bot.py:447 | `replace("\r", "")` keeps exactly the other characters; on one character it gives "" for `\r` and the character otherwise |
| Strings.RemoveCharConcat | kling_bot.py:447 | removal works piecewise over a concatenation, so with the one-character case it fixes the result: the other characters, in order, each once |
| Strings.ReplaceChar | kling_bot.py:454 | `replace("\n", "&")` changes exactly the newlines, position by position |
| Strings.Split | kling_bot.py:447 | `str.split(sep)` gives at least one piece and no piece holds the separator; JoinSplit and SplitJoin prove it the inverse of Join |
| Strings.Join | kling_bot.py:450 | `sep.join(parts)`, whose inverse on separator-free pieces is Split (JoinSplit, SplitJoin) |
| Strings.JoinSplit | kling_bot.py:447-450 | joining the pieces of a split at the same separator gives back the string |
| Strings.SplitJoin | kling_bot.py:447-450 | splitting a join of separator-free pieces gives back the pieces |
| Strings.SplitOfJoin | kling_bot.py:450-454 | splitting a join at its own separator splits each joined string in turn |
| Strings.ReplaceSeparator | kling_bot.py:450-454 | replacing the newline in a join of newline-free lines turns it into a join at '&' |
| Strings.SplitFirst | kling_bot.py:457 | `split("=", 1)` gives the text before the first '=' (which holds no '=') and the text after it |
| Strings.SplitFirstAt | kling_bot.py:457 | the cut is made at the first occurrence, so the value may hold further '=' |
| Strings.StartsWith | kling_bot.py:516 | `label.startswith("user_id:")`: the prefix is the string's first characters; UserIdSuffix and ResolveUserIdIsLabelDigits rely on it |
| Strings.IsDigits | kling_bot.py:514-516 | `str.isdigit()` on ASCII: non-empty and every character a digit; ResolveUserIdIsLabelDigits states the branches it decides |
| Strings.DigitsOf | kling_bot.py:521 | the digits of a string, in order: all of them digits, empty exactly when the string has no digit |
| Strings.DigitsOfConcat | kling_bot.py:521 | digits are collected piecewise over a concatenation |
| Strings.DecimalValue | kling_bot.py:515-524 | `int(s)` for a string of ASCII digits, leading zeros allowed; ResolveUserIdIsLabelDigits states which digits it is given |
| PyDict.Get | kling_bot.py:493-497 | `d.get(k)` is present exactly when `k` is a key, and then it is the value paired with `k` |
| PyDict.GetOr | kling_bot.py:493-502 | `params.get(k, default)`: the value under `k`, else the default; SignStringSegments and CodeproCases state its uses |
| PyDict.Put | kling_bot.py:458 | after `d[k] = v`, `k` maps to `v` and every other key keeps its value |
| PyDict.PutKeys | kling_bot.py:458 | assignment keeps the key order and appends a key that was absent |
| PyDict.PutUnique | kling_bot.py:458 | assignment never duplicates a key |
| PyDict.PutAbsent | kling_bot.py:458 | assigning an absent key appends the pair at the end |
| PyDict.LastValue | kling_bot.py:453-458 | the value of the last pair with key `k`, or none; FromPairsGet proves the filled dict answers with it |
| PyDict.FromPairs | kling_bot.py:453-458 | the dict that a loop of `d[k] = v` builds from the pairs in order; FromPairsGet, FromPairsUnique and FromPairsDistinct state it |
| PyDict.FromPairsGet | kling_bot.py:453-458 | filling a dict pair by pair: each key holds the value of its last pair, and a key never assigned is absent |
| PyDict.FromPairsUnique | kling_bot.py:453-458 | a dict filled by assignments never holds a key twice |
| PyDict.FromPairsDistinct | kling_bot.py:453-458 | pairs with distinct keys fill the dict that lists them in their order |
| YooMoney.CanonicalNamesAreLowercase | kling_bot.py:461-477 | every canonical name in the alias table is lower-case |
| YooMoney.CanonicalNamesAreFixed | kling_bot.py:461-477 | every canonical name is its own alias |
| YooMoney.NormalizeKey | kling_bot.py:480 | `key_map.get(k.lower(), k.lower())` is lower-case, and a result found in the table is its own alias |
| YooMoney.NormalizeKeyIsLowercase | kling_bot.py:480 | a normalised key is lower-case, and the case of the incoming key does not matter |
| YooMoney.NormalizeKeyIdempotent | kling_bot.py:480 | normalising a normalised key changes nothing |
| YooMoney.UpperCaseAlias | kling_bot.py:472 | "SHA1-HASH" is found in the table and becomes "sha1_hash" |
| YooMoney.UnknownKeyKept | kling_bot.py:480 | any key whose lower-case form is not in the table becomes that lower-case form |
| YooMoney.MixedCaseUnknownKey | kling_bot.py:480 | for example "Extra" becomes "extra" |
| YooMoney.HashKeyAlias | kling_bot.py:472 | the key "sha1-hash" is renamed "sha1_hash" |
| YooMoney.NormalizedPairs | kling_bot.py:479-480 | each raw pair with its key normalised, in the raw dict's order, as many as the raw dict holds |
| YooMoney.Normalized | kling_bot.py:478-480 | the `params` dict filled from the normalised pairs, so a later colliding key wins; NormalizeParams computes it and NormalizedGet states what it holds |
| YooMoney.NormalizeParams | kling_bot.py:478-480 | the normalisation loop builds the dict of the normalised pairs in order, with unique keys |
| YooMoney.NormalizedGet | kling_bot.py:478-480 | a key that is the only one normalising to its name keeps its value under that name |
| YooMoney.Secret | kling_bot.py:493 | the configured secret when it is set, else the payload's `secret`, else ""; SignStringSegments shows it is the last segment |
| YooMoney.SignSegments | kling_bot.py:483-494 | exactly nine segments: the eight signed fields in signing order ("" for a missing one), then the secret |
| YooMoney.SignString | kling_bot.py:494 | the segments joined by '&'; SignStringSegments splits it back into them |
| YooMoney.SignStringSegments | kling_bot.py:483-494 | the base string splits back into exactly nine segments: the eight signed fields in order ("" when missing), then the configured secret or else the payload's `secret` |
| YooMoney.Truthy | kling_bot.py:497 | a `params.get` result counts in the `or` chain exactly when it is present and not empty; ReceivedHash states the chain |
| YooMoney.ReceivedHash | kling_bot.py:497 | the received hash is the first non-empty one of `sha1_hash`, `md5`, `notification_secret`, and "" exactly when none is |
| YooMoney.SignatureMatches | kling_bot.py:495-502 | the received hash equals the SHA-1 digest of the base string, ignoring case; ChatVerdictCases and WebhookVerdictCases decide by it |
| YooMoney.CodeproAllowsCredit | kling_bot.py:502 | `codepro`, "false" when missing, is "false" ignoring case; CodeproCases gives its two cases |
| YooMoney.CodeproCases | kling_bot.py:502 | a missing `codepro` allows the credit, and `codepro=true` never does |
| YooMoney.UserIdSuffix | kling_bot.py:516-517 | `label.split(":", 1)[1]` after a `user_id:` prefix is exactly the text after the prefix |
| YooMoney.PrefixedLabelDigits | kling_bot.py:516-521 | for `user_id:<digits>` the suffix is exactly the label's digits |
| YooMoney.ResolveUserId | kling_bot.py:512-526 | the three-step label rule: the whole label if all digits, else the digits after `user_id:`, else all the label's digits; ResolveUserIdIsLabelDigits states what it yields |
| YooMoney.ResolveUserIdIsLabelDigits | kling_bot.py:512-528 | the three-step rule yields the number of all the label's digits, and no user exactly when the label has no digit |
| YooMoney.SampleLabel | kling_bot.py:231 | the label `user_id:123456789` names user 123456789 |
| ChatNotification.NonBlank | kling_bot.py:447 | a line is kept exactly when it is not blank; a single line is kept or dropped by that test |
| ChatNotification.NonBlankConcat | kling_bot.py:447 | the filter works piecewise over a concatenation, so with the one-line case it keeps the non-blank lines in order, each as often as it occurs |
| ChatNotification.BodyLines | kling_bot.py:447 | the non-blank lines of the body once '\r' is removed; NonBlank and NonBlankConcat state which lines are kept |
| ChatNotification.IsHeader | kling_bot.py:448 | a line holding neither '=' nor '&' is the header |
| ChatNotification.DropHeader | kling_bot.py:448-449 | a header first line is dropped and every other line list is kept; HeaderThenLines states it |
| ChatNotification.DataLinesKept | kling_bot.py:447-449 | no data line is blank or holds a newline |
| ChatNotification.DataLines | kling_bot.py:447-449 | the non-blank lines of the body without '\r', less a first line that holds neither '=' nor '&'; DataLinesKept and HeaderThenLines state what they are |
| ChatNotification.Parts | kling_bot.py:450-454 | the data lines joined by newlines, each newline made '&', split at '&'; PartsPerLine states it per line |
| ChatNotification.PartsPerLine | kling_bot.py:450-454 | the parts are the '&'-pieces of each data line in turn |
| ChatNotification.PairOf | kling_bot.py:455-458 | a part gives no pair exactly when it lacks '=' |
| ChatNotification.PairOfSplitsAtFirstEquals | kling_bot.py:457-458 | a pair is cut at the first '=' of its part, both sides stripped |
| ChatNotification.PairsOf | kling_bot.py:454-458 | the pairs of the parts holding '=', in order; PairsOfAll states that none is skipped when every part holds '=' |
| ChatNotification.PairsOfAll | kling_bot.py:454-458 | when every part holds '=', the i-th pair is the i-th part's, and there are as many pairs as parts |
| ChatNotification.RawParams | kling_bot.py:453-458 | the `raw` dict of the body never holds a key twice |
| ChatNotification.ParseRaw | kling_bot.py:453-458 | the parsing loop fills the dict of the parts' pairs in order, so a later duplicate key overwrites an earlier one |
| ChatNotification.HeaderThenLines | kling_bot.py:447-449 | a header line followed by `key=value` lines leaves exactly those lines as data |
| ChatNotification.KeyValueLinesParse | kling_bot.py:447-458 | such a body parses line by line, one pair per line |
| ChatNotification.PairLineParses | kling_bot.py:455-458 | a `key=value` line of a plain key and value parses back to the pair, whatever '=' the value holds |
| ChatNotification.PairLinesRoundTrip | kling_bot.py:447-458 | writing plain pairs with distinct keys as lines under a header and parsing them gives back the pairs in order |
| ChatNotification.SampleHeaderIsHeader | kling_bot.py:223 | the sample's first line is a header |
| ChatNotification.SampleNotificationParse | kling_bot.py:223-232 | the bot's sample notification parses to its nine pairs in order |
| ChatNotification.SampleNotificationLabel | kling_bot.py:223-232 | after normalisation the sample's label is `user_id:123456789` and names user 123456789 |
| ChatNotification.ChatParams | kling_bot.py:447-480 | the whole parse: the raw dict of the body with its keys normalised; SampleNotificationLabel and NormalizedGet state what it holds |
| ChatNotification.ChatVerdict | kling_bot.py:502-533 | the handler's decision: reject on a bad signature or `codepro`, then no user or a credit for the resolved user; ChatVerdictCases states it in terms of the label's digits |
| ChatNotification.ChatVerdictCases | kling_bot.py:497-533 | the chat handler credits exactly when the hash matches case-insensitively, `codepro` is "false" and the label has a digit; the user is the number those digits spell |
| ChatNotification.HandleNotification | kling_bot.py:439-540 | a rejected or unresolvable notification leaves the table untouched; otherwise the user's row is incremented by exactly 1 and the new balance reported |
| Webhook.WebhookValid | webhook_handler.py:93-97 | the webhook's `is_valid`: the chat handler's two tests and `currency == "643"` |
| Webhook.WebhookVerdict | webhook_handler.py:93-116 | the webhook's decision: reject unless valid, then no user or a credit for the resolved user; WebhookVerdictCases and WebhookStricterThanChat state it |
| Webhook.WebhookStricterThanChat | webhook_handler.py:93-97 | the webhook decides as the chat handler does when the currency is "643" and rejects otherwise, so whatever it accepts the chat handler accepts |
| Webhook.WebhookVerdictCases | webhook_handler.py:93-116 | the webhook credits exactly when the hash matches, `codepro` is "false", the currency is "643" and the label has a digit |
| Webhook.HandleWebhook | webhook_handler.py:52-132 | both rejections are HTTP 400 and leave the table untouched; a credit increments the user's row by exactly 1, answering 200, or 500 when the notification could not be sent |
| Ledger.Balance | payments.py:43-47 | the stored balance, or 0 when the user has no row |
| Ledger.Coalesce | payments.py:58 | SQL `COALESCE` (also at payments.py:78): the username given, else the stored one; WithBalance and Incremented state the merged username |
| Ledger.Incremented | kling_bot.py:113-134 | a zero delta only reads; otherwise the balance becomes `max(0, current + delta)`; the payment time is refreshed only for a positive delta; only the caller's row changes |
| Ledger.WithBalance | payments.py:50-63 | the balance becomes exactly the value (unclamped), the payment time the one given or else now, the username merged by COALESCE; no other row changes |
| Ledger.IncrementKeepsNonNegative | payments.py:71-74 | non-negative balances stay non-negative under any increment |
| Ledger.CreditsAddUp | payments.py:71-87 | non-negative credits are never lost: the final balance is the starting one plus their sum |
| Ledger.CreditsFromNothing | payments.py:71-87 | from a user without a row, the balance after the credits is their sum |
| Ledger.PaymentsTable.GetUserBalance | payments.py:43-47 | the stored balance, or 0 when the user has no row |
| Ledger.PaymentsTable.SetUserBalance | payments.py:50-63 | the table after the upsert, with the username merged by COALESCE |
| Ledger.PaymentsTable.IncrementUserBalance | payments.py:66-87 | the table and result after the read-modify-write, with a supplied username replacing the stored one |
| Generation.ClassifyStatus | kling_bot.py:176-190 | polling goes on exactly after a read timeout or a running task; a succeeded task gives its first URL; a failed one raises with its message or "Неизвестная причина" |
| Generation.NextPollInterval | kling_bot.py:193-194 | below the 15-second cap the interval grows and stays within the cap; at the cap it stays |
| Generation.PollInterval | kling_bot.py:173-194 | every interval slept lies between 5 and 15 seconds |
| Generation.PollIntervalClosedForm | kling_bot.py:191-194 | the n-th interval is `min(5 + 3n, 15)`, always between 5 and 15 |
| Generation.PollIntervalMonotone | kling_bot.py:191-194 | the interval never shrinks |
| Generation.ElapsedBefore | kling_bot.py:172-174 | `time.time() - start_time` before the n-th request, taken as the requests' latencies plus the sleeps; ElapsedCoversSleeps and PollsWithinDeadline bound it |
| Generation.ElapsedCoversSleeps | kling_bot.py:172-194 | the time measured before the n-th request is at least the sleeps taken before it |
| Generation.PollsWithinDeadline | kling_bot.py:172-175 | a status request made before the deadline is at most the 82nd |
| Generation.PollFrom | kling_bot.py:173-194 | how polling ends from the n-th request on: the deadline, or the first settling reply; StuckTaskTimesOut and FirstSettlingReplyDecides state it |
| Generation.KeepPollingStep | kling_bot.py:173-194 | a reply that keeps polling within the deadline hands the decision to the next request, adds its latency and interval to the time, and grows the interval |
| Generation.StuckTaskTimesOut | kling_bot.py:173-194 | a task whose status never settles ends in `TimeoutError` |
| Generation.FirstSettlingReplyDecides | kling_bot.py:173-187 | the first settling reply within the deadline decides the call |
| Generation.PollTask | kling_bot.py:169-194 | the polling loop ends as the polling specification says, after between 1 and 82 status requests |
| Generation.GenerationOutcome | kling_bot.py:151-194 | the whole call: missing keys raise, a failed or rejected submission raises, else polling decides; GenerateVideo and FailedTaskRaises state it |
| Generation.GenerateVideo | kling_bot.py:151-194 | missing keys and a rejected submission raise; otherwise the task is polled; a URL comes only from an accepted submission |
| Generation.FailedTaskRaises | kling_bot.py:185-187 | a task first reported failed raises the generation failure with its reason |
| PollSchedule.NextDelay | kling_bot.py:396 | below the 90-second cap the delay grows and stays within the cap; at the cap it stays |
| PollSchedule.Delay | kling_bot.py:368-396 | every delay slept lies between 30 and 90 seconds |
| PollSchedule.DelayClosedForm | kling_bot.py:368-396 | the delays are 30, 60, 75, then 90 |
| PollSchedule.DelayMonotoneAndCapped | kling_bot.py:396 | the delay never shrinks and never exceeds 90 seconds |
| PollSchedule.Delays | kling_bot.py:368-396 | the n sleeps before the first n calls, the i-th being Delay(i); PollAndSend records exactly these |
| PollSchedule.NoticesFor | kling_bot.py:383-392 | n notices, the first "wait another minute" and the rest "still checking"; PollAndSend sends exactly these |
| PollSchedule.CallsMade | kling_bot.py:371-394 | at least one call and at most 20 |
| PollSchedule.FirstSettledCallEnds | kling_bot.py:376-382 | the first call that returns or times out ends the loop |
| PollSchedule.AllRaisedMakesTwentyCalls | kling_bot.py:383-394 | when every call raises, exactly 20 calls are made |
| PollSchedule.CallsBeforeLastRaised | kling_bot.py:383-394 | every call before the last one raised |
| PollSchedule.NoticeCount | kling_bot.py:383-394 | one notice per call that raised; SettledAt, EveryCallRaises and ImmediateSuccess give its value |
| PollSchedule.FinalDelivery | kling_bot.py:398-421 | the video is sent exactly when the last call returned a non-empty URL; otherwise the timeout message |
| PollSchedule.PollAndSend | kling_bot.py:366-421 | the loop sleeps the scheduled delays before each of its calls, sends one notice per raising call (the first text differs), and delivers by the last call |
| PollSchedule.DelaySumClosedForm | kling_bot.py:368-396 | from three calls on, the delays sum to `90n - 105` seconds |
| PollSchedule.TotalSleepBound | kling_bot.py:371-396 | the background task sleeps at most 1695 seconds in all |
| PollSchedule.SettledAt | kling_bot.py:376-394 | a call that does not raise after n that did is the last of n + 1 calls, with n notices sent |
| PollSchedule.EveryCallRaises | kling_bot.py:383-421 | when every call raises, the user gets 20 notices and the timeout message |
| PollSchedule.ImmediateSuccess | kling_bot.py:376-400 | a URL on the first call means no notice and the video |
| PollSchedule.DeadlineEndsAtOnce | kling_bot.py:380-382 | a generation deadline on the first call gives the timeout message at once |
| PollSchedule.FailedGenerationEndsInTimeoutMessage | kling_bot.py:376-421 | a job reported failed on every call ends in 20 notices and the timeout message |
| Sessions.CarriesImage | kling_bot.py:320-326 | a photo, or a document whose MIME type starts with "image/", is taken; anything else is refused (Intake) |
| Sessions.StartMissing | kling_bot.py:349 | `not session.start_b64`: no start image, or an empty one; EmptyStartImageIsRetaken states it |
| Sessions.Intake | kling_bot.py:313-362 | a non-image is refused; a failed download resets the session; an image fills an unset start, else launches the job on the stored start and the new end and resets the session |
| Sessions.SessionStore.constructor | kling_bot.py:55 | no user has a session |
| Sessions.SessionStore.Reset | kling_bot.py:203 | the user's session becomes empty and no other changes |
| Sessions.SessionStore.OnImage | kling_bot.py:313-436 | the user's entry becomes the intake's session and no other entry changes |
| Sessions.IntakeKeepsNoEndImage | kling_bot.py:349-362 | no stored session ever holds an end image |
| Sessions.TwoImagesLaunchJob | kling_bot.py:343-362 | from an empty session two images launch the job on that pair |
| Sessions.EmptyStartImageIsRetaken | kling_bot.py:349 | an empty start image is taken again by the next image |
| Sessions.FailureDiscardsStartImage | kling_bot.py:433-436 | a failed download after the start image loses it |

## Left out

- Telegram I/O is not modelled: sending messages, keyboards, handler registration, and the fallback text handler.
- The YooMoney checkout request (`pay_by_text`) is not modelled: it is an external call that only builds a form.
- File and media side effects are not modelled: downloads, writing the images and `result.mp4`, and creating the working directory.
- The forwarding tasks are not modelled: they are fire-and-forget sends.
- SHA-1, the HS256 bearer token and base64 are parameters or omitted: they are foreign library calls. The sample notification's hash cannot be checked.
- Real HTTP, `time.time`, `time.sleep` and `asyncio.sleep` are replaced by reply and latency parameters.
- Concurrency and interleavings are not modelled: background tasks, executors, and SQLite isolation. Each ledger operation is one atomic step.
- Table creation, the `ALTER TABLE` migration, the `updated_at` trigger, `created_at`, `total_spent_cents` and ISO timestamp formatting are storage setup.
- FastAPI request decoding and the stringifying of JSON values are not modelled; `Webhook.HandleWebhook` starts from the decoded mapping.
- Strings.Lower: does not model Unicode case mapping beyond ASCII letters, because the keys, hashes and `codepro` values involved are ASCII.
- Strings.DigitsOf: counts only ASCII digits, not the other Unicode digits that `str.isdigit` accepts.
- Strings.IsDigits: likewise accepts ASCII digits only, where `str.isdigit` also accepts other Unicode digits.
- YooMoney.ResolveUserIdIsLabelDigits: the `ValueError` branch of `int(digits)` cannot occur with ASCII digits, so it has no counterpart.
- Ledger.Incremented: balances are unbounded integers; SQLite's 64-bit limit is not modelled.
- Webhook.HandleWebhook: a failing database write is not modelled. In the source it answers HTTP 500 with no credit. Only a failing Telegram send is modelled, as the `notified` argument.
- ChatNotification.HandleNotification: the catch-all exception path that reports an error in the chat is not modelled. Sending the replies is Telegram I/O.
- Generation.GenerateVideo: a status reply missing its `data` fields raises `KeyError` in the source; that case is the `StatusRequestFailed` reply. Likewise a submission reply without `data["data"]["task_id"]` (kling_bot.py:167) raises `KeyError`; that case is the `SubmitRequestFailed` reply, which raises in the same way.
- Sessions.SessionStore.OnImage: sessions are values in a map, so aliasing is not captured. The background task keeps the replaced session object, which holds the pair it reads.
- Ledger: kling_bot.py's own `set_user_balance` and `increment_user_balance`, on a table without usernames, are the same operations with username `None`.
