/**
 * What both YooMoney notification handlers share: the key alias table and
 * the normalisation loop, the signature base string, the priority among
 * the received-hash fields, the validity conjuncts and the rule that turns
 * a payment `label` into a Telegram user id.
 *
 * SHA-1 itself is not modelled: handlers take it as a parameter
 * `sha1: string -> string` (UTF-8 encode, digest, hex).
 */
module YooMoney {
  import opened Wrappers
  import opened Strings
  import opened PyDict

  /** The alias table, keyed by lower-cased field name. */
  const KeyAliases: map<string, string> := map[
    "notificationtype" := "notification_type",
    "notification_type" := "notification_type",
    "operationid" := "operation_id",
    "operation_id" := "operation_id",
    "amount" := "amount",
    "currency" := "currency",
    "datetime" := "datetime",
    "sender" := "sender",
    "codepro" := "codepro",
    "label" := "label",
    "sha1-hash" := "sha1_hash",
    "sha1_hash" := "sha1_hash",
    "md5" := "md5",
    "notification_secret" := "notification_secret",
    "secret" := "secret"
  ]

  /** `key_map.get(k.lower(), k.lower())`. */
  function NormalizeKey(k: string): (name: string)
    // a canonical name is lower-case and is never renamed again
    ensures NoUpper(name)
    ensures name in KeyAliases ==> KeyAliases[name] == name
  {
    CanonicalNamesAreLowercase();
    CanonicalNamesAreFixed();
    var l := Lower(k);
    if l in KeyAliases then KeyAliases[l] else l
  }

  predicate NoUpper(s: string) {
    forall i :: 0 <= i < |s| ==> !IsUpper(s[i])
  }

  /** Every canonical name in the table is lower-case. */
  lemma CanonicalNamesAreLowercase()
    ensures forall l :: l in KeyAliases ==> NoUpper(KeyAliases[l])
  {
  }

  /** Every canonical name in the table is its own alias. */
  lemma CanonicalNamesAreFixed()
    ensures forall l :: l in KeyAliases ==> KeyAliases[l] in KeyAliases && KeyAliases[KeyAliases[l]] == KeyAliases[l]
  {
  }

  /** A normalised key is lower-case, whatever the case of the incoming key. */
  lemma NormalizeKeyIsLowercase(k: string)
    ensures NoUpper(NormalizeKey(k))
    ensures NormalizeKey(k) == NormalizeKey(Lower(k))
  {
    CanonicalNamesAreLowercase();
    LowerIdempotent(k);
  }

  /** Normalising a normalised key changes nothing. */
  lemma NormalizeKeyIdempotent(k: string)
    ensures NormalizeKey(NormalizeKey(k)) == NormalizeKey(k)
  {
    CanonicalNamesAreFixed();
    var c := NormalizeKey(k);
    NormalizeKeyIsLowercase(k);
    LowerOfLowercase(c);
  }

  /** The hyphenated hash key is renamed. */
  lemma HashKeyAlias()
    ensures NormalizeKey("sha1-hash") == "sha1_hash"
  {
    LowerOfLowercase("sha1-hash");
    assert KeyAliases["sha1-hash"] == "sha1_hash";
  }

  /** Alias names are found whatever their case. */
  lemma UpperCaseAlias()
    ensures NormalizeKey("SHA1-HASH") == "sha1_hash"
  {
    UpperHashKeyLowered();
    NormalizeKeyIsLowercase("SHA1-HASH");
    HashKeyAlias();
  }

  lemma UpperHashKeyLowered()
    ensures Lower("SHA1-HASH") == "sha1-hash"
  {
    var u := "SHA1-HASH";
    var l := Lower(u);
    assert l[0] == LowerChar(u[0]) == 's';
    assert l[1] == LowerChar(u[1]) == 'h';
    assert l[2] == LowerChar(u[2]) == 'a';
    assert l[3] == LowerChar(u[3]) == '1';
    assert l[4] == LowerChar(u[4]) == '-';
    assert l[5] == LowerChar(u[5]) == 'h';
    assert l[6] == LowerChar(u[6]) == 'a';
    assert l[7] == LowerChar(u[7]) == 's';
    assert l[8] == LowerChar(u[8]) == 'h';
  }

  /** A key outside the table is kept, lower-cased. */
  lemma UnknownKeyKept(k: string)
    requires Lower(k) !in KeyAliases
    ensures NormalizeKey(k) == Lower(k)
  {
  }

  /** For example, "Extra" becomes "extra". */
  lemma MixedCaseUnknownKey()
    ensures NormalizeKey("Extra") == "extra"
  {
    assert Lower("Extra") == "extra";
    UnknownKeyKept("Extra");
  }

  /** The pairs of `d` in order, each key normalised. */
  function NormalizedPairs(d: Dict): (ps: seq<(string, string)>)
    ensures |ps| == |d|
  {
    seq(|d|, i requires 0 <= i < |d| => (NormalizeKey(d[i].0), d[i].1))
  }

  /** The dict the normalisation loop builds from `d`. */
  function Normalized(d: Dict): Dict {
    FromPairs(NormalizedPairs(d))
  }

  /**
   * The loop `for k, v in raw.items(): params[key_map.get(k.lower(), k.lower())] = v`,
   * shared by the chat handler and the webhook.
   */
  method NormalizeParams(raw: Dict) returns (params: Dict)
    ensures params == Normalized(raw)
    ensures UniqueKeys(params)
  {
    params := [];
    var i := 0;
    while i < |raw|
      invariant 0 <= i <= |raw|
      invariant params == FromPairs(NormalizedPairs(raw[..i]))
    {
      var pair := raw[i];
      params := Put(params, NormalizeKey(pair.0), pair.1);
      assert NormalizedPairs(raw[..i + 1])[..i] == NormalizedPairs(raw[..i]);
      i := i + 1;
    }
    assert raw[..i] == raw;
    FromPairsUnique(NormalizedPairs(raw));
  }

  /** Among pairs, only index `j` has key `c`: its value is the last one for `c`. */
  lemma {:induction false} LastValueOfOnly(pairs: seq<(string, string)>, j: nat, c: string)
    requires j < |pairs| && pairs[j].0 == c
    requires forall i :: 0 <= i < |pairs| && i != j ==> pairs[i].0 != c
    ensures LastValue(pairs, c) == Some(pairs[j].1)
  {
    if j < |pairs| - 1 {
      LastValueOfOnly(pairs[..|pairs| - 1], j, c);
    }
  }

  /**
   * Lookup after normalisation: a canonical name holds the value of the
   * last incoming key (in dict order) that normalises to it; a key that
   * is the only one normalising to its name keeps its value.
   */
  lemma NormalizedGet(raw: Dict, k: string)
    requires UniqueKeys(raw)
    requires k in Keys(raw)
    requires forall i :: 0 <= i < |raw| && raw[i].0 != k ==> NormalizeKey(raw[i].0) != NormalizeKey(k)
    ensures Get(Normalized(raw), NormalizeKey(k)) == Get(raw, k)
  {
    var ps := NormalizedPairs(raw);
    FromPairsGet(ps, NormalizeKey(k));
    var v := Get(raw, k).value;
    assert (k, v) in raw;
    var j :| 0 <= j < |raw| && raw[j] == (k, v);
    forall i | 0 <= i < |ps| && i != j
      ensures ps[i].0 != NormalizeKey(k)
    {
      assert raw[i].0 != k by {
        if i < j {
          assert raw[i].0 != raw[j].0;
        } else {
          assert raw[j].0 != raw[i].0;
        }
      }
      assert ps[i] == (NormalizeKey(raw[i].0), raw[i].1);
    }
    assert ps[j].0 == NormalizeKey(k);
    LastValueOfOnly(ps, j, NormalizeKey(k));
  }

  /** The fields signed, in signing order. */
  const SignedFields: seq<string> := [
    "notification_type", "operation_id", "amount", "currency",
    "datetime", "sender", "codepro", "label"
  ]

  /** `YOOMONEY_SECRET or params.get("secret", "")`. */
  function Secret(params: Dict, configuredSecret: string): string {
    if configuredSecret != "" then configuredSecret else GetOr(params, "secret", "")
  }

  /** The nine segments of the signature base string. */
  function SignSegments(params: Dict, configuredSecret: string): (segs: seq<string>)
    ensures |segs| == |SignedFields| + 1 == 9
    ensures forall i :: 0 <= i < |SignedFields| ==> segs[i] == GetOr(params, SignedFields[i], "")
    ensures segs[8] == Secret(params, configuredSecret)
  {
    seq(|SignedFields|, i requires 0 <= i < |SignedFields| => GetOr(params, SignedFields[i], ""))
      + [Secret(params, configuredSecret)]
  }

  /** `"&".join([params.get(k, "") for k in ordered_keys] + [secret])`. */
  function SignString(params: Dict, configuredSecret: string): string {
    Join(SignSegments(params, configuredSecret), '&')
  }

  /**
   * The base string is exactly the eight signed fields in order (a missing
   * one as ""), then the secret, the configured secret taking precedence
   * over the payload's: when no segment holds '&', splitting it at '&'
   * gives back exactly these nine segments.
   */
  lemma SignStringSegments(params: Dict, configuredSecret: string)
    requires forall i :: 0 <= i < |SignedFields| ==> '&' !in GetOr(params, SignedFields[i], "")
    requires '&' !in Secret(params, configuredSecret)
    ensures var segs := Split(SignString(params, configuredSecret), '&');
      && |segs| == 9
      && (forall i :: 0 <= i < 8 ==> segs[i] == GetOr(params, SignedFields[i], ""))
      && segs[8] == (if configuredSecret != "" then configuredSecret else GetOr(params, "secret", ""))
  {
    var segs := SignSegments(params, configuredSecret);
    assert forall i :: 0 <= i < |segs| ==> '&' !in segs[i];
    SplitJoin(segs, '&');
  }

  /** The fields that may carry the received hash, in priority order. */
  const HashFields: seq<string> := ["sha1_hash", "md5", "notification_secret"]

  /** Python truthiness of `params.get(k)`. */
  predicate Truthy(o: Option<string>) {
    o.Some? && o.value != ""
  }

  /**
   * `params.get("sha1_hash") or params.get("md5") or params.get("notification_secret") or ""`:
   * the first of the hash fields, in priority order, that is present and
   * non-empty; "" when there is none.
   */
  function ReceivedHash(params: Dict): (h: string)
    ensures h == "" <==> forall i :: 0 <= i < |HashFields| ==> !Truthy(Get(params, HashFields[i]))
    ensures h != "" ==> exists i :: 0 <= i < |HashFields| && Get(params, HashFields[i]) == Some(h)
                                  && (forall j :: 0 <= j < i ==> !Truthy(Get(params, HashFields[j])))
  {
    var sha1Hash := Get(params, "sha1_hash");
    var md5 := Get(params, "md5");
    var notificationSecret := Get(params, "notification_secret");
    if Truthy(sha1Hash) then
      assert Get(params, HashFields[0]) == sha1Hash;
      sha1Hash.value
    else if Truthy(md5) then
      assert Get(params, HashFields[1]) == md5;
      md5.value
    else if Truthy(notificationSecret) then
      assert Get(params, HashFields[2]) == notificationSecret;
      notificationSecret.value
    else
      ""
  }

  /** `received_hash.lower() == sha1_hex.lower()`. */
  predicate SignatureMatches(params: Dict, configuredSecret: string, sha1: string -> string) {
    Lower(ReceivedHash(params)) == Lower(sha1(SignString(params, configuredSecret)))
  }

  /** `params.get("codepro", "false").lower() == "false"`. */
  predicate CodeproAllowsCredit(params: Dict) {
    Lower(GetOr(params, "codepro", "false")) == "false"
  }

  /** A missing `codepro` allows the credit; `codepro=true` never does. */
  lemma CodeproCases(params: Dict)
    ensures Get(params, "codepro") == None ==> CodeproAllowsCredit(params)
    ensures Get(params, "codepro") == Some("true") ==> !CodeproAllowsCredit(params)
  {
    LowerOfLowercase("false");
  }

  /** What a handler does with a notification once it is parsed. */
  datatype Verdict = InvalidSignature | UnresolvedUser | Credit(userId: nat)

  const UserIdPrefix: string := "user_id:"

  /** `label.split(":", 1)[1]` for a label that starts with `user_id:`: the text after the prefix. */
  function UserIdSuffix(labelText: string): (suffix: string)
    requires StartsWith(labelText, UserIdPrefix)
    ensures suffix == labelText[|UserIdPrefix|..]
  {
    assert labelText[7] == ':';
    UserIdSuffixIsAfterPrefix(labelText);
    SplitFirst(labelText, ':').1
  }

  lemma UserIdSuffixIsAfterPrefix(labelText: string)
    requires StartsWith(labelText, UserIdPrefix) && ':' in labelText
    ensures SplitFirst(labelText, ':').1 == labelText[|UserIdPrefix|..]
  {
    var (k, v) := SplitFirst(labelText, ':');
    assert labelText[..7] == "user_id";
    assert forall j :: 0 <= j < 7 ==> labelText[j] != ':';
    assert labelText[|k|] == ':';
    assert labelText[7] == ':';
    assert |k| <= 7;
    assert |k| == 7;
  }

  /**
   * The user a payment `label` names: the whole label if it is all digits;
   * else, for `user_id:<digits>`, the digits after the first ':'; else all
   * the digits of the label run together, if there are any.
   */
  function ResolveUserId(labelText: string): Option<nat> {
    if IsDigits(labelText) then Some(DecimalValue(labelText))
    else if StartsWith(labelText, UserIdPrefix) && IsDigits(UserIdSuffix(labelText)) then
      Some(DecimalValue(UserIdSuffix(labelText)))
    else
      var digits := DigitsOf(labelText);
      if digits != [] then Some(DecimalValue(digits)) else None
  }

  /**
   * The three-step rule always yields the number written by all the digits
   * of the label, and no user exactly when the label has no digit.
   */
  lemma ResolveUserIdIsLabelDigits(labelText: string)
    ensures ResolveUserId(labelText) == if DigitsOf(labelText) == [] then None else Some(DecimalValue(DigitsOf(labelText)))
    ensures ResolveUserId(labelText) == None <==> forall i :: 0 <= i < |labelText| ==> !IsDigit(labelText[i])
  {
    if IsDigits(labelText) {
      DigitsOfDigits(labelText);
    } else if StartsWith(labelText, UserIdPrefix) && IsDigits(UserIdSuffix(labelText)) {
      PrefixedLabelDigits(labelText);
    }
  }

  lemma PrefixedLabelDigits(labelText: string)
    requires StartsWith(labelText, UserIdPrefix) && IsDigits(UserIdSuffix(labelText))
    ensures DigitsOf(labelText) == UserIdSuffix(labelText)
  {
    var v := UserIdSuffix(labelText);
    assert labelText == UserIdPrefix + v;
    DigitsOfConcat(UserIdPrefix, v);
    assert DigitsOf(UserIdPrefix) == [];
    DigitsOfDigits(v);
  }

  /** The bot's own sample label resolves to user 123456789. */
  lemma SampleLabel()
    ensures ResolveUserId("user_id:123456789") == Some(123456789)
  {
    var labelText := "user_id:123456789";
    assert labelText[..8] == UserIdPrefix;
    assert labelText[8..] == "123456789";
    assert IsDigits("123456789");
    PrefixedLabelDigits(labelText);
    ResolveUserIdIsLabelDigits(labelText);
    SampleValue();
  }

  lemma SampleValue()
    ensures DecimalValue("123456789") == 123456789
  {
    assert DecimalValue("1") == 1;
    assert "12"[..1] == "1";
    assert DecimalValue("12") == 12;
    assert "123"[..2] == "12";
    assert DecimalValue("123") == 123;
    assert "1234"[..3] == "123";
    assert DecimalValue("1234") == 1234;
    assert "12345"[..4] == "1234";
    assert DecimalValue("12345") == 12345;
    assert "123456"[..5] == "12345";
    assert DecimalValue("123456") == 123456;
    assert "1234567"[..6] == "123456";
    assert DecimalValue("1234567") == 1234567;
    assert "12345678"[..7] == "1234567";
    assert DecimalValue("12345678") == 12345678;
    assert "123456789"[..8] == "12345678";
  }
}
