/**
 * The chat variant of payment verification: a YooMoney notification pasted
 * into the chat as text ("Платеж получен!" followed by `key=value` lines or
 * an `&`-joined query string) is parsed, its signature checked, and the
 * user named by its label is credited one generation.
 */
module ChatNotification {
  import opened Wrappers
  import opened Sequences
  import opened Strings
  import opened PyDict
  import opened YooMoney
  import opened Ledger

  /** The lines that are not blank, in order. */
  function NonBlank(lines: seq<string>): (kept: seq<string>)
    ensures forall l :: l in kept <==> l in lines && Strip(l) != []
    ensures |lines| == 1 ==> kept == (if Strip(lines[0]) != [] then lines else [])
  {
    if lines == [] then []
    else (if Strip(lines[0]) != [] then [lines[0]] else []) + NonBlank(lines[1..])
  }

  /** Filtering works piecewise over a concatenation, so order and multiplicity are kept. */
  lemma {:induction false} NonBlankConcat(a: seq<string>, b: seq<string>)
    ensures NonBlank(a + b) == NonBlank(a) + NonBlank(b)
  {
    if a == [] {
      assert a + b == b;
    } else {
      var rest := a[1..];
      var h := if Strip(a[0]) != [] then [a[0]] else [];
      NonBlankConcat(rest, b);
      ConsSplit(a, b);
      NonBlankCons(a[0], rest);
      NonBlankCons(a[0], rest + b);
      calc {
        NonBlank(a + b);
        NonBlank([a[0]] + (rest + b));
        h + NonBlank(rest + b);
        h + (NonBlank(rest) + NonBlank(b));
        { ConcatAssoc(h, NonBlank(rest), NonBlank(b)); }
        (h + NonBlank(rest)) + NonBlank(b);
        NonBlank([a[0]] + rest) + NonBlank(b);
        NonBlank(a) + NonBlank(b);
      }
    }
  }

  lemma NonBlankCons(line: string, rest: seq<string>)
    ensures NonBlank([line] + rest) == (if Strip(line) != [] then [line] else []) + NonBlank(rest)
  {
    assert ([line] + rest)[1..] == rest;
  }

  /** A first line without '=' and '&' is a header, not data. */
  predicate IsHeader(line: string) {
    '=' !in line && '&' !in line
  }

  function DropHeader(lines: seq<string>): seq<string> {
    if lines != [] && IsHeader(lines[0]) then lines[1..] else lines
  }

  /** The non-blank lines of the body after '\r' is removed. */
  function BodyLines(body: string): seq<string> {
    NonBlank(Split(RemoveChar(body, '\r'), '\n'))
  }

  /** The data lines: the body lines without a header line. */
  function DataLines(body: string): seq<string> {
    DropHeader(BodyLines(body))
  }

  /** `content.replace("\n", "&").split("&")`, content being the data lines joined by newlines. */
  function Parts(body: string): seq<string> {
    Split(ReplaceChar(Join(DataLines(body), '\n'), '\n', '&'), '&')
  }

  /** No data line is blank or holds a newline. */
  lemma DataLinesKept(body: string)
    ensures forall l :: l in DataLines(body) ==> Strip(l) != [] && '\n' !in l
  {
    var lines := BodyLines(body);
    forall l | l in DataLines(body) ensures Strip(l) != [] && '\n' !in l {
      assert l in lines;
    }
  }

  /**
   * Splitting on newline and '&' splits every data line at '&': the parts
   * are the '&'-pieces of each data line in turn (one empty part when
   * there is no data line).
   */
  lemma PartsPerLine(body: string)
    ensures Parts(body) == if DataLines(body) == [] then [[]] else SplitEach(DataLines(body), '&')
  {
    var lines := DataLines(body);
    DataLinesKept(body);
    if lines != [] {
      ReplaceSeparator(lines, '\n', '&');
      SplitOfJoin(lines, '&');
    } else {
      assert ReplaceChar([], '\n', '&') == [];
    }
  }

  /**
   * `k, v = part.split("=", 1)` stripped, for a part holding '='; `None`
   * for a part without one, which the parser skips.
   */
  function PairOf(part: string): (pair: Option<(string, string)>)
    ensures pair.None? <==> '=' !in part
  {
    if '=' in part then
      var kv := SplitFirst(part, '=');
      Some((Strip(kv.0), Strip(kv.1)))
    else
      None
  }

  /**
   * A pair is cut at the first '=' of its part (the value may hold more),
   * and both sides are stripped of whitespace.
   */
  lemma PairOfSplitsAtFirstEquals(part: string)
    requires '=' in part
    ensures exists k, v :: part == k + "=" + v && '=' !in k && PairOf(part) == Some((Strip(k), Strip(v)))
  {
    var kv := SplitFirst(part, '=');
    assert part == kv.0 + "=" + kv.1 && '=' !in kv.0 && PairOf(part) == Some((Strip(kv.0), Strip(kv.1)));
  }

  /** The pairs of the parts that hold '=', in order. */
  function PairsOf(parts: seq<string>): seq<(string, string)> {
    if parts == [] then []
    else
      var pair := PairOf(parts[|parts| - 1]);
      PairsOf(parts[..|parts| - 1]) + (if pair.Some? then [pair.value] else [])
  }

  /** The `raw` dict the parsing loop fills from the body. */
  function RawParams(body: string): (raw: Dict)
    ensures UniqueKeys(raw)
  {
    FromPairsUnique(PairsOf(Parts(body)));
    FromPairs(PairsOf(Parts(body)))
  }

  /** The normalised `params` dict of the body. */
  function ChatParams(body: string): Dict {
    Normalized(RawParams(body))
  }

  /** One more part appends its pair, if it has one. */
  lemma PairsOfStep(parts: seq<string>, i: nat)
    requires i < |parts|
    ensures PairsOf(parts[..i + 1]) ==
      PairsOf(parts[..i]) + (if PairOf(parts[i]).Some? then [PairOf(parts[i]).value] else [])
  {
    var prefix := parts[..i + 1];
    assert prefix[..i] == parts[..i];
  }

  /** One more part adds its pair, if it has one, to the dict. */
  lemma ParseStep(parts: seq<string>, i: nat)
    requires i < |parts|
    ensures FromPairs(PairsOf(parts[..i + 1])) ==
      if PairOf(parts[i]).Some? then Put(FromPairs(PairsOf(parts[..i])), PairOf(parts[i]).value.0, PairOf(parts[i]).value.1)
      else FromPairs(PairsOf(parts[..i]))
  {
    var pair := PairOf(parts[i]);
    var ps := PairsOf(parts[..i]);
    PairsOfStep(parts, i);
    if pair.Some? {
      assert PairsOf(parts[..i + 1]) == ps + [pair.value];
      FromPairsSnoc(ps, pair.value);
    } else {
      assert PairsOf(parts[..i + 1]) == ps;
    }
  }

  /**
   * The loop `for part in ...: if not part or "=" not in part: continue;
   * k, v = part.split("=", 1); raw[k.strip()] = v.strip()`.
   */
  method ParseRaw(parts: seq<string>) returns (raw: Dict)
    ensures raw == FromPairs(PairsOf(parts))
    ensures UniqueKeys(raw)
  {
    raw := [];
    var i := 0;
    while i < |parts|
      invariant 0 <= i <= |parts|
      invariant raw == FromPairs(PairsOf(parts[..i]))
    {
      var part := parts[i];
      ParseStep(parts, i);
      if part != [] && '=' in part {
        var kv := SplitFirst(part, '=');
        raw := Put(raw, Strip(kv.0), Strip(kv.1));
      }
      i := i + 1;
    }
    assert parts[..i] == parts;
    FromPairsUnique(PairsOf(parts));
  }

  /** Whether the chat handler credits a notification, and whom. */
  function ChatVerdict(params: Dict, configuredSecret: string, sha1: string -> string): Verdict {
    if !(SignatureMatches(params, configuredSecret, sha1) && CodeproAllowsCredit(params)) then InvalidSignature
    else
      match ResolveUserId(GetOr(params, "label", ""))
      case None => UnresolvedUser
      case Some(userId) => Credit(userId)
  }

  /**
   * The chat handler credits exactly when the hash matches case-insensitively,
   * `codepro` is "false" (or absent) and the label holds a digit; the user
   * credited is the number its digits spell.
   */
  lemma ChatVerdictCases(params: Dict, configuredSecret: string, sha1: string -> string)
    ensures var labelText := GetOr(params, "label", "");
      ChatVerdict(params, configuredSecret, sha1) ==
        if !SignatureMatches(params, configuredSecret, sha1) || !CodeproAllowsCredit(params) then InvalidSignature
        else if DigitsOf(labelText) == [] then UnresolvedUser
        else Credit(DecimalValue(DigitsOf(labelText)))
  {
    ResolveUserIdIsLabelDigits(GetOr(params, "label", ""));
  }

  /** The messages the handler answers with. */
  datatype ChatReply =
    | SignatureRejectedMessage
    | UnknownUserMessage
    | PaymentConfirmed(userId: nat, balance: int)

  /**
   * `on_yoomoney_notification`: parse, normalise, verify, and on success
   * credit one generation through kling_bot.py's own `increment_user_balance`
   * (a table without usernames). An invalid or unresolvable notification
   * leaves the table untouched.
   */
  method HandleNotification(table: PaymentsTable, body: string, configuredSecret: string,
                            sha1: string -> string, now: string) returns (reply: ChatReply)
    modifies table
    ensures var verdict := ChatVerdict(ChatParams(body), configuredSecret, sha1);
      match verdict
      case InvalidSignature => reply == SignatureRejectedMessage && table.rows == old(table.rows)
      case UnresolvedUser => reply == UnknownUserMessage && table.rows == old(table.rows)
      case Credit(userId) =>
        (table.rows, reply) == (Incremented(old(table.rows), userId, 1, None, now).0,
                                PaymentConfirmed(userId, Incremented(old(table.rows), userId, 1, None, now).1))
  {
    var raw := ParseRaw(Parts(body));
    var params := NormalizeParams(raw);
    var isValid := SignatureMatches(params, configuredSecret, sha1) && CodeproAllowsCredit(params);
    if !isValid {
      return SignatureRejectedMessage;
    }
    var userId := ResolveUserId(GetOr(params, "label", ""));
    if userId.None? {
      return UnknownUserMessage;
    }
    var newBalance := table.IncrementUserBalance(userId.value, 1, None, now);
    reply := PaymentConfirmed(userId.value, newBalance);
  }

  /** Lines that are all non-blank are all kept. */
  lemma {:induction false} NonBlankKeepsAll(lines: seq<string>)
    requires forall i :: 0 <= i < |lines| ==> Strip(lines[i]) != []
    ensures NonBlank(lines) == lines
  {
    if lines != [] {
      NonBlankKeepsAll(lines[1..]);
      assert [lines[0]] + lines[1..] == lines;
    }
  }

  /** Lines without the separator are each one piece. */
  lemma {:induction false} SplitEachWithout(lines: seq<string>, sep: char)
    requires forall i :: 0 <= i < |lines| ==> sep !in lines[i]
    ensures SplitEach(lines, sep) == lines
  {
    if lines != [] {
      SplitWithoutSeparator(lines[0], sep);
      SplitEachWithout(lines[1..], sep);
      assert [lines[0]] + lines[1..] == lines;
    }
  }

  /** No part is skipped when every part holds '=': the i-th pair is the i-th part's. */
  lemma {:induction false} PairsOfAll(parts: seq<string>)
    requires forall i :: 0 <= i < |parts| ==> '=' in parts[i]
    ensures |PairsOf(parts)| == |parts|
    ensures forall i :: 0 <= i < |parts| ==> Some(PairsOf(parts)[i]) == PairOf(parts[i])
  {
    if parts != [] {
      var init := parts[..|parts| - 1];
      var last := parts[|parts| - 1];
      PairsOfAll(init);
      LastSplit(parts);
      PairsOfSnoc(init, last);
      PairsMatchSnoc(init, last, PairsOf(init));
    }
  }

  /** Extending matching parts and pairs by one part holding '=' and its pair keeps them matching. */
  lemma PairsMatchSnoc(init: seq<string>, last: string, ps: seq<(string, string)>)
    requires '=' in last
    requires |ps| == |init|
    requires forall i :: 0 <= i < |init| ==> Some(ps[i]) == PairOf(init[i])
    ensures forall i :: 0 <= i < |init| + 1 ==> Some((ps + [PairOf(last).value])[i]) == PairOf((init + [last])[i])
  {
    forall i | 0 <= i < |init| + 1
      ensures Some((ps + [PairOf(last).value])[i]) == PairOf((init + [last])[i])
    {
      if i < |init| {
        assert (init + [last])[i] == init[i];
        assert (ps + [PairOf(last).value])[i] == ps[i];
      }
    }
  }

  lemma PairsOfSnoc(init: seq<string>, last: string)
    requires '=' in last
    ensures PairsOf(init + [last]) == PairsOf(init) + [PairOf(last).value]
  {
    var p := init + [last];
    SnocFront(init, last);
    assert p[..|p| - 1] == init;
    assert p[|p| - 1] == last;
    var pair := PairOf(last);
    assert pair.Some?;
    assert PairsOf(p) == PairsOf(init) + [pair.value];
  }

  /** Lines joined by newlines, without '\r', split back into the same lines. */
  lemma JoinedLinesSplit(all: seq<string>)
    requires |all| >= 1
    requires forall i :: 0 <= i < |all| ==> '\r' !in all[i] && '\n' !in all[i]
    ensures Split(RemoveChar(Join(all, '\n'), '\r'), '\n') == all
  {
    JoinLacks(all, '\n', '\r');
    RemoveAbsent(Join(all, '\n'), '\r');
    SplitJoin(all, '\n');
  }

  /** A line holding '=' is not blank. */
  lemma HoldsEqualsNotBlank(l: string)
    requires '=' in l
    ensures Strip(l) != []
  {
    var j :| 0 <= j < |l| && l[j] == '=';
    assert !IsSpace(l[j]);
  }

  /** The data lines of a header line followed by newline-free lines that hold '='. */
  lemma HeaderThenLines(header: string, lines: seq<string>)
    requires Strip(header) != [] && IsHeader(header) && '\r' !in header && '\n' !in header
    requires forall i :: 0 <= i < |lines| ==> '=' in lines[i] && '\r' !in lines[i] && '\n' !in lines[i]
    ensures DataLines(Join([header] + lines, '\n')) == lines
  {
    var all := [header] + lines;
    forall i | 0 <= i < |all| ensures '\r' !in all[i] && '\n' !in all[i] && Strip(all[i]) != [] {
      if i > 0 {
        assert all[i] == lines[i - 1];
        HoldsEqualsNotBlank(all[i]);
      }
    }
    JoinedLinesSplit(all);
    NonBlankKeepsAll(all);
    assert BodyLines(Join(all, '\n')) == all;
    assert all[1..] == lines;
  }

  /**
   * A notification pasted as a header line and then `key=value` lines is
   * read line by line: the header is dropped and every line gives one
   * pair, cut at its first '=' and stripped, assigned in order.
   */
  lemma KeyValueLinesParse(header: string, lines: seq<string>)
    requires Strip(header) != [] && IsHeader(header) && '\r' !in header && '\n' !in header
    requires forall i :: 0 <= i < |lines| ==> '=' in lines[i] && '\r' !in lines[i] && '\n' !in lines[i] && '&' !in lines[i]
    ensures RawParams(Join([header] + lines, '\n')) == FromPairs(PairsOf(lines))
  {
    var body := Join([header] + lines, '\n');
    HeaderThenLines(header, lines);
    PartsPerLine(body);
    if lines == [] {
      assert PairOf([]) == None;
      assert PairsOf([[]]) == [];
    } else {
      SplitEachWithout(lines, '&');
      assert Parts(body) == lines;
    }
  }

  /** `key=value`. */
  function PairLine(p: (string, string)): string {
    p.0 + "=" + p.1
  }

  function PairLines(pairs: seq<(string, string)>): (lines: seq<string>)
    ensures |lines| == |pairs|
  {
    seq(|pairs|, i requires 0 <= i < |pairs| => PairLine(pairs[i]))
  }

  /** The characters that end a part or a line. */
  predicate Separates(c: char) {
    c == '&' || c == '\r' || c == '\n'
  }

  /** Non-empty, not padded with whitespace, and free of separators. */
  predicate PlainText(s: string) {
    && s != [] && !IsSpace(s[0]) && !IsSpace(s[|s| - 1])
    && forall i :: 0 <= i < |s| ==> !Separates(s[i])
  }

  /** A pair that survives a `key=value` line: plain key and value, no '=' in the key. */
  predicate PlainPair(p: (string, string)) {
    && PlainText(p.0) && PlainText(p.1)
    && forall i :: 0 <= i < |p.0| ==> p.0[i] != '='
  }

  /** A plain pair's line parses back to the pair, whatever '=' its value holds. */
  lemma PairLineParses(p: (string, string))
    requires PlainPair(p)
    ensures PairOf(PairLine(p)) == Some(p)
  {
    var line := PairLine(p);
    assert line[..|p.0|] == p.0 && line[|p.0| + 1..] == p.1;
    SplitFirstAt(line, '=', |p.0|);
    StripUnpadded(p.0);
    StripUnpadded(p.1);
  }

  /** A plain pair's line holds '=' and no separator. */
  lemma PairLineFacts(p: (string, string))
    requires PlainPair(p)
    ensures var line := PairLine(p);
      '=' in line && '\r' !in line && '\n' !in line && '&' !in line
  {
    var line := PairLine(p);
    assert line[|p.0|] == '=';
    assert forall i :: 0 <= i < |p.0| ==> line[i] == p.0[i];
    assert forall i :: |p.0| < i < |line| ==> line[i] == p.1[i - |p.0| - 1];
    assert forall i :: 0 <= i < |line| ==> !Separates(line[i]);
  }

  /**
   * Writing plain pairs with distinct keys as `key=value` lines under a
   * header line, and parsing the text, gives back the pairs in order.
   */
  lemma PairLinesRoundTrip(header: string, pairs: seq<(string, string)>)
    requires Strip(header) != [] && IsHeader(header) && '\r' !in header && '\n' !in header
    requires forall i :: 0 <= i < |pairs| ==> PlainPair(pairs[i])
    requires UniqueKeys(pairs)
    ensures RawParams(Join([header] + PairLines(pairs), '\n')) == pairs
  {
    var lines := PairLines(pairs);
    forall i | 0 <= i < |lines|
      ensures '=' in lines[i] && '\r' !in lines[i] && '\n' !in lines[i] && '&' !in lines[i]
      ensures PairOf(lines[i]) == Some(pairs[i])
    {
      PairLineFacts(pairs[i]);
      PairLineParses(pairs[i]);
    }
    KeyValueLinesParse(header, lines);
    PairsOfAll(lines);
    assert PairsOf(lines) == pairs;
    FromPairsDistinct(pairs);
  }

  /** The notification text the bot's `/test_notification` command sends itself. */
  const SampleHeader: string := "Платеж получен!"

  /** Its `key=value` lines, as pairs. */
  const SamplePairs: seq<(string, string)> := [
    ("operationid", "test-notification"),
    ("notificationtype", "p2p-incoming"),
    ("amount", "255.80"),
    ("currency", "643"),
    ("datetime", "2025-10-29T23:57:00Z"),
    ("sender", "41001000040"),
    ("codepro", "false"),
    ("label", "user_id:123456789"),
    ("sha1-hash", "46898d2aaddb327c902e958ea3bb71822183923a")
  ]

  const SampleBody: string := Join([SampleHeader] + PairLines(SamplePairs), '\n')

  /** No key of the sample repeats. */
  lemma SampleKeysUnique()
    ensures UniqueKeys(SamplePairs)
  {
  }

  /** Every sample pair survives its line (checked two pairs at a time). */
  lemma SamplePairsPlain()
    ensures forall i :: 0 <= i < |SamplePairs| ==> PlainPair(SamplePairs[i])
  {
    SampleIdPairsPlain();
    SampleAmountPairsPlain();
    SampleDatePairsPlain();
    SampleLabelPairsPlain();
    SampleHashPairPlain();
  }

  lemma SampleIdPairsPlain()
    ensures PlainPair(SamplePairs[0]) && PlainPair(SamplePairs[1])
  {
  }

  lemma SampleAmountPairsPlain()
    ensures PlainPair(SamplePairs[2]) && PlainPair(SamplePairs[3])
  {
  }

  lemma SampleDatePairsPlain()
    ensures PlainPair(SamplePairs[4]) && PlainPair(SamplePairs[5])
  {
  }

  lemma SampleLabelPairsPlain()
    ensures PlainPair(SamplePairs[6]) && PlainPair(SamplePairs[7])
  {
  }

  lemma SampleHashPairPlain()
    ensures PlainPair(SamplePairs[8])
  {
  }

  /** The sample's first line is a header. */
  lemma SampleHeaderIsHeader()
    ensures Strip(SampleHeader) != [] && IsHeader(SampleHeader)
    ensures '\r' !in SampleHeader && '\n' !in SampleHeader
  {
    assert !IsSpace(SampleHeader[0]);
    assert forall i :: 0 <= i < |SampleHeader| ==>
      SampleHeader[i] != '=' && SampleHeader[i] != '&' && !Separates(SampleHeader[i]);
  }

  /** The sample parses to its nine pairs, in order. */
  lemma SampleNotificationParse()
    ensures RawParams(SampleBody) == SamplePairs
  {
    SamplePairsPlain();
    SampleKeysUnique();
    SampleHeaderIsHeader();
    PairLinesRoundTrip(SampleHeader, SamplePairs);
  }

  /** The sample's `label` key is kept as it is. */
  lemma SampleLabelKey()
    ensures NormalizeKey(SamplePairs[7].0) == "label"
  {
    assert Lower("label") == "label";
  }

  /** The sample's `sha1-hash` key is renamed. */
  lemma SampleHashKey()
    ensures NormalizeKey(SamplePairs[8].0) == "sha1_hash"
  {
    assert SamplePairs[8].0 == "sha1-hash";
    HashKeyAlias();
  }

  /** After normalisation the last sample pair with key `label` is the eighth. */
  lemma SampleNormalizedLabel()
    ensures LastValue(NormalizedPairs(SamplePairs), "label") == Some("user_id:123456789")
  {
    SampleLabelKey();
    SampleHashKey();
    var ps := NormalizedPairs(SamplePairs);
    assert ps[8].0 == "sha1_hash";
    assert ps[..8][7] == ps[7] == ("label", "user_id:123456789");
  }

  /** The sample's label, after normalisation, names user 123456789. */
  lemma SampleNotificationLabel()
    ensures Get(ChatParams(SampleBody), "label") == Some("user_id:123456789")
    ensures ResolveUserId(GetOr(ChatParams(SampleBody), "label", "")) == Some(123456789)
  {
    SampleNotificationParse();
    SampleNormalizedLabel();
    FromPairsGet(NormalizedPairs(SamplePairs), "label");
    SampleLabel();
  }
}
