// Verification of a signed request (netra-api/src/middleware/auth.rs): headers, clock skew, replay
// cache and signature, and how often one signed text can be verified.
module SignedRequests {
  import opened Canonical
  import opened MachineInts
  import NonceCache
  import opened Seqs
  import opened Text

  // ----- Headers --------------------------------------------------------------------

  datatype Headers = Headers(
    deviceId: Option<string>, timestamp: Option<string>, nonce: Option<string>,
    requestId: Option<string>, signature: Option<string>)

  /** A header value reads as text if it consists of visible ASCII characters, spaces and tabs. */
  predicate IsVisible(c: char) { c == '\t' || ' ' <= c <= '~' }

  predicate IsText(value: Option<string>) {
    value.Some? && forall i :: 0 <= i < |value.value| ==> IsVisible(value.value[i])
  }

  predicate IsDigit(c: char) { '0' <= c <= '9' }

  predicate AllDigits(s: string) { forall i :: 0 <= i < |s| ==> IsDigit(s[i]) }

  function Value(digits: string): nat
    requires AllDigits(digits)
  {
    if digits == "" then 0
    else 10 * Value(Front(digits)) + (Last(digits) as int - '0' as int)
  }

  /** `str::parse::<i64>`: an optional sign, then digits, within range. */
  function ParseI64(s: string): Option<i64> {
    var digits := if s != "" && s[0] in "+-" then s[1..] else s;
    if digits == "" || !AllDigits(digits) then None
    else
      var n: int := if s[0] == '-' then 0 - Value(digits) else Value(digits);
      if I64_MIN <= n <= I64_MAX then Some(n) else None
  }

  lemma {:induction false} DigitsRead(n: nat)
    ensures AllDigits(Digits(n)) && Value(Digits(n)) == n
  {
    if n >= 10 {
      DigitsRead(n / 10);
      assert Front(Digits(n)) == Digits(n / 10);
    }
  }

  /** What a client writes for a timestamp is what the server reads. */
  lemma ParseInvertsDecimal(n: i64)
    ensures ParseI64(Decimal(n)) == Some(n)
  {
    DigitsRead(if n < 0 then 0 - n else n);
    hide Digits, Value;
    if n < 0 {
      assert Decimal(n)[1..] == Digits(0 - n);
    } else {
      assert IsDigit(Decimal(n)[0]);
    }
  }

  // ----- Requests -------------------------------------------------------------------

  /** The request line and the hash of the body beside the headers; times as in module NonceCache. */
  datatype Incoming = Incoming(
    headers: Headers, method_: string, path: string, bodyHash: string, checked: int, recorded: int)

  datatype Verdict =
    | MissingDeviceId | MissingTimestamp | MissingNonce | MissingRequestId | MissingSignature
    | InvalidTimestamp | ClockSkew | Replayed | BadSignature | Verified

  predicate AllPresent(h: Headers) {
    IsText(h.deviceId) && IsText(h.timestamp) && IsText(h.nonce) && IsText(h.requestId) && IsText(h.signature)
  }

  predicate Readable(h: Headers) {
    AllPresent(h) && ParseI64(h.timestamp.value).Some?
  }

  function Timestamp(h: Headers): i64
    requires Readable(h)
  {
    ParseI64(h.timestamp.value).value
  }

  function CanonicalOf(r: Incoming): CanonicalRequest
    requires Readable(r.headers)
  {
    NewRequest(r.method_, r.path, Timestamp(r.headers), r.headers.nonce.value, r.headers.requestId.value, r.bodyHash)
  }

  /** Within the skew of the wall clock, whose seconds fit an i64. */
  predicate InTime(r: Incoming, skew: nat)
    requires Readable(r.headers)
  {
    && I64_MIN <= NonceCache.Wall(r.checked) <= I64_MAX
    && NonceCache.Timely(NonceCache.Wall(r.checked), Timestamp(r.headers), skew)
  }

  /** What the cache is asked; None for a request that does not get as far. */
  function Asks(r: Incoming, skew: nat): Option<NonceCache.Call> {
    if Readable(r.headers) && InTime(r, skew)
    then Some(NonceCache.Call(r.headers.nonce.value, r.recorded))
    else None
  }

  /**
   * The checks in order; `valid` tells whether a signature belongs to a text. A timely nonce is used up
   * before the signature is looked at.
   */
  method VerifyRequest(cache: NonceCache.Cache, r: Incoming, skew: nat, valid: (string, string) -> bool)
    returns (verdict: Verdict)
    requires I64_MIN <= NonceCache.Wall(r.checked) <= I64_MAX
    modifies cache
    ensures
      var h := r.headers;
      match verdict
      case MissingDeviceId => !IsText(h.deviceId)
      case MissingTimestamp => IsText(h.deviceId) && !IsText(h.timestamp)
      case MissingNonce => IsText(h.deviceId) && IsText(h.timestamp) && !IsText(h.nonce)
      case MissingRequestId => IsText(h.deviceId) && IsText(h.timestamp) && IsText(h.nonce) && !IsText(h.requestId)
      case MissingSignature => !AllPresent(h) && AllPresent(h.(signature := Some("")))
      case InvalidTimestamp => AllPresent(h) && ParseI64(h.timestamp.value).None?
      case ClockSkew => Readable(h) && !InTime(r, skew)
      case Replayed =>
        Asks(r, skew).Some? && !NonceCache.Accepts(old(cache.entries), cache.ttl, Asks(r, skew).value)
      case BadSignature =>
        && Asks(r, skew).Some? && NonceCache.Accepts(old(cache.entries), cache.ttl, Asks(r, skew).value)
        && !valid(CanonicalOf(r).StringToSign(), h.signature.value)
      case Verified =>
        && Asks(r, skew).Some? && NonceCache.Accepts(old(cache.entries), cache.ttl, Asks(r, skew).value)
        && valid(CanonicalOf(r).StringToSign(), h.signature.value)
    ensures cache.entries ==
      match Asks(r, skew)
      case Some(call) => NonceCache.Recorded(old(cache.entries), cache.ttl, call)
      case None => old(cache.entries)
  {
    hide NonceCache.Accepts, NonceCache.Recorded, NonceCache.Timely, NonceCache.Wall, NewRequest, ParseI64;
    var h := r.headers;
    if !IsText(h.deviceId) {
      return MissingDeviceId;
    }
    if !IsText(h.timestamp) {
      return MissingTimestamp;
    }
    if !IsText(h.nonce) {
      return MissingNonce;
    }
    if !IsText(h.requestId) {
      return MissingRequestId;
    }
    if !IsText(h.signature) {
      return MissingSignature;
    }
    var timestamp := ParseI64(h.timestamp.value);
    if timestamp.None? {
      return InvalidTimestamp;
    }
    if !NonceCache.Timely(NonceCache.Wall(r.checked), timestamp.value, skew) {
      return ClockSkew;
    }
    var isFresh := cache.CheckAndRecord(h.nonce.value, r.recorded);
    if !isFresh {
      return Replayed;
    }
    var canonical := NewRequest(r.method_, r.path, timestamp.value, h.nonce.value, h.requestId.value, r.bodyHash);
    verdict := if valid(canonical.StringToSign(), h.signature.value) then Verified else BadSignature;
  }

  /**
   * What a client signs is what the server checks: from a request that carries the fields of a canonical
   * request the same canonical request is built.
   */
  lemma ServerReadsClient(
      r: Incoming, method_: string, path: string, timestamp: i64, nonce: string, requestId: string)
    requires
      var c := NewRequest(method_, path, timestamp, nonce, requestId, r.bodyHash);
      && AllPresent(r.headers) && r.method_ == c.method_ && r.path == c.path
      && r.headers.timestamp == Some(Decimal(timestamp))
      && r.headers.nonce == Some(c.nonce) && r.headers.requestId == Some(c.requestId)
    ensures Readable(r.headers)
    ensures CanonicalOf(r) == NewRequest(method_, path, timestamp, nonce, requestId, r.bodyHash)
  {
    ParseInvertsDecimal(timestamp);
    NewIsIdempotent(method_, path, timestamp, nonce, requestId, r.bodyHash);
    hide Trim, ToAsciiUppercase, ParseI64, Decimal;
  }

  // ----- One text, one verification -----------------------------------------------------

  predicate Sane(r: Incoming, lag: nat) {
    && 0 <= NonceCache.Wall(r.checked) < 0x4000_0000_0000_0000
    && r.checked <= r.recorded <= r.checked + lag
    && OneLine(r.method_) && OneLine(r.path) && OneLine(r.bodyHash)
  }

  /**
   * Requests on a sane clock, handed to the cache in order, each at most `lag` after its skew check, as in
   * module NonceCache. Request lines and hex digests hold no newline.
   */
  ghost predicate Plausible(run: seq<Incoming>, lag: nat) {
    && (forall i :: 0 <= i < |run| ==> Sane(run[i], lag))
    && (forall i, j :: 0 <= i < j < |run| ==> run[i].recorded <= run[j].recorded)
  }

  function Asked(run: seq<Incoming>, skew: nat): (calls: seq<Option<NonceCache.Call>>) {
    seq(|run|, i requires 0 <= i < |run| => Asks(run[i], skew))
  }

  predicate VerifiedAt(valid: (string, string) -> bool, run: seq<Incoming>, ttlSecs: nat, skew: nat, i: nat)
    requires i < |run|
  {
    && NonceCache.AcceptedAt(ttlSecs * NonceCache.SECOND, Asked(run, skew), i)
    && valid(CanonicalOf(run[i]).StringToSign(), run[i].headers.signature.value)
  }

  /** One signed text is verified twice. */
  predicate VerifiedTwice(
    valid: (string, string) -> bool, run: seq<Incoming>, ttlSecs: nat, skew: nat, i: nat, j: nat)
  {
    && i < j < |run|
    && VerifiedAt(valid, run, ttlSecs, skew, i) && VerifiedAt(valid, run, ttlSecs, skew, j)
    && CanonicalOf(run[i]).StringToSign() == CanonicalOf(run[j]).StringToSign()
  }

  /** All nonces that come in are among the admitted ones. */
  predicate Admitted(admits: string -> bool, run: seq<Incoming>) {
    forall i :: 0 <= i < |run| && run[i].headers.nonce.Some? ==> admits(run[i].headers.nonce.value)
  }

  ghost predicate VerifiedOnce(
    valid: (string, string) -> bool, admits: string -> bool, ttlSecs: nat, skew: nat, lag: nat)
  {
    forall run, i: nat, j: nat :: Plausible(run, lag) && Admitted(admits, run) ==>
      !VerifiedTwice(valid, run, ttlSecs, skew, i, j)
  }

  /** A nonce as it can stand in a header. */
  predicate IsNonce(admits: string -> bool, nonce: string) { admits(nonce) && IsText(Some(nonce)) }

  /** No two admitted nonces differ only in the white space around them. */
  ghost predicate ToldApart(admits: string -> bool) {
    forall a, b :: IsNonce(admits, a) && IsNonce(admits, b) && Trim(a) == Trim(b) ==> a == b
  }

  ghost predicate CanSign(valid: (string, string) -> bool, text: string) {
    exists signature :: IsText(Some(signature)) && valid(text, signature)
  }

  /** The owner of the key can sign any text. */
  ghost predicate Signable(valid: (string, string) -> bool) {
    forall text :: CanSign(valid, text)
  }

  lemma {:induction false} TrimStartWithin(s: string)
    ensures forall c :: c in TrimStart(s) ==> c in s
  {
    if s != "" && IsWhitespace(s[0]) {
      TrimStartWithin(s[1..]);
    }
  }

  lemma {:induction false} TrimWithin(s: string)
    ensures forall c :: c in Trim(s) ==> c in s
  {
    TrimStartWithin(s);
    TrimEndResult(TrimStart(s));
    var t := Trim(s);
    assert forall i :: 0 <= i < |t| ==> t[i] == TrimStart(s)[i];
  }

  lemma UpperOneLine(s: string)
    requires OneLine(s)
    ensures OneLine(ToAsciiUppercase(s))
  {
    assert forall i :: 0 <= i < |s| ==> s[i] != '\n';
  }

  lemma CanonicalOneLine(r: Incoming, lag: nat)
    requires Sane(r, lag) && Readable(r.headers)
    ensures CanonicalOf(r).OneLineFields()
  {
    TrimWithin(r.method_);
    TrimWithin(r.path);
    TrimWithin(r.headers.nonce.value);
    TrimWithin(r.headers.requestId.value);
    UpperOneLine(Trim(r.method_));
    hide Trim, ToAsciiUppercase;
  }

  /** One text means one timestamp and nonces that differ in surrounding white space at most. */
  lemma SameText(a: Incoming, b: Incoming, lag: nat)
    requires Sane(a, lag) && Readable(a.headers) && Readable(b.headers)
    requires CanonicalOf(a).StringToSign() == CanonicalOf(b).StringToSign()
    ensures Timestamp(a.headers) == Timestamp(b.headers)
    ensures Trim(a.headers.nonce.value) == Trim(b.headers.nonce.value)
  {
    CanonicalOneLine(a, lag);
    UnmistakableExactly(CanonicalOf(a));
    var c, d := CanonicalOf(a), CanonicalOf(b);
    assert c == d;
    hide Trim, ToAsciiUppercase, ParseI64;
    assert c.timestamp == Timestamp(a.headers) && d.timestamp == Timestamp(b.headers);
    assert c.nonce == Trim(a.headers.nonce.value) && d.nonce == Trim(b.headers.nonce.value);
  }

  function AsTimed(r: Incoming): NonceCache.Request
    requires Readable(r.headers)
  {
    NonceCache.Request(r.headers.nonce.value, Timestamp(r.headers), r.checked, r.recorded)
  }

  lemma OnceOnly(
      valid: (string, string) -> bool, admits: string -> bool, run: seq<Incoming>,
      ttlSecs: nat, skew: nat, lag: nat, i: nat, j: nat)
    requires Plausible(run, lag) && Admitted(admits, run) && ToldApart(admits)
    requires skew < 0x1000_0000_0000_0000 && NonceCache.Outlasts(ttlSecs, skew, lag)
    ensures !VerifiedTwice(valid, run, ttlSecs, skew, i, j)
  {
    hide NonceCache.AcceptedAt, NonceCache.Timely, NonceCache.Wall, CanonicalOf, Timestamp;
    if VerifiedTwice(valid, run, ttlSecs, skew, i, j) {
      var calls, ttl := Asked(run, skew), ttlSecs * NonceCache.SECOND;
      NonceCache.AcceptedAsked(ttl, calls, i);
      NonceCache.AcceptedAsked(ttl, calls, j);
      assert calls[i] == Asks(run[i], skew) && calls[j] == Asks(run[j], skew);
      SameText(run[i], run[j], lag);
      assert IsNonce(admits, run[i].headers.nonce.value) && IsNonce(admits, run[j].headers.nonce.value);
      NonceCache.TimelySpan(AsTimed(run[i]), AsTimed(run[j]), skew, lag);
      NonceCache.Spaced(ttl, calls, i, j);
    }
  }

  /** A request with nothing but a nonce, a timestamp and a signature. */
  function Sent(nonce: string, signature: string, timestamp: i64, checked: int, recorded: int): Incoming {
    var headers := Headers(Some(""), Some(Decimal(timestamp)), Some(nonce), Some(""), Some(signature));
    Incoming(headers, "", "", "", checked, recorded)
  }

  lemma SentReads(nonce: string, signature: string, timestamp: i64, checked: int, recorded: int)
    requires IsText(Some(nonce)) && IsText(Some(signature))
    ensures
      var r := Sent(nonce, signature, timestamp, checked, recorded);
      && Readable(r.headers) && Timestamp(r.headers) == timestamp
      && CanonicalOf(r) == NewRequest("", "", timestamp, nonce, "", "")
  {
    ParseInvertsDecimal(timestamp);
    DigitsRead(if timestamp < 0 then 0 - timestamp else timestamp);
    hide ParseI64, NewRequest, Digits, Value;
  }

  lemma SameRequest(timestamp: i64, a: string, b: string)
    requires Trim(a) == Trim(b)
    ensures NewRequest("", "", timestamp, a, "", "") == NewRequest("", "", timestamp, b, "", "")
  {
  }

  predicate SentWell(r: Incoming, valid: (string, string) -> bool, skew: nat) {
    && Readable(r.headers) && InTime(r, skew)
    && valid(CanonicalOf(r).StringToSign(), r.headers.signature.value)
  }

  lemma PairVerified(
      valid: (string, string) -> bool, first: Incoming, second: Incoming, ttlSecs: nat, skew: nat, lag: nat)
    requires SentWell(first, valid, skew) && SentWell(second, valid, skew)
    requires CanonicalOf(first) == CanonicalOf(second)
    requires
      || first.headers.nonce != second.headers.nonce
      || second.recorded - first.recorded >= ttlSecs * NonceCache.SECOND
    ensures VerifiedTwice(valid, [first, second], ttlSecs, skew, 0, 1)
  {
    hide NonceCache.AcceptedAt, InTime, CanonicalOf, ParseI64;
    NonceCache.BothAccepted(
      ttlSecs * NonceCache.SECOND, Asked([first, second], skew),
      NonceCache.Call(first.headers.nonce.value, first.recorded),
      NonceCache.Call(second.headers.nonce.value, second.recorded));
  }

  /** Two nonces that trim to one, or one nonce sent again after the TTL: the text is verified both times. */
  lemma VerifiedBothTimes(
      valid: (string, string) -> bool, admits: string -> bool, a: string, b: string, timestamp: i64,
      checked: int, recorded: int, ttlSecs: nat, skew: nat, lag: nat)
    requires Signable(valid) && IsNonce(admits, a) && IsNonce(admits, b) && Trim(a) == Trim(b)
    requires 0 <= checked <= recorded <= checked + lag && NonceCache.Wall(checked) < 0x4000_0000_0000_0000
    requires NonceCache.Timely(0, timestamp, skew) && NonceCache.Timely(NonceCache.Wall(checked), timestamp, skew)
    requires a != b || recorded >= ttlSecs * NonceCache.SECOND
    ensures !VerifiedOnce(valid, admits, ttlSecs, skew, lag)
  {
    var text := NewRequest("", "", timestamp, a, "", "").StringToSign();
    assert CanSign(valid, text);
    var signature :| IsText(Some(signature)) && valid(text, signature);
    var first, second := Sent(a, signature, timestamp, 0, 0), Sent(b, signature, timestamp, checked, recorded);
    SentReads(a, signature, timestamp, 0, 0);
    SentReads(b, signature, timestamp, checked, recorded);
    SameRequest(timestamp, a, b);
    hide CanonicalOf, Readable, Timestamp, NewRequest, NonceCache.Timely, VerifiedTwice;
    PairVerified(valid, first, second, ttlSecs, skew, lag);
    assert Sane(first, lag) && Sane(second, lag);
    assert Plausible([first, second], lag) && Admitted(admits, [first, second]);
  }

  /**
   * In every run one signed text is verified at most once exactly if the TTL outlasts the span in which
   * a timestamp is timely, and no two admitted nonces differ in surrounding white space alone: the cache
   * looks at the header as it came, the signature covers what is left after trimming.
   */
  lemma VerifiedOnceExactly(
      valid: (string, string) -> bool, admits: string -> bool, some: string, ttlSecs: nat, skew: nat, lag: nat)
    requires Signable(valid) && IsNonce(admits, some) && skew < 0x1000_0000_0000_0000
    ensures VerifiedOnce(valid, admits, ttlSecs, skew, lag)
       <==> NonceCache.Outlasts(ttlSecs, skew, lag) && ToldApart(admits)
  {
    if !NonceCache.Outlasts(ttlSecs, skew, lag) {
      var last := (2 * skew + 1) * NonceCache.SECOND - 1;
      assert NonceCache.Wall(last) == 2 * skew;
      NonceCache.TimelyExactly(0, skew, skew);
      NonceCache.TimelyExactly(2 * skew, skew, skew);
      VerifiedBothTimes(valid, admits, some, some, skew, last, last + lag, ttlSecs, skew, lag);
    } else if !ToldApart(admits) {
      var a, b :| IsNonce(admits, a) && IsNonce(admits, b) && Trim(a) == Trim(b) && a != b;
      NonceCache.TimelyExactly(0, 0, skew);
      VerifiedBothTimes(valid, admits, a, b, 0, 0, 0, ttlSecs, skew, lag);
    } else {
      forall run, i: nat, j: nat | Plausible(run, lag) && Admitted(admits, run)
        ensures !VerifiedTwice(valid, run, ttlSecs, skew, i, j)
      {
        OnceOnly(valid, admits, run, ttlSecs, skew, lag, i, j);
      }
    }
  }

  lemma TrimmedToldApart()
    ensures ToldApart(Trimmed)
  {
    forall a, b | IsNonce(Trimmed, a) && IsNonce(Trimmed, b) && Trim(a) == Trim(b) ensures a == b {
      TrimIsTrimmed(a);
      TrimIsTrimmed(b);
    }
  }

  lemma SpaceIsTrimmed()
    ensures Trim(" ") == "" && Trim("") == ""
  {
  }

  predicate Any(nonce: string) { true }

  /** White space around the nonce defeats the cache; where parsers strip it, the TTL alone decides. */
  lemma WhiteSpaceDecides(valid: (string, string) -> bool, ttlSecs: nat, skew: nat, lag: nat)
    requires Signable(valid) && skew < 0x1000_0000_0000_0000
    ensures !VerifiedOnce(valid, Any, ttlSecs, skew, lag)
    ensures VerifiedOnce(valid, Trimmed, ttlSecs, skew, lag) <==> NonceCache.Outlasts(ttlSecs, skew, lag)
  {
    SpaceIsTrimmed();
    TrimmedToldApart();
    assert IsNonce(Any, " ") && IsNonce(Any, "") && IsNonce(Trimmed, "");
    hide Trim, VerifiedOnce, IsNonce, Trimmed;
    assert !ToldApart(Any);
    VerifiedOnceExactly(valid, Any, "", ttlSecs, skew, lag);
    VerifiedOnceExactly(valid, Trimmed, "", ttlSecs, skew, lag);
  }

  /** A text as read from a header: visible ASCII characters, spaces and tabs, and nothing else. */
  lemma TextExactly(value: string)
    ensures IsText(Some(value)) <==>
      forall k :: 0 <= k < |value| ==> value[k] as int == 9 || 32 <= value[k] as int <= 126
    ensures !IsText(None)
  {
  }

  predicate AllDecimal(s: string) { forall k :: 0 <= k < |s| ==> 48 <= s[k] as int <= 57 }

  /** What a timestamp header reads as: digits with an optional sign in front, within the range of an i64. */
  lemma ParseExactly(digits: string)
    requires digits != "" && AllDecimal(digits)
    ensures
      var n := Value(digits);
      && ParseI64(digits) == (if n <= I64_MAX then Some(n) else None)
      && ParseI64("+" + digits) == (if n <= I64_MAX then Some(n) else None)
      && ParseI64("-" + digits) == (if 0 - n >= I64_MIN then Some(0 - n) else None)
  {
    assert ("+" + digits)[1..] == digits && ("-" + digits)[1..] == digits;
    assert IsDigit(digits[0]);
    hide Value;
  }

  /** Nothing else is a timestamp. */
  lemma ParseRefuses(s: string)
    requires ParseI64(s).Some?
    ensures s != "" && (AllDecimal(s) || (|s| > 1 && s[0] in "+-" && AllDecimal(s[1..])))
  {
    hide Value;
  }

  /** The value of a list of digits, digit by digit. */
  lemma ValueOfMore(digits: string, last: char)
    requires AllDecimal(digits) && 48 <= last as int <= 57
    ensures AllDigits(digits + [last]) && Value(digits + [last]) == 10 * Value(digits) + (last as int - 48)
    ensures Value("") == 0
  {
    assert Front(digits + [last]) == digits;
  }

  /**
   * What one signature covers: of two requests with one text, bodies, timestamps, and up to white space at
   * their ends nonces and request ids are the same, so are the paths up to that and a slash in front, and
   * the methods up to that and the case of letters.
   */
  lemma TextCovers(a: Incoming, b: Incoming, lag: nat)
    requires Sane(a, lag) && Readable(a.headers) && Readable(b.headers)
    requires CanonicalOf(a).StringToSign() == CanonicalOf(b).StringToSign()
    ensures a.bodyHash == b.bodyHash && Timestamp(a.headers) == Timestamp(b.headers)
    ensures Trim(a.headers.nonce.value) == Trim(b.headers.nonce.value)
    ensures Trim(a.headers.requestId.value) == Trim(b.headers.requestId.value)
    ensures SignedPath(a.path) == SignedPath(b.path)
    ensures ToAsciiUppercase(Trim(a.method_)) == ToAsciiUppercase(Trim(b.method_))
  {
    CanonicalOneLine(a, lag);
    UnmistakableExactly(CanonicalOf(a));
    var c, d := CanonicalOf(a), CanonicalOf(b);
    assert c == d;
    hide Trim, ToAsciiUppercase, ParseI64;
    assert c.bodyHash == a.bodyHash && d.bodyHash == b.bodyHash;
    assert c.requestId == Trim(a.headers.requestId.value) && d.requestId == Trim(b.headers.requestId.value);
    assert c.nonce == Trim(a.headers.nonce.value) && d.nonce == Trim(b.headers.nonce.value);
    assert c.path == SignedPath(a.path) && d.path == SignedPath(b.path);
    assert c.method_ == ToAsciiUppercase(Trim(a.method_)) && d.method_ == ToAsciiUppercase(Trim(b.method_));
    assert c.timestamp == Timestamp(a.headers) && d.timestamp == Timestamp(b.headers);
  }

  /** The text that the server checks the signature against. */
  lemma CheckedText(r: Incoming)
    requires Readable(r.headers)
    ensures CanonicalOf(r).StringToSign() ==
      (ToAsciiUppercase(Trim(r.method_)) + "\n" + SignedPath(r.path))
        + ("\n" + Decimal(ParseI64(r.headers.timestamp.value).value) + "\n")
        + (Trim(r.headers.nonce.value) + "\n" + Trim(r.headers.requestId.value) + "\n" + r.bodyHash)
  {
    RequestText(
      r.method_, r.path, Timestamp(r.headers), r.headers.nonce.value, r.headers.requestId.value, r.bodyHash);
    hide Trim, ToAsciiUppercase, ParseI64, Decimal, NewRequest;
  }
}
