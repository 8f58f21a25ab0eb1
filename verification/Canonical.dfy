// The line-delimited strings the agent signs (identity/signer.rs, identity/protocol.rs and the
// session handshake of netra-api/src/wss/client.rs): when they determine what was signed.
module Canonical {
  import opened MachineInts
  import opened Seqs
  import opened Text

  // ----- Lines --------------------------------------------------------------------

  /** Fields joined by newlines. */
  function Join(fields: seq<string>): string
    requires fields != []
  {
    JoinWith("\n", fields)
  }

  /** The text between newlines. */
  function Lines(s: string): (lines: seq<string>)
    ensures lines != []
  {
    if s == "" then [""]
    else if s[0] == '\n' then [""] + Lines(s[1..])
    else
      var rest := Lines(s[1..]);
      [[s[0]] + rest[0]] + rest[1..]
  }

  predicate OneLine(s: string) { '\n' !in s }

  lemma LinesMore(c: char, s: string)
    ensures Lines([c] + s) == if c == '\n' then [""] + Lines(s) else [[c] + Lines(s)[0]] + Lines(s)[1..]
  {
    assert ([c] + s)[1..] == s;
  }

  lemma LongerHead(c: char, some: seq<string>, more: seq<string>)
    requires some != []
    ensures [[c] + (some + more)[0]] + (some + more)[1..] == ([[c] + some[0]] + some[1..]) + more
    ensures [""] + (some + more) == ([""] + some) + more
  {
  }

  lemma {:induction false} LinesSplit(a: string, b: string)
    ensures Lines(a + "\n" + b) == Lines(a) + Lines(b)
  {
    if a == "" {
      LinesMore('\n', b);
      assert a + "\n" + b == "\n" + b;
    } else {
      var rest := a[1..];
      assert a == [a[0]] + rest && a + "\n" + b == [a[0]] + (rest + "\n" + b);
      LinesMore(a[0], rest);
      LinesMore(a[0], rest + "\n" + b);
      LinesSplit(rest, b);
      LongerHead(a[0], Lines(rest), Lines(b));
      hide *;
    }
  }

  /** A text without newlines, and no other, is its own only line. */
  lemma {:induction false} SingleLine(s: string)
    ensures |Lines(s)| == 1 <==> OneLine(s)
    ensures OneLine(s) ==> Lines(s) == [s]
  {
    if s != "" {
      SingleLine(s[1..]);
      assert s == [s[0]] + s[1..];
      if s[0] != '\n' {
        var rest := Lines(s[1..]);
        assert OneLine(s) <==> OneLine(s[1..]);
        assert |Lines(s)| == |rest|;
      }
    }
  }

  /** The lines of every field, one field after the other. */
  function Pieces(fields: seq<string>): seq<string> {
    if fields == [] then [] else Lines(fields[0]) + Pieces(fields[1..])
  }

  lemma {:induction false} LinesOfJoin(fields: seq<string>)
    requires fields != []
    ensures Lines(Join(fields)) == Pieces(fields)
  {
    if |fields| == 1 {
      assert Pieces(fields[1..]) == [];
    } else {
      LinesSplit(fields[0], Join(fields[1..]));
      LinesOfJoin(fields[1..]);
    }
  }

  lemma {:induction false} PiecesCount(fields: seq<string>)
    ensures |Pieces(fields)| >= |fields|
    ensures |Pieces(fields)| == |fields| <==> forall i :: 0 <= i < |fields| ==> OneLine(fields[i])
    ensures |Pieces(fields)| == |fields| ==> Pieces(fields) == fields
  {
    if fields != [] {
      PiecesCount(fields[1..]);
      SingleLine(fields[0]);
      assert forall i :: 0 <= i < |fields| - 1 ==> fields[1..][i] == fields[i + 1];
    }
  }

  /** Splitting gives back the fields exactly if none of them contains a newline. */
  lemma SplitInvertsJoin(fields: seq<string>)
    requires fields != []
    ensures Lines(Join(fields)) == fields <==> forall i :: 0 <= i < |fields| ==> OneLine(fields[i])
  {
    LinesOfJoin(fields);
    PiecesCount(fields);
  }

  /** Two lists of one length with one text: if one has no newline in its fields, they are the same list. */
  lemma JoinUnique(a: seq<string>, b: seq<string>)
    requires a != [] && b != [] && |a| == |b| && Join(a) == Join(b)
    requires forall i :: 0 <= i < |a| ==> OneLine(a[i])
    ensures a == b
  {
    LinesOfJoin(a);
    LinesOfJoin(b);
    PiecesCount(a);
    PiecesCount(b);
  }

  lemma DecimalOneLine(n: int)
    ensures OneLine(Decimal(n))
  {
  }

  // ----- Requests -----------------------------------------------------------------

  datatype CanonicalRequest = CanonicalRequest(
    method_: string, path: string, timestamp: i64, nonce: string, requestId: string, bodyHash: string)
  {
    predicate OneLineFields() {
      OneLine(method_) && OneLine(path) && OneLine(nonce) && OneLine(requestId) && OneLine(bodyHash)
    }

    function Fields(): (fields: seq<string>)
      ensures fields != []
    {
      [method_, path, Decimal(timestamp), nonce, requestId, bodyHash]
    }

    function StringToSign(): string { Join(Fields()) }
  }

  lemma JoinMore(first: string, rest: seq<string>)
    requires rest != []
    ensures Join([first] + rest) == first + "\n" + Join(rest)
  {
    assert ([first] + rest)[1..] == rest;
  }

  /** The two texts around the timestamp. */
  lemma SignedParts(r: CanonicalRequest)
    ensures r.StringToSign() ==
      (r.method_ + "\n" + r.path) + ("\n" + Decimal(r.timestamp) + "\n")
        + (r.nonce + "\n" + r.requestId + "\n" + r.bodyHash)
  {
    var time := Decimal(r.timestamp);
    JoinMore(r.method_, [r.path, time, r.nonce, r.requestId, r.bodyHash]);
    JoinMore(r.path, [time, r.nonce, r.requestId, r.bodyHash]);
    JoinMore(time, [r.nonce, r.requestId, r.bodyHash]);
    JoinMore(r.nonce, [r.requestId, r.bodyHash]);
    JoinMore(r.requestId, [r.bodyHash]);
    hide Join;
    var tail := Join([r.nonce, r.requestId, r.bodyHash]);
    assert tail == r.nonce + "\n" + r.requestId + "\n" + r.bodyHash;
    assert r.StringToSign() == r.method_ + "\n" + (r.path + "\n" + (time + "\n" + tail));
  }

  lemma AtNewline(s: string) returns (a: string, b: string)
    requires !OneLine(s)
    ensures s == a + "\n" + b
  {
    var k :| 0 <= k < |s| && s[k] == '\n';
    a, b := s[..k], s[k + 1..];
  }

  /** A newline inside a field can be taken for the one between two fields. */
  lemma AnotherReading(r: CanonicalRequest) returns (other: CanonicalRequest)
    requires !r.OneLineFields()
    ensures other != r && other.StringToSign() == r.StringToSign()
  {
    if !OneLine(r.method_) {
      var a, b := AtNewline(r.method_);
      other := r.(method_ := a, path := b + "\n" + r.path);
      assert other.method_ + "\n" + other.path == r.method_ + "\n" + r.path;
    } else if !OneLine(r.path) {
      var a, b := AtNewline(r.path);
      other := r.(method_ := r.method_ + "\n" + a, path := b);
      assert other.method_ + "\n" + other.path == r.method_ + "\n" + r.path;
    } else {
      if !OneLine(r.nonce) {
        var a, b := AtNewline(r.nonce);
        other := r.(nonce := a, requestId := b + "\n" + r.requestId);
      } else if !OneLine(r.requestId) {
        var a, b := AtNewline(r.requestId);
        other := r.(nonce := r.nonce + "\n" + a, requestId := b);
      } else {
        var a, b := AtNewline(r.bodyHash);
        other := r.(requestId := r.requestId + "\n" + a, bodyHash := b);
      }
      assert other.nonce + "\n" + other.requestId + "\n" + other.bodyHash
        == r.nonce + "\n" + r.requestId + "\n" + r.bodyHash;
    }
    SignedParts(r);
    SignedParts(other);
  }

  ghost predicate Unmistakable(r: CanonicalRequest) {
    forall other: CanonicalRequest :: other.StringToSign() == r.StringToSign() ==> other == r
  }

  /** The signed string belongs to one request alone exactly if no field of that request contains a newline. */
  lemma UnmistakableExactly(r: CanonicalRequest)
    ensures Unmistakable(r) <==> r.OneLineFields()
  {
    if r.OneLineFields() {
      forall other: CanonicalRequest | other.StringToSign() == r.StringToSign() ensures other == r {
        DecimalOneLine(r.timestamp);
        JoinUnique(r.Fields(), other.Fields());
        assert r.Fields()[0] == other.Fields()[0] && r.Fields()[1] == other.Fields()[1];
        assert r.Fields()[2] == other.Fields()[2] && r.Fields()[3] == other.Fields()[3];
        assert r.Fields()[4] == other.Fields()[4] && r.Fields()[5] == other.Fields()[5];
        DecimalUnique(r.timestamp, other.timestamp);
      }
    } else {
      var other := AnotherReading(r);
    }
  }

  // ----- White space ----------------------------------------------------------------

  /** White_Space of the Unicode character database, as `str::trim` uses it. */
  predicate IsWhitespace(c: char) {
    || c in "\t\n\r "
    || c as int in {0x0b, 0x0c, 0x85, 0xa0, 0x1680, 0x2028, 0x2029, 0x202f, 0x205f, 0x3000}
    || 0x2000 <= c as int <= 0x200a
  }

  function TrimStart(s: string): string {
    if s != "" && IsWhitespace(s[0]) then TrimStart(s[1..]) else s
  }

  function TrimEnd(s: string): string {
    if s != "" && IsWhitespace(Last(s)) then TrimEnd(Front(s)) else s
  }

  function Trim(s: string): string { TrimEnd(TrimStart(s)) }

  // ----- Every signed string --------------------------------------------------------

  const PROOF_OF_POSSESSION_DOMAIN_V1: string := "NETRA_PROOF_OF_POSSESSION_V1"
  const KEY_ROTATION_DOMAIN_V1: string := "NETRA_KEY_ROTATION_V1"
  const SESSION_HANDSHAKE: string := "SESSION_HANDSHAKE"

  /** What a device key signs; the context hash stands for the enrollment context it digests. */
  datatype Signed =
    | Request(request: CanonicalRequest)
    | ProofOfPossession(
        version: u32, deviceId: string, keyId: string, challenge: string, timestamp: i64, contextHash: string)
    | KeyRotation(
        version: u32, deviceId: string, oldKeyId: string, newKeyId: string, publicKey: string, timestamp: i64)
    | Handshake(deviceId: string, keyId: string, challenge: string, timestamp: i64)
  {
    function Fields(): (fields: seq<string>)
      ensures fields != []
    {
      match this
      case Request(r) => r.Fields()
      case ProofOfPossession(version, device, key, challenge, time, hash) =>
        [PROOF_OF_POSSESSION_DOMAIN_V1, Decimal(version), device, key, challenge, Decimal(time), hash]
      case KeyRotation(version, device, oldKey, newKey, publicKey, time) =>
        [KEY_ROTATION_DOMAIN_V1, Decimal(version), device, oldKey, newKey, Trim(publicKey), Decimal(time)]
      case Handshake(device, key, challenge, time) => [SESSION_HANDSHAKE, device, key, challenge, Decimal(time)]
    }

    predicate OneLineFields() {
      forall i :: 0 <= i < |Fields()| ==> OneLine(Fields()[i])
    }

    function Text(): string { Join(Fields()) }

    /** The message as its text shows it: the public key of a rotation is trimmed there. */
    function Shown(): Signed { if KeyRotation? then this.(publicKey := Trim(publicKey)) else this }
  }

  lemma DomainsDiffer()
    ensures PROOF_OF_POSSESSION_DOMAIN_V1 != KEY_ROTATION_DOMAIN_V1
  {
    assert PROOF_OF_POSSESSION_DOMAIN_V1[6] == 'P' && KEY_ROTATION_DOMAIN_V1[6] == 'K';
  }

  lemma SameFields(a: Signed, b: Signed)
    requires a.Fields() == b.Fields()
    ensures a.Shown() == b.Shown()
  {
    hide Trim;
    var f, g := a.Fields(), b.Fields();
    assert |f| == |g| && f[0] == g[0];
    match a {
      case Request(r) =>
        assert f[2] == Decimal(r.timestamp) && f[1] == r.path && f[3] == r.nonce && f[4] == r.requestId
          && f[5] == r.bodyHash;
        assert g[2] == Decimal(b.request.timestamp) && g[1] == b.request.path && g[3] == b.request.nonce;
        assert g[4] == b.request.requestId && g[5] == b.request.bodyHash;
        DecimalUnique(r.timestamp, b.request.timestamp);
      case ProofOfPossession(version, _, _, _, time, _) =>
        DomainsDiffer();
        assert f[1] == Decimal(version) && f[5] == Decimal(time);
        assert g[1] == Decimal(b.version) && g[5] == Decimal(b.timestamp);
        DecimalUnique(version, b.version);
        DecimalUnique(time, b.timestamp);
        assert f[2] == g[2] && f[3] == g[3] && f[4] == g[4] && f[6] == g[6];
      case KeyRotation(version, _, _, _, _, time) =>
        DomainsDiffer();
        assert f[1] == Decimal(version) && f[6] == Decimal(time);
        assert g[1] == Decimal(b.version) && g[6] == Decimal(b.timestamp);
        DecimalUnique(version, b.version);
        DecimalUnique(time, b.timestamp);
        assert f[2] == g[2] && f[3] == g[3] && f[4] == g[4] && f[5] == g[5];
      case Handshake(_, _, _, time) =>
        assert f[4] == Decimal(time) && g[4] == Decimal(b.timestamp);
        DecimalUnique(time, b.timestamp);
        assert f[1] == g[1] && f[2] == g[2] && f[3] == g[3];
    }
  }

  /**
   * Over newline-free fields a signed text determines its kind and every field, the public key of a rotation
   * up to white space around it: no two messages share one.
   */
  lemma TextDetermines(a: Signed, b: Signed)
    requires a.OneLineFields() && b.OneLineFields() && a.Text() == b.Text()
    ensures a.Shown() == b.Shown()
  {
    SplitInvertsJoin(a.Fields());
    SplitInvertsJoin(b.Fields());
    SameFields(a, b);
  }

  /** With a newline in a field, not even the kind is determined. */
  lemma NewlineHidesKind(device: string, key: i64, nonce: string, requestId: string, time: i64)
    ensures
      Handshake(device, Decimal(key), nonce + "\n" + requestId, time).Text()
        == Request(CanonicalRequest(SESSION_HANDSHAKE, device, key, nonce, requestId, Decimal(time))).Text()
  {
    var challenge, number := nonce + "\n" + requestId, Decimal(key);
    var short, long := [challenge, Decimal(time)], [nonce, requestId, Decimal(time)];
    JoinMore(challenge, [Decimal(time)]);
    JoinMore(nonce, [requestId, Decimal(time)]);
    JoinMore(requestId, [Decimal(time)]);
    assert Join(short) == Join(long);
    JoinMore(number, short);
    JoinMore(number, long);
    JoinMore(device, [number] + short);
    JoinMore(device, [number] + long);
    JoinMore(SESSION_HANDSHAKE, [device] + ([number] + short));
    JoinMore(SESSION_HANDSHAKE, [device] + ([number] + long));
    hide Join, Decimal;
    assert Handshake(device, number, challenge, time).Fields() == [SESSION_HANDSHAKE] + ([device] + ([number] + short));
    assert Request(CanonicalRequest(SESSION_HANDSHAKE, device, key, nonce, requestId, Decimal(time))).Fields()
        == [SESSION_HANDSHAKE] + ([device] + ([number] + long));
  }

  // ----- Construction -----------------------------------------------------------------

  function UpperChar(c: char): char { if 'a' <= c <= 'z' then c - 'a' + 'A' else c }

  function ToAsciiUppercase(s: string): string { seq(|s|, i requires 0 <= i < |s| => UpperChar(s[i])) }

  /** `CanonicalRequest::new`; the leading slash is looked for before trimming. */
  function NewRequest(
      method_: string, path: string, timestamp: i64, nonce: string, requestId: string, bodyHash: string)
    : CanonicalRequest
  {
    CanonicalRequest(
      ToAsciiUppercase(Trim(method_)),
      if path != "" && path[0] == '/' then Trim(path) else "/" + Trim(path),
      timestamp, Trim(nonce), Trim(requestId), bodyHash)
  }

  /** Nothing to trim at either end. */
  predicate Trimmed(s: string) { s == "" || (!IsWhitespace(s[0]) && !IsWhitespace(Last(s))) }

  lemma {:induction false} TrimEndResult(s: string)
    ensures var t := TrimEnd(s); t <= s && (t == "" || !IsWhitespace(Last(t)))
  {
    if s != "" && IsWhitespace(Last(s)) {
      TrimEndResult(Front(s));
    }
  }

  lemma {:induction false} TrimStartResult(s: string)
    ensures var t := TrimStart(s); t == "" || !IsWhitespace(t[0])
    ensures s != "" && !IsWhitespace(s[0]) ==> TrimStart(s) == s
  {
    if s != "" && IsWhitespace(s[0]) {
      TrimStartResult(s[1..]);
    }
  }

  lemma {:induction false} KeepsFirst(s: string)
    requires s != "" && !IsWhitespace(s[0])
    ensures TrimEnd(s) != "" && TrimEnd(s)[0] == s[0]
  {
    if IsWhitespace(Last(s)) {
      KeepsFirst(Front(s));
    }
  }

  lemma TrimIsTrimmed(s: string)
    ensures Trimmed(Trim(s))
    ensures Trimmed(s) ==> Trim(s) == s
    ensures s != "" && !IsWhitespace(s[0]) ==> Trim(s) != "" && Trim(s)[0] == s[0]
  {
    TrimStartResult(s);
    TrimEndResult(TrimStart(s));
    if s != "" && !IsWhitespace(s[0]) {
      KeepsFirst(s);
    }
  }

  lemma UpperKeepsTrimmed(s: string)
    requires Trimmed(s)
    ensures Trimmed(ToAsciiUppercase(s)) && ToAsciiUppercase(ToAsciiUppercase(s)) == ToAsciiUppercase(s)
  {
  }

  lemma SlashKeepsTrimmed(s: string)
    requires Trimmed(s)
    ensures Trimmed("/" + s)
  {
    assert Last("/" + s) == if s == "" then '/' else Last(s);
  }

  /** Building a request from the fields of a built one changes nothing. */
  lemma NewIsIdempotent(
      method_: string, path: string, timestamp: i64, nonce: string, requestId: string, bodyHash: string)
    ensures
      var r := NewRequest(method_, path, timestamp, nonce, requestId, bodyHash);
      && NewRequest(r.method_, r.path, r.timestamp, r.nonce, r.requestId, r.bodyHash) == r
      && r.path != "" && r.path[0] == '/'
  {
    TrimIsTrimmed(method_);
    UpperKeepsTrimmed(Trim(method_));
    TrimIsTrimmed(ToAsciiUppercase(Trim(method_)));
    TrimIsTrimmed(nonce);
    TrimIsTrimmed(Trim(nonce));
    TrimIsTrimmed(requestId);
    TrimIsTrimmed(Trim(requestId));
    TrimIsTrimmed(path);
    TrimIsTrimmed(Trim(path));
    SlashKeepsTrimmed(Trim(path));
    TrimIsTrimmed("/" + Trim(path));
  }

  // ----- What is signed, in plain text ------------------------------------------------------

  /** White_Space by code point. */
  predicate IsSpace(c: char) {
    var n := c as int;
    || 9 <= n <= 13 || n == 32 || n == 133 || n == 160 || n == 5760 || 8192 <= n <= 8202
    || n == 8232 || n == 8233 || n == 8239 || n == 8287 || n == 12288
  }

  /** A text without the white space at its ends: a slice, with white space alone around it. */
  predicate IsTrimOf(t: string, s: string, i: nat, j: nat) {
    && i <= j <= |s| && t == s[i..j]
    && (forall k :: 0 <= k < i ==> IsSpace(s[k])) && (forall k :: j <= k < |s| ==> IsSpace(s[k]))
    && (t != "" ==> !IsSpace(t[0]) && !IsSpace(t[|t| - 1]))
  }

  lemma {:induction false} TrimEndIs(s: string) returns (j: nat)
    ensures j <= |s| && TrimEnd(s) == s[..j] && forall k :: j <= k < |s| ==> IsSpace(s[k])
    ensures j > 0 ==> !IsSpace(s[j - 1])
  {
    if s != "" && IsWhitespace(Last(s)) {
      j := TrimEndIs(Front(s));
    } else {
      j := |s|;
    }
  }

  lemma {:induction false} TrimStartIs(s: string) returns (i: nat)
    ensures i <= |s| && TrimStart(s) == s[i..] && forall k :: 0 <= k < i ==> IsSpace(s[k])
    ensures i < |s| ==> !IsSpace(s[i])
  {
    if s != "" && IsWhitespace(s[0]) {
      var rest := TrimStartIs(s[1..]);
      i := rest + 1;
      assert s[1..][rest..] == s[i..];
      forall k | 0 <= k < i ensures IsSpace(s[k]) {
        assert k > 0 ==> s[k] == s[1..][k - 1];
      }
    } else {
      i := 0;
    }
  }

  lemma TrimExactly(s: string) returns (i: nat, j: nat)
    ensures IsTrimOf(Trim(s), s, i, j)
  {
    i := TrimStartIs(s);
    var n := TrimEndIs(s[i..]);
    j := i + n;
    assert s[i..][..n] == s[i..j];
    assert forall k :: j <= k < |s| ==> s[k] == s[i..][k - i];
  }

  /** Upper case moves the letters from a to z by 32 and leaves everything else alone. */
  lemma UpperExactly(s: string)
    ensures
      var u := ToAsciiUppercase(s);
      && |u| == |s|
      && forall k :: 0 <= k < |s| ==> u[k] as int == s[k] as int - if 97 <= s[k] as int <= 122 then 32 else 0
  {
  }

  /** The path as it is signed: trimmed, with a slash in front unless it began with one. */
  function SignedPath(path: string): string {
    if |path| > 0 && path[0] as int == 47 then Trim(path) else "/" + Trim(path)
  }

  /** The six lines that are signed for a request, for any fields. */
  lemma RequestText(
      method_: string, path: string, timestamp: i64, nonce: string, requestId: string, bodyHash: string)
    ensures NewRequest(method_, path, timestamp, nonce, requestId, bodyHash).StringToSign() ==
      (ToAsciiUppercase(Trim(method_)) + "\n" + SignedPath(path)) + ("\n" + Decimal(timestamp) + "\n")
        + (Trim(nonce) + "\n" + Trim(requestId) + "\n" + bodyHash)
  {
    SignedParts(NewRequest(method_, path, timestamp, nonce, requestId, bodyHash));
    hide Trim, ToAsciiUppercase, Decimal;
  }

  predicate NoLowerCase(s: string) { forall k :: 0 <= k < |s| ==> !(97 <= s[k] as int <= 122) }

  /** With nothing to trim and an upper-case method these are the fields themselves. */
  lemma PlainRequestText(
      method_: string, path: string, timestamp: i64, nonce: string, requestId: string, bodyHash: string)
    requires Trimmed(method_) && NoLowerCase(method_) && Trimmed(path) && path != "" && path[0] == '/'
    requires Trimmed(nonce) && Trimmed(requestId)
    ensures NewRequest(method_, path, timestamp, nonce, requestId, bodyHash).StringToSign() ==
      (method_ + "\n" + path) + ("\n" + Decimal(timestamp) + "\n") + (nonce + "\n" + requestId + "\n" + bodyHash)
  {
    RequestText(method_, path, timestamp, nonce, requestId, bodyHash);
    TrimIsTrimmed(method_);
    TrimIsTrimmed(path);
    TrimIsTrimmed(nonce);
    TrimIsTrimmed(requestId);
    hide Trim, Decimal;
    assert ToAsciiUppercase(method_) == method_;
  }

  /** The other texts that a device signs, line by line. */
  lemma OtherTexts(a: Signed)
    ensures a.ProofOfPossession? ==>
      a.Text() == Join(["NETRA_PROOF_OF_POSSESSION_V1", Decimal(a.version), a.deviceId, a.keyId, a.challenge,
                        Decimal(a.timestamp), a.contextHash])
    ensures a.KeyRotation? ==>
      a.Text() == Join(["NETRA_KEY_ROTATION_V1", Decimal(a.version), a.deviceId, a.oldKeyId, a.newKeyId,
                        Trim(a.publicKey), Decimal(a.timestamp)])
    ensures a.Handshake? ==>
      a.Text() == Join(["SESSION_HANDSHAKE", a.deviceId, a.keyId, a.challenge, Decimal(a.timestamp)])
  {
    hide Join, Decimal, Trim;
  }
}
