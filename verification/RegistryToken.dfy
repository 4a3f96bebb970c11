/**
 Registry tokens: base64url, the three-part token that is signed and later verified, and the
 scopes a client asks for. Signatures and JSON are parameters.
 */
module RegistryToken {
  import opened Wrappers
  import opened Numerals
  import opened Strings

  // ------------------------------------------------------------------- base64url

  /** RFC 4648, section 4: three bytes become four digits, a short last group two or three. */
  function Base64Digits(bs: seq<byte>): (ds: seq<nat>)
    ensures AllBelow(ds, 64)
  {
    if |bs| == 0 then []
    else if |bs| == 1 then [bs[0] / 4, bs[0] % 4 * 16]
    else if |bs| == 2 then [bs[0] / 4, bs[0] % 4 * 16 + bs[1] / 16, bs[1] % 16 * 4]
    else [bs[0] / 4, bs[0] % 4 * 16 + bs[1] / 16, bs[1] % 16 * 4 + bs[2] / 64, bs[2] % 64] + Base64Digits(bs[3..])
  }

  function Base64Bytes(ds: seq<nat>): (bs: seq<byte>)
    requires AllBelow(ds, 64)
  {
    if |ds| < 2 then []
    else if |ds| == 2 then [ds[0] * 4 + ds[1] / 16]
    else if |ds| == 3 then [ds[0] * 4 + ds[1] / 16, ds[1] % 16 * 16 + ds[2] / 4]
    else [ds[0] * 4 + ds[1] / 16, ds[1] % 16 * 16 + ds[2] / 4, ds[2] % 4 * 64 + ds[3]] + Base64Bytes(ds[4..])
  }

  lemma {:induction false} BytesOfDigits(bs: seq<byte>)
    ensures Base64Bytes(Base64Digits(bs)) == bs
  {
    if |bs| >= 3 {
      BytesOfDigits(bs[3..]);
      assert Base64Digits(bs)[4..] == Base64Digits(bs[3..]);
      assert bs == [bs[0], bs[1], bs[2]] + bs[3..];
    }
  }

  function Char(d: nat): char
    requires d < 64
  {
    if d < 26 then 'A' + d as char
    else if d < 52 then 'a' + (d - 26) as char
    else if d < 62 then '0' + (d - 52) as char
    else if d == 62 then '+' else '/'
  }

  function Index(c: char): (r: Option<nat>)
    ensures r.Some? ==> r.value < 64
  {
    if 'A' <= c <= 'Z' then Some(c as int - 'A' as int)
    else if 'a' <= c <= 'z' then Some(c as int - 'a' as int + 26)
    else if '0' <= c <= '9' then Some(c as int - '0' as int + 52)
    else if c == '+' then Some(62) else if c == '/' then Some(63) else None
  }

  lemma IndexOfChar(d: nat)
    requires d < 64
    ensures Index(Char(d)) == Some(d)
  {
  }

  function Chars(ds: seq<nat>): string
    requires AllBelow(ds, 64)
  {
    seq(|ds|, i requires 0 <= i < |ds| => Char(ds[i]))
  }

  function Pad(n: nat): string {
    seq(n, i => '=')
  }

  /** `toString("base64")`. */
  function Base64(bs: seq<byte>): string {
    Chars(Base64Digits(bs)) + Pad((3 - |bs| % 3) % 3)
  }

  function StripPad(s: string): string {
    if s != "" && s[|s| - 1] == '=' then StripPad(s[..|s| - 1]) else s
  }

  function Replace(s: string, c: char, d: char): string {
    seq(|s|, i requires 0 <= i < |s| => if s[i] == c then d else s[i])
  }

  function B64Url(bs: seq<byte>): string {
    Replace(Replace(StripPad(Base64(bs)), '+', '-'), '/', '_')
  }

  /** `Buffer.from(s, "base64")`: characters outside the alphabet are skipped, up to the padding. */
  function Indices(s: string): (ds: seq<nat>)
    ensures AllBelow(ds, 64)
  {
    if s == "" || s[0] == '=' then []
    else
      var first := Index(s[0]);
      if first.Some? then [first.value] + Indices(s[1..]) else Indices(s[1..])
  }

  function B64UrlDecode(s: string): seq<byte> {
    var pad := if |s| % 4 == 0 then 0 else 4 - |s| % 4;
    Base64Bytes(Indices(Replace(Replace(s, '-', '+'), '_', '/') + Pad(pad)))
  }

  predicate Plain(s: string) {
    forall i | 0 <= i < |s| :: Index(s[i]).Some?
  }

  lemma {:induction false} StripAll(s: string, n: nat)
    requires Plain(s)
    ensures StripPad(s + Pad(n)) == s
  {
    var all := s + Pad(n);
    if n > 0 {
      assert all[..|all| - 1] == s + Pad(n - 1);
      StripAll(s, n - 1);
    } else {
      assert all == s;
    }
  }

  lemma {:induction false} IndicesOfChars(ds: seq<nat>, n: nat)
    requires AllBelow(ds, 64)
    ensures Indices(Chars(ds) + Pad(n)) == ds
  {
    var s := Chars(ds) + Pad(n);
    if ds != [] {
      IndexOfChar(ds[0]);
      assert s[1..] == Chars(ds[1..]) + Pad(n);
      IndicesOfChars(ds[1..], n);
    }
  }

  lemma CharsPlain(ds: seq<nat>)
    requires AllBelow(ds, 64)
    ensures Plain(Chars(ds))
  {
    forall i | 0 <= i < |ds|
      ensures Index(Chars(ds)[i]).Some?
    {
      IndexOfChar(ds[i]);
    }
  }

  lemma UrlSafeBack(s: string)
    requires Plain(s)
    ensures Replace(Replace(Replace(Replace(s, '+', '-'), '/', '_'), '-', '+'), '_', '/') == s
    ensures forall i | 0 <= i < |s| :: var c := Replace(Replace(s, '+', '-'), '/', '_')[i]; c != '.' && !IsSpace(c)
  {
  }

  /** Section 5 of RFC 4648: the alphabet that needs no escaping in a URL. */
  predicate IsUrlChar(c: char) {
    'A' <= c <= 'Z' || 'a' <= c <= 'z' || '0' <= c <= '9' || c == '-' || c == '_'
  }

  /** The text has that alphabet and no padding, and the letters of section 10 of RFC 4648 stand where they belong. */
  lemma B64UrlText(bs: seq<byte>)
    ensures forall i | 0 <= i < |B64Url(bs)| :: IsUrlChar(B64Url(bs)[i])
    ensures 3 * |B64Url(bs)| == 4 * |bs| + (3 - |bs| % 3) % 3
  {
    var ds := Base64Digits(bs);
    CharsPlain(ds);
    StripAll(Chars(ds), (3 - |bs| % 3) % 3);
    DigitCount(bs);
  }

  lemma {:induction false} DigitCount(bs: seq<byte>)
    ensures 3 * |Base64Digits(bs)| == 4 * |bs| + (3 - |bs| % 3) % 3
  {
    if |bs| >= 3 {
      DigitCount(bs[3..]);
    }
  }

  lemma TextOf(bs: seq<byte>, ds: seq<nat>)
    requires Base64Digits(bs) == ds
    ensures B64Url(bs) == Replace(Replace(Chars(ds), '+', '-'), '/', '_')
  {
    CharsPlain(ds);
    StripAll(Chars(ds), (3 - |bs| % 3) % 3);
  }

  lemma KnownThree()
    ensures B64Url([0x14, 0xfb, 0x9c]) == "FPuc"
  {
    var bs: seq<byte> := [0x14, 0xfb, 0x9c];
    assert bs[3..] == [];
    assert Base64Digits(bs) == [5, 15, 46, 28];
    TextOf(bs, [5, 15, 46, 28]);
  }

  lemma KnownTwo()
    ensures B64Url([0xff, 0xfe]) == "__4"
  {
    TextOf([0xff, 0xfe], [63, 63, 56]);
  }

  lemma KnownOne()
    ensures B64Url([0xf8]) == "-A" && B64Url([0x66]) == "Zg"
  {
    TextOf([0xf8], [62, 0]);
    TextOf([0x66], [25, 32]);
  }

  /** A group of three bytes, one of two and two of one. */
  lemma KnownTexts()
    ensures B64Url([0x14, 0xfb, 0x9c]) == "FPuc"
    ensures B64Url([0xff, 0xfe]) == "__4"
    ensures B64Url([0xf8]) == "-A" && B64Url([0x66]) == "Zg"
  {
    KnownThree();
    KnownTwo();
    KnownOne();
  }

  /** Every buffer decodes back, and its text holds neither a dot nor white space. */
  lemma B64UrlReadBack(bs: seq<byte>)
    ensures B64UrlDecode(B64Url(bs)) == bs
    ensures '.' !in B64Url(bs) && Spaceless(B64Url(bs))
  {
    var ds := Base64Digits(bs);
    CharsPlain(ds);
    StripAll(Chars(ds), (3 - |bs| % 3) % 3);
    UrlSafeBack(Chars(ds));
    var s := B64Url(bs);
    IndicesOfChars(ds, if |s| % 4 == 0 then 0 else 4 - |s| % 4);
    BytesOfDigits(bs);
  }

  // ------------------------------------------------------------------ white space

  /** What `trim` and `\s` take for white space. */
  predicate IsSpace(c: char) {
    var u := c as int;
    || 0x9 <= u <= 0xd || u == 0x20 || u == 0xa0 || u == 0x1680 || 0x2000 <= u <= 0x200a
    || u == 0x2028 || u == 0x2029 || u == 0x202f || u == 0x205f || u == 0x3000 || u == 0xfeff
  }

  predicate Spaceless(s: string) {
    forall i | 0 <= i < |s| :: !IsSpace(s[i])
  }

  function Trim(s: string): string {
    if s != "" && IsSpace(s[0]) then Trim(s[1..])
    else if s != "" && IsSpace(s[|s| - 1]) then Trim(s[..|s| - 1])
    else s
  }

  /**
   White space as JavaScript has it: the five controls, the space separators, the line separators and the
   byte order mark.
   */
  lemma SpacesAre(c: char)
    ensures IsSpace(c)
            <==> c as int in {0x9, 0xa, 0xb, 0xc, 0xd, 0x20, 0xa0, 0x1680, 0x2000, 0x2001, 0x2002, 0x2003, 0x2004, 0x2005,
                              0x2006, 0x2007, 0x2008, 0x2009, 0x200a, 0x2028, 0x2029, 0x202f, 0x205f, 0x3000, 0xfeff}
  {
  }

  predicate AllSpaces(s: string) {
    forall i | 0 <= i < |s| :: IsSpace(s[i])
  }

  lemma MoreFront(s: string, a: string, t: string, b: string)
    requires s != "" && s[1..] == a + t + b && IsSpace(s[0]) && AllSpaces(a)
    ensures s == (s[..1] + a) + t + b && AllSpaces(s[..1] + a)
  {
    assert s == s[..1] + (a + t + b);
  }

  lemma MoreBack(s: string, a: string, t: string, b: string)
    requires s != "" && s[..|s| - 1] == a + t + b && IsSpace(s[|s| - 1]) && AllSpaces(b)
    ensures s == a + t + (b + s[|s| - 1..]) && AllSpaces(b + s[|s| - 1..])
  {
    assert s == (a + t + b) + s[|s| - 1..];
  }

  /** Trimming takes white space off both ends, all of it, and nothing else. */
  lemma {:induction false} TrimMeans(s: string) returns (a: string, b: string)
    ensures s == a + Trim(s) + b && AllSpaces(a) && AllSpaces(b)
    ensures Trim(s) != "" ==> !IsSpace(Trim(s)[0]) && !IsSpace(Trim(s)[|Trim(s)| - 1])
    decreases |s|
  {
    if s != "" && IsSpace(s[0]) {
      a, b := TrimMeans(s[1..]);
      MoreFront(s, a, Trim(s), b);
      a := s[..1] + a;
    } else if s != "" && IsSpace(s[|s| - 1]) {
      a, b := TrimMeans(s[..|s| - 1]);
      MoreBack(s, a, Trim(s), b);
      b := b + s[|s| - 1..];
    } else {
      a, b := "", "";
    }
  }

  // ----------------------------------------------------------------------- tokens

  datatype Access = Access(kind: string, name: string, actions: seq<string>)

  datatype Header = Header(alg: Option<string>, kid: Option<string>)

  datatype Audience = NoAudience | One(aud: string) | Several(auds: seq<string>)

  /** `access` is None when the claim is no array. */
  datatype Payload = Payload(
    iss: Option<string>, sub: Option<string>, aud: Audience, nbf: Option<int>, exp: Option<int>,
    access: Option<seq<Access>>)

  datatype Config = Config(issuer: string, service: string, ttl: int)

  datatype Kind =
    | Missing | Malformed | BadSignature | BadIssuer | BadAudience | Expired | NotYetValid | BadKid

  datatype Verdict = Granted(subject: string, access: seq<Access>) | Rejected(kind: Kind)

  /** JSON and the signature scheme: the id of the cached key pair, and what it signs and verifies. */
  datatype Scheme = Scheme(
    writeHeader: Header -> seq<byte>, readHeader: seq<byte> -> Option<Header>,
    writePayload: Payload -> seq<byte>, readPayload: seq<byte> -> Option<Payload>,
    kid: string, sign: string -> seq<byte>, verify: (string, seq<byte>) -> bool)

  ghost predicate Sound(k: Scheme) {
    && (forall h :: k.readHeader(k.writeHeader(h)) == Some(h))
    && (forall p :: k.readPayload(k.writePayload(p)) == Some(p))
    && (forall m :: k.verify(m, k.sign(m)))
  }

  function ClaimsFor(config: Config, subject: string, access: seq<Access>, iat: int): Payload {
    Payload(Some(config.issuer), Some(subject), One(config.service), Some(iat), Some(iat + config.ttl), Some(access))
  }

  /** signRegistryToken at time `iat`. */
  function Sign(k: Scheme, config: Config, subject: string, access: seq<Access>, iat: int): string {
    var header := Header(Some("RS256"), Some(k.kid));
    var payload := ClaimsFor(config, subject, access, iat);
    var input := B64Url(k.writeHeader(header)) + "." + B64Url(k.writePayload(payload));
    input + "." + B64Url(k.sign(input))
  }

  function StartsWith(s: string, prefix: string): bool {
    prefix <= s
  }

  predicate HasAudience(aud: Audience, expected: string) {
    match aud
    case NoAudience => false
    case One(a) => a == expected
    case Several(auds) => expected in auds
  }

  /** The checks on a token whose parts have been read, in the order they are made. */
  function Judge(k: Scheme, config: Config, h: Header, p: Payload, input: string, sig: seq<byte>,
                 audience: Option<string>, keyAvailable: bool, now: int): Verdict {
    if h.alg != Some("RS256") then Rejected(Malformed)
    else if !keyAvailable then Rejected(BadSignature)
    else if h.kid.Some? && h.kid.value != "" && h.kid.value != k.kid then Rejected(BadKid)
    else if !k.verify(input, sig) then Rejected(BadSignature)
    else if p.iss != Some(config.issuer) then Rejected(BadIssuer)
    else if !HasAudience(p.aud, if audience.Some? then audience.value else config.service) then Rejected(BadAudience)
    else if p.nbf.Some? && now < p.nbf.value then Rejected(NotYetValid)
    else if p.exp.Some? && now >= p.exp.value then Rejected(Expired)
    else Granted(if p.sub.Some? then p.sub.value else "anonymous", if p.access.Some? then p.access.value else [])
  }

  /** What is left of the check once the token is split at its dots. */
  function VerifyParts(k: Scheme, config: Config, parts: seq<string>, audience: Option<string>,
                       keyAvailable: bool, now: int): Verdict {
    if |parts| != 3 then Rejected(Malformed)
    else
      var h := k.readHeader(B64UrlDecode(parts[0]));
      var p := k.readPayload(B64UrlDecode(parts[1]));
      if h.None? || p.None? then Rejected(Malformed)
      else
        Judge(k, config, h.value, p.value, parts[0] + "." + parts[1], B64UrlDecode(parts[2]),
              audience, keyAvailable, now)
  }

  /** verifyRegistryToken. */
  function Verify(k: Scheme, config: Config, authorization: Option<string>, audience: Option<string>,
                  keyAvailable: bool, now: int): Verdict {
    if authorization.None? || !StartsWith(authorization.value, "Bearer ") then Rejected(Missing)
    else
      VerifyParts(k, config, Split(Trim(authorization.value[|"Bearer "|..]), '.'), audience, keyAvailable, now)
  }

  lemma {:induction false} TrimSpaceless(s: string)
    requires Spaceless(s)
    ensures Trim(s) == s
  {
  }

  lemma ThreeParts(a: string, b: string, c: string)
    requires '.' !in a && '.' !in b && '.' !in c
    ensures Split(a + "." + b + "." + c, '.') == [a, b, c]
  {
    assert a + "." + b + "." + c == a + ['.'] + (b + ['.'] + c);
    SplitFirst(a, b + ['.'] + c, '.');
    SplitFirst(b, c, '.');
    SplitPlain(c, '.');
  }

  lemma JoinedSpaceless(h: string, p: string, s: string)
    requires Spaceless(h) && Spaceless(p) && Spaceless(s)
    ensures Spaceless(h + "." + p + "." + s)
  {
  }

  lemma PartsRead(h: string, p: string, s: string)
    requires '.' !in h && '.' !in p && '.' !in s && Spaceless(h + "." + p + "." + s)
    ensures var header := "Bearer " + (h + "." + p + "." + s);
            StartsWith(header, "Bearer ") && Split(Trim(header[|"Bearer "|..]), '.') == [h, p, s]
  {
    var token := h + "." + p + "." + s;
    ThreeParts(h, p, s);
    TrimSpaceless(token);
    assert ("Bearer " + token)[|"Bearer "|..] == token;
  }

  lemma PartsJudged(k: Scheme, config: Config, h: string, p: string, s: string,
                    audience: Option<string>, keyAvailable: bool, now: int)
    requires k.readHeader(B64UrlDecode(h)).Some? && k.readPayload(B64UrlDecode(p)).Some?
    ensures VerifyParts(k, config, [h, p, s], audience, keyAvailable, now)
            == Judge(k, config, k.readHeader(B64UrlDecode(h)).value, k.readPayload(B64UrlDecode(p)).value,
                     h + "." + p, B64UrlDecode(s), audience, keyAvailable, now)
  {
  }

  /** A token put together from three buffers is judged on exactly those. */
  lemma TokenJudged(k: Scheme, config: Config, header: seq<byte>, payload: seq<byte>, sig: seq<byte>,
                    audience: Option<string>, keyAvailable: bool, now: int)
    requires k.readHeader(header).Some? && k.readPayload(payload).Some?
    ensures var input := B64Url(header) + "." + B64Url(payload);
            Verify(k, config, Some("Bearer " + (input + "." + B64Url(sig))), audience, keyAvailable, now)
            == Judge(k, config, k.readHeader(header).value, k.readPayload(payload).value, input, sig,
                     audience, keyAvailable, now)
  {
    var h, p, s := B64Url(header), B64Url(payload), B64Url(sig);
    B64UrlReadBack(header);
    B64UrlReadBack(payload);
    B64UrlReadBack(sig);
    JoinedSpaceless(h, p, s);
    PartsRead(h, p, s);
    PartsJudged(k, config, h, p, s, audience, keyAvailable, now);
  }

  /** What a verifier with this configuration makes of a token signed under another one with the same key. */
  function Decision(signer: Config, verifier: Config, audience: Option<string>, subject: string, access: seq<Access>,
                    iat: int, now: int): Verdict {
    if verifier.issuer != signer.issuer then Rejected(BadIssuer)
    else if signer.service != (if audience.Some? then audience.value else verifier.service) then Rejected(BadAudience)
    else if now < iat then Rejected(NotYetValid)
    else if now >= iat + signer.ttl then Rejected(Expired)
    else Granted(subject, access)
  }

  /**
   A signed token is accepted exactly by a verifier of the same issuer and audience, from its
   issue until its lifetime is over, and then grants what was signed. Any other verifier, and
   any other time, gets the refusal that names the first thing that differs.
   */
  lemma TokenReadBack(k: Scheme, signer: Config, verifier: Config, audience: Option<string>,
                      subject: string, access: seq<Access>, iat: int, now: int)
    requires Sound(k)
    ensures Verify(k, verifier, Some("Bearer " + Sign(k, signer, subject, access, iat)), audience, true, now)
            == Decision(signer, verifier, audience, subject, access, iat, now)
  {
    var header := Header(Some("RS256"), Some(k.kid));
    var payload := ClaimsFor(signer, subject, access, iat);
    assert k.readHeader(k.writeHeader(header)) == Some(header);
    assert k.readPayload(k.writePayload(payload)) == Some(payload);
    var input := B64Url(k.writeHeader(header)) + "." + B64Url(k.writePayload(payload));
    assert k.verify(input, k.sign(input));
    OwnTokenJudged(k, signer, verifier, audience, subject, access, iat, now, input, k.sign(input));
    TokenJudged(k, verifier, k.writeHeader(header), k.writePayload(payload), k.sign(input), audience, true, now);
  }

  lemma OwnTokenJudged(k: Scheme, signer: Config, verifier: Config, audience: Option<string>,
                       subject: string, access: seq<Access>, iat: int, now: int, input: string, sig: seq<byte>)
    requires k.verify(input, sig)
    ensures Judge(k, verifier, Header(Some("RS256"), Some(k.kid)), ClaimsFor(signer, subject, access, iat), input, sig,
                  audience, true, now)
            == Decision(signer, verifier, audience, subject, access, iat, now)
  {
  }

  /** Under the configuration it was signed with, a token is granted iff iat <= now < iat + ttl. */
  lemma GrantedInItsLifetime(k: Scheme, config: Config, subject: string, access: seq<Access>, iat: int, now: int)
    requires Sound(k)
    ensures Verify(k, config, Some("Bearer " + Sign(k, config, subject, access, iat)), None, true, now)
            == Granted(subject, access)
            <==> iat <= now < iat + config.ttl
  {
    TokenReadBack(k, config, config, None, subject, access, iat, now);
  }

  /** A token signed with another key is refused for its key id, whatever its signature. */
  lemma OtherKeyRefused(k: Scheme, other: Scheme, config: Config, subject: string, access: seq<Access>,
                        iat: int, now: int)
    requires Sound(k) && k.kid != "" && k.kid != other.kid
    requires other.readHeader == k.readHeader && other.readPayload == k.readPayload
    ensures Verify(other, config, Some("Bearer " + Sign(k, config, subject, access, iat)), None, true, now) == Rejected(BadKid)
  {
    var header := Header(Some("RS256"), Some(k.kid));
    var payload := ClaimsFor(config, subject, access, iat);
    assert k.readHeader(k.writeHeader(header)) == Some(header);
    assert k.readPayload(k.writePayload(payload)) == Some(payload);
    var input := B64Url(k.writeHeader(header)) + "." + B64Url(k.writePayload(payload));
    TokenJudged(other, config, k.writeHeader(header), k.writePayload(payload), k.sign(input), None, true, now);
  }

  lemma JoinThree(parts: seq<string>)
    requires |parts| == 3
    ensures Join(parts, '.') == parts[0] + "." + parts[1] + "." + parts[2]
  {
    assert parts[1..][1..] == [parts[2]];
    assert Join(parts[1..], '.') == parts[1] + "." + parts[2];
  }

  /**
   The verdict on a token whose parts have been read, reason by reason: the first check that
   fails names it, and a token that passes them all is granted what it claims.
   */
  lemma VerdictMeans(k: Scheme, config: Config, h: Header, p: Payload, input: string, sig: seq<byte>,
                     audience: Option<string>, keyAvailable: bool, now: int)
    ensures var v := Judge(k, config, h, p, input, sig, audience, keyAvailable, now);
            var expected := if audience.Some? then audience.value else config.service;
            var signedHere := h.kid in {None, Some(""), Some(k.kid)};
            var genuine := h.alg == Some("RS256") && keyAvailable && signedHere && k.verify(input, sig);
            var addressed := p.aud == One(expected) || (p.aud.Several? && expected in p.aud.auds);
            var started, alive := p.nbf.None? || p.nbf.value <= now, p.exp.None? || now < p.exp.value;
            && (v == Rejected(Malformed) <==> h.alg != Some("RS256"))
            && (v == Rejected(BadKid) <==> h.alg == Some("RS256") && keyAvailable && !signedHere)
            && (v == Rejected(BadSignature)
                <==> h.alg == Some("RS256") && (!keyAvailable || (signedHere && !k.verify(input, sig))))
            && (v == Rejected(BadIssuer) <==> genuine && p.iss != Some(config.issuer))
            && (v == Rejected(BadAudience) <==> genuine && p.iss == Some(config.issuer) && !addressed)
            && (v == Rejected(NotYetValid) <==> genuine && p.iss == Some(config.issuer) && addressed && !started)
            && (v == Rejected(Expired) <==> genuine && p.iss == Some(config.issuer) && addressed && started && !alive)
            && (v.Granted? <==> genuine && p.iss == Some(config.issuer) && addressed && started && alive)
            && (v.Granted? ==>
                  && v.subject == (if p.sub.None? then "anonymous" else p.sub.value)
                  && v.access == if p.access.None? then [] else p.access.value)
  {
  }

  /** Before that: no bearer token, not three parts between dots, or parts that cannot be read. */
  lemma RefusedUnread(k: Scheme, config: Config, authorization: Option<string>, audience: Option<string>,
                      keyAvailable: bool, now: int)
    ensures var v := Verify(k, config, authorization, audience, keyAvailable, now);
            && (v == Rejected(Missing) <==> authorization.None? || !("Bearer " <= authorization.value))
            && (authorization.Some? && "Bearer " <= authorization.value ==>
                  var parts := Split(Trim(authorization.value[7..]), '.');
                  var readable := |parts| == 3 && k.readHeader(B64UrlDecode(parts[0])).Some?
                                  && k.readPayload(B64UrlDecode(parts[1])).Some?;
                  && (!readable ==> v == Rejected(Malformed))
                  && (readable ==>
                        v == Judge(k, config, k.readHeader(B64UrlDecode(parts[0])).value,
                                   k.readPayload(B64UrlDecode(parts[1])).value, parts[0] + "." + parts[1],
                                   B64UrlDecode(parts[2]), audience, keyAvailable, now)))
  {
    assert |"Bearer "| == 7;
    if authorization.Some? && "Bearer " <= authorization.value {
      var parts := Split(Trim(authorization.value[7..]), '.');
      if |parts| == 3 {
        var h, p := k.readHeader(B64UrlDecode(parts[0])), k.readPayload(B64UrlDecode(parts[1]));
        if h.Some? && p.Some? {
          VerdictMeans(k, config, h.value, p.value, parts[0] + "." + parts[1], B64UrlDecode(parts[2]), audience,
                       keyAvailable, now);
        }
      }
    }
  }

  /** Nothing is granted but over the received bytes of the first two parts, to this issuer's audience, in time. */
  lemma GrantedOnlyIf(k: Scheme, config: Config, authorization: string, audience: Option<string>,
                      keyAvailable: bool, now: int)
    requires Verify(k, config, Some(authorization), audience, keyAvailable, now).Granted?
    ensures exists h, p, s ::
              && "Bearer " <= authorization
              && Trim(authorization[7..]) == h + "." + p + "." + s
              && k.verify(h + "." + p, B64UrlDecode(s)) && keyAvailable
              && k.readHeader(B64UrlDecode(h)).Some? && k.readHeader(B64UrlDecode(h)).value.alg == Some("RS256")
              && var payload := k.readPayload(B64UrlDecode(p));
                 && payload.Some?
                 && payload.value.iss == Some(config.issuer)
                 && HasAudience(payload.value.aud, if audience.Some? then audience.value else config.service)
                 && (payload.value.nbf.Some? ==> payload.value.nbf.value <= now)
                 && (payload.value.exp.Some? ==> now < payload.value.exp.value)
  {
    var token := Trim(authorization[7..]);
    JoinSplit(token, '.');
    JoinThree(Split(token, '.'));
  }

  // ----------------------------------------------------------------------- scopes

  function BeforeParen(s: string): string {
    Split(s, '(')[0]
  }

  function NonEmpty(parts: seq<string>): seq<string> {
    if parts == [] then []
    else (if parts[0] != "" then [parts[0]] else []) + NonEmpty(parts[1..])
  }

  /** One scope, `type:name:actions`, where the name may hold colons. */
  function ParseScope(item: string): Option<Access> {
    var parts := Split(item, ':');
    if |parts| < 3 then None
    else
      var kind := BeforeParen(parts[0]);
      var name := Join(parts[1..|parts| - 1], ':');
      var actions := NonEmpty(Split(parts[|parts| - 1], ','));
      if kind == "" || name == "" || actions == [] then None else Some(Access(kind, name, actions))
  }

  function RenderScope(a: Access): string {
    a.kind + ":" + a.name + ":" + Join(a.actions, ',')
  }

  ghost predicate Renderable(a: Access) {
    && a.kind != "" && ':' !in a.kind && '(' !in a.kind
    && a.name != ""
    && a.actions != []
    && forall i | 0 <= i < |a.actions| :: a.actions[i] != "" && ',' !in a.actions[i] && ':' !in a.actions[i]
  }

  lemma {:induction false} NonEmptyAll(parts: seq<string>)
    requires forall i | 0 <= i < |parts| :: parts[i] != ""
    ensures NonEmpty(parts) == parts
  {
    if parts != [] {
      NonEmptyAll(parts[1..]);
    }
  }

  lemma {:induction false} NonEmptyKeeps(parts: seq<string>, c: char)
    requires NoneHas(parts, c)
    ensures NoneHas(NonEmpty(parts), c)
    ensures forall i | 0 <= i < |NonEmpty(parts)| :: NonEmpty(parts)[i] != ""
  {
    if parts != [] {
      NonEmptyKeeps(parts[1..], c);
    }
  }

  lemma {:induction false} JoinHas(parts: seq<string>, sep: char, c: char)
    requires c != sep
    ensures c in Join(parts, sep) <==> !NoneHas(parts, c)
  {
    if |parts| > 1 {
      JoinHas(parts[1..], sep, c);
      assert parts == [parts[0]] + parts[1..];
      if !NoneHas(parts, c) {
        var i :| 0 <= i < |parts| && c in parts[i];
        assert i > 0 ==> c in parts[1..][i - 1];
      }
    }
  }

  /** A scope is read back exactly when its fields hold no separator and are not empty. */
  lemma ScopeReadBackIff(a: Access)
    ensures ParseScope(RenderScope(a)) == Some(a) <==> Renderable(a)
  {
    if Renderable(a) {
      RenderedReadBack(a);
    } else if ParseScope(RenderScope(a)).Some? {
      ParsedIsRenderable(RenderScope(a));
    }
  }

  lemma ParsedIsRenderable(item: string)
    requires ParseScope(item).Some?
    ensures Renderable(ParseScope(item).value)
  {
    var parts := Split(item, ':');
    SplitHasNone(item, ':');
    SplitHasNone(parts[0], '(');
    SplitHasNone(parts[|parts| - 1], ',');
    JoinSplit(parts[0], '(');
    JoinSplit(parts[|parts| - 1], ',');
    JoinHas(Split(parts[0], '('), '(', ':');
    JoinHas(Split(parts[|parts| - 1], ','), ',', ':');
    NonEmptyKeeps(Split(parts[|parts| - 1], ','), ',');
    NonEmptyKeeps(Split(parts[|parts| - 1], ','), ':');
  }

  lemma RenderedReadBack(a: Access)
    requires Renderable(a)
    ensures ParseScope(RenderScope(a)) == Some(a)
  {
    var last := Join(a.actions, ',');
    JoinHas(a.actions, ',', ':');
    assert RenderScope(a) == a.kind + [':'] + (a.name + [':'] + last);
    SplitFirst(a.kind, a.name + [':'] + last, ':');
    SplitBefore(a.name, last, ':');
    SplitPlain(last, ':');
    var parts := Split(RenderScope(a), ':');
    assert parts == [a.kind] + Split(a.name, ':') + [last];
    assert parts[1..|parts| - 1] == Split(a.name, ':');
    JoinSplit(a.name, ':');
    SplitPlain(a.kind, '(');
    SplitJoin(a.actions, ',');
    NonEmptyAll(a.actions);
  }

  /** Maximal runs of characters that are no white space. */
  function WordLength(s: string): (n: nat)
    ensures n <= |s|
  {
    if s == "" || IsSpace(s[0]) then 0 else 1 + WordLength(s[1..])
  }

  function Words(s: string): seq<string>
    decreases |s|
  {
    if s == "" then []
    else if IsSpace(s[0]) then Words(s[1..])
    else [s[..WordLength(s)]] + Words(s[WordLength(s)..])
  }

  function ParsedScopes(items: seq<string>): seq<Access> {
    if items == [] then []
    else
      var first := ParseScope(items[0]);
      (if first.Some? then [first.value] else []) + ParsedScopes(items[1..])
  }

  method ParseScopes(scopeParam: Option<string>) returns (out: seq<Access>)
    ensures out == if scopeParam.None? then [] else ParsedScopes(Words(scopeParam.value))
  {
    out := [];
    if scopeParam.Some? {
      var items := Words(scopeParam.value);
      for i := 0 to |items|
        invariant out + ParsedScopes(items[i..]) == ParsedScopes(items)
      {
        var scope := ParseScope(items[i]);
        assert items[i..][1..] == items[i + 1..];
        if scope.Some? {
          out := out + [scope.value];
        }
      }
    }
  }

  function Rendered(scopes: seq<Access>): seq<string> {
    if scopes == [] then [] else [RenderScope(scopes[0])] + Rendered(scopes[1..])
  }

  lemma {:induction false} WordAtFront(word: string, rest: string)
    requires Spaceless(word) && (rest == "" || IsSpace(rest[0]))
    ensures WordLength(word + rest) == |word|
  {
    if word == "" {
      assert word + rest == rest;
    } else {
      assert (word + rest)[1..] == word[1..] + rest;
      WordAtFront(word[1..], rest);
    }
  }

  lemma {:induction false} WordsOfJoined(items: seq<string>)
    requires forall i | 0 <= i < |items| :: items[i] != "" && Spaceless(items[i])
    ensures Words(Join(items, ' ')) == items
  {
    if |items| == 1 {
      WordAtFront(items[0], "");
      assert items[0] + "" == items[0];
    } else if |items| > 1 {
      var rest := [' '] + Join(items[1..], ' ');
      WordAtFront(items[0], rest);
      assert items[0] + [' '] + Join(items[1..], ' ') == items[0] + rest;
      assert rest[1..] == Join(items[1..], ' ');
      WordsOfJoined(items[1..]);
      assert items == [items[0]] + items[1..];
    }
  }

  lemma {:induction false} RenderedParsed(scopes: seq<Access>)
    requires forall i | 0 <= i < |scopes| :: Renderable(scopes[i])
    ensures ParsedScopes(Rendered(scopes)) == scopes
  {
    if scopes != [] {
      ScopeReadBackIff(scopes[0]);
      RenderedParsed(scopes[1..]);
      assert Rendered(scopes)[1..] == Rendered(scopes[1..]);
      assert scopes == [scopes[0]] + scopes[1..];
    }
  }

  /** Any list of proper scopes without white space, written with single spaces, is read back in order. */
  lemma ScopesReadBack(scopes: seq<Access>)
    requires forall i | 0 <= i < |scopes| :: Renderable(scopes[i])
    requires forall i | 0 <= i < |Rendered(scopes)| :: Spaceless(Rendered(scopes)[i])
    ensures ParsedScopes(Words(Join(Rendered(scopes), ' '))) == scopes
  {
    RenderedNonEmpty(scopes);
    WordsOfJoined(Rendered(scopes));
    RenderedParsed(scopes);
  }

  lemma {:induction false} RenderedNonEmpty(scopes: seq<Access>)
    ensures |Rendered(scopes)| == |scopes|
    ensures forall i | 0 <= i < |scopes| :: Rendered(scopes)[i] != ""
  {
    if scopes != [] {
      RenderedNonEmpty(scopes[1..]);
    }
  }

  // ---------------------------------------------------------------- authorization

  function FilterAllowed(requested: seq<Access>, allowed: Access -> seq<string>): seq<Access> {
    if requested == [] then []
    else
      var req := requested[0];
      (if allowed(req) != [] then [Access(req.kind, req.name, allowed(req))] else []) + FilterAllowed(requested[1..], allowed)
  }

  method FilterAllowedActions(requested: seq<Access>, allowed: Access -> seq<string>) returns (out: seq<Access>)
    ensures out == FilterAllowed(requested, allowed)
  {
    out := [];
    for i := 0 to |requested|
      invariant out + FilterAllowed(requested[i..], allowed) == FilterAllowed(requested, allowed)
    {
      var req := requested[i];
      var grant := allowed(req);
      assert requested[i..][1..] == requested[i + 1..];
      if |grant| > 0 {
        out := out + [Access(req.kind, req.name, grant)];
      }
    }
  }

  predicate Matches(a: Access, kind: string, name: string, action: string) {
    a.kind == kind && a.name == name && (action in a.actions || "*" in a.actions)
  }

  /** grantAllows. */
  predicate GrantAllows(access: seq<Access>, kind: string, name: string, action: string) {
    exists i | 0 <= i < |access| :: Matches(access[i], kind, name, action)
  }

  predicate Permits(req: Access, allowed: Access -> seq<string>, kind: string, name: string, action: string) {
    Matches(Access(req.kind, req.name, allowed(req)), kind, name, action)
  }

  /** Access allows an action on a name exactly when an entry of that kind and name lists it or the star. */
  lemma GrantsMean(access: seq<Access>, kind: string, name: string, action: string)
    ensures GrantAllows(access, kind, name, action)
            <==> exists a :: a in access && a.kind == kind && a.name == name && (action in a.actions || "*" in a.actions)
  {
    if i :| 0 <= i < |access| && Matches(access[i], kind, name, action) {
      assert access[i] in access;
    }
    if a :| a in access && a.kind == kind && a.name == name && (action in a.actions || "*" in a.actions) {
      var i :| 0 <= i < |access| && access[i] == a;
      assert Matches(access[i], kind, name, action);
    }
  }

  lemma GrantsSplit(a: seq<Access>, b: seq<Access>, kind: string, name: string, action: string)
    ensures GrantAllows(a + b, kind, name, action) <==> GrantAllows(a, kind, name, action) || GrantAllows(b, kind, name, action)
  {
    if i :| 0 <= i < |a| && Matches(a[i], kind, name, action) {
      assert Matches((a + b)[i], kind, name, action);
    }
    if i :| 0 <= i < |b| && Matches(b[i], kind, name, action) {
      assert Matches((a + b)[|a| + i], kind, name, action);
    }
    if i :| 0 <= i < |a + b| && Matches((a + b)[i], kind, name, action) {
      assert i < |a| ==> Matches(a[i], kind, name, action);
      assert i >= |a| ==> Matches(b[i - |a|], kind, name, action);
    }
  }

  lemma {:induction false} FilteredPermits(requested: seq<Access>, allowed: Access -> seq<string>,
                                           kind: string, name: string, action: string)
    ensures GrantAllows(FilterAllowed(requested, allowed), kind, name, action)
            <==> exists i | 0 <= i < |requested| :: Permits(requested[i], allowed, kind, name, action)
  {
    if requested != [] {
      var rest := requested[1..];
      FilteredPermits(rest, allowed, kind, name, action);
      var first := if allowed(requested[0]) != [] then [Access(requested[0].kind, requested[0].name, allowed(requested[0]))] else [];
      GrantsSplit(first, FilterAllowed(rest, allowed), kind, name, action);
      assert GrantAllows(first, kind, name, action) <==> Permits(requested[0], allowed, kind, name, action) by {
        if Permits(requested[0], allowed, kind, name, action) {
          assert Matches(first[0], kind, name, action);
        }
      }
      if i :| 0 <= i < |requested| && Permits(requested[i], allowed, kind, name, action) {
        assert i > 0 ==> Permits(rest[i - 1], allowed, kind, name, action);
      }
      if i :| 0 <= i < |rest| && Permits(rest[i], allowed, kind, name, action) {
        assert Permits(requested[i + 1], allowed, kind, name, action);
      }
    }
  }

  /**
   A filtered grant allows an action exactly when the caller was allowed it, or the star, for something
   requested on that name.
   */
  lemma FilteredGrantsIff(requested: seq<Access>, allowed: Access -> seq<string>, kind: string, name: string,
                          action: string)
    ensures GrantAllows(FilterAllowed(requested, allowed), kind, name, action)
            <==> exists r :: r in requested && r.kind == kind && r.name == name && (action in allowed(r) || "*" in allowed(r))
  {
    FilteredPermits(requested, allowed, kind, name, action);
    if i :| 0 <= i < |requested| && Permits(requested[i], allowed, kind, name, action) {
      assert requested[i] in requested;
    }
    if r :| r in requested && r.kind == kind && r.name == name && (action in allowed(r) || "*" in allowed(r)) {
      var i :| 0 <= i < |requested| && requested[i] == r;
      assert Permits(requested[i], allowed, kind, name, action);
    }
  }
}
