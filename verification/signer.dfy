/** The request signer (authEncrypt): a nonce from the clock and randomness, the canonical
    newline-joined signing string, an HMAC-SHA256 over it keyed by the user's MAC key, and the
    `MAC id="...",nonce="...",mac="..."` header value sent as x-nd-auth. */
module Signer {
  import opened Optional
  import opened JsValues
  import opened Text
  import opened Credentials

  type byte = x: int | 0 <= x < 256

  /** The parts of `new URL(url)` the signature uses. */
  datatype Url = Url(pathname: string, search: string, hash: string, host: string)

  /** Platform primitives the signer calls but the model leaves uninterpreted. */
  datatype Crypto = Crypto(
    utf8: string -> seq<byte>,                               // TextEncoder.encode
    hmacSha256: (seq<byte>, seq<byte>) -> Option<seq<byte>>, // importKey then sign; None: rejected
    base64: seq<byte> -> string)                             // btoa over the digest's bytes

  /** Math.floor(Math.random() * 201): an integer from 0 to 200. */
  type Roll = r: int | 0 <= r <= 200 witness 0

  /** The clock reading and random draws one call to authEncrypt consumes: Date.now(), the
      jitter draw, and Math.random().toString(36).slice(-8) before upper-casing. */
  datatype Entropy = Entropy(now: nat, roll: Roll, rawSuffix: string)

  /** The jitter added to the clock. */
  function Jitter(roll: Roll): (diff: int)
    ensures 700 <= diff <= 900
  {
    roll + 700
  }

  /** Every jitter from 700 to 900 can be drawn. */
  lemma JitterOnto(diff: int)
    requires 700 <= diff <= 900
    ensures exists roll: Roll :: Jitter(roll) == diff
  {
    var roll: Roll := diff - 700;
    assert Jitter(roll) == diff;
  }

  /** The time the nonce carries, in milliseconds. */
  function NonceTime(e: Entropy): nat
  {
    e.now + Jitter(e.roll)
  }

  /** `${now + diff}:${suffix.toUpperCase()}`. */
  function Nonce(e: Entropy): string
  {
    Decimal(NonceTime(e)) + ":" + ToUpperAscii(e.rawSuffix)
  }

  /** The reading of a nonce: the decimal time before the first ':' and the suffix after it. */
  function ParseNonce(s: string): Option<(nat, string)>
  {
    var d := LeadingDigits(s);
    if 0 < |d| < |s| && s[|d|] == ':' then Some((DigitsValue(d), s[|d| + 1..])) else None
  }

  /** A nonce reads back as its time, within 700..900 ms after the clock, and its upper-cased
      suffix. */
  lemma NonceRoundTrip(e: Entropy)
    ensures ParseNonce(Nonce(e)) == Some((NonceTime(e), ToUpperAscii(e.rawSuffix)))
    ensures e.now + 700 <= ParseNonce(Nonce(e)).value.0 <= e.now + 900
  {
    var d, rest := Decimal(NonceTime(e)), ":" + ToUpperAscii(e.rawSuffix);
    assert Nonce(e) == d + rest;
    LeadingDigitsOf(d, rest);
    assert Nonce(e)[|d| + 1..] == ToUpperAscii(e.rawSuffix);
    DecimalRoundTrip(NonceTime(e));
  }

  /** A character that is neither a digit, ':' nor a letter occurs in a nonce only where it
      occurs in the raw suffix. */
  lemma NonceExcludes(e: Entropy, c: char)
    requires !IsDigit(c) && c != ':' && !('A' <= c <= 'Z') && !IsLowerAscii(c)
    requires c !in e.rawSuffix
    ensures c !in Nonce(e)
  {
  }

  /** pathname + (search || "") + (hash || ""): `|| ""` leaves a string unchanged. */
  function RelativePath(u: Url): string
  {
    u.pathname + u.search + u.hash
  }

  /** The canonical string that is signed. */
  function SigningString(nonce: string, httpMethod: string, u: Url): string
  {
    nonce + "\n" + httpMethod + "\n" + RelativePath(u) + "\n" + u.host + "\n"
  }

  /** The signing string is exactly four newline-terminated fields, nonce first and the method
      unchanged, with nothing after the last newline. */
  lemma SigningStringFields(nonce: string, httpMethod: string, u: Url)
    requires '\n' !in nonce && '\n' !in httpMethod && '\n' !in RelativePath(u) && '\n' !in u.host
    ensures Split(SigningString(nonce, httpMethod, u), '\n') == [nonce, httpMethod, RelativePath(u), u.host, ""]
  {
    var parts := [nonce, httpMethod, RelativePath(u), u.host, ""];
    assert JoinWith(parts[4..], '\n') == "";
    assert JoinWith(parts[3..], '\n') == u.host + "\n";
    assert JoinWith(parts[2..], '\n') == RelativePath(u) + "\n" + u.host + "\n";
    assert JoinWith(parts[1..], '\n') == httpMethod + "\n" + RelativePath(u) + "\n" + u.host + "\n";
    assert SigningString(nonce, httpMethod, u) == JoinWith(parts, '\n');
    SplitJoinRoundTrip(parts, '\n');
  }

  const IdOpen := "MAC id=\""
  const NonceOpen := "\",nonce=\""
  const MacOpen := "\",mac=\""

  /** The x-nd-auth header value. */
  function MacHeader(id: string, nonce: string, mac: string): string
  {
    IdOpen + id + NonceOpen + nonce + MacOpen + mac + "\""
  }

  /** After the text `open`, the field up to the next quote and what follows it. */
  function ReadQuoted(s: string, open: string): Option<(string, string)>
  {
    if !StartsWith(s, open) then None
    else
      var field := TakeUntil(s[|open|..], '"');
      Some((field, s[|open| + |field|..]))
  }

  lemma ReadQuotedOf(open: string, field: string, rest: string)
    requires '"' !in field
    requires |rest| > 0 && rest[0] == '"'
    ensures ReadQuoted(open + field + rest, open) == Some((field, rest))
  {
    var s := open + field + rest;
    assert s[|open|..] == field + rest;
    TakeUntilOf(field, '"', rest);
    assert s[|open| + |field|..] == rest;
  }

  /** The reading of a header value: the quoted id, nonce and mac, in that order. */
  function ParseMacHeader(h: string): Option<(string, string, string)>
  {
    match ReadQuoted(h, IdOpen)
    case None => None
    case Some((id, afterId)) =>
      match ReadQuoted(afterId, NonceOpen)
      case None => None
      case Some((nonce, afterNonce)) =>
        if !StartsWith(afterNonce, MacOpen) then None
        else
          var m := afterNonce[|MacOpen|..];
          if |m| == 0 || m[|m| - 1] != '"' then None else Some((id, nonce, m[..|m| - 1]))
  }

  /** The header carries its three fields recoverably when the id and nonce hold no quote. */
  lemma MacHeaderRoundTrip(id: string, nonce: string, mac: string)
    requires '"' !in id && '"' !in nonce
    ensures ParseMacHeader(MacHeader(id, nonce, mac)) == Some((id, nonce, mac))
  {
    var m := mac + "\"";
    var afterNonce := MacOpen + m;
    var afterId := NonceOpen + nonce + afterNonce;
    assert MacHeader(id, nonce, mac) == IdOpen + id + afterId;
    assert afterId[0] == '"';
    ReadQuotedOf(IdOpen, id, afterId);
    assert afterNonce[0] == '"';
    ReadQuotedOf(NonceOpen, nonce, afterNonce);
    assert afterNonce[|MacOpen|..] == m;
    assert m[..|m| - 1] == mac;
  }

  /** TextEncoder.encode(macKey): undefined takes the parameter's default, the empty string. */
  function KeyText(macKey: JsValue): string
  {
    if macKey.Undefined? then "" else JsToString(macKey)
  }

  /** authEncrypt(url, httpMethod). None: the returned promise rejects, because the URL does not
      parse or the crypto call fails. Some("") when no credential is stored. */
  function AuthEncrypt(url: string, httpMethod: string, e: Entropy, parseUrl: string -> Option<Url>,
                       store: seq<Entry>, parseJson: string -> Option<JsValue>, c: Crypto)
    : (r: Option<string>)
    ensures parseUrl(url).None? ==> r.None?
    ensures r == Some("") <==> parseUrl(url).Some? && Locate(store, parseJson).None?
    ensures r.Some? && r.value != "" ==> StartsWith(r.value, IdOpen) && EndsWith(r.value, "\"")
    ensures r.None? <==>
              || parseUrl(url).None?
              || (&& Locate(store, parseJson).Some?
                  && c.hmacSha256(c.utf8(KeyText(Locate(store, parseJson).value.macKey)),
                                  c.utf8(SigningString(Nonce(e), httpMethod, parseUrl(url).value))).None?)
  {
    var nonce := Nonce(e);
    match parseUrl(url)
    case None => None
    case Some(u) =>
      var signing := SigningString(nonce, httpMethod, u);
      match Locate(store, parseJson)
      case None => Some("")
      case Some(cred) =>
        match c.hmacSha256(c.utf8(KeyText(cred.macKey)), c.utf8(signing))
        case None => None
        case Some(digest) => Some(MacHeader(JsToString(cred.accessToken), nonce, c.base64(digest)))
  }

  /** For any stored token, quotes included, the header is the template
      `MAC id="<token>",nonce="<nonce>",mac="<base64 digest>"` filled with the token's text, the
      nonce the signing string starts with, and the encoded HMAC of that signing string. */
  lemma SignedHeaderText(url: string, httpMethod: string, e: Entropy, parseUrl: string -> Option<Url>,
                         store: seq<Entry>, parseJson: string -> Option<JsValue>, c: Crypto)
    requires parseUrl(url).Some? && Locate(store, parseJson).Some?
    requires c.hmacSha256(c.utf8(KeyText(Locate(store, parseJson).value.macKey)),
                          c.utf8(SigningString(Nonce(e), httpMethod, parseUrl(url).value))).Some?
    ensures
      var cred, u := Locate(store, parseJson).value, parseUrl(url).value;
      var digest := c.hmacSha256(c.utf8(KeyText(cred.macKey)),
                                 c.utf8(SigningString(Nonce(e), httpMethod, u))).value;
      AuthEncrypt(url, httpMethod, e, parseUrl, store, parseJson, c)
        == Some("MAC id=\"" + JsToString(cred.accessToken) + "\",nonce=\"" + Nonce(e)
                + "\",mac=\"" + c.base64(digest) + "\"")
  {
  }

  /** With a parsable URL, a stored credential and a succeeding HMAC, a header is produced. It
      names the stored token, and its nonce is the one the MAC was computed over: the first
      field of the signing string, a time 700..900 ms after the clock. */
  lemma SignedHeaderAgrees(url: string, httpMethod: string, e: Entropy, parseUrl: string -> Option<Url>,
                           store: seq<Entry>, parseJson: string -> Option<JsValue>, c: Crypto)
    requires parseUrl(url).Some? && Locate(store, parseJson).Some?
    requires c.hmacSha256(c.utf8(KeyText(Locate(store, parseJson).value.macKey)),
                          c.utf8(SigningString(Nonce(e), httpMethod, parseUrl(url).value))).Some?
    requires '"' !in JsToString(Locate(store, parseJson).value.accessToken)
    requires '"' !in e.rawSuffix && '\n' !in e.rawSuffix
    requires '\n' !in httpMethod
    requires '\n' !in RelativePath(parseUrl(url).value) && '\n' !in parseUrl(url).value.host
    ensures AuthEncrypt(url, httpMethod, e, parseUrl, store, parseJson, c).Some?
    ensures ParseMacHeader(AuthEncrypt(url, httpMethod, e, parseUrl, store, parseJson, c).value).Some?
    ensures
      var (id, nonce, mac) :=
        ParseMacHeader(AuthEncrypt(url, httpMethod, e, parseUrl, store, parseJson, c).value).value;
      var cred, u := Locate(store, parseJson).value, parseUrl(url).value;
      var signing := SigningString(nonce, httpMethod, u);
      && id == JsToString(cred.accessToken)
      && ParseNonce(nonce) == Some((NonceTime(e), ToUpperAscii(e.rawSuffix)))
      && e.now + 700 <= NonceTime(e) <= e.now + 900
      && Split(signing, '\n') == [nonce, httpMethod, RelativePath(u), u.host, ""]
      && c.hmacSha256(c.utf8(KeyText(cred.macKey)), c.utf8(signing)).Some?
      && mac == c.base64(c.hmacSha256(c.utf8(KeyText(cred.macKey)), c.utf8(signing)).value)
  {
    var cred, u := Locate(store, parseJson).value, parseUrl(url).value;
    NonceExcludes(e, '"');
    NonceExcludes(e, '\n');
    NonceRoundTrip(e);
    SigningStringFields(Nonce(e), httpMethod, u);
    var digest := c.hmacSha256(c.utf8(KeyText(cred.macKey)), c.utf8(SigningString(Nonce(e), httpMethod, u))).value;
    MacHeaderRoundTrip(JsToString(cred.accessToken), Nonce(e), c.base64(digest));
  }
}
