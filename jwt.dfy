/**
 * The token authority of config/jwt.php: HS256 JSON Web Tokens in the JWS
 * compact serialisation (section 7.1 of RFC 7515), issued by `JWT::generate`
 * and checked by the ordered chain in `JWT::verify`, then the request-level
 * helpers `getAuthorizationHeader`, `getAuthenticatedUser`, `requireAuth` and
 * `requireAdmin`, the last two returning a result instead of exiting.
 *
 * HMAC-SHA256 and JSON encode/decode are parameters: `Hmac(secret, msg)` is
 * `hash_hmac('sha256', $msg, $secret, true)`, `Encode` is `json_encode` and
 * `Decode` is `json_decode($s, true)` (Null when the text does not parse).
 */
module Jwt {
  import opened Optional
  import opened Values
  import PhpStr
  import B = Base64Url

  type Hmac = (string, string) -> seq<B.Byte>
  type Encode = Value -> seq<B.Byte>
  type Decode = seq<B.Byte> -> Value

  /** JWT::$expiration: seven days. */
  const Expiration: int := 604800
  /** The clock-skew tolerance of JWT::verify, in seconds. */
  const Leeway: int := 30

  /** The header JWT::generate signs. */
  const Header: Value := Obj(map["alg" := Str("HS256"), "typ" := Str("JWT")])

  /** The exceptions JWT::verify throws, in the order it checks for them. */
  datatype JwtError =
    | Missing        // 'Token bulunamadı'
    | BadFormat      // 'Geçersiz token formatı'
    | BadAlgorithm   // 'Geçersiz token algoritması'
    | BadSignature   // 'Geçersiz token imzası'
    | BadPayload     // 'Geçersiz token içeriği'
    | Expired        // 'Token süresi dolmuş'
    | NotYetActive   // 'Token henüz aktif değil'
    | BadIssueTime   // 'Geçersiz token zamanı'
    | ClaimType      // the TypeError of `$claim + 30` on an array or a non-numeric string

  datatype Result<T> = Ok(value: T) | Err(error: JwtError)

  // ---------------------------------------------------------------------------
  // issuing

  /** The claims JWT::generate signs: the caller's, with `iat` and `exp` overwritten. */
  function Stamp(payload: map<string, Value>, now: int): (r: map<string, Value>)
    ensures r.Keys == payload.Keys + {"iat", "exp"}
    ensures r["iat"] == Int(now) && r["exp"] == Int(now + Expiration)
    ensures forall k :: k in payload && k != "iat" && k != "exp" ==> r[k] == payload[k]
  {
    payload["iat" := Int(now)]["exp" := Int(now + Expiration)]
  }

  /** The compact serialisation of an encoded header and payload, signed with secret. */
  function Compact(header: seq<B.Byte>, payload: seq<B.Byte>, secret: string, hmac: Hmac): string
  {
    var h := B.UrlEncode(header);
    var p := B.UrlEncode(payload);
    h + "." + p + "." + B.UrlEncode(hmac(secret, h + "." + p))
  }

  /** JWT::generate($payload) at time now. */
  method Generate(payload: map<string, Value>, now: int, secret: string, hmac: Hmac, enc: Encode)
    returns (token: string)
    ensures token == Compact(enc(Header), enc(Obj(Stamp(payload, now))), secret, hmac)
    ensures var parts := PhpStr.Split(token, '.');
      |parts| == 3 && parts[2] == B.UrlEncode(hmac(secret, parts[0] + "." + parts[1]))
  {
    var claims := payload;
    claims := claims["iat" := Int(now)];
    claims := claims["exp" := Int(now + Expiration)];
    var headerEncoded := B.UrlEncode(enc(Header));
    var payloadEncoded := B.UrlEncode(enc(Obj(claims)));
    var signature := hmac(secret, headerEncoded + "." + payloadEncoded);
    token := headerEncoded + "." + payloadEncoded + "." + B.UrlEncode(signature);
    CompactSegments(enc(Header), enc(Obj(claims)), secret, hmac);
  }

  /** The characters of a compact token: URL-safe base64 and the dots between segments. */
  predicate TokenText(t: string)
  {
    forall i :: 0 <= i < |t| ==> B.IsUrlSafe(t[i]) || t[i] == '.'
  }

  /** Three dot-free segments joined by dots split back into those three. */
  lemma ThreeSegments(h: string, p: string, s: string)
    requires '.' !in h && '.' !in p && '.' !in s
    ensures PhpStr.Split(h + "." + p + "." + s, '.') == [h, p, s]
  {
    assert PhpStr.Join([h, p, s], '.') == h + "." + p + "." + s by {
      assert PhpStr.Join([p, s], '.') == p + "." + s;
      assert [h, p, s][1..] == [p, s];
    }
    PhpStr.SplitJoin([h, p, s], '.');
  }

  /** Three URL-safe segments joined by dots form a token of three segments. */
  lemma JoinedSegments(h: string, p: string, s: string)
    requires forall i :: 0 <= i < |h| ==> B.IsUrlSafe(h[i])
    requires forall i :: 0 <= i < |p| ==> B.IsUrlSafe(p[i])
    requires forall i :: 0 <= i < |s| ==> B.IsUrlSafe(s[i])
    ensures TokenText(h + "." + p + "." + s)
    ensures PhpStr.Split(h + "." + p + "." + s, '.') == [h, p, s]
  {
    var t := h + "." + p + "." + s;
    forall i | 0 <= i < |t|
      ensures B.IsUrlSafe(t[i]) || t[i] == '.'
    {
      if i < |h| {
        assert t[i] == h[i];
      } else if i == |h| {
      } else if i < |h| + 1 + |p| {
        assert t[i] == p[i - |h| - 1];
      } else if i == |h| + 1 + |p| {
      } else {
        assert t[i] == s[i - |h| - 2 - |p|];
      }
    }
    assert '.' !in h && '.' !in p && '.' !in s;
    ThreeSegments(h, p, s);
  }

  /** An issued token is three URL-safe segments: header, payload, and the HMAC of the first two. */
  lemma {:induction false} CompactSegments(header: seq<B.Byte>, payload: seq<B.Byte>, secret: string, hmac: Hmac)
    ensures var h := B.UrlEncode(header); var p := B.UrlEncode(payload);
      PhpStr.Split(Compact(header, payload, secret, hmac), '.') == [h, p, B.UrlEncode(hmac(secret, h + "." + p))]
    ensures TokenText(Compact(header, payload, secret, hmac))
  {
    var h := B.UrlEncode(header);
    var p := B.UrlEncode(payload);
    B.UrlEncodeAlphabet(header);
    B.UrlEncodeAlphabet(payload);
    B.UrlEncodeAlphabet(hmac(secret, h + "." + p));
    JoinedSegments(h, p, B.UrlEncode(hmac(secret, h + "." + p)));
  }

  // ---------------------------------------------------------------------------
  // verifying

  /** `!$token` for a ?string: null, "" and "0". */
  predicate Absent(token: Option<string>)
  {
    token.None? || PhpStr.IsFalsy(token.value)
  }

  /** The token with one leading "Bearer " removed. */
  function StripBearer(t: string): (r: string)
    ensures PhpStr.StartsWith(t, "Bearer ") ==> t == "Bearer " + r
    ensures !PhpStr.StartsWith(t, "Bearer ") ==> r == t
  {
    if PhpStr.StartsWith(t, "Bearer ") then t[7..] else t
  }

  /** `!$header || ($header['alg'] ?? null) !== 'HS256'` fails exactly when this does not hold. */
  predicate AlgorithmOk(header: Value)
  {
    Field(header, "alg") == Str("HS256")
  }

  /** `$claim + $n` / `$claim - $n` read a claim as PHP 8 arithmetic does: None where it throws a TypeError. */
  function ClaimNumber(v: Value): Option<int>
  {
    match v
    case Null => Some(0)
    case Bool(b) => Some(if b then 1 else 0)
    case Int(i) => Some(i)
    case Str(s) => PhpStr.LeadingInt(s)
    case List(_) => None
    case Obj(_) => None
  }

  /** The exp, nbf and iat rules of JWT::verify, in that order, with 30 s of leeway; None when they all pass. */
  function TimeCheck(payload: Value, now: int): (r: Option<JwtError>)
    ensures r.None? ==> (IsSet(payload, "exp") ==>
                           ClaimNumber(payload.fields["exp"]).Some? && ClaimNumber(payload.fields["exp"]).value + Leeway >= now)
    ensures r.None? ==> (IsSet(payload, "nbf") ==>
                           ClaimNumber(payload.fields["nbf"]).Some? && ClaimNumber(payload.fields["nbf"]).value - Leeway <= now)
    ensures r.None? ==> (IsSet(payload, "iat") ==>
                           ClaimNumber(payload.fields["iat"]).Some? && ClaimNumber(payload.fields["iat"]).value - Leeway <= now)
    ensures r == Some(Expired) ==> IsSet(payload, "exp")
  {
    var exp := if IsSet(payload, "exp") then ClaimNumber(payload.fields["exp"]) else Some(now);
    var nbf := if IsSet(payload, "nbf") then ClaimNumber(payload.fields["nbf"]) else Some(now);
    var iat := if IsSet(payload, "iat") then ClaimNumber(payload.fields["iat"]) else Some(now);
    if exp.None? then Some(ClaimType)
    else if exp.value + Leeway < now then Some(Expired)
    else if nbf.None? then Some(ClaimType)
    else if nbf.value - Leeway > now then Some(NotYetActive)
    else if iat.None? then Some(ClaimType)
    else if iat.value - Leeway > now then Some(BadIssueTime)
    else None
  }

  /**
   * The checks JWT::verify makes once the token has three segments h.p.s:
   * the header's alg, then the signature (whether it matched is
   * signatureOk), then the payload's shape, then the clock.
   */
  function Checked(h: string, p: string, signatureOk: bool, now: int, dec: Decode): (r: Result<Value>)
    ensures r.Ok? ==> r.value == dec(B.UrlDecode(p)) && IsArray(r.value)
  {
    if !AlgorithmOk(dec(B.UrlDecode(h))) then Err(BadAlgorithm)
    else if !signatureOk then Err(BadSignature)
    else
      var payload := dec(B.UrlDecode(p));
      if !IsArray(payload) then Err(BadPayload)
      else
        var t := TimeCheck(payload, now);
        if t.Some? then Err(t.value) else Ok(payload)
  }

  /** JWT::verify($token) at time now, as a function of its inputs. */
  function Verified(token: Option<string>, now: int, secret: string, hmac: Hmac, dec: Decode): Result<Value>
  {
    if Absent(token) then Err(Missing)
    else
      var parts := PhpStr.Split(StripBearer(token.value), '.');
      if |parts| != 3 then Err(BadFormat)
      else Checked(parts[0], parts[1], B.UrlDecode(parts[2]) == hmac(secret, parts[0] + "." + parts[1]), now, dec)
  }

  /** JWT::verify, step by step: each failed check returns its error at once. */
  method Verify(token: Option<string>, now: int, secret: string, hmac: Hmac, dec: Decode)
    returns (r: Result<Value>)
    ensures r == Verified(token, now, secret, hmac, dec)
    ensures r.Ok? ==> IsArray(r.value)
  {
    if Absent(token) {
      return Err(Missing);
    }
    var t := token.value;
    if PhpStr.StartsWith(t, "Bearer ") {
      t := t[7..];
    }
    var parts := PhpStr.Split(t, '.');
    if |parts| != 3 {
      return Err(BadFormat);
    }
    var header := dec(B.UrlDecode(parts[0]));
    if !AlgorithmOk(header) {
      return Err(BadAlgorithm);
    }
    var signature := B.UrlDecode(parts[2]);
    var expected := hmac(secret, parts[0] + "." + parts[1]);
    if signature != expected {
      return Err(BadSignature);
    }
    var payload := dec(B.UrlDecode(parts[1]));
    if !IsArray(payload) {
      return Err(BadPayload);
    }
    var check := TimeCheck(payload, now);
    if check.Some? {
      return Err(check.value);
    }
    return Ok(payload);
  }

  /** An empty or missing token fails first, before anything else is looked at. */
  lemma VerifyAbsent(token: Option<string>, now: int, secret: string, hmac: Hmac, dec: Decode)
    requires token.None? || token.value == "" || token.value == "0"
    ensures Verified(token, now, secret, hmac, dec) == Err(Missing)
  {
  }

  /** A leading "Bearer " is ignored. */
  lemma VerifyBearer(t: string, now: int, secret: string, hmac: Hmac, dec: Decode)
    requires !PhpStr.IsFalsy(t) && !PhpStr.StartsWith(t, "Bearer ")
    ensures Verified(Some("Bearer " + t), now, secret, hmac, dec) == Verified(Some(t), now, secret, hmac, dec)
  {
    assert PhpStr.StartsWith("Bearer " + t, "Bearer ");
    assert ("Bearer " + t)[7..] == t;
  }

  /**
   * The checks run in a fixed order and the first failure decides the
   * error: the format comes before any decoding or HMAC work, the algorithm
   * before the signature, the signature before the payload, the payload
   * before the clock. Success returns the decoded payload unchanged.
   */
  lemma {:induction false} VerifyOrder(t: string, now: int, secret: string, hmac: Hmac, dec: Decode)
    requires !PhpStr.IsFalsy(t)
    ensures var parts := PhpStr.Split(StripBearer(t), '.');
      var r := Verified(Some(t), now, secret, hmac, dec);
      && (|parts| != 3 <==> r == Err(BadFormat))
      && (|parts| == 3 ==>
            && (!AlgorithmOk(dec(B.UrlDecode(parts[0]))) <==> r == Err(BadAlgorithm))
            && (AlgorithmOk(dec(B.UrlDecode(parts[0]))) ==>
                  (B.UrlDecode(parts[2]) != hmac(secret, parts[0] + "." + parts[1]) <==> r == Err(BadSignature)))
            && (AlgorithmOk(dec(B.UrlDecode(parts[0]))) && B.UrlDecode(parts[2]) == hmac(secret, parts[0] + "." + parts[1]) ==>
                  (!IsArray(dec(B.UrlDecode(parts[1]))) <==> r == Err(BadPayload)))
            && (AlgorithmOk(dec(B.UrlDecode(parts[0]))) && B.UrlDecode(parts[2]) == hmac(secret, parts[0] + "." + parts[1]) &&
                IsArray(dec(B.UrlDecode(parts[1]))) && TimeCheck(dec(B.UrlDecode(parts[1])), now).Some? ==>
                  r == Err(TimeCheck(dec(B.UrlDecode(parts[1])), now).value))
            && (r.Ok? <==>
                  && AlgorithmOk(dec(B.UrlDecode(parts[0])))
                  && B.UrlDecode(parts[2]) == hmac(secret, parts[0] + "." + parts[1])
                  && IsArray(dec(B.UrlDecode(parts[1])))
                  && TimeCheck(dec(B.UrlDecode(parts[1])), now).None?)
            && (r.Ok? ==> r.value == dec(B.UrlDecode(parts[1]))))
  {
  }

  /** exp + 30 < now fails: a token is still accepted 30 s after its exp, and refused one second later. */
  lemma ExpiryBoundary(claims: map<string, Value>, exp: int)
    requires "nbf" !in claims && "iat" !in claims
    ensures TimeCheck(Obj(claims["exp" := Int(exp)]), exp + Leeway).None?
    ensures TimeCheck(Obj(claims["exp" := Int(exp)]), exp + Leeway + 1) == Some(Expired)
  {
    var p := Obj(claims["exp" := Int(exp)]);
    assert IsSet(p, "exp") && !IsSet(p, "nbf") && !IsSet(p, "iat");
  }

  /** nbf - 30 > now and iat - 30 > now fail: either claim may lie at most 30 s in the future. */
  lemma FutureBoundary(claims: map<string, Value>, k: string, t: int)
    requires k == "nbf" || k == "iat"
    requires "exp" !in claims && "nbf" !in claims && "iat" !in claims
    ensures TimeCheck(Obj(claims[k := Int(t)]), t - Leeway).None?
    ensures TimeCheck(Obj(claims[k := Int(t)]), t - Leeway - 1) == Some(if k == "nbf" then NotYetActive else BadIssueTime)
  {
    var p := Obj(claims[k := Int(t)]);
    assert IsSet(p, k) && !IsSet(p, "exp");
    assert k == "nbf" ==> !IsSet(p, "iat");
    assert k == "iat" ==> !IsSet(p, "nbf");
  }

  /** Claims that are absent or null are not checked at all. */
  lemma AbsentClaimsUnchecked(payload: Value, now: int)
    requires IsArray(payload)
    requires !IsSet(payload, "exp") && !IsSet(payload, "nbf") && !IsSet(payload, "iat")
    ensures TimeCheck(payload, now).None?
  {
  }

  /**
   * A token from JWT::generate verifies, while its clock still lies within
   * the window, to the stamped claims, provided json_decode reads back what
   * json_encode wrote and a caller-supplied nbf does not lie in the future.
   */
  lemma {:induction false} GenerateVerifies(payload: map<string, Value>, issued: int, now: int, secret: string,
                                          hmac: Hmac, enc: Encode, dec: Decode)
    requires dec(enc(Header)) == Header
    requires dec(enc(Obj(Stamp(payload, issued)))) == Obj(Stamp(payload, issued))
    requires issued - Leeway <= now <= issued + Expiration + Leeway
    requires "nbf" in payload && payload["nbf"] != Null ==>
               ClaimNumber(payload["nbf"]).Some? && ClaimNumber(payload["nbf"]).value - Leeway <= now
    ensures Verified(Some(Compact(enc(Header), enc(Obj(Stamp(payload, issued))), secret, hmac)), now, secret, hmac, dec)
            == Ok(Obj(Stamp(payload, issued)))
  {
    var claims := Stamp(payload, issued);
    var h := B.UrlEncode(enc(Header));
    var p := B.UrlEncode(enc(Obj(claims)));
    B.UrlRoundTrip(hmac(secret, h + "." + p));
    CompactVerified(enc(Header), enc(Obj(claims)), now, secret, hmac, dec);
    StampedChecked(payload, issued, now, enc, dec);
  }

  /** The segment checks pass on the encoded header and stamped claims within the window. */
  lemma StampedChecked(payload: map<string, Value>, issued: int, now: int, enc: Encode, dec: Decode)
    requires dec(enc(Header)) == Header
    requires dec(enc(Obj(Stamp(payload, issued)))) == Obj(Stamp(payload, issued))
    requires issued - Leeway <= now <= issued + Expiration + Leeway
    requires "nbf" in payload && payload["nbf"] != Null ==>
               ClaimNumber(payload["nbf"]).Some? && ClaimNumber(payload["nbf"]).value - Leeway <= now
    ensures Checked(B.UrlEncode(enc(Header)), B.UrlEncode(enc(Obj(Stamp(payload, issued)))), true, now, dec)
            == Ok(Obj(Stamp(payload, issued)))
  {
    var claims := Obj(Stamp(payload, issued));
    assert dec(B.UrlDecode(B.UrlEncode(enc(Header)))) == Header by {
      B.UrlRoundTrip(enc(Header));
    }
    assert AlgorithmOk(Header);
    assert dec(B.UrlDecode(B.UrlEncode(enc(claims)))) == claims by {
      B.UrlRoundTrip(enc(claims));
    }
    assert TimeCheck(claims, now).None? by {
      StampPassesTimeCheck(payload, issued, now);
    }
  }

  /** On an issued token JWT::verify gets past the format checks straight to the segment checks. */
  lemma CompactVerified(header: seq<B.Byte>, payload: seq<B.Byte>, now: int, secret: string, hmac: Hmac, dec: Decode)
    ensures var h := B.UrlEncode(header); var p := B.UrlEncode(payload); var s := B.UrlEncode(hmac(secret, h + "." + p));
      && Verified(Some(Compact(header, payload, secret, hmac)), now, secret, hmac, dec)
         == Checked(h, p, B.UrlDecode(s) == hmac(secret, h + "." + p), now, dec)
      && VerifiedCanonical(Some(Compact(header, payload, secret, hmac)), now, secret, hmac, dec)
         == Checked(h, p, true, now, dec)
  {
    var h := B.UrlEncode(header);
    var p := B.UrlEncode(payload);
    B.UrlEncodeAlphabet(header);
    B.UrlEncodeAlphabet(payload);
    B.UrlEncodeAlphabet(hmac(secret, h + "." + p));
    SegmentsVerified(h, p, B.UrlEncode(hmac(secret, h + "." + p)), now, secret, hmac, dec);
  }

  /** The stamped iat and exp pass the clock rules throughout the window, and so does an nbf already reached. */
  lemma StampPassesTimeCheck(payload: map<string, Value>, issued: int, now: int)
    requires issued - Leeway <= now <= issued + Expiration + Leeway
    requires "nbf" in payload && payload["nbf"] != Null ==>
               ClaimNumber(payload["nbf"]).Some? && ClaimNumber(payload["nbf"]).value - Leeway <= now
    ensures TimeCheck(Obj(Stamp(payload, issued)), now).None?
  {
    var o := Obj(Stamp(payload, issued));
    assert IsSet(o, "exp") && IsSet(o, "iat");
    assert IsSet(o, "nbf") ==> o.fields["nbf"] == payload["nbf"];
  }

  /** A token made of URL-safe characters and dots is truthy when it has three segments, has no "Bearer " prefix and nothing to trim. */
  lemma ValidTokenShape(t: string)
    requires TokenText(t)
    requires |PhpStr.Split(t, '.')| == 3
    ensures !PhpStr.IsFalsy(t) && StripBearer(t) == t
    ensures PhpStr.Trim(t, PhpStr.DefaultTrimChars) == t
  {
    ThreeSegmentsTruthy(t);
    TokenTextUntouched(t);
  }

  lemma ThreeSegmentsTruthy(t: string)
    requires |PhpStr.Split(t, '.')| == 3
    ensures !PhpStr.IsFalsy(t)
  {
    if t == "0" {
      PhpStr.SplitNoDelimiter("0", '.');
    }
  }

  lemma TokenTextUntouched(t: string)
    requires TokenText(t) && t != ""
    ensures StripBearer(t) == t
    ensures PhpStr.Trim(t, PhpStr.DefaultTrimChars) == t
  {
    assert B.IsUrlSafe(t[0]) || t[0] == '.';
    assert B.IsUrlSafe(t[|t| - 1]) || t[|t| - 1] == '.';
    if |t| >= 7 {
      assert B.IsUrlSafe(t[6]) || t[6] == '.';
      assert t[..7][6] == t[6];
    }
    PhpStr.TrimLeftNoop(t, PhpStr.DefaultTrimChars);
    PhpStr.TrimRightNoop(t, PhpStr.DefaultTrimChars);
  }

  // ---------------------------------------------------------------------------
  // the request helpers

  /**
   * The request as JWT::getAuthorizationHeader sees it: the `$_SERVER`
   * variables, and the result of getallheaders() in order, or None where
   * that function does not exist.
   */
  datatype HttpRequest = HttpRequest(server: map<string, string>, headers: Option<seq<(string, string)>>)

  /** The value of the last header whose lower-cased name is name, as array_change_key_case keeps it. */
  function LastHeader(hs: seq<(string, string)>, name: string): Option<string>
  {
    if hs == [] then None
    else if PhpStr.AsciiLower(hs[|hs| - 1].0) == name then Some(hs[|hs| - 1].1)
    else LastHeader(hs[..|hs| - 1], name)
  }

  /** Header i has the given lower-case name and no later header has it. */
  predicate LastNamed(hs: seq<(string, string)>, i: int, name: string)
  {
    0 <= i < |hs| && PhpStr.AsciiLower(hs[i].0) == name &&
    forall j :: i < j < |hs| ==> PhpStr.AsciiLower(hs[j].0) != name
  }

  /** A header is found iff some header has that name in lower case, and the last such one wins. */
  lemma {:induction false} LastHeaderWins(hs: seq<(string, string)>, name: string)
    ensures LastHeader(hs, name).Some? <==> exists i :: 0 <= i < |hs| && PhpStr.AsciiLower(hs[i].0) == name
    ensures LastHeader(hs, name).Some? ==> exists i :: LastNamed(hs, i, name) && hs[i].1 == LastHeader(hs, name).value
  {
    if hs == [] {
    } else if PhpStr.AsciiLower(hs[|hs| - 1].0) == name {
      assert LastNamed(hs, |hs| - 1, name);
    } else {
      var pre := hs[..|hs| - 1];
      LastHeaderWins(pre, name);
      assert forall i :: 0 <= i < |pre| ==> pre[i] == hs[i];
      if LastHeader(pre, name).Some? {
        var i :| LastNamed(pre, i, name) && pre[i].1 == LastHeader(pre, name).value;
        assert LastNamed(hs, i, name);
      }
    }
  }

  /** JWT::getAuthorizationHeader(): X-Auth-Token from $_SERVER, then its REDIRECT_ copy, then getallheaders(). */
  function AuthorizationHeader(req: HttpRequest): (r: Option<string>)
    ensures "HTTP_X_AUTH_TOKEN" in req.server && !PhpStr.IsFalsy(req.server["HTTP_X_AUTH_TOKEN"]) ==>
              r == Some(req.server["HTTP_X_AUTH_TOKEN"])
    ensures !("HTTP_X_AUTH_TOKEN" in req.server && !PhpStr.IsFalsy(req.server["HTTP_X_AUTH_TOKEN"])) &&
            "REDIRECT_HTTP_X_AUTH_TOKEN" in req.server && !PhpStr.IsFalsy(req.server["REDIRECT_HTTP_X_AUTH_TOKEN"]) ==>
              r == Some(req.server["REDIRECT_HTTP_X_AUTH_TOKEN"])
    ensures r.Some? ==> ("HTTP_X_AUTH_TOKEN" in req.server && r.value == req.server["HTTP_X_AUTH_TOKEN"]) ||
                        ("REDIRECT_HTTP_X_AUTH_TOKEN" in req.server && r.value == req.server["REDIRECT_HTTP_X_AUTH_TOKEN"]) ||
                        (req.headers.Some? &&
                           exists i :: 0 <= i < |req.headers.value| &&
                             PhpStr.AsciiLower(req.headers.value[i].0) == "x-auth-token" && req.headers.value[i].1 == r.value)
  {
    if "HTTP_X_AUTH_TOKEN" in req.server && !PhpStr.IsFalsy(req.server["HTTP_X_AUTH_TOKEN"]) then
      Some(req.server["HTTP_X_AUTH_TOKEN"])
    else if "REDIRECT_HTTP_X_AUTH_TOKEN" in req.server && !PhpStr.IsFalsy(req.server["REDIRECT_HTTP_X_AUTH_TOKEN"]) then
      Some(req.server["REDIRECT_HTTP_X_AUTH_TOKEN"])
    else if req.headers.Some? then
      LastHeaderWins(req.headers.value, "x-auth-token");
      LastHeader(req.headers.value, "x-auth-token")
    else None
  }

  /** The third source is case-insensitive: renaming a header to another spelling of the same name changes nothing. */
  lemma {:induction false} HeaderNameCaseInsensitive(hs: seq<(string, string)>, i: nat, spelling: string, name: string)
    requires i < |hs| && PhpStr.AsciiLower(spelling) == PhpStr.AsciiLower(hs[i].0)
    ensures LastHeader(hs[i := (spelling, hs[i].1)], name) == LastHeader(hs, name)
    decreases |hs|
  {
    var hs2 := hs[i := (spelling, hs[i].1)];
    if i < |hs| - 1 {
      assert hs2[..|hs2| - 1] == hs[..|hs| - 1][i := (spelling, hs[i].1)];
      HeaderNameCaseInsensitive(hs[..|hs| - 1], i, spelling, name);
    } else {
      assert hs2[..|hs2| - 1] == hs[..|hs| - 1];
    }
  }

  /**
   * JWT::getAuthenticatedUser(): the claims `verify` returns for the trimmed
   * header token, or None when there is no token or any check fails.
   */
  function AuthenticatedUser(req: HttpRequest, now: int, secret: string, hmac: Hmac, dec: Decode): (r: Option<Value>)
    ensures r.Some? ==> IsArray(r.value)
  {
    var token := AuthorizationHeader(req);
    if Absent(token) then None
    else
      match Verified(Some(PhpStr.Trim(token.value, PhpStr.DefaultTrimChars)), now, secret, hmac, dec)
      case Ok(claims) => Some(claims)
      case Err(_) => None
  }

  /**
   * getAuthenticatedUser returns claims exactly when a token was found and
   * JWT::verify accepts its trimmed text, and then it returns verify's claims.
   */
  lemma AuthenticatedUserVerified(req: HttpRequest, now: int, secret: string, hmac: Hmac, dec: Decode)
    ensures AuthenticatedUser(req, now, secret, hmac, dec).Some? <==>
      !Absent(AuthorizationHeader(req)) &&
      Verified(Some(PhpStr.Trim(AuthorizationHeader(req).value, PhpStr.DefaultTrimChars)), now, secret, hmac, dec).Ok?
    ensures AuthenticatedUser(req, now, secret, hmac, dec).Some? ==>
      Verified(Some(PhpStr.Trim(AuthorizationHeader(req).value, PhpStr.DefaultTrimChars)), now, secret, hmac, dec)
        == Ok(AuthenticatedUser(req, now, secret, hmac, dec).value)
  {
  }

  /** getAuthenticatedUser with the corrected, canonical signature comparison of VerifiedCanonical. */
  function AuthenticatedUserCanonical(req: HttpRequest, now: int, secret: string, hmac: Hmac, dec: Decode): (r: Option<Value>)
    ensures r.Some? ==> IsArray(r.value)
  {
    var token := AuthorizationHeader(req);
    if Absent(token) then None
    else
      match VerifiedCanonical(Some(PhpStr.Trim(token.value, PhpStr.DefaultTrimChars)), now, secret, hmac, dec)
      case Ok(claims) => Some(claims)
      case Err(_) => None
  }

  /** The corrected lookup only narrows the one as written: whoever it lets in, getAuthenticatedUser lets in with the same claims. */
  lemma CanonicalAuthenticatedNarrows(req: HttpRequest, now: int, secret: string, hmac: Hmac, dec: Decode)
    ensures AuthenticatedUserCanonical(req, now, secret, hmac, dec).Some? ==>
      AuthenticatedUser(req, now, secret, hmac, dec) == AuthenticatedUserCanonical(req, now, secret, hmac, dec)
  {
    if !Absent(AuthorizationHeader(req)) {
      var token := PhpStr.Trim(AuthorizationHeader(req).value, PhpStr.DefaultTrimChars);
      CanonicalImpliesVerified(Some(token), now, secret, hmac, dec);
    }
  }

  /** The outcome of a guard: the claims, or the HTTP status it stops the request with. */
  datatype Guard = Authorized(user: Value) | Unauthorized | Forbidden
  {
    function Status(): (s: int)
      ensures Authorized? <==> s == 200
      ensures Unauthorized? <==> s == 401
      ensures Forbidden? <==> s == 403
    {
      match this
      case Authorized(_) => 200
      case Unauthorized => 401
      case Forbidden => 403
    }
  }

  /** JWT::requireAuth(): 401 unless the token yields non-empty claims. */
  function RequireAuth(req: HttpRequest, now: int, secret: string, hmac: Hmac, dec: Decode): (g: Guard)
    ensures g.Authorized? <==> AuthenticatedUser(req, now, secret, hmac, dec).Some? &&
                               Truthy(AuthenticatedUser(req, now, secret, hmac, dec).value)
    ensures g.Authorized? ==> g.user == AuthenticatedUser(req, now, secret, hmac, dec).value
    ensures !g.Forbidden?
  {
    match AuthenticatedUser(req, now, secret, hmac, dec)
    case None => Unauthorized
    case Some(user) => if Truthy(user) then Authorized(user) else Unauthorized
  }

  /** The admin test of JWT::requireAdmin: `role === 'admin'`, or `is_admin` strictly 1 or true. */
  predicate IsAdmin(user: Value)
  {
    (IsSet(user, "role") && user.fields["role"] == Str("admin")) ||
    (IsSet(user, "is_admin") && (user.fields["is_admin"] == Int(1) || user.fields["is_admin"] == Bool(true)))
  }

  /** The comparisons are strict: the string "1" or a role in another case does not make an admin. */
  lemma IsAdminStrict(fields: map<string, Value>)
    ensures IsAdmin(Obj(fields)) <==>
      Lookup(fields, "role") == Str("admin") || Lookup(fields, "is_admin") in {Int(1), Bool(true)}
    ensures !IsAdmin(Obj(map["is_admin" := Str("1"), "role" := Str("Admin")]))
  {
  }

  /** JWT::requireAdmin(): requireAuth's 401 first, then 403 unless IsAdmin. */
  function RequireAdmin(req: HttpRequest, now: int, secret: string, hmac: Hmac, dec: Decode): (g: Guard)
    ensures g.Unauthorized? <==> RequireAuth(req, now, secret, hmac, dec).Unauthorized?
    ensures g.Authorized? <==> RequireAuth(req, now, secret, hmac, dec).Authorized? &&
                               IsAdmin(RequireAuth(req, now, secret, hmac, dec).user)
    ensures g.Authorized? ==> g == RequireAuth(req, now, secret, hmac, dec)
  {
    match RequireAuth(req, now, secret, hmac, dec)
    case Authorized(user) => if IsAdmin(user) then Authorized(user) else Forbidden
    case other => other
  }

  // ---------------------------------------------------------------------------
  // signature malleability

  /**
   * JWT::verify compares the decoded signature, and PHP's non-strict
   * base64_decode reads several strings to the same bytes. For an HMAC
   * whose length is 2 (mod 3), such as the 32 bytes of HMAC-SHA256, the
   * issued signature segment can be replaced by a different one (one bit of
   * its last character flipped, 'A' becoming 'C' for instance) and the
   * token still verifies.
   */
  lemma {:induction false} VerifyAcceptsAlteredSignature(h: string, p: string, now: int, secret: string,
                                                       hmac: Hmac, dec: Decode)
    requires UrlSafe(h) && UrlSafe(p)
    requires |hmac(secret, h + "." + p)| % 3 == 2
    ensures var sig := B.UrlEncode(hmac(secret, h + "." + p));
      B.Bumpable(sig) && B.BumpLast(sig) != sig &&
      Verified(Some(h + "." + p + "." + B.BumpLast(sig)), now, secret, hmac, dec) ==
      Verified(Some(h + "." + p + "." + sig), now, secret, hmac, dec)
  {
    var b := hmac(secret, h + "." + p);
    var sig := B.UrlEncode(b);
    B.LastCharMalleable(b);
    B.UrlEncodeAlphabet(b);
    var sig2 := B.BumpLast(sig);
    forall i | 0 <= i < |sig2|
      ensures B.IsUrlSafe(sig2[i])
    {
      if i < |sig2| - 1 {
        assert sig2[i] == sig[i];
      }
    }
    SegmentsVerified(h, p, sig, now, secret, hmac, dec);
    SegmentsVerified(h, p, sig2, now, secret, hmac, dec);
    B.UrlRoundTrip(b);
  }

  /** In the URL-safe alphabet 'A' (0x41) stands for 0 and 'C' (0x43) for 2: the two differ in a single bit. */
  lemma OneBitApart()
    ensures B.UrlChar(0) == 'A' && B.UrlChar(2) == 'C'
    ensures 'A' as int == 0x41 && 'C' as int == 0x43
  {
  }

  /** A string of URL-safe characters. */
  predicate UrlSafe(s: string)
  {
    forall i :: 0 <= i < |s| ==> B.IsUrlSafe(s[i])
  }

  /** On a token of three URL-safe segments both checks go straight to the segment checks. */
  lemma SegmentsVerified(h: string, p: string, s: string, now: int, secret: string, hmac: Hmac, dec: Decode)
    requires UrlSafe(h) && UrlSafe(p) && UrlSafe(s)
    ensures Verified(Some(h + "." + p + "." + s), now, secret, hmac, dec)
            == Checked(h, p, B.UrlDecode(s) == hmac(secret, h + "." + p), now, dec)
    ensures VerifiedCanonical(Some(h + "." + p + "." + s), now, secret, hmac, dec)
            == Checked(h, p, s == B.UrlEncode(hmac(secret, h + "." + p)), now, dec)
  {
    var t := h + "." + p + "." + s;
    JoinedSegments(h, p, s);
    ValidTokenShape(t);
  }

  /**
   * The corrected check: the signature segment must be exactly the
   * base64url encoding of the expected HMAC, so for a given header and
   * payload only one signature segment is accepted.
   */
  function VerifiedCanonical(token: Option<string>, now: int, secret: string, hmac: Hmac, dec: Decode): Result<Value>
  {
    if Absent(token) then Err(Missing)
    else
      var parts := PhpStr.Split(StripBearer(token.value), '.');
      if |parts| != 3 then Err(BadFormat)
      else Checked(parts[0], parts[1], parts[2] == B.UrlEncode(hmac(secret, parts[0] + "." + parts[1])), now, dec)
  }

  /** The canonical check only ever narrows JWT::verify: whatever it accepts, verify accepts with the same claims. */
  lemma CanonicalImpliesVerified(token: Option<string>, now: int, secret: string, hmac: Hmac, dec: Decode)
    ensures VerifiedCanonical(token, now, secret, hmac, dec).Ok? ==>
              Verified(token, now, secret, hmac, dec) == VerifiedCanonical(token, now, secret, hmac, dec)
  {
    if !Absent(token) {
      var parts := PhpStr.Split(StripBearer(token.value), '.');
      if |parts| == 3 {
        B.UrlRoundTrip(hmac(secret, parts[0] + "." + parts[1]));
      }
    }
  }

  /** Under the canonical check any other signature segment is refused. */
  lemma CanonicalSignatureUnique(h: string, p: string, s: string, now: int, secret: string, hmac: Hmac, dec: Decode)
    requires UrlSafe(h) && UrlSafe(p) && UrlSafe(s)
    requires s != B.UrlEncode(hmac(secret, h + "." + p))
    requires AlgorithmOk(dec(B.UrlDecode(h)))
    ensures VerifiedCanonical(Some(h + "." + p + "." + s), now, secret, hmac, dec) == Err(BadSignature)
  {
    SegmentsVerified(h, p, s, now, secret, hmac, dec);
  }

  /** Issued tokens pass the canonical check too. */
  lemma {:induction false} GenerateVerifiesCanonical(payload: map<string, Value>, issued: int, now: int, secret: string,
                                                   hmac: Hmac, enc: Encode, dec: Decode)
    requires dec(enc(Header)) == Header
    requires dec(enc(Obj(Stamp(payload, issued)))) == Obj(Stamp(payload, issued))
    requires issued - Leeway <= now <= issued + Expiration + Leeway
    requires "nbf" in payload && payload["nbf"] != Null ==>
               ClaimNumber(payload["nbf"]).Some? && ClaimNumber(payload["nbf"]).value - Leeway <= now
    ensures VerifiedCanonical(Some(Compact(enc(Header), enc(Obj(Stamp(payload, issued))), secret, hmac)), now, secret, hmac, dec)
            == Ok(Obj(Stamp(payload, issued)))
  {
    CompactVerified(enc(Header), enc(Obj(Stamp(payload, issued))), now, secret, hmac, dec);
    StampedChecked(payload, issued, now, enc, dec);
  }
}
