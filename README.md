# SanatSepet backend core, modelled in Dafny

SanatSepet is a PHP REST backend for a social platform for sharing art:
users, posts with images and tags, stars and reposts, comments, follows,
direct messages, reports and an admin panel. Every request goes through
the front router `api/index.php`. The router picks an endpoint script, which
may authenticate the caller with a JSON Web Token, run a few SQL statements
through a model class, and answer with a uniform JSON envelope.

This project models the parts of that backend that hold rules which can
be stated and proved:

- **Token authority** (`config/jwt.php`, module `Jwt`, with `Base64Url`).
  It issues and verifies HS256 tokens in the compact serialisation of JWS
  (section 7.1 of RFC 7515), with base64url segments without padding
  (section 5 of RFC 4648). It also models the ordered checks of `verify`,
  with a 30-second leeway on `exp`/`nbf`/`iat` (sections 4.1.4 to 4.1.6 of
  RFC 7519), the token-header lookup, and the `requireAuth` and
  `requireAdmin` guards. The guards return a result instead of exiting.
- **Response envelope and validator** (`config/response.php`, module
  `Response`). It models the success, error and paginated envelopes, the
  paging arithmetic, and the rule-driven `Request::validate`.
- **One-time tokens** (`models/Token.php`, module `Tokens`). These are the
  email-verification tokens, which are single use and last 24 hours, and
  the password-reset tokens, which last one hour and are marked used.
- **Posts** (`models/Post.php` in module `Posts`, `api/posts.php` in module
  `PostsApi`). This covers slugs, tag normalisation, row shaping, stars,
  reposts, soft deletion, view counting, and the posts endpoint's path
  parsing, limits, tag handling and authorisation chains.
- **Relations and counters**. These are `models/Follow.php` (`Follows`),
  `models/Comment.php` (`Comments`), `models/Message.php` (`Messages`) and
  `models/User.php` (`Users`). Each table is a set, map or sequence held
  in a class. Each counter is proved to stay equal to what it counts,
  with one exception: `User::blockUser` deletes follow rows without
  adjusting the counters (see Findings).
- **Settings, admin and reports**. These are `models/Settings.php`
  (`SiteSettings`), `api/admin.php` (`Admin`) and `models/Report.php`
  (`Reports`).
- **Router** (`api/index.php`, module `Router`).

Two modules are shared helpers. `Values` is the decoded-JSON value together
with PHP's `isset`, `(int)`, string conversion, loose `==` with an integer
and truthiness. `PhpStr` holds the PHP string built-ins the code uses.
`Optional` is the Some/None wrapper.

The database is modelled as maps, sets and sequences held in classes. A
method that changes a table states the table's whole new state in its
`ensures`. Queries are methods tied to a specification function. Lemmas
state the properties of those functions: round trips, counters kept in
step, single use, ordering, and what stays unchanged. MySQL's `rowCount()`
counts the rows an UPDATE actually changed, because the connection does
not set `PDO::MYSQL_ATTR_FOUND_ROWS`. The model follows that rule wherever
the code tests a row count.

Some things the code needs come from outside the model. The model takes
them as function parameters:

- HMAC-SHA256;
- `json_encode` and `json_decode`;
- `password_verify` and `mb_strtolower`;
- `uniqid()`, `random_bytes`, `time()`, `NOW()` and `date('c')`;
- whether an INSERT is rejected by the database.

### Token details the model follows

- **Token header.** The header is `{"alg": "HS256", "typ": "JWT"}`, and
  `verify` accepts only the `alg` `HS256` (config/jwt.php:28-31,
  config/jwt.php:97-100).
- **Segments.** `verify` checks only that `explode('.')` yields three
  segments (config/jwt.php:88-92). An empty segment is not rejected there;
  it fails later, at the algorithm or signature check.
- **Optional claims.** `exp`, `nbf` and `iat` are each checked only when
  they are set; a token without them passes the clock checks
  (config/jwt.php:125-138; see `Jwt.AbsentClaimsUnchecked`).
- **Token lookup.** The token comes from the `X-Auth-Token` header, looked
  up in this order: `HTTP_X_AUTH_TOKEN`, then `REDIRECT_HTTP_X_AUTH_TOKEN`,
  then `getallheaders()` with the names lower-cased (config/jwt.php:46-69).
  A leading `Bearer ` is removed only inside `verify`.

### Design notes the proofs make explicit

- The admin script's settings pages use other key names than
  `Settings::getPublic`, `getSEO` and `getAdsense`. For example, the admin
  page has `logo_url` and `ad_slot_feed`, while the public readers use
  `site_logo` and `adsense_slot_feed`. So only a few keys saved from the
  admin panel reach the public readers (`Admin.SharedPublicKeys`,
  `Admin.SharedSeoKeys`, `Admin.SharedAdsenseKeys`).
- A boolean saved from the admin panel is read back by the public readers
  as the text 'true' or 'false', not as a boolean
  (`Admin.PublicReadOfSavedBool`).
- The admin script's fallback admin check accepts more than
  `JWT::requireAdmin` does: it also admits an `is_admin` of "1"
  (`Admin.FallbackWider`).
- The tag normalisation inside api/posts.php does not remove repeats
  (`PostsApi.InlineKeepsRepeats`). `Post::create` and `Post::update` run
  `Post::normalizeTags` on the result again, and that pass does remove them.
- Editing a post (PUT) does not enforce the 3-image and 5-tag limits that
  creating one does.
- `JWT::getAuthenticatedUser`, and with it `requireAuth` and
  `requireAdmin`, runs `verify` as written (`Jwt.AuthenticatedUser`).
  `Jwt.AuthenticatedUserCanonical` is the same lookup on the canonical
  signature check (see Findings). `Jwt.CanonicalAuthenticatedNarrows`
  states that every user it admits is admitted, with the same payload, by
  the code as written.

## Model

| member | source | states |
|---|---|---|
| Router.StripBase | api/index.php:36-42 | a path starting with "/api" loses exactly that prefix, as a textual test; any other path is kept |
| Router.Segments | api/index.php:43-44 | the trimmed path exploded on '/' has at least one segment |
| Router.At | api/index.php:47-49 | `$segments[i] ?? null` is present exactly when the index is in range, and is then that segment |
| Router.JoinedSegments | api/index.php:43-44 | trimming and exploding "/" followed by plain segments joined by '/' gives those segments back |
| Router.SegmentsOfPath | api/index.php:36-44 | a path of plain segments without the "/api" prefix splits into those segments |
| Router.SegmentsOfApiPath | api/index.php:36-44 | "/api/" followed by plain segments splits into those segments |
| Router.SegmentsAfterApi | api/index.php:40-44 | after "/api" only the rest, trimmed of slashes, is exploded |
| Router.StripApi | api/index.php:40-42 | the "/api" prefix is removed exactly once |
| Router.TrimSlashes | api/index.php:43 | trim('/') drops one leading slash from a path that neither starts nor ends with another |
| Router.JoinEnds | api/index.php:43-44 | joining segments that do not begin or end empty gives a path whose ends are their end characters |
| Router.ParsePath | api/index.php:36-49 | for "/api/" or "/" followed by plain segments, the resource, action and param are the first three segments, with absent ones null |
| Router.Parse | api/index.php:44-49 | the resource is `$segments[0] ?? ''` and action and param the next two segments or null; Router.ParsePath and Router.EmptyPathRoutesToRoot state the route of plain and root paths |
| Router.EmptyPathRoutesToRoot | api/index.php:36-49 | "", "/", "/api" and "/api/" give the empty resource and no action |
| Router.DispatchCases | api/index.php:53-112 | the ten known resources load their own script, `health` answers 200 with status 'ok' and the timestamp, and anything else is a 404 error |
| Router.Dispatch | api/index.php:53-112 | the switch over the resource: a known one loads its script, `health` answers at once, anything else is the 404 'Endpoint bulunamadı'; Router.DispatchCases and Router.ScriptsDistinct state the cases and that no two resources share a script |
| Router.ScriptsDistinct | api/index.php:53-102 | different resources load different scripts |
| Router.ExceptionStatus | api/index.php:116-121 | the status of a caught exception is always between 100 and 599 |
| Router.ExceptionStatusCases | api/index.php:116-121 | an integer code in 100..599 is used as it is; every other code, a string SQLSTATE included, becomes 500 |
| Router.ExceptionReply | api/index.php:114-124 | the catch replies with an error body holding the exception's message and that status |
| Jwt.Stamp | config/jwt.php:33-35 | the signed claims are the caller's, with `iat` set to the issue time and `exp` to seven days (604800 s) later; every other claim is kept |
| Jwt.Generate | config/jwt.php:27-44 | the token is header, stamped payload and HS256 signature, each base64url-encoded, joined by dots; it splits into three parts whose third is the encoded HMAC of the first two joined by a dot |
| Jwt.ThreeSegments | config/jwt.php:88-94 | `explode('.')` of three dot-free segments joined by dots gives exactly those segments |
| Jwt.JoinedSegments | config/jwt.php:43 | three URL-safe segments joined by dots form token text that splits back into them |
| Jwt.CompactSegments | config/jwt.php:37-43 | an issued token is three URL-safe segments: the encoded header, the encoded payload and the encoded HMAC of the two |
| Jwt.StripBearer | config/jwt.php:84-86 | one leading "Bearer " is removed and any other token is unchanged |
| Jwt.TimeCheck | config/jwt.php:121-138 | when no clock error is raised, every set `exp` is at least now - 30, and every set `nbf` and `iat` at most now + 30; Expired is only raised for a set `exp` |
| Jwt.Checked | config/jwt.php:96-140 | once the token has three segments, a success returns the decoded payload, and that payload is an array |
| Jwt.Verify | config/jwt.php:77-141 | the step-by-step verify returns the result of the reference function Verified; the claims it returns are always an array |
| Jwt.Verified | config/jwt.php:77-141 | the reference definition of `verify($token)` as written, with the signature compared after decoding: a missing token is 'Token bulunamadı', a segment count other than three is the format error, and otherwise the algorithm, signature, payload and clock checks decide; Jwt.VerifyOrder, Jwt.ExpiryBoundary and Jwt.GenerateVerifies state its order, boundaries and round trip |
| Jwt.VerifyAbsent | config/jwt.php:79-81 | null, "" and "0" are refused with 'Token bulunamadı' before anything else is looked at |
| Jwt.VerifyBearer | config/jwt.php:84-86 | a "Bearer " prefix does not change the verdict |
| Jwt.VerifyOrder | config/jwt.php:88-140 | the checks run in order: segment count, then algorithm, then signature, then payload shape, then clock, with the first failure deciding the error; once the algorithm and signature pass, a payload that is not an array is exactly the payload error, and a failing clock check gives that check's own error; success holds exactly when every check passes, and it returns the decoded payload |
| Jwt.ExpiryBoundary | config/jwt.php:126-128 | a token is accepted up to 30 s after its `exp` and refused one second later |
| Jwt.FutureBoundary | config/jwt.php:131-138 | an `nbf` or `iat` up to 30 s in the future is accepted; one more second is refused, with the error of that claim |
| Jwt.AbsentClaimsUnchecked | config/jwt.php:126-138 | a payload without `exp`, `nbf` and `iat` passes every clock rule |
| Jwt.GenerateVerifies | config/jwt.php:27-141 | a token from generate verifies to the stamped claims anywhere from 30 s before its issue time to 30 s after its expiry, when json_decode reads back what json_encode wrote and a caller-set `nbf` has been reached |
| Jwt.StampedChecked | config/jwt.php:96-140 | the header and stamped claims of an issued token pass the algorithm, payload and clock checks |
| Jwt.CompactVerified | config/jwt.php:84-111 | on an issued token, verify goes past the prefix and format checks straight to the checks on the segments |
| Jwt.StampPassesTimeCheck | config/jwt.php:121-138 | the stamped `iat` and `exp` pass the clock rules throughout the window, and so does an `nbf` that has been reached (see also config/jwt.php:34-35) |
| Jwt.ValidTokenShape | config/jwt.php:79-86 | token text with three segments is truthy, has no "Bearer " prefix and is unchanged by trim() (see also config/jwt.php:157) |
| Jwt.ThreeSegmentsTruthy | config/jwt.php:79-81 | a text that splits into three parts is never empty to PHP |
| Jwt.TokenTextUntouched | config/jwt.php:84-86 | non-empty token text is unchanged by the "Bearer " strip and by trim() (see also config/jwt.php:157) |
| Jwt.LastHeaderWins | config/jwt.php:59-65 | a header is found exactly when some header has that name in lower case; after array_change_key_case, the value found is the last such header's |
| Jwt.AuthorizationHeader | config/jwt.php:46-69 | a non-empty HTTP_X_AUTH_TOKEN wins, then a non-empty REDIRECT_HTTP_X_AUTH_TOKEN; any value returned comes from one of them or from an X-Auth-Token header in any case |
| Jwt.HeaderNameCaseInsensitive | config/jwt.php:62-63 | respelling a header name in another case does not change the lookup |
| Jwt.AuthenticatedUser | config/jwt.php:147-162 | runs `verify` as written on the trimmed header token; the claims returned are always an array, and every failure returns null |
| Jwt.AuthenticatedUserVerified | config/jwt.php:147-162 | claims are returned exactly when the header is present and `verify()` accepts its trimmed value, and they are then the payload `verify()` returns |
| Jwt.AuthenticatedUserCanonical | config/jwt.php:147-162 | the same lookup with the canonical signature comparison of Findings; the claims returned are always an array |
| Jwt.CanonicalAuthenticatedNarrows | config/jwt.php:147-162 | every user the canonical lookup admits is admitted by the code as written, with the same claims |
| Jwt.RequireAuth | config/jwt.php:171-181 | the guard admits exactly when there are truthy claims, and then returns those claims; otherwise it stops with 401, never with 403 |
| Jwt.IsAdminStrict | config/jwt.php:189-191 | a user is an admin exactly when role is 'admin' or is_admin is the integer 1 or true; the string "1" and the role 'Admin' do not count |
| Jwt.IsAdmin | config/jwt.php:189-191 | the admin test of requireAdmin: role strictly 'admin', or is_admin strictly the integer 1 or true; Jwt.IsAdminStrict and Users.PayloadAdmin state which payloads pass |
| Jwt.RequireAdmin | config/jwt.php:186-200 | requireAuth's 401 comes first; after it, the guard admits exactly the admins with the same claims, and stops everyone else with 403 |
| Jwt.VerifyAcceptsAlteredSignature | config/jwt.php:103-113 | for an HMAC whose length is 2 (mod 3), a second, different signature segment verifies with the same result as the issued one (see also config/jwt.php:206-208) |
| Jwt.OneBitApart | config/jwt.php:202-208 | in the base64url alphabet 'A' stands for 0 and 'C' for 2; their codes 0x41 and 0x43 differ in one bit |
| Jwt.SegmentsVerified | config/jwt.php:84-111 | on three URL-safe segments, verify compares the decoded signature, and the corrected check compares the segment text |
| Jwt.CanonicalImpliesVerified | config/jwt.php:77-141 | the corrected check only narrows verify: anything it accepts, verify accepts with the same claims |
| Jwt.VerifiedCanonical | config/jwt.php:103-113 | the corrected check of the signature Findings row: the third segment must be exactly the base64url encoding of the expected HMAC; Jwt.CanonicalImpliesVerified, Jwt.CanonicalSignatureUnique and Jwt.GenerateVerifiesCanonical state that it only narrows verify, accepts one segment per header and payload, and still accepts issued tokens |
| Jwt.CanonicalSignatureUnique | config/jwt.php:103-113 | under the corrected check, any signature segment other than the canonical encoding is refused |
| Jwt.GenerateVerifiesCanonical | config/jwt.php:27-141 | tokens from generate pass the corrected check too, under the same conditions as GenerateVerifies |
| Base64Url.StdValue | config/jwt.php:206-208 | the decoder's value of a character is a sextet or -1 for a skipped character, and a sextet value names the character back |
| Base64Url.StdValueOfChar | config/jwt.php:202-208 | each sextet's standard character decodes back to that sextet |
| Base64Url.SextetsOf | config/jwt.php:203 | three bytes give four sextets, and a final one or two bytes give two or three |
| Base64Url.UrlEncodeIsUrlChars | config/jwt.php:202-204 | rtrim('=') removes exactly the padding: base64UrlEncode is the URL-safe characters of the sextets |
| Base64Url.UrlEncodeAlphabet | config/jwt.php:202-204 | base64UrlEncode outputs only `A-Z a-z 0-9 - _`, never '+', '/' or '=', one character per sextet |
| Base64Url.SextetsOfStdChars | config/jwt.php:206-208 | the decoder reads the standard characters of some sextets back as those sextets |
| Base64Url.DecodeSextetsOf | config/jwt.php:202-208 | joining the sextets of some bytes gives the bytes back |
| Base64Url.UrlDecodeUrlChars | config/jwt.php:206-208 | base64UrlDecode of the URL-safe characters of some sextets decodes those sextets |
| Base64Url.UrlRoundTrip | config/jwt.php:202-208 | base64UrlDecode(base64UrlEncode(b)) == b for all bytes |
| Base64Url.UrlValueOfChar | config/jwt.php:206-208 | each URL-safe character stands, after strtr, for its own sextet |
| Base64Url.SkippedCharIgnored | config/jwt.php:206-208 | appending a character the non-strict decoder skips leaves the decoded bytes unchanged |
| Base64Url.LowBitsIgnored | config/jwt.php:206-208 | after 2 (mod 4) sextets, only the top four bits of the last sextet reach the output |
| Base64Url.SextetsOfLast | config/jwt.php:203 | bytes numbering 2 (mod 3) end in a sextet with its two low bits clear |
| Base64Url.BumpLastChars | config/jwt.php:202-208 | raising the last character by two places raises the last sextet by two and changes the text, and the new character is URL-safe |
| Base64Url.LastCharMalleable | config/jwt.php:202-208 | for bytes numbering 2 (mod 3), the encoding with its last character moved two places on is a different URL-safe string that decodes to the same bytes |
| Base64Url.MalleableSextets | config/jwt.php:206-208 | the same on sextets: a last sextet with its low bits clear can gain 2 without changing the decoded bytes |
| Response.Success | config/response.php:41-48 | the body has `success: true`, a `message` exactly when one is given and a `data` exactly when it is non-null, and nothing else; the status is the one given |
| Response.Error | config/response.php:50-59 | the body has `success: false`, the message, and `errors` exactly when they are non-null, and nothing else; the status is the one given |
| Response.SuccessIsNotError | config/response.php:41-59 | a success body never equals an error body; the default statuses are 200 and 400 |
| Response.CeilDiv | config/response.php:69 | `(int) ceil($total / $perPage)` is the least r with total <= r * perPage (mirrored for a negative page size) |
| Response.Paginated | config/response.php:61-73 | a page size of 0 is the DivisionByZeroError; otherwise the reply is 200 with exactly `success: true`, the items as `data`, and a pagination object with exactly total, page, per_page, total_pages and has_more, where `total_pages` is the least number of pages that holds every item and `has_more` is true exactly when the page lies before the last one |
| Response.HasMoreBeforeLastPage | config/response.php:69-70 | with a positive page size, `has_more` holds exactly when the page comes before `total_pages` |
| Response.TotalPagesLeast | config/response.php:69 | `total_pages` is the least page count that holds every item |
| Response.RuleBound | config/response.php:131-138 | `min:` / `max:` match only when the rest of the rule is a non-empty run of digits, and then yield that run |
| Response.RuleBoundOf | config/response.php:131-138 | a prefix followed by digits matches and yields those digits |
| Response.CheckRule | config/response.php:123-149 | email passes exactly when filter_var accepts the string; min and max fail exactly when the length is below or above the bound; username fails exactly when the pattern does not match; an array value is a TypeError for the length and pattern rules |
| Response.BlankValue | config/response.php:111-121 | a null or '' value is refused with the 'required' message exactly when the rules contain required, and passes otherwise |
| Response.LastFailureWins | config/response.php:109-150 | on a non-blank value each failing rule overwrites the field's error, so the last failing rule decides the message |
| Response.NonBlankPasses | config/response.php:109-150 | a non-blank value passes exactly when every one of its rules passes |
| Response.NeverCleared | config/response.php:109-150 | an error recorded for a field is never cleared by a later passing rule |
| Response.Validated | config/response.php:99-156 | a TypeError in some rule is the crash; validation passes exactly when no field has an error; a rejection is the 422 'Doğrulama hatası' error whose `errors` object has one message for each field with an error |
| Response.Verdict | config/response.php:153-156 | validation passes exactly when no field has an error; otherwise the reply is the 422 error with the message 'Doğrulama hatası', `success` false, and an `errors` object holding exactly the failed fields, each with its own message |
| Response.CheckField | config/response.php:109-150 | the step-by-step inner loop, with its break and continue, returns the result of the reference function FieldRules |
| Response.FieldsNext | config/response.php:104-107 | one more pass of the outer loop records that field's outcome on top of the earlier errors |
| Response.CrashIsFinal | config/response.php:104-151 | a TypeError in one field ends validation; no later field changes that |
| Response.Validate | config/response.php:99-157 | the step-by-step validate returns the result of the reference function Validated |
| Response.FieldsIndependent | config/response.php:104-151 | with distinct field names, each field's recorded error is the result of its own rules alone, and only listed fields carry errors |
| Tokens.HexValue | models/Token.php:23 | every lowercase hex digit has a value below 16 that `bin2hex` writes back as the same digit |
| Tokens.HexValueOfDigit | models/Token.php:23 | reading a written hex digit gives its value back |
| Tokens.Bin2Hex | models/Token.php:23 | `bin2hex` writes two lowercase hex digits per byte |
| Tokens.Hex2Bin | models/Token.php:23 | the inverse reading of hex text has half as many bytes as digits |
| Tokens.Hex2BinBin2Hex | models/Token.php:23 | decoding the hex text of any bytes gives those bytes back |
| Tokens.Bin2HexInjective | models/Token.php:23 | different random bytes give different tokens |
| Tokens.NewToken | models/Token.php:23 | a token made from 32 random bytes is 64 lowercase hex digits (see also models/Token.php:79) |
| Tokens.IssueEmailReplaces | models/Token.php:19-34 | after issuing, the new token belongs to the user and expires 24 hours later, the user has no other verification token, and other users' tokens are kept |
| Tokens.IssueEmail | models/Token.php:19-34 | the verification table after createVerificationToken: the user's rows deleted, then the new row expiring 24 hours later; Tokens.IssueEmailReplaces, Tokens.IssuedEmailVerifies and Tokens.ReissueRevokesEmail state what it replaces and what then verifies |
| Tokens.IssueResetReplaces | models/Token.php:75-90 | the same for reset tokens, with a one-hour lifetime and `used` = 0 |
| Tokens.IssueReset | models/Token.php:75-90 | the reset table after createPasswordResetToken: the user's rows deleted, then the new unused row expiring one hour later; Tokens.IssueResetReplaces, Tokens.IssuedResetVerifies and Tokens.ReissueRevokesReset state what it replaces and what then verifies |
| Tokens.IssuedEmailVerifies | models/Token.php:19-54 | a freshly issued verification token names its user until it expires, and nobody after that |
| Tokens.EmailOwner | models/Token.php:39-45 | the SELECT of verifyEmailToken: the owner of a present token whose expiry lies after now, else none; Tokens.IssuedEmailVerifies, Tokens.EmailSingleUse and Tokens.CleanupKeepsVerdicts state when it names a user |
| Tokens.IssuedResetVerifies | models/Token.php:75-107 | a freshly issued reset token names its user until it expires, and nobody after that |
| Tokens.ResetOwner | models/Token.php:95-106 | the SELECT of verifyPasswordResetToken: the owner of a present, unexpired token with used = 0, else none; Tokens.IssuedResetVerifies, Tokens.MarkedResetRejected and Tokens.MarkUsedOthers state when it names a user |
| Tokens.ReissueRevokesEmail | models/Token.php:19-21 | issuing a new verification token makes the user's earlier one fail |
| Tokens.ReissueRevokesReset | models/Token.php:75-77 | issuing a new reset token makes the user's earlier one fail |
| Tokens.EmailSingleUse | models/Token.php:39-54 | a verification token that was accepted once is rejected afterwards |
| Tokens.EmailRejectedUnchanged | models/Token.php:39-48 | a rejected verification token deletes nothing |
| Tokens.MarkedResetRejected | models/Token.php:95-115 | a reset token marked used is rejected from then on |
| Tokens.MarkUsedOthers | models/Token.php:112-115 | marking one reset token leaves every other token's verdict as it was |
| Tokens.CleanupExact | models/Token.php:128-131 | cleanup keeps exactly the tokens whose expiry is not before now, unchanged |
| Tokens.CleanupKeepsVerdicts | models/Token.php:128-131 | cleanup never changes whether a token is accepted at the same or a later time |
| Tokens.IssueKeepsOnePerUser | models/Token.php:19-34 | issuing keeps the invariant of at most one token of each kind per user (see also models/Token.php:75-90) |
| Tokens.RemovalKeepsOnePerUser | models/Token.php:39-131 | consuming, marking and cleaning up keep that invariant |
| Tokens.TokenStore.DeleteVerificationToken | models/Token.php:59-62 | exactly the given verification token is deleted |
| Tokens.TokenStore.DeleteVerificationTokens | models/Token.php:67-70 | all of the user's verification tokens are deleted, and nothing else |
| Tokens.TokenStore.DeletePasswordResetTokens | models/Token.php:120-123 | all of the user's reset tokens are deleted, and nothing else |
| Tokens.TokenStore.CreateVerificationToken | models/Token.php:19-34 | returns the 64-digit token and stores it as the user's only verification token, valid for 24 hours |
| Tokens.TokenStore.VerifyEmailToken | models/Token.php:39-54 | returns the owner of an unexpired token and deletes it; otherwise false, with nothing changed |
| Tokens.TokenStore.CreatePasswordResetToken | models/Token.php:75-90 | returns the token and stores it as the user's only reset token, valid for one hour |
| Tokens.TokenStore.VerifyPasswordResetToken | models/Token.php:95-107 | returns the owner exactly when the token exists, has not expired and is unused; nothing changes |
| Tokens.TokenStore.MarkPasswordResetUsed | models/Token.php:112-115 | sets `used` = 1 on that token and changes nothing else |
| Tokens.TokenStore.CleanupExpired | models/Token.php:128-131 | deletes the expired tokens of both tables |
| Posts.TurkishFold | models/Post.php:507-513 | the twelve Turkish letters become their ASCII base letter; every other character is kept |
| Posts.Transliterate | models/Post.php:513 | `strtr` with the Turkish map changes characters one for one, keeping the length (see also models/Post.php:539) |
| Posts.StripNonSlug | models/Post.php:541 | removing everything outside `[a-z0-9]` leaves only slug characters and never lengthens the text |
| Posts.StripNonSlugNoop | models/Post.php:541 | text already made of slug characters is unchanged |
| Posts.DropNonSlug | models/Post.php:515 | the characters skipped before the next slug character form a prefix, and what remains starts with a slug character or is empty |
| Posts.HyphenateShape | models/Post.php:515 | after `preg_replace('/[^a-z0-9]+/', '-')` only slug characters and single hyphens remain, and a leading slug character is kept |
| Posts.HyphenateStart | models/Post.php:515 | text starting with a slug character still starts with it after the replacement |
| Posts.HyphenateDashed | models/Post.php:515 | the replacement produces only slug characters and hyphens |
| Posts.HyphenateNoDouble | models/Post.php:515 | a run of other characters becomes exactly one hyphen, so two hyphens are never adjacent |
| Posts.HyphenateSlugPrefix | models/Post.php:515 | a prefix of slug characters passes through the replacement unchanged |
| Posts.SliceNoDoubleHyphen | models/Post.php:517 | a slice of text without adjacent hyphens has none either |
| Posts.Take | models/Post.php:517 | `substr($text, 0, 50)` is a prefix of at most 50 characters |
| Posts.Suffix | models/Post.php:519 | `substr(uniqid(), -6)` is the last six characters of the id |
| Posts.SlugStemShape | models/Post.php:513-516 | after folding, replacing and trimming, the stem uses only slug characters and single hyphens and has no hyphen at either end |
| Posts.TrimShape | models/Post.php:516 | `trim($text, '-')` keeps the alphabet and the single hyphens, and leaves no hyphen at either end |
| Posts.TakeShape | models/Post.php:517 | cutting to 50 characters keeps the alphabet and the single hyphens |
| Posts.SlugBaseShape | models/Post.php:513-517 | the slug base as written is at most 50 characters of slug characters and single hyphens, not starting with a hyphen |
| Posts.SlugShape | models/Post.php:506-520 | the slug is the base, one hyphen and the last six characters of the unique id |
| Posts.GenerateSlug | models/Post.php:506-520 | generateSlug as written, the base, a dash and the last six characters of uniqid(); Posts.SlugShape states its shape and Posts.SlugDoubleHyphenAsWritten the input that gives `--` |
| Posts.SlugDoubleHyphenAsWritten | models/Post.php:516-519 | 49 letters, a space and a letter give a base ending in a hyphen, so the slug as written contains "--" |
| Posts.SlugBaseCut | models/Post.php:513-517 | for that input the 50-character cut ends exactly at the hyphen |
| Posts.SlugStemOneGap | models/Post.php:513-516 | letters, one space and a letter give the letters, one hyphen and the letter |
| Posts.SlugBaseTrimmedLastShape | models/Post.php:513-517 | with the hyphens trimmed after the cut, the base is at most 50 characters with no hyphen at either end and none doubled |
| Posts.SlugTrimmedLastNoDoubleHyphen | models/Post.php:506-520 | the corrected slug never contains "--" for any text |
| Posts.JoinNoDoubleHyphen | models/Post.php:519 | joining a base without a trailing hyphen to slug characters with one hyphen adds no "--" |
| Posts.NormalizeTag | models/Post.php:535-542 | one element fails with a TypeError exactly when it is an array; a kept tag is non-empty slug characters and not "0" |
| Posts.LooseTagExamples | models/Post.php:543 | the loose `in_array` counts "1", "01" and "1e0" as one tag, but "a1" and "1a" as two |
| Posts.CollectWellFormed | models/Post.php:534-548 | the collected tags are valid and pairwise loosely distinct |
| Posts.NormalizedWellFormed | models/Post.php:525-548 | normalizeTags returns valid, loosely distinct tags |
| Posts.NormalizedTags | models/Post.php:525-548 | normalizeTags over a list of elements; Posts.NormalizedWellFormed, Posts.CrashIffArray, Posts.CollectFirstOccurrences and Posts.NormalizeIdempotent state that the tags are valid and loosely distinct, that an array element is the TypeError, that first occurrences are kept in order, and that a second pass changes nothing |
| Posts.CrashIffArray | models/Post.php:535-536 | normalizeTags raises a TypeError exactly when some element is itself an array |
| Posts.CollectPrefix | models/Post.php:534-546 | the tags collected from a prefix of the input are a prefix of the result |
| Posts.CollectRepresents | models/Post.php:543-545 | every tag an element produces is already in the result, up to loose equality |
| Posts.EveryTagRepresented | models/Post.php:525-548 | every input element that yields a tag is represented in the result |
| Posts.FirstOccurrences | models/Post.php:534-548 | each result tag comes from the first element that yields it, in input order |
| Posts.CollectFirstOccurrences | models/Post.php:534-548 | the loop keeps first occurrences, in order |
| Posts.NormalizeTagNoop | models/Post.php:536-542 | a valid tag is unchanged by the loop body |
| Posts.SlugTrimNoop | models/Post.php:536 | `trim` leaves slug characters unchanged |
| Posts.SlugFoldNoop | models/Post.php:539-540 | `strtr` and `strtolower` leave slug characters unchanged |
| Posts.CollectFixpoint | models/Post.php:534-548 | collecting valid, loosely distinct tags gives them back |
| Posts.NormalizedFixpoint | models/Post.php:525-548 | normalizeTags returns valid, loosely distinct tags unchanged |
| Posts.NormalizeIdempotent | models/Post.php:525-548 | normalizing tags that were already normalized changes nothing |
| Posts.NormalizeTags | models/Post.php:525-548 | a scalar gives `[]`; a list gives the loop's result; an element that is an array is a failure |
| Posts.KeptImages | models/Post.php:35-37 | the image filter keeps exactly the string elements that are not blank after trim |
| Posts.ProcessedRowKeys | models/Post.php:20-71 | the processed row has the fetched columns plus images, tags and the six counters |
| Posts.ProcessedRowImages | models/Post.php:28-41 | images is always a list of non-blank strings; it is empty when the column is null or missing or does not decode to an array; otherwise it holds exactly the kept elements of the decoded array, whether that is a JSON list or a JSON object |
| Posts.ProcessedRowTags | models/Post.php:46-47 | tags is the decoded array, or `[]` when the decode is not an array |
| Posts.ProcessedRowCounts | models/Post.php:52-57 | each counter is the `(int)` cast of the column, and 0 when the column is missing or null |
| Posts.FlagsKeep | models/Post.php:62-68 | the boolean casts touch only the two flags |
| Posts.CastCountsAt | models/Post.php:52-57 | each count column is the `(int)` cast of its value |
| Posts.ProcessedRowRest | models/Post.php:62-70 | a present flag becomes its truthiness; every other column is kept |
| Posts.ProcessPost | models/Post.php:20-71 | no row or an empty row gives null; otherwise the processed row, built step by step: images from a decoded list or object, then tags, then the six casts, then the two flags |
| Posts.PairCountAdd | models/Post.php:96-108 | a new star or repost raises the post's count by one; a duplicate leaves it unchanged (see also models/Post.php:275-291) |
| Posts.PairCountRemove | models/Post.php:296-313 | removing a present star or repost lowers the post's count by one; otherwise it is unchanged |
| Posts.PairCountOther | models/Post.php:96-108 | stars and reposts on other posts do not change this post's counts |
| Posts.SoftDeleteRules | models/Post.php:208-216 | only the named post can change; it is marked deleted when the caller is an admin or its owner, and nothing else about it changes |
| Posts.Viewed | models/Post.php:364-367 | the view count of the named post goes up by one; other posts are unchanged |
| Posts.PostStore.Star | models/Post.php:275-291 | `INSERT IGNORE`: true exactly when the star is new; the star count goes up by one exactly then |
| Posts.PostStore.Unstar | models/Post.php:296-313 | true exactly when the star was there; the star count goes down by one exactly then |
| Posts.PostStore.Repost | models/Post.php:319-335 | true exactly when the repost is new; the repost count goes up by one exactly then |
| Posts.PostStore.UndoRepost | models/Post.php:341-358 | true exactly when the repost was there; the repost count goes down by one exactly then |
| Posts.PostStore.Delete | models/Post.php:208-216 | the soft delete above; the UPDATE reports success even when no row matches |
| Posts.PostStore.IncrementViews | models/Post.php:364-367 | views_count + 1 on the row, if there is one |
| Posts.PostStore.FindById | models/Post.php:129-137 | finds the post exactly when it exists and is not deleted |
| Posts.PostStore.FindBySlug | models/Post.php:142-157 | finds a live post with that slug and counts a view on it; when none exists, null with nothing changed |
| PostsApi.DropFalsy | api/posts.php:54 | `array_values(array_filter(...))` keeps exactly the segments PHP does not treat as empty, in order |
| PostsApi.DropFalsyNoop | api/posts.php:54 | a list without empty segments is unchanged by the filter |
| PostsApi.PathSegments | api/posts.php:50-54 | no segment is empty or "0", and none holds a '/' |
| PostsApi.RouteParts | api/posts.php:63-72 | resource, action, param and subParam are segments, and each is present only when the one before it is |
| PostsApi.ParsePath | api/posts.php:53-72 | after a leading "api" or "v1" segment the route starts at the next segment; otherwise at the first |
| PostsApi.ParseRoute | api/posts.php:63-72 | `$baseIndex` and the four segments from it; PostsApi.ParsePath and PostsApi.RouteParts state the shift after "api" or "v1" and that a later part exists only after the earlier ones |
| PostsApi.GetRouteSlugs | api/posts.php:96-171 | GET reads a single post exactly when the action is truthy and not reserved (with comments when the param is 'comments'), the user listings when the action is 'user' with a param, and the feed otherwise |
| PostsApi.Count | api/posts.php:240-244 | `count()` has a value exactly for an array |
| PostsApi.CreateLimits | api/posts.php:238-246 | creation proceeds exactly when the content is non-empty, there are at most 3 images and at most 5 tags; every refusal is a 422, empty content first |
| PostsApi.CreateVerdict | api/posts.php:238-246 | the three guards of POST /post in order, with `count()` of a scalar as the TypeError; PostsApi.CreateLimits states exactly when creation proceeds and that every refusal is a 422 |
| PostsApi.StripInline | api/posts.php:262 | removing everything outside `[a-z0-9_-]` leaves only those characters |
| PostsApi.InlineTag | api/posts.php:259-265 | one element fails with a TypeError exactly when it is an array; a kept tag is non-empty and uses only `[a-z0-9_-]` |
| PostsApi.TagsOfAppend | api/posts.php:259-266 | the tags of two runs of elements are the tags of each, one after the other |
| PostsApi.InlineCollectAll | api/posts.php:259-266 | the loop fails exactly when some element fails, and otherwise keeps every produced tag in order |
| PostsApi.TagsOfShape | api/posts.php:259-266 | every tag the loop keeps is non-empty and uses only `[a-z0-9_-]` |
| PostsApi.InlineTagsShape | api/posts.php:249-267 | the endpoint's tags are well formed, and for an array they are the loop's tags |
| PostsApi.InlineKeepsRepeats | api/posts.php:263-265 | the endpoint's own loop keeps a repeated tag twice; only the later normalizeTags pass in create and update removes it |
| PostsApi.CollectTwice | api/posts.php:263-265 | two equal tags are both collected |
| PostsApi.InlineCrash | api/posts.php:250-260 | the endpoint's tag loop fails exactly when the tags are an array that holds an array |
| PostsApi.NormalizeInlineTags | api/posts.php:249-267 | the foreach computes the endpoint's tag list |
| PostsApi.DeleteGuardMatchesModel | api/posts.php:367-371 | the endpoint's owner-or-admin guard agrees with the model's soft-delete rule on a live post (see also models/Post.php:208-216) |
| PostsApi.Find | api/posts.php:141 | findBySlug with the segment: a live post with that slug, with one view counted, or null with nothing changed (see also api/posts.php:181) |
| PostsApi.StarBySlug | api/posts.php:180-192 | an unknown slug is a 404; otherwise the star is added, the count goes up by one exactly when it was new, and the reply carries the new count, `is_starred` true and the matching message |
| PostsApi.RepostBySlug | api/posts.php:195-211 | an unknown slug is a 404; reposting one's own post is a 400 with nothing added; otherwise the repost is added and the reply carries the new count and the matching message |
| PostsApi.MayRepost | api/posts.php:199-201 | the own-repost guard: a user may repost only a post by someone else; PostsApi.RepostBySlug states the 400 it gives |
| PostsApi.CommentBySlug | api/posts.php:214-231 | an unknown slug is a 404; empty content is a 422; otherwise a comment on that post by the caller, with the given parent |
| PostsApi.CreatePost | api/posts.php:235-279 | the creation limits decide a refusal; otherwise the new post gets the caller, the title or null, the content, the images or `[]`, and the endpoint's tags |
| PostsApi.EditBySlug | api/posts.php:287-332 | missing slug 400, unknown slug 404, someone else's post 403, empty content 422; otherwise the update with the endpoint's tags |
| PostsApi.DeleteBySlug | api/posts.php:337-373 | missing slug 400, unknown slug 404; 'star' and 'repost' remove the caller's star or repost and report the new count; otherwise the owner or an admin soft-deletes the post, and anyone else gets 403 |
| PostsApi.Get | api/posts.php:96-171 | listings go to the model calls; a single post with an unknown slug is a 404 naming the slug; otherwise the post or its comments, with one view counted |
| PostsApi.Handle | api/posts.php:12-377 | OPTIONS is answered with a bare 200 and nothing changed; any other unknown method is a 405; writes without a session are 401 with nothing changed; otherwise GET ends in the outcome of Get, POST on star, repost and comments in that of StarBySlug, RepostBySlug and CommentBySlug, POST with no slug in that of CreatePost, POST to a slug with any other action in a 404 with nothing changed, PUT in that of EditBySlug and DELETE in that of DeleteBySlug; only the star and repost routes change stars and reposts |
| Follows.CountsAfterAdd | models/Follow.php:28-40 | inserting a follow raises the follower's outgoing and the followed user's incoming count by one when it is new, and changes no other count |
| Follows.OutgoingAfterAdd | models/Follow.php:28-36 | the outgoing half of that |
| Follows.IncomingAfterAdd | models/Follow.php:28-40 | the incoming half of that |
| Follows.CountsAfterRemove | models/Follow.php:58-71 | deleting a follow lowers both counts by one when it was there, and changes no other count |
| Follows.OutgoingAfterRemove | models/Follow.php:58-67 | the outgoing half of that |
| Follows.IncomingAfterRemove | models/Follow.php:58-71 | the incoming half of that |
| Follows.Followed | models/Follow.php:34-40 | the counter updates touch no user who is not in the table |
| Follows.Unfollowed | models/Follow.php:65-71 | the same for the `GREATEST(... - 1, 0)` updates |
| Follows.FollowKeepsConsistent | models/Follow.php:20-49 | a new follow keeps `following_count` and `followers_count` equal to the rows of `follows` |
| Follows.UnfollowKeepsConsistent | models/Follow.php:54-83 | removing a follow keeps the counters equal to the rows |
| Follows.CountersStayNonNegative | models/Follow.php:35-71 | the counters never become negative |
| Follows.FloorAtZero | models/Follow.php:66-71 | `GREATEST(x - 1, 0)` leaves a counter at 0 instead of going below |
| Follows.FollowStore.Follow | models/Follow.php:20-49 | following oneself throws; otherwise true and both counters raised exactly when the follow is new; a duplicate is false with nothing changed; consistency is kept |
| Follows.FollowStore.Unfollow | models/Follow.php:54-83 | true exactly when the follow existed, which is then removed with both counters lowered; otherwise nothing changes; consistency is kept |
| Follows.FollowStore.IsFollowing | models/Follow.php:88-95 | true exactly when the follow row exists |
| Follows.FollowStore.FollowersCount | models/Follow.php:152-156 | the number of follow rows pointing at the user, which equals the stored counter when the table is consistent |
| Comments.TopLevel | models/Comment.php:37-60 | exactly the live comments on the post that have no parent |
| Comments.Replies | models/Comment.php:68-79 | exactly the live comments whose parent is the given comment |
| Comments.Thread | models/Comment.php:34-63 | one entry per top-level comment of the post |
| Comments.ThreadShape | models/Comment.php:34-79 | nothing deleted is listed, every reply's parent is the comment it is listed under, and a reply is never top-level nor listed under another comment |
| Comments.Bumped | models/Comment.php:103-104 | the increment touches no post outside the table |
| Comments.Dropped | models/Comment.php:139-140 | the floored decrement touches no post outside the table |
| Comments.LiveAfterInsert | models/Comment.php:88-104 | a new live comment adds one to its post's live count and nothing to other posts |
| Comments.LiveAfterSoftDelete | models/Comment.php:129-140 | soft-deleting a live comment takes one from its post's live count and nothing from other posts |
| Comments.CreateKeepsConsistent | models/Comment.php:84-113 | create keeps every `comments_count` equal to the post's live comments |
| Comments.DeleteKeepsConsistent | models/Comment.php:118-152 | delete keeps every `comments_count` exact, so the floor at 0 is never reached |
| Comments.LiveTotalSteps | models/Comment.php:84-175 | a created comment adds one to getCount(), and a soft deletion takes one away |
| Comments.CommentStore.FindById | models/Comment.php:20-29 | finds the row exactly when it exists and is not deleted |
| Comments.CommentStore.Create | models/Comment.php:84-113 | a rejected INSERT is rethrown with nothing changed; otherwise the row gets the next id, the post's counter goes up by one, and consistency is kept |
| Comments.CommentStore.Delete | models/Comment.php:118-152 | true exactly when the comment is live and the caller is an admin or its author; the row is then soft-deleted and the counter lowered; otherwise nothing changes |
| Comments.MayDelete | models/Comment.php:129-134 | the two UPDATEs of delete: an admin deletes any comment and anyone else only their own; Comments.CommentStore.Delete states that the result and the soft delete follow it |
| Comments.CommentStore.GetCount | models/Comment.php:172-175 | the number of live comments |
| Comments.CommentStore.GetByPostId | models/Comment.php:34-63 | the top-level comments with their replies, and their number as the total |
| Messages.Sorted | models/Message.php:21-22 | `sort()` on two ids gives them in ascending order, the same two ids |
| Messages.Pair | models/Message.php:21-29 | a conversation row holds its two users in ascending order |
| Messages.PairSymmetric | models/Message.php:20-22 | the order of the two users does not matter |
| Messages.SameConversation | models/Message.php:19-43 | in a table of canonical pairs, (a, b) and (b, a) find the same conversation |
| Messages.InsertKeepsCanonical | models/Message.php:37-42 | inserting a new sorted pair keeps pairs sorted and unique |
| Messages.View | models/Message.php:48-62 | a row only for a participant; `other_user_id` is the other participant |
| Messages.OtherIsNotSelf | models/Message.php:51 | between two different users, the other participant is never the user asking |
| Messages.IdsUpTo | models/Message.php:130-139 | the listed ids are messages of the conversation |
| Messages.IdsUpToOrdered | models/Message.php:130-139 | the ids increase, and every message of the conversation is listed |
| Messages.AppendAscending | models/Message.php:130-139 | appending a larger id keeps the ids increasing |
| Messages.Reverse | models/Message.php:147 | `array_reverse` puts element i at position n-1-i |
| Messages.Window | models/Message.php:136 | `LIMIT ? OFFSET ?` returns at most `limit` rows |
| Messages.OldestFirstIsSlice | models/Message.php:128-147 | a page taken newest first and then reversed is one contiguous run of the conversation, oldest first |
| Messages.ReversedWindow | models/Message.php:136-147 | reversing, windowing and reversing again takes a slice counted from the end |
| Messages.PageAscends | models/Message.php:121-150 | every page is in increasing id order and holds only messages of that conversation |
| Messages.PageOrdered | models/Message.php:121-150 | every page is in increasing id order |
| Messages.PageMembers | models/Message.php:121-150 | every page holds only messages of that conversation |
| Messages.SliceMembers | models/Message.php:136 | a slice holds only elements of the whole |
| Messages.SliceAscends | models/Message.php:136 | a slice of increasing ids is increasing |
| Messages.FirstPageIsAll | models/Message.php:121-150 | when the conversation fits on the first page, that page is the whole conversation |
| Messages.MarkedRead | models/Message.php:193-201 | exactly the unread messages that others sent in the conversation become read; nothing else changes |
| Messages.MarkedReadLeavesNone | models/Message.php:193-201 | afterwards nothing is unread for the user there, so a second call returns 0 |
| Messages.MarkedReadKeepsOthers | models/Message.php:193-201 | the unread counts of other conversations are unchanged |
| Messages.MarkedReadKeepsContents | models/Message.php:193-201 | only the read flag of a row can change |
| Messages.Listed | models/Message.php:261-313 | exactly the user's conversations without a hidden row for the user |
| Messages.HideUnhideListing | models/Message.php:233-313 | hiding removes the conversation from the user's list only, and unhiding brings it back |
| Messages.FilteredWithinAll | models/Message.php:67-116 | the filtered list is part of the full list, so its total is never larger (see also models/Message.php:261-313) |
| Messages.BadgeAfterMarkAsRead | models/Message.php:193-216 | markAsRead in one of the user's conversations takes exactly the changed rows off the unread badge; elsewhere it leaves the badge alone |
| Messages.MessageStore.GetOrCreateConversation | models/Message.php:19-43 | returns the id of the sorted pair's conversation, which is created only when it is missing |
| Messages.MessageStore.GetConversation | models/Message.php:48-62 | the participant's view of the conversation, or nothing |
| Messages.MessageStore.GetMessages | models/Message.php:121-150 | null for a non-participant; a negative LIMIT or OFFSET is an SQL error; otherwise the page oldest first, the conversation's message count and the conversation |
| Messages.MessageStore.GetConversations | models/Message.php:67-116 | the user's conversations and their number |
| Messages.MessageStore.GetConversationsFiltered | models/Message.php:261-313 | the user's conversations that the user did not hide, and their number |
| Messages.MessageStore.GetMessageById | models/Message.php:179-188 | the message with that id, deleted or not, or nothing |
| Messages.MessageStore.GetUnreadCount | models/Message.php:206-216 | the number of unread messages that others sent in the user's conversations |
| Messages.MessageStore.Send | models/Message.php:155-174 | the message is appended, unread and not deleted, to the pair's conversation and its id is returned; an existing pair's conversation is reused with the table unchanged, and a missing one is created under the next id as the only new entry |
| Messages.MessageStore.MarkAsRead | models/Message.php:193-201 | returns the number of rows it changed and marks exactly those read |
| Messages.MessageStore.DeleteMessage | models/Message.php:221-228 | true exactly when the message is the user's own and not yet deleted; it is then soft-deleted, and otherwise nothing changes |
| Messages.MessageStore.HideConversation | models/Message.php:233-245 | false for a non-participant; otherwise hidden for the user, and hiding twice is hiding once |
| Messages.MessageStore.UnhideConversation | models/Message.php:250-256 | true exactly when a hidden row was deleted; there is no participant check |
| Users.LoginFor | models/User.php:103-115 | a banned user gets 'banned' whatever the password; otherwise the id exactly when the password verifies, and false when it does not |
| Users.BanBeforePassword | models/User.php:108-110 | for a banned user the answer does not depend on the password, so it reveals nothing about it |
| Users.AuthPayload | models/User.php:121-138 | the payload has exactly the seven public columns, never the password, with the user's id and role |
| Users.PayloadAdmin | models/User.php:134 | a token made from the payload passes the admin check exactly when the user's role is 'admin' (see also config/jwt.php:189-191) |
| Users.StampedPayload | models/User.php:128-137 | once the JWT adds iat and exp, the token still holds no password (see also config/jwt.php:34-35) |
| Users.WithDefaults | models/User.php:274-329 | no settings row, or a falsy stored text, gives the defaults; stored JSON that does not decode to an array is a TypeError |
| Users.WithDefaultsOverrides | models/User.php:281-328 | every default key is present, with the stored value when the stored object has the key and the default otherwise; extra keys come only from the stored object |
| Users.StoredSettingsReadBack | models/User.php:260-294 | an object that is stored, when JSON decoding inverts encoding, is read back merged over the defaults |
| Users.BlockAsWrittenBreaksCounters | models/User.php:177-188 | for a follows b, blocking as written deletes the follow row but leaves the counters, so they no longer match the rows |
| Users.Unfollowed | models/User.php:179-180 | deleting one follow pair, with the counters adjusted, touches no user outside the table |
| Users.Blocked | models/User.php:177-188 | neither follow pair between the two users is left, and no user outside the table is touched |
| Users.BlockedAsWritten | models/User.php:177-188 | blockUser as written: exactly the two follow rows between the users are gone, every other follow row stays, and the counters are unchanged |
| Users.BlockAsWrittenStale | models/User.php:177-188 | from consistent counters, the as-written block keeps them consistent exactly when neither user followed the other |
| Users.UnfollowedKeepsConsistent | models/User.php:179-180 | deleting one follow pair together with its counter updates keeps the counters exact |
| Users.BlockKeepsConsistent | models/User.php:177-188 | blocking with the counter updates keeps every counter equal to the follow rows |
| Users.BlockKeepsNonNegative | models/User.php:177-188 | blocking never makes a counter negative |
| Users.UserStore.VerifyPassword | models/User.php:103-115 | an unknown email gives false; otherwise the login verdict for the user with that email |
| Users.UserStore.GetAuthPayload | models/User.php:121-138 | null exactly for a missing user; otherwise that user's payload |
| Users.UserStore.UpdateUsername | models/User.php:231-240 | throws exactly when another user holds the name, changing nothing; otherwise only that user's name changes |
| Users.UserStore.UpdateEmail | models/User.php:245-255 | throws exactly when another user holds the address; otherwise the address changes and `is_verified` goes back to 0 |
| Users.UserStore.GetNotificationSettings | models/User.php:274-294 | the notification defaults merged with the stored column |
| Users.UserStore.GetPrivacySettings | models/User.php:312-329 | the privacy defaults merged with the stored column |
| Users.UserStore.UpdateNotificationSettings | models/User.php:260-269 | an upsert of the JSON text into the notification column; the privacy column is kept |
| Users.UserStore.UpdatePrivacySettings | models/User.php:299-307 | an upsert of the JSON text into the privacy column; the notification column is kept |
| Users.UserStore.BlockUser | models/User.php:177-188 | as written: both follow rows between the two users are deleted and the counters are left as they were, the block pair is added once, and users and settings are unchanged |
| Users.UserStore.UnblockUser | models/User.php:193-198 | the block row is gone and nothing else changes |
| Users.UserStore.IsBlocked | models/User.php:203-209 | true exactly when that directed block row exists |
| SiteSettings.KeyListsDistinct | models/Settings.php:31-59 | the public, SEO and AdSense lists have 7, 5 and 5 keys, none repeated |
| SiteSettings.All | models/Settings.php:19-26 | the stored key/value pairs, or `[]` when the query throws |
| SiteSettings.Pick | models/Settings.php:70 | null exactly when the key is missing or its value is NULL; otherwise the stored text |
| SiteSettings.ByKeysShape | models/Settings.php:64-74 | the result lists exactly the requested keys, in order, each with its stored value or null; keys outside the list never change it |
| SiteSettings.SetForm | models/Settings.php:79-82 | arrays and objects are JSON-encoded; the value is NULL exactly when it is null |
| SiteSettings.SetThenPick | models/Settings.php:64-90 | after set(k, v), k reads back as v for a string, null for null, the JSON text for an array; other keys are unchanged |
| SiteSettings.SettingsStore.GetAll | models/Settings.php:19-26 | the table, or `[]` when it is missing |
| SiteSettings.SettingsStore.GetByKeys | models/Settings.php:64-74 | the foreach fills in each key with its stored value or null |
| SiteSettings.SettingsStore.GetPublic | models/Settings.php:31-37 | exactly the seven public keys |
| SiteSettings.SettingsStore.GetSeo | models/Settings.php:42-48 | exactly the five SEO keys |
| SiteSettings.SettingsStore.GetAdsense | models/Settings.php:53-59 | exactly the five AdSense keys |
| SiteSettings.SettingsStore.Set | models/Settings.php:79-90 | when the table exists the upsert of the stored form happens and the call returns true; when it is missing the statement throws a PDOException that reaches the caller, with nothing changed; the call never returns false |
| Reports.NewRow | models/Report.php:20-35 | the row has the six columns and the default status; an absent `post_id`, `comment_id`, `user_id` or `description` is stored as null |
| Reports.Filtered | models/Report.php:63-76 | a falsy status means no filter; otherwise exactly the reports with that status |
| Reports.FilteredPartition | models/Report.php:66-71 | a status filter never adds rows, and two different statuses select disjoint rows |
| Reports.Present | models/Report.php:170-177 | exactly the whitelisted columns that are `isset` in the data |
| Reports.Updated | models/Report.php:183-189 | the SET clause adds no column outside the written ones |
| Reports.UpdatedWhitelist | models/Report.php:170-189 | a written column gets the data's value; every other column, `reporter_id` and `reason` included, is kept |
| Reports.CollectPresent | models/Report.php:172-177 | the foreach collects those columns in list order |
| Reports.ReportStore.Create | models/Report.php:20-35 | the new row is stored under the next id, which is returned |
| Reports.ReportStore.GetAll | models/Report.php:63-106 | the filtered reports and their count |
| Reports.ReportStore.GetPendingCount | models/Report.php:141-144 | the number of pending reports |
| Reports.ReportStore.UpdateStatus | models/Report.php:111-119 | status, resolved_by, admin_notes and resolved_at are written together, so notes left out clear the old ones |
| Reports.ReportStore.Update | models/Report.php:166-190 | false with nothing changed exactly when the data sets no whitelisted column; otherwise only those columns change |
| Admin.Selected | api/admin.php:52-62 | with no keys the query returns every row; otherwise exactly the stored rows among the keys |
| Admin.SystemSettings | api/admin.php:47-73 | a missing table gives `[]`; otherwise one entry per selected stored key |
| Admin.SavedForm | api/admin.php:87-88 | a boolean is saved as the text 'true' or 'false'; any other value as Settings::set would store it |
| Admin.SavedStep | api/admin.php:86-90 | one more pass of the save loop is one more key written |
| Admin.BoolRoundTrip | api/admin.php:65-87 | a saved boolean reads back as the same boolean |
| Admin.Converted | api/admin.php:64-68 | the read loop's rewrite of 'true' and 'false' into booleans, anything else kept; Admin.BoolRoundTrip and Admin.StringRoundTrip state the round trips with the saved form |
| Admin.StringRoundTrip | api/admin.php:65-89 | a saved string reads back unchanged unless it is 'true' or 'false', which read back as booleans; null reads back as null |
| Admin.SaveThenRead | api/admin.php:47-91 | after saving, every saved key reads back as its saved form converted, every other stored key as before, and no key appears from nowhere |
| Admin.Saved | api/admin.php:75-91 | the settings table after saveSystemSettings: one upsert of the saved form per key; Admin.SaveThenRead states what every key then reads back as |
| Admin.ConvertStep | api/admin.php:64-68 | one pass of the conversion loop converts exactly one 'true' or 'false' cell |
| Admin.GetSystemSettings | api/admin.php:47-73 | the loop computes the settings read above |
| Admin.SaveSystemSettings | api/admin.php:75-91 | the table is created if missing, and every entry of the data is upserted in its saved form |
| Admin.IndexOf | api/admin.php:106-107 | `array_search` gives the first position of the segment, or false when it is absent |
| Admin.FirstIndex | api/admin.php:106 | a segment not in the prefix is found just after it |
| Admin.PlainParts | api/admin.php:103-104 | a path made of plain segments splits back into them |
| Admin.AdminRouteOfSegments | api/admin.php:106-110 | the endpoint is the segment after the first 'admin' and the param is the one after that, or null |
| Admin.EndpointOf | api/admin.php:106-109 | the segment after the first 'admin' (or 'admin.php'), 'dashboard' when there is none; Admin.AdminRouteOfSegments, Admin.NoAdminSegment and Admin.AdminPhpFallback state its cases |
| Admin.AdminPathRoute | api/admin.php:101-110 | the same, starting from the request path |
| Admin.NoAdminSegment | api/admin.php:109-110 | without 'admin' or 'admin.php' the endpoint is 'dashboard' and there is no param |
| Admin.AdminPhpFallback | api/admin.php:106-107 | 'admin.php' is used only when there is no 'admin' segment |
| Admin.FallbackWider | api/admin.php:119-123 | everyone requireAdmin admits also passes the fallback check, but the fallback also admits `is_admin` "1", which requireAdmin refuses (see also config/jwt.php:186-200) |
| Admin.StrictAdmitted | api/admin.php:120-121 | requireAdmin's check implies the fallback check (see also config/jwt.php:189-191) |
| Admin.StringOneAdmitted | api/admin.php:121 | a payload whose `is_admin` is the string "1" passes only the fallback check (see also config/jwt.php:189-191) |
| Admin.RoleFor | api/admin.php:243-246 | the role is 'admin' exactly when `(int) is_admin` is 1 |
| Admin.ListedIsAdmin | api/admin.php:225 | the listed `is_admin` is 1 exactly for the role 'admin', and 0 otherwise |
| Admin.RoleFlagRoundTrip | api/admin.php:225-246 | writing a 0/1 flag and listing it gives the same flag back, and listing a role and writing it back keeps the role |
| Admin.Changes | api/admin.php:241-257 | with neither field set the answer is 400 'Değişiklik yok'; otherwise exactly the given fields change, the role from the flag and `is_banned` cast to an integer |
| Admin.UserEdit | api/admin.php:236-250 | the corrected self-guard of the admin.php:236-250 Findings row, not the code as written: no id is a 400; someone else's account gets the changes; on one's own account an applied edit can only keep the role 'admin' and the ban at 0 |
| Admin.UserEditAsWritten | api/admin.php:232-257 | PUT users/<id> as written: no id is a 400; someone else's account gets exactly the changes; on one's own account an `is_admin` loosely `== 0` is refused, then an `is_banned` loosely `== 1`, and an applied self-edit carries neither; Admin.SelfDemotionAsWritten and Admin.SelfBanAsWritten show what the loose tests let through |
| Admin.OwnIdText | api/admin.php:236 | an admin's own id, written as the URL segment, matches the admin's id |
| Admin.SelfDemotionAsWritten | api/admin.php:236-246 | as written, `is_admin` "" on one's own account passes the loose `== 0` test and demotes the admin to 'user'; the corrected check refuses it |
| Admin.EmptyFlag | api/admin.php:237-245 | "" is neither `== 0` nor `== 1` in PHP 8, yet it casts to 0 and so to the role 'user' |
| Admin.SelfBanAsWritten | api/admin.php:236-249 | as written, `is_banned` 2 on one's own account passes the `== 1` test and bans the admin; the corrected check refuses it |
| Admin.LooseFlags | api/admin.php:237-238 | a value loosely equal to 0 never casts to 1, and one loosely equal to 1 never casts to 0 |
| Admin.UserEditRefusesMore | api/admin.php:232-257 | the corrected check refuses everything the written one refuses, and whatever it applies is what the written one applies |
| Admin.UserEditAgreesOnFlags | api/admin.php:236-250 | for the 0/1 and boolean flags the client sends, the corrected and the written checks agree |
| Admin.UserDelete | api/admin.php:259-263 | a non-empty id other than one's own is deleted; no id and one's own id are both 400 |
| Admin.NoSelfDelete | api/admin.php:261 | an admin cannot delete their own account |
| Admin.ReportStatus | api/admin.php:351-356 | no status parameter means 'pending', 'all' means no filter, and anything else is used as it is |
| Admin.ReportListing | api/admin.php:350-388 | the listing is the pending reports by default, all reports for 'all' or an empty status, and otherwise exactly the reports with that status (see also models/Report.php:66-71) |
| Admin.ReportEditColumns | api/admin.php:394-407 | a report edit writes exactly the given `status` and `admin_notes`, never `resolved_by`; with neither field it answers 'Değişiklik yok' |
| Admin.ReportEdit | api/admin.php:394-407 | PUT reports/<id>: no id is 400, otherwise the set columns among status and admin_notes are written, or 'Değişiklik yok' with neither; Admin.ReportEditColumns states that no other column is written |
| Admin.SectionOf | api/admin.php:135-455 | an endpoint outside the seven sections is a 404 naming it |
| Admin.SettingsView | api/admin.php:441-442 | the settings page has exactly the section's default keys, each with the stored value when there is one and the default otherwise |
| Admin.SettingsPageAfterSave | api/admin.php:441-450 | after a save, a saved boolean or ordinary string shows on the page as saved, and an unset key shows its default, with the page's keys unchanged (see also api/admin.php:75-91) |
| Admin.SharedPublicKeys | api/admin.php:423-427 | only site_name, site_description and maintenance_mode are both on the admin page and in getPublic (see also models/Settings.php:32-35) |
| Admin.SharedSeoKeys | api/admin.php:429-432 | only meta_title, meta_description, og_image and twitter_card are both on the SEO page and in getSEO (see also models/Settings.php:43-46) |
| Admin.SharedAdsenseKeys | api/admin.php:435-437 | only adsense_enabled and adsense_client_id are both on the AdSense page and in getAdsense (see also models/Settings.php:54-57) |
| Admin.PublicReadOfSavedBool | api/admin.php:87 | a boolean saved from the admin page is read by getPublic as the text 'true' or 'false', not as a boolean (see also models/Settings.php:64-74) |
| PhpStr.TrimLeft | config/jwt.php:157 | ltrim leaves the suffix after the longest run of leading trimmed characters |
| PhpStr.TrimRight | config/jwt.php:203 | rtrim leaves the prefix before the longest run of trailing trimmed characters |
| PhpStr.TrimNoop | config/jwt.php:157 | trim leaves a string unchanged exactly when it neither starts nor ends with a trimmed character |
| PhpStr.TrimEnds | config/jwt.php:157 | the result of trim neither starts nor ends with a trimmed character |
| PhpStr.TrimIdempotent | config/jwt.php:157 | trim is idempotent |
| PhpStr.Split | config/jwt.php:88 | explode gives at least one piece, and no piece holds the delimiter |
| PhpStr.JoinSplit | config/jwt.php:88 | implode(explode(s)) == s |
| PhpStr.SplitJoin | config/jwt.php:88 | explode(implode(parts)) == parts when no part holds the delimiter (see also config/jwt.php:43) |
| PhpStr.SplitAtFirst | config/jwt.php:88 | explode splits at the first delimiter, then carries on with the rest |
| PhpStr.AsciiLower | config/jwt.php:62 | strtolower lower-cases A-Z and keeps every other character, position by position |
| PhpStr.IntvalDecimalString | api/admin.php:222-228 | the decimal text of any integer is integer-numeric, and `(int)` reads it back as that integer |
| Values.Field | api/admin.php:222 | `$v[$k] ?? null` is non-null exactly when the key is set and then gives its value |
| Values.Lookup | models/Report.php:15-27 | `$data[$k] ?? null` on a map: the value when present, null otherwise |
| Values.ToPhpString | models/Settings.php:76-82 | a value has a string form exactly when it is not an array |
| Values.LooseEqualsIntCast | api/admin.php:222-228 | on integers, booleans, null and integer-numeric strings, PHP 8's loose `== 0` / `== 1` agrees with the `(int)` cast |

## Left out

- **Floating point and timestamps.** No floating point is modelled. Timestamps (`created_at`, `expires_at`, `NOW()`) are integers or opaque values supplied as parameters.
  - `(int)` of a string in exponent form, such as "1e3", is modelled as its leading digits (1); PHP reads it as a float and gives 1000.
  - `(int)` of a digit string beyond PHP_INT_MAX saturates in PHP; `PhpStr.Intval` is unbounded. Integer-width wrap-around and saturation are not modelled anywhere; for the self-match of the admin guards an out-of-range id still matches no user.
  - Loose `==` of a decimal numeric string with an integer, such as "0.0" `== 0`, is modelled as a text comparison (false); PHP compares the two as numbers (true).
- **Emitting responses.** `header`, `http_response_code`, `echo`, `exit`, CORS headers and `error_log` are not modelled. Each reply is a status and a body, and each guard returns a result.
- **Cryptography.** HMAC-SHA256, timing-safe `hash_equals`, `password_hash`/`password_verify` and `random_bytes` are uninterpreted parameters.
- **JSON.** `json_encode`/`json_decode` are parameters. A JSON object's key order is not kept by a `map`. Where the code iterates an object in order, that order is a parameter.
- **Database failures.** A failing statement or connection is only modelled where the code catches it:
  - a missing `system_settings` table;
  - a rejected comment INSERT;
  - the exception clamps in api/index.php and api/posts.php.
- **Database work beyond membership.** None of these is modelled:
  - `ORDER BY created_at` and `LIMIT`/`OFFSET` paging in the listings: the listings are modelled as the set of matching rows;
  - `LIKE` search, `JSON_TABLE` trending tags and the `COUNT` dashboards;
  - collation and case-insensitive comparison of keys.
  - Messages are the exception: they are ordered by id, which follows insertion.
- **Parts of the admin script not modelled:**
  - the dashboard;
  - the users GET listing query, though its per-row flags are modelled;
  - the posts GET/DELETE endpoints.
  - These are SQL listings and deletes with no rule beyond the admin guard.
- **Request bodies.** `Request::body()` and `Request::query()` are not modelled. Their results, the decoded body and query values, are inputs.
- **array_merge and integer-like keys.** In `array_merge`, PHP renumbers integer-like string keys. The settings pages and the settings-defaults merge are modelled on string keys only.
- **Random collisions.** In `Tokens`, one random token colliding with another stored one is not modelled: a collision would overwrite a row.
- **Other model queries.** Several queries are not modelled because they are listings whose rules are only SQL filters:
  - the `User` model's `findById`, `findByUsername`, `findByEmail`, `create`, `update`, `delete`, `search`, `getSuggested`, `getBlockedUsers`, `updatePassword`, `usernameExists`, `emailExists` and `verifyEmail`;
  - `Follow::getFollowers`/`getFollowing`;
  - `Comment::getStats`;
  - `Report::findById`, `getStats` and `getRecent`.
- Posts.NormalizeTags: given a JSON object, its values are not iterated; the result is None. `PostsApi` handles object-shaped tags through its element-order parameter instead.
- Jwt.Generate: takes one `now` for both `iat` and `exp`, while the code calls `time()` twice; the two reads can differ by a second at a boundary.
- Response.RuleBound: PCRE's `$` also matches before a final newline, so a rule such as "min:3" followed by a newline matches in PHP; the model requires the digits to end the rule.
- Posts.TagKeyOf: two long digit strings that PHP 8 compares as floats (beyond integer range) are compared exactly here.
- PostsApi.Handle: the authenticated user's id is an integer, so comparing it loosely with a string id column is not modelled.

## Findings

| source | as written | input that shows it | evidently intended | confidence | as-written member | corrected member |
|---|---|---|---|---|---|---|
| config/jwt.php:103-113 | The signature is compared after `base64_decode`, which is non-strict and ignores the unused low bits of the last character, so several signature segments decode to the same 32 bytes | an issued token whose last signature character is 'A', with that character replaced by 'C' (one bit flipped); it verifies like the original | exactly one signature segment is accepted for a given header and payload; the corrected check refuses every other segment (Jwt.CanonicalSignatureUnique) and still accepts issued tokens (Jwt.GenerateVerifiesCanonical) | not executed | Jwt.VerifyAcceptsAlteredSignature | Jwt.VerifiedCanonical |
| models/Post.php:516-519 | dashes are trimmed before the stem is cut to 50 characters, so a stem cut just after a dash keeps it, and the slug gets `--` before its suffix | a title of 49 lower-case letters, a space and one more letter | no slug contains `--` | not executed | Posts.SlugDoubleHyphenAsWritten | Posts.SlugTrimmedLastNoDoubleHyphen |
| models/User.php:177-188 | `blockUser` deletes both follow rows but leaves `following_count` and `followers_count` as they were | user 1 follows user 2, then blocks user 2: user 1 still counts one followed user but follows nobody | each counter stays equal to the follow rows it counts: Users.Blocked also lowers the two counters of each deleted row, and Users.BlockAsWrittenStale shows that the code as written keeps them right only when there was nothing to delete | not executed | Users.BlockAsWrittenBreaksCounters | Users.BlockKeepsConsistent |
| api/admin.php:236-250 | the self-protection guards compare loosely with 0 and 1, while the UPDATE writes `(int)` of the value | on one's own account, `is_admin` "" (not `== 0` in PHP 8, yet casts to 0) demotes the admin to 'user'; `is_banned` 2 (not `== 1`) bans the admin | an admin can neither demote nor ban themselves; Admin.SelfBanAsWritten shows the ban case, and Admin.UserEditRefusesMore states that the corrected guard only refuses more | not executed | Admin.SelfDemotionAsWritten | Admin.UserEdit |

