/**
 * api/index.php: the front router. The request path (what parse_url()
 * returns for PHP_URL_PATH) loses a leading "/api", then its surrounding
 * slashes, and is exploded on "/"; the first segment picks the endpoint
 * script. `date('c')` is the parameter `timestamp`. Loading a script is the
 * outcome `Load`; what the script then does is modelled per script.
 */
module Router {
  import opened Optional
  import opened Values
  import PhpStr
  import Response

  const BasePath: string := "/api"

  /** `strpos($uri, '/api') === 0`: a textual prefix test, so "/apiusers" loses it too. */
  function StripBase(uri: string): (r: string)
    ensures PhpStr.StartsWith(uri, BasePath) ==> uri == BasePath + r
    ensures !PhpStr.StartsWith(uri, BasePath) ==> r == uri
  {
    if PhpStr.StartsWith(uri, BasePath) then uri[|BasePath|..] else uri
  }

  /** explode('/', trim($uri, '/')): empty segments inside the path are kept. */
  function Segments(uri: string): (r: seq<string>)
    ensures |r| >= 1
  {
    PhpStr.Split(PhpStr.Trim(StripBase(uri), {'/'}), '/')
  }

  datatype Route = Route(resource: string, action: Option<string>, param: Option<string>)

  function At(segs: seq<string>, i: nat): (r: Option<string>)
    ensures r.Some? <==> i < |segs|
    ensures r.Some? ==> r.value == segs[i]
  {
    if i < |segs| then Some(segs[i]) else None
  }

  /** `$segments[0] ?? ''`, `$segments[1] ?? null`, `$segments[2] ?? null`. */
  function Parse(uri: string): Route
  {
    var segs := Segments(uri);
    Route(segs[0], At(segs, 1), At(segs, 2))
  }

  /** A plain segment: not empty and without a slash. */
  predicate PlainSegment(s: string)
  {
    s != [] && '/' !in s
  }

  /** The segments of `/<p0>/<p1>/...` are the parts themselves, once any "/api" prefix is gone. */
  lemma JoinedSegments(parts: seq<string>)
    requires |parts| >= 1
    requires forall i :: 0 <= i < |parts| ==> PlainSegment(parts[i])
    ensures PhpStr.Split(PhpStr.Trim("/" + PhpStr.Join(parts, '/'), {'/'}), '/') == parts
  {
    assert PlainSegment(parts[0]) && PlainSegment(parts[|parts| - 1]);
    JoinEnds(parts);
    TrimSlashes(PhpStr.Join(parts, '/'));
    PhpStr.SplitJoin(parts, '/');
  }

  /** A path written without the prefix "/api" routes by its own segments. */
  lemma SegmentsOfPath(parts: seq<string>)
    requires |parts| >= 1
    requires forall i :: 0 <= i < |parts| ==> PlainSegment(parts[i])
    requires !PhpStr.StartsWith("/" + PhpStr.Join(parts, '/'), BasePath)
    ensures Segments("/" + PhpStr.Join(parts, '/')) == parts
  {
    JoinedSegments(parts);
  }

  /** `/api/<p0>/<p1>/...` routes by the segments after the prefix. */
  lemma SegmentsOfApiPath(parts: seq<string>)
    requires |parts| >= 1
    requires forall i :: 0 <= i < |parts| ==> PlainSegment(parts[i])
    ensures Segments(BasePath + ("/" + PhpStr.Join(parts, '/'))) == parts
  {
    SegmentsAfterApi("/" + PhpStr.Join(parts, '/'));
    JoinedSegments(parts);
  }

  lemma SegmentsAfterApi(rest: string)
    ensures Segments(BasePath + rest) == PhpStr.Split(PhpStr.Trim(rest, {'/'}), '/')
  {
    StripApi(rest);
  }

  /** The prefix "/api" comes off whatever follows it. */
  lemma StripApi(rest: string)
    ensures StripBase(BasePath + rest) == rest
  {
    assert (BasePath + rest)[..|BasePath|] == BasePath;
    assert (BasePath + rest)[|BasePath|..] == rest;
  }

  /** Trimming slashes off "/" + j, where j neither starts nor ends with a slash, gives j. */
  lemma TrimSlashes(j: string)
    requires j != [] && j[0] != '/' && j[|j| - 1] != '/'
    ensures PhpStr.Trim("/" + j, {'/'}) == j
  {
    var l := PhpStr.TrimLeft("/" + j, {'/'});
    assert ("/" + j)[1..] == j;
    assert PhpStr.TrimLeft(j, {'/'}) == j by {
      PhpStr.TrimLeftNoop(j, {'/'});
    }
    assert l == j;
    PhpStr.TrimRightNoop(j, {'/'});
  }

  /** The joined parts start and end with a character of the first and the last part. */
  lemma {:induction false} JoinEnds(parts: seq<string>)
    requires |parts| >= 1
    requires forall i :: 0 <= i < |parts| ==> PlainSegment(parts[i])
    requires parts[0] != [] && parts[|parts| - 1] != []
    ensures PhpStr.Join(parts, '/') != []
    ensures PhpStr.Join(parts, '/')[0] == parts[0][0]
    ensures PhpStr.Join(parts, '/')[|PhpStr.Join(parts, '/')| - 1] == parts[|parts| - 1][|parts[|parts| - 1]| - 1]
  {
    if |parts| > 1 {
      assert PlainSegment(parts[1]);
      JoinEnds(parts[1..]);
    }
  }

  /** A path of plain segments routes to its first three segments, with or without the "/api" prefix. */
  lemma ParsePath(parts: seq<string>)
    requires |parts| >= 1
    requires forall i :: 0 <= i < |parts| ==> PlainSegment(parts[i])
    ensures Parse(BasePath + ("/" + PhpStr.Join(parts, '/'))) == Route(parts[0], At(parts, 1), At(parts, 2))
    ensures !PhpStr.StartsWith("/" + PhpStr.Join(parts, '/'), BasePath) ==>
      Parse("/" + PhpStr.Join(parts, '/')) == Route(parts[0], At(parts, 1), At(parts, 2))
  {
    SegmentsOfApiPath(parts);
    if !PhpStr.StartsWith("/" + PhpStr.Join(parts, '/'), BasePath) {
      SegmentsOfPath(parts);
    }
  }

  /** An empty path, "/api" alone, or "/api/" has the empty resource. */
  lemma EmptyPathRoutesToRoot(uri: string)
    requires uri in {"", "/", "/api", "/api/"}
    ensures Parse(uri).resource == "" && Parse(uri).action.None?
  {
    assert PhpStr.Trim("", {'/'}) == "";
    assert PhpStr.TrimLeft("/", {'/'}) == PhpStr.TrimLeft("", {'/'});
    if uri == "/api/" {
      assert StripBase(uri) == "/";
    } else if uri == "/api" {
      assert StripBase(uri) == "";
    } else if uri == "/" {
      assert StripBase(uri) == "/";
    }
  }

  // ---------------------------------------------------------------------------
  // dispatch

  datatype Endpoint = Auth | Users | Posts | Comments | Follows | Reports | Upload | Messages | Settings | Admin

  /** The scripts behind the `switch ($resource)` cases, by resource name. */
  const Scripts: map<string, Endpoint> := map[
    "auth" := Auth, "users" := Users, "posts" := Posts, "comments" := Comments,
    "follows" := Follows, "reports" := Reports, "upload" := Upload,
    "messages" := Messages, "settings" := Settings, "admin" := Admin]

  datatype Outcome = Load(endpoint: Endpoint) | Replied(reply: Response.Reply)

  /** The switch: a known resource loads its script, `health` answers at once, anything else is 404. */
  function Dispatch(resource: string, timestamp: string): (r: Outcome)
  {
    if resource in Scripts then Load(Scripts[resource])
    else if resource == "health" then
      Replied(Response.Success(Obj(map["status" := Str("ok"), "timestamp" := Str(timestamp)]), None, 200))
    else Replied(Response.Error("Endpoint bulunamad\U{131}", 404, Null))
  }

  /** Every resource has exactly one of the three outcomes, with the status the source gives it. */
  lemma DispatchCases(resource: string, timestamp: string)
    ensures Dispatch(resource, timestamp).Load? <==> resource in Scripts
    ensures Dispatch(resource, timestamp).Load? ==> Dispatch(resource, timestamp).endpoint == Scripts[resource]
    ensures resource == "health" ==>
      (Dispatch(resource, timestamp).reply.status == 200 &&
       Dispatch(resource, timestamp).reply.body["data"] == Obj(map["status" := Str("ok"), "timestamp" := Str(timestamp)]))
    ensures resource !in Scripts && resource != "health" ==>
      (Dispatch(resource, timestamp).reply.status == 404 &&
       Dispatch(resource, timestamp).reply.body["success"] == Bool(false))
  {
  }

  /** Ten distinct resources reach ten distinct scripts. */
  lemma ScriptsDistinct(a: string, b: string)
    requires a in Scripts && b in Scripts && a != b
    ensures Scripts[a] != Scripts[b]
  {
  }

  /** The router on a request path. */
  function Handle(uri: string, timestamp: string): Outcome
  {
    Dispatch(Parse(uri).resource, timestamp)
  }

  // ---------------------------------------------------------------------------
  // the exception handler, shared with api/posts.php

  /**
   * `$e->getCode()` kept when it is an int in [100, 599], 500 otherwise (a
   * PDOException's code is an SQLSTATE string).
   */
  function ExceptionStatus(code: Value): (r: int)
    ensures 100 <= r <= 599
  {
    if code.Int? && 100 <= code.i <= 599 then code.i else 500
  }

  /** The status is the code itself exactly when the code is an int in range, and 500 otherwise. */
  lemma ExceptionStatusCases(code: Value)
    ensures ExceptionStatus(code) == 500 || (code.Int? && ExceptionStatus(code) == code.i)
    ensures (code.Int? && 100 <= code.i <= 599) <==> code.Int? && ExceptionStatus(code) == code.i
    ensures !code.Int? ==> ExceptionStatus(code) == 500
  {
  }

  /** The reply to an uncaught Exception: Response::error with the message and the clamped status. */
  function ExceptionReply(message: string, code: Value): (r: Response.Reply)
    ensures 100 <= r.status <= 599
    ensures r.status == ExceptionStatus(code)
    ensures "success" in r.body && r.body["success"] == Bool(false)
    ensures "message" in r.body && r.body["message"] == Str(message)
  {
    Response.Error(message, ExceptionStatus(code), Null)
  }
}
