/**
 * api/posts.php: the posts endpoint script. It splits the request path into
 * resource, action (a slug or a reserved word), param and sub-param, checks
 * the body of a new post, normalises the tags it was sent, and runs the
 * guard-and-exit chains of GET, POST, PUT and DELETE over the posts, stars
 * and reposts tables. The authenticated user is what
 * JWT::getAuthenticatedUser() found (None when there is no valid token);
 * `mb_strtolower` is the parameter `lower`. A JSON object's elements come in
 * the order json_decode() read them, which a `map` does not keep: the
 * parameter `elements` supplies that order.
 */
module PostsApi {
  import opened Optional
  import opened Values
  import PhpStr
  import Posts
  import Response
  import Router

  // ---------------------------------------------------------------------------
  // the path

  /** array_values(array_filter($segments)): "" and "0" are dropped, the rest keep their order. */
  function DropFalsy(xs: seq<string>): (r: seq<string>)
    ensures |r| <= |xs|
    ensures forall i :: 0 <= i < |r| ==> !PhpStr.IsFalsy(r[i])
    ensures forall x :: x in r <==> x in xs && !PhpStr.IsFalsy(x)
  {
    if xs == [] then []
    else (if PhpStr.IsFalsy(xs[0]) then [] else [xs[0]]) + DropFalsy(xs[1..])
  }

  lemma {:induction false} DropFalsyNoop(xs: seq<string>)
    requires forall i :: 0 <= i < |xs| ==> !PhpStr.IsFalsy(xs[i])
    ensures DropFalsy(xs) == xs
  {
    if xs != [] {
      DropFalsyNoop(xs[1..]);
    }
  }

  /** explode('/', trim($path, '/')) without the empty entries. */
  function PathSegments(path: string): (r: seq<string>)
    ensures forall i :: 0 <= i < |r| ==> !PhpStr.IsFalsy(r[i]) && '/' !in r[i]
  {
    var pieces := PhpStr.Split(PhpStr.Trim(path, {'/'}), '/');
    var r := DropFalsy(pieces);
    assert forall i :: 0 <= i < |r| ==> r[i] in pieces;
    r
  }

  /** The prefixes skipped once: `in_array($segments[0], ['api', 'v1'])`. */
  const Prefixes: set<string> := {"api", "v1"}

  datatype Route = Route(resource: Option<string>, action: Option<string>, param: Option<string>, subParam: Option<string>)

  /** The four segments from the base index on. */
  function RouteFrom(segs: seq<string>): Route
  {
    Route(Router.At(segs, 0), Router.At(segs, 1), Router.At(segs, 2), Router.At(segs, 3))
  }

  /** `$baseIndex` and the four `$segments[$baseIndex + k] ?? null`. */
  function ParseRoute(path: string): Route
  {
    var segs := PathSegments(path);
    var base := if |segs| > 0 && segs[0] in Prefixes then 1 else 0;
    Route(Router.At(segs, base), Router.At(segs, base + 1), Router.At(segs, base + 2), Router.At(segs, base + 3))
  }

  predicate Component(o: Option<string>)
  {
    o.Some? ==> !PhpStr.IsFalsy(o.value) && '/' !in o.value
  }

  /** Every part of a route is a truthy segment, and a later part exists only when the earlier ones do. */
  lemma RouteParts(path: string)
    ensures var r := ParseRoute(path);
      && Component(r.resource) && Component(r.action) && Component(r.param) && Component(r.subParam)
      && (r.action.Some? ==> r.resource.Some?)
      && (r.param.Some? ==> r.action.Some?)
      && (r.subParam.Some? ==> r.param.Some?)
  {
  }

  /**
   * A path of truthy plain segments routes by those segments, after one
   * leading "api" or "v1" if there is one (a second prefix is the resource).
   */
  lemma {:induction false} ParsePath(parts: seq<string>)
    requires |parts| >= 1
    requires forall i :: 0 <= i < |parts| ==> Router.PlainSegment(parts[i]) && parts[i] != "0"
    ensures parts[0] in Prefixes ==> ParseRoute("/" + PhpStr.Join(parts, '/')) == RouteFrom(parts[1..])
    ensures parts[0] !in Prefixes ==> ParseRoute("/" + PhpStr.Join(parts, '/')) == RouteFrom(parts)
  {
    Router.JoinedSegments(parts);
    DropFalsyNoop(parts);
    assert PathSegments("/" + PhpStr.Join(parts, '/')) == parts;
  }

  // ---------------------------------------------------------------------------
  // the GET routes

  datatype UserList = Authored | Reposted | Starred

  datatype GetRoute =
    | Search
    | TrendingTags
    | UserPosts(username: string, list: UserList)
    | Single(slug: string, comments: bool)
    | Feed

  /** The actions that are never a slug. */
  const Reserved: set<string> := {"search", "user", "trending-tags"}

  predicate Truthy(o: Option<string>)
  {
    o.Some? && !PhpStr.IsFalsy(o.value)
  }

  /** The if-chain of the GET case, in its order. */
  function GetRouteOf(r: Route): GetRoute
  {
    if r.action == Some("search") then Search
    else if r.action == Some("trending-tags") then TrendingTags
    else if r.action == Some("user") && Truthy(r.param) then
      UserPosts(r.param.value,
        if r.subParam == Some("reposts") then Reposted
        else if r.subParam == Some("starred") then Starred
        else Authored)
    else if Truthy(r.action) && r.action.value !in Reserved then
      Single(r.action.value, r.param == Some("comments"))
    else Feed
  }

  /** A truthy action is a slug exactly when it is not reserved; `/post/user` with no name falls through to the feed. */
  lemma GetRouteSlugs(r: Route)
    ensures GetRouteOf(r).Single? <==> Truthy(r.action) && r.action.value !in Reserved
    ensures GetRouteOf(r).Single? ==>
      (GetRouteOf(r).slug == r.action.value && (GetRouteOf(r).comments <==> r.param == Some("comments")))
    ensures GetRouteOf(r).Feed? <==> !Truthy(r.action) || (r.action == Some("user") && !Truthy(r.param))
    ensures GetRouteOf(r).UserPosts? <==> r.action == Some("user") && Truthy(r.param)
  {
  }

  // ---------------------------------------------------------------------------
  // the checks on a new post

  /** count($v): arrays count their elements; anything else is a TypeError (None). */
  function Count(v: Value): (r: Option<nat>)
    ensures r.Some? <==> IsArray(v)
  {
    match v
    case List(items) => Some(|items|)
    case Obj(fields) => Some(|fields|)
    case _ => None
  }

  const MaxImages: nat := 3
  const MaxTags: nat := 5

  datatype Verdict = Reject(status: int, message: string) | Proceed | Fatal

  /** The three guards before a post is created, in order; `count()` on a scalar is a fatal TypeError. */
  function CreateVerdict(body: map<string, Value>): Verdict
  {
    if !Values.Truthy(Lookup(body, "content")) then Reject(422, "\U{130}\U{E7}erik gerekli")
    else if IsSet(Obj(body), "images") && Count(body["images"]).None? then Fatal
    else if IsSet(Obj(body), "images") && Count(body["images"]).value > MaxImages then
      Reject(422, "En fazla 3 resim ekleyebilirsiniz")
    else if IsSet(Obj(body), "tags") && Count(body["tags"]).None? then Fatal
    else if IsSet(Obj(body), "tags") && Count(body["tags"]).value > MaxTags then
      Reject(422, "En fazla 5 etiket ekleyebilirsiniz")
    else Proceed
  }

  /** At most three images, at most five tags, and content: a body passes exactly when it meets all three. */
  lemma CreateLimits(body: map<string, Value>)
    ensures CreateVerdict(body).Proceed? <==>
      && Values.Truthy(Lookup(body, "content"))
      && (IsSet(Obj(body), "images") ==> IsArray(body["images"]) && Count(body["images"]).value <= 3)
      && (IsSet(Obj(body), "tags") ==> IsArray(body["tags"]) && Count(body["tags"]).value <= 5)
    ensures CreateVerdict(body).Reject? ==> CreateVerdict(body).status == 422
    ensures !Values.Truthy(Lookup(body, "content")) ==> CreateVerdict(body) == Reject(422, "\U{130}\U{E7}erik gerekli")
  {
  }

  // ---------------------------------------------------------------------------
  // the inline tag normalisation of create and update

  /** The characters `[a-z0-9\-_]` kept by the inline normalisation. */
  predicate IsInlineTagChar(c: char)
  {
    PhpStr.IsAsciiLower(c) || PhpStr.IsDigit(c) || c == '-' || c == '_'
  }

  predicate AllInlineTagChars(s: string)
  {
    forall i :: 0 <= i < |s| ==> IsInlineTagChar(s[i])
  }

  /** preg_replace('/[^a-z0-9\-_]/', '', $s) */
  function StripInline(s: string): (r: string)
    ensures AllInlineTagChars(r)
    ensures |r| <= |s|
  {
    if s == [] then [] else (if IsInlineTagChar(s[0]) then [s[0]] else []) + StripInline(s[1..])
  }

  /**
   * One element of the loop: trim (a TypeError for an array), mb_strtolower,
   * strtr with the Turkish map, strip, and keep it only when not empty.
   */
  function InlineTag(v: Value, lower: string -> string): (r: Posts.TagStep)
    ensures r.TagCrash? <==> IsArray(v)
    ensures r.TagOf? ==> AllInlineTagChars(r.tag) && !PhpStr.IsFalsy(r.tag)
  {
    match ToPhpString(v)
    case None => Posts.TagCrash
    case Some(s) =>
      var n := StripInline(Posts.Transliterate(lower(PhpStr.Trim(s, PhpStr.DefaultTrimChars))));
      if PhpStr.IsFalsy(n) then Posts.TagSkip else Posts.TagOf(n)
  }

  function InlineSteps(items: seq<Value>, lower: string -> string): (r: seq<Posts.TagStep>)
    ensures |r| == |items|
    ensures forall i :: 0 <= i < |items| ==> r[i] == InlineTag(items[i], lower)
  {
    seq(|items|, i requires 0 <= i < |items| => InlineTag(items[i], lower))
  }

  /** The loop over the steps: every tag is appended, with no membership test. */
  function InlineCollect(steps: seq<Posts.TagStep>): Option<seq<string>>
    decreases |steps|
  {
    if steps == [] then Some([])
    else
      match InlineCollect(steps[..|steps| - 1])
      case None => None
      case Some(acc) =>
        match steps[|steps| - 1]
        case TagCrash => None
        case TagSkip => Some(acc)
        case TagOf(t) => Some(acc + [t])
  }

  /** `$normalizedTags` after the loop: `[]` unless the tags are an array; None for a TypeError. */
  function InlineTags(tags: Value, elements: map<string, Value> -> seq<Value>, lower: string -> string): Option<seq<string>>
  {
    if IsArray(tags) then InlineCollect(InlineSteps(Posts.Elements(tags, elements), lower)) else Some([])
  }

  /** The tags of the steps that produce one, in their order. */
  function TagsOf(steps: seq<Posts.TagStep>): (r: seq<string>)
  {
    if steps == [] then []
    else (if steps[0].TagOf? then [steps[0].tag] else []) + TagsOf(steps[1..])
  }

  lemma {:induction false} TagsOfAppend(a: seq<Posts.TagStep>, b: seq<Posts.TagStep>)
    ensures TagsOf(a + b) == TagsOf(a) + TagsOf(b)
  {
    if a == [] {
      assert a + b == b;
    } else {
      assert (a + b)[1..] == a[1..] + b;
      TagsOfAppend(a[1..], b);
    }
  }

  /**
   * Without a TypeError the loop keeps every produced tag, repeats included,
   * in order; with one it fails.
   */
  lemma {:induction false} InlineCollectAll(steps: seq<Posts.TagStep>)
    ensures InlineCollect(steps).None? <==> exists i :: 0 <= i < |steps| && steps[i].TagCrash?
    ensures InlineCollect(steps).Some? ==> InlineCollect(steps).value == TagsOf(steps)
  {
    if steps != [] {
      var init := steps[..|steps| - 1];
      var last := steps[|steps| - 1];
      InlineCollectAll(init);
      assert steps == init + [last];
      TagsOfAppend(init, [last]);
      assert TagsOf([last]) == if last.TagOf? then [last.tag] else [];
      if InlineCollect(init).None? {
        var i :| 0 <= i < |init| && init[i].TagCrash?;
        assert steps[i].TagCrash?;
      } else if !last.TagCrash? {
        forall i | 0 <= i < |steps|
          ensures !steps[i].TagCrash?
        {
          if i < |init| {
            assert steps[i] == init[i];
          }
        }
      }
    }
  }

  /** Each kept tag is non-empty and made of `[a-z0-9\-_]`. */
  lemma {:induction false} TagsOfShape(items: seq<Value>, lower: string -> string)
    ensures forall t :: t in TagsOf(InlineSteps(items, lower)) ==> AllInlineTagChars(t) && !PhpStr.IsFalsy(t)
    decreases |items|
  {
    if items != [] {
      var steps := InlineSteps(items, lower);
      assert steps[1..] == InlineSteps(items[1..], lower);
      TagsOfShape(items[1..], lower);
    }
  }

  /** The inline tags: non-empty, over `[a-z0-9\-_]`, one per producing element, duplicates kept. */
  lemma InlineTagsShape(tags: Value, elements: map<string, Value> -> seq<Value>, lower: string -> string)
    requires InlineTags(tags, elements, lower).Some?
    ensures forall t :: t in InlineTags(tags, elements, lower).value ==> AllInlineTagChars(t) && !PhpStr.IsFalsy(t)
    ensures IsArray(tags) ==> InlineTags(tags, elements, lower).value == TagsOf(InlineSteps(Posts.Elements(tags, elements), lower))
  {
    if IsArray(tags) {
      InlineCollectAll(InlineSteps(Posts.Elements(tags, elements), lower));
      TagsOfShape(Posts.Elements(tags, elements), lower);
    }
  }

  /**
   * The inline loop keeps a repeated tag twice; Post::create and update
   * normalise the tags once more, and that pass drops the repeat.
   */
  lemma InlineKeepsRepeats(v: Value, elements: map<string, Value> -> seq<Value>, lower: string -> string)
    requires InlineTag(v, lower).TagOf?
    ensures InlineTags(List([v, v]), elements, lower) == Some([InlineTag(v, lower).tag, InlineTag(v, lower).tag])
  {
    var a := InlineTag(v, lower);
    assert InlineSteps([v, v], lower) == [a, a];
    CollectTwice(a);
  }

  lemma CollectTwice(a: Posts.TagStep)
    requires a.TagOf?
    ensures InlineCollect([a, a]) == Some([a.tag, a.tag])
  {
    var one := [a];
    var two := [a, a];
    assert one[..|one| - 1] == [] && one[|one| - 1] == a;
    assert InlineCollect(one[..|one| - 1]) == Some([]);
    assert [] + [a.tag] == [a.tag];
    assert InlineCollect(one) == Some([a.tag]);
    assert two[..|two| - 1] == one && two[|two| - 1] == a;
    assert InlineCollect(two) == Some([a.tag] + [a.tag]);
    assert [a.tag] + [a.tag] == [a.tag, a.tag];
  }

  /** An element that is an array makes the whole loop fail. */
  lemma InlineCrash(tags: Value, elements: map<string, Value> -> seq<Value>, lower: string -> string)
    ensures InlineTags(tags, elements, lower).None? <==>
      IsArray(tags) && exists i :: 0 <= i < |Posts.Elements(tags, elements)| && IsArray(Posts.Elements(tags, elements)[i])
  {
    if IsArray(tags) {
      var items := Posts.Elements(tags, elements);
      var steps := InlineSteps(items, lower);
      InlineCollectAll(steps);
      if InlineCollect(steps).None? {
        var i :| 0 <= i < |steps| && steps[i].TagCrash?;
        assert IsArray(items[i]);
      } else {
        forall i | 0 <= i < |items|
          ensures !IsArray(items[i])
        {
          assert !steps[i].TagCrash?;
        }
      }
    }
  }

  /** One more step of the loop, on a prefix of the steps that did not fail. */
  lemma CollectPrefixStep(steps: seq<Posts.TagStep>, i: int, acc: seq<string>)
    requires 0 <= i < |steps| && InlineCollect(steps[..i]) == Some(acc) && !steps[i].TagCrash?
    ensures InlineCollect(steps[..i + 1]) == Some(if steps[i].TagOf? then acc + [steps[i].tag] else acc)
  {
    assert steps[..i + 1][..i] == steps[..i];
  }

  /** The foreach of api/posts.php:259-266 (and 313-320), step by step. */
  method NormalizeInlineTags(tags: Value, elements: map<string, Value> -> seq<Value>, lower: string -> string)
    returns (r: Option<seq<string>>)
    ensures r == InlineTags(tags, elements, lower)
  {
    var normalizedTags: seq<string> := [];
    if !IsArray(tags) {
      return Some(normalizedTags);
    }
    var items := Posts.Elements(tags, elements);
    ghost var steps := InlineSteps(items, lower);
    var i := 0;
    while i < |items|
      invariant 0 <= i <= |items|
      invariant InlineCollect(steps[..i]) == Some(normalizedTags)
    {
      var text := ToPhpString(items[i]);
      if text.None? {
        assert steps[i].TagCrash?;
        InlineCollectAll(steps);
        return None;
      }
      var normalized := lower(PhpStr.Trim(text.value, PhpStr.DefaultTrimChars));
      normalized := Posts.Transliterate(normalized);
      normalized := StripInline(normalized);
      assert steps[i] == if PhpStr.IsFalsy(normalized) then Posts.TagSkip else Posts.TagOf(normalized);
      CollectPrefixStep(steps, i, normalizedTags);
      if !PhpStr.IsFalsy(normalized) {
        normalizedTags := normalizedTags + [normalized];
      }
      i := i + 1;
    }
    assert steps[..i] == steps;
    r := Some(normalizedTags);
  }

  // ---------------------------------------------------------------------------
  // the request handlers

  /** The fields of the token payload the script reads: `$authUser['id']` and `$authUser['role'] ?? ''`. */
  datatype AuthUser = AuthUser(id: int, role: Value)

  /** `($authUser['role'] ?? '') === 'admin'`. */
  predicate IsAdminRole(u: AuthUser)
  {
    u.role == Str("admin")
  }

  /** The own-repost guard: `$postData['user_id'] == $authUser['id']` rejects. */
  predicate MayRepost(post: Posts.PostRecord, u: AuthUser)
  {
    post.userId != u.id
  }

  /** The PUT guard: only the author edits. */
  predicate MayEdit(post: Posts.PostRecord, u: AuthUser)
  {
    post.userId == u.id
  }

  /** The DELETE guard: the author, or a user whose role is admin. */
  predicate MayDelete(post: Posts.PostRecord, u: AuthUser)
  {
    post.userId == u.id || IsAdminRole(u)
  }

  /**
   * The guard agrees with the WHERE clause of Post::delete: on a live post,
   * the call the script makes soft-deletes it exactly when the guard lets
   * the user through, so a 403 never hides a deletion the model would do.
   */
  lemma DeleteGuardMatchesModel(posts: map<int, Posts.PostRecord>, id: int, u: AuthUser)
    requires id in posts && !posts[id].isDeleted
    ensures MayDelete(posts[id], u) <==> Posts.SoftDeleted(posts, id, Some(u.id), IsAdminRole(u))[id].isDeleted
  {
  }

  /** What the script ends in: a reply, or the model call whose result it sends back, or an uncaught TypeError. */
  datatype Outcome =
    | Replied(reply: Response.Reply)
    | Listing(route: GetRoute)
    | ShowPost(postId: int)
    | ListComments(postId: int)
    | NewPost(userId: int, title: Value, content: Value, images: Value, tags: seq<string>)
    | EditPost(postId: int, userId: int, title: Value, content: Value, images: Value, tags: seq<string>)
    | NewComment(postId: int, userId: int, parentId: Value, content: Value)
    | Crashed

  function Fail(message: string, status: int): Outcome
  {
    Replied(Response.Error(message, status, Null))
  }

  const NotFound: string := "Post bulunamad\U{131}"
  const Forbidden: string := "Bu i\U{15F}lem i\U{E7}in yetkiniz yok"

  /** `$post->findBySlug($action)` finds the live post id when there is one (a null slug matches nothing). */
  predicate Found(posts: map<int, Posts.PostRecord>, slug: Option<string>, id: int)
  {
    slug.Some? && Posts.LivePostWithSlug(posts, id, slug.value)
  }

  predicate NoneFound(posts: map<int, Posts.PostRecord>, slug: Option<string>)
  {
    forall id :: id in posts ==> !Found(posts, slug, id)
  }

  /** findBySlug on an optional slug. */
  method Find(store: Posts.PostStore, slug: Option<string>) returns (found: Option<(int, Posts.PostRecord)>)
    modifies store
    ensures found.None? <==> NoneFound(old(store.posts), slug)
    ensures found.None? ==> store.posts == old(store.posts)
    ensures found.Some? ==> (Found(old(store.posts), slug, found.value.0)
      && found.value.1 == old(store.posts)[found.value.0]
      && store.posts == Posts.Viewed(old(store.posts), found.value.0))
    ensures store.stars == old(store.stars) && store.reposts == old(store.reposts)
  {
    if slug.None? {
      return None;
    }
    found := store.FindBySlug(slug.value);
  }

  /** The counter reply of star and unstar: `stars_count` is COUNT(*) over the stars of the post. */
  function StarReply(stars: set<(int, int)>, postId: int, starred: bool, message: string): Outcome
  {
    Replied(Response.Success(Obj(map["stars_count" := Int(Posts.PairCount(stars, postId)), "is_starred" := Bool(starred)]), Some(message), 200))
  }

  function RepostReply(reposts: set<(int, int)>, postId: int, reposted: bool, message: string): Outcome
  {
    Replied(Response.Success(Obj(map["reposts_count" := Int(Posts.PairCount(reposts, postId)), "is_reposted" := Bool(reposted)]), Some(message), 200))
  }

  /** The store and reply after POST /post/{slug}/star: 404 for no live post, else a view, the star pair and the count. */
  twostate predicate StarDone(store: Posts.PostStore, slug: Option<string>, u: AuthUser, out: Outcome)
    reads store
  {
    && (NoneFound(old(store.posts), slug) ==> (out == Fail(NotFound, 404)
        && store.posts == old(store.posts) && store.stars == old(store.stars)))
    && (!NoneFound(old(store.posts), slug) ==> exists id :: (Found(old(store.posts), slug, id)
        && store.posts == Posts.Viewed(old(store.posts), id)
        && store.stars == old(store.stars) + {(id, u.id)}
        && Posts.PairCount(store.stars, id) == Posts.PairCount(old(store.stars), id) + (if (id, u.id) in old(store.stars) then 0 else 1)
        && out == StarReply(store.stars, id, true,
             if (id, u.id) in old(store.stars) then "Zaten y\U{131}ld\U{131}zlanm\U{131}\U{15F}" else "Y\U{131}ld\U{131}zland\U{131}")))
    && (store.reposts == old(store.reposts))
  }

  /** POST /post/{slug}/star. */
  method StarBySlug(store: Posts.PostStore, slug: Option<string>, u: AuthUser) returns (out: Outcome)
    modifies store
    ensures StarDone(store, slug, u, out)
  {
    var found := Find(store, slug);
    if found.None? {
      return Fail(NotFound, 404);
    }
    var id := found.value.0;
    var result := store.Star(id, u.id);
    out := StarReply(store.stars, id, true, if result then "Y\U{131}ld\U{131}zland\U{131}" else "Zaten y\U{131}ld\U{131}zlanm\U{131}\U{15F}");
  }

  /** The store and reply after POST /post/{slug}/repost: 404, then 400 for one's own post, then the insert. */
  twostate predicate RepostDone(store: Posts.PostStore, slug: Option<string>, u: AuthUser, out: Outcome)
    reads store
  {
    && (NoneFound(old(store.posts), slug) ==> (out == Fail(NotFound, 404)
        && store.posts == old(store.posts) && store.reposts == old(store.reposts)))
    && (!NoneFound(old(store.posts), slug) ==> exists id :: (Found(old(store.posts), slug, id)
        && store.posts == Posts.Viewed(old(store.posts), id)
        && (!MayRepost(old(store.posts)[id], u) ==>
              out == Fail("Kendi postunuzu payla\U{15F}amazs\U{131}n\U{131}z", 400) && store.reposts == old(store.reposts))
        && (MayRepost(old(store.posts)[id], u) ==>
              store.reposts == old(store.reposts) + {(id, u.id)}
              && out == RepostReply(store.reposts, id, true,
                   if (id, u.id) in old(store.reposts) then "Zaten payla\U{15F}\U{131}lm\U{131}\U{15F}" else "Payla\U{15F}\U{131}ld\U{131}"))))
    && (store.stars == old(store.stars))
  }

  /** POST /post/{slug}/repost: 404, then 400 for one's own post, then the insert. */
  method RepostBySlug(store: Posts.PostStore, slug: Option<string>, u: AuthUser) returns (out: Outcome)
    modifies store
    ensures RepostDone(store, slug, u, out)
  {
    var found := Find(store, slug);
    if found.None? {
      return Fail(NotFound, 404);
    }
    var id := found.value.0;
    if found.value.1.userId == u.id {
      return Fail("Kendi postunuzu payla\U{15F}amazs\U{131}n\U{131}z", 400);
    }
    var result := store.Repost(id, u.id);
    out := RepostReply(store.reposts, id, true, if result then "Payla\U{15F}\U{131}ld\U{131}" else "Zaten payla\U{15F}\U{131}lm\U{131}\U{15F}");
  }

  /** The store and reply after POST /post/{slug}/comments: the comment goes to Comment::create once the post exists and content is given. */
  twostate predicate CommentDone(store: Posts.PostStore, slug: Option<string>, u: AuthUser, body: map<string, Value>, out: Outcome)
    reads store
  {
    && (NoneFound(old(store.posts), slug) ==> out == Fail(NotFound, 404) && store.posts == old(store.posts))
    && (!NoneFound(old(store.posts), slug) ==> exists id :: (Found(old(store.posts), slug, id)
        && store.posts == Posts.Viewed(old(store.posts), id)
        && out == if Values.Truthy(Lookup(body, "content")) then NewComment(id, u.id, Lookup(body, "parent_id"), body["content"])
                  else Fail("Yorum i\U{E7}eri\U{11F}i gerekli", 422)))
    && (store.stars == old(store.stars) && store.reposts == old(store.reposts))
  }

  /** POST /post/{slug}/comments: the comment goes to Comment::create once the post exists and content is given. */
  method CommentBySlug(store: Posts.PostStore, slug: Option<string>, u: AuthUser, body: map<string, Value>) returns (out: Outcome)
    modifies store
    ensures CommentDone(store, slug, u, body, out)
  {
    var found := Find(store, slug);
    if found.None? {
      return Fail(NotFound, 404);
    }
    if !Values.Truthy(Lookup(body, "content")) {
      return Fail("Yorum i\U{E7}eri\U{11F}i gerekli", 422);
    }
    out := NewComment(found.value.0, u.id, Lookup(body, "parent_id"), body["content"]);
  }

  /** The reply of POST /post: the three limits, then the inline tags, then Post::create. */
  predicate CreateDone(u: AuthUser, body: map<string, Value>, elements: map<string, Value> -> seq<Value>, lower: string -> string,
                    out: Outcome)
  {
    && (CreateVerdict(body).Reject? ==> out == Fail(CreateVerdict(body).message, CreateVerdict(body).status))
    && (CreateVerdict(body).Fatal? ==> out == Crashed)
    && (CreateVerdict(body).Proceed? ==>
      var tags := InlineTags(if IsSet(Obj(body), "tags") then body["tags"] else Null, elements, lower);
      out == if tags.None? then Crashed
             else NewPost(u.id, Lookup(body, "title"), body["content"],
                          if IsSet(Obj(body), "images") then body["images"] else List([]), tags.value))
  }

  /** POST /post: the three limits, then the inline tags, then Post::create. */
  method CreatePost(u: AuthUser, body: map<string, Value>, elements: map<string, Value> -> seq<Value>, lower: string -> string)
    returns (out: Outcome)
    ensures CreateDone(u, body, elements, lower, out)
  {
    var verdict := CreateVerdict(body);
    if verdict.Reject? {
      return Fail(verdict.message, verdict.status);
    }
    if verdict.Fatal? {
      return Crashed;
    }
    var tags := NormalizeInlineTags(if IsSet(Obj(body), "tags") then body["tags"] else Null, elements, lower);
    if tags.None? {
      return Crashed;
    }
    out := NewPost(u.id, Lookup(body, "title"), body["content"],
                   if IsSet(Obj(body), "images") then body["images"] else List([]), tags.value);
  }

  /** The store and reply after PUT /post/{slug}: 400 without a slug, 404, 403 for anyone but the author, 422 without content. */
  twostate predicate EditDone(store: Posts.PostStore, slug: Option<string>, u: AuthUser, body: map<string, Value>,
                              elements: map<string, Value> -> seq<Value>, lower: string -> string, out: Outcome)
    reads store
  {
    && (!Truthy(slug) ==> out == Fail("Post slug gerekli", 400) && store.posts == old(store.posts))
    && (Truthy(slug) && NoneFound(old(store.posts), slug) ==> out == Fail(NotFound, 404) && store.posts == old(store.posts))
    && (Truthy(slug) && !NoneFound(old(store.posts), slug) ==> exists id :: (Found(old(store.posts), slug, id)
        && store.posts == Posts.Viewed(old(store.posts), id)
        && (!MayEdit(old(store.posts)[id], u) ==> out == Fail(Forbidden, 403))
        && (MayEdit(old(store.posts)[id], u) && !Values.Truthy(Lookup(body, "content")) ==>
              out == Fail("\U{130}\U{E7}erik gerekli", 422))
        && (MayEdit(old(store.posts)[id], u) && Values.Truthy(Lookup(body, "content")) ==>
              var tags := InlineTags(if IsSet(Obj(body), "tags") then body["tags"] else Null, elements, lower);
              out == if tags.None? then Crashed
                     else EditPost(id, u.id, Lookup(body, "title"), body["content"],
                                   if IsSet(Obj(body), "images") then body["images"] else List([]), tags.value))))
    && (store.stars == old(store.stars) && store.reposts == old(store.reposts))
  }

  /** PUT /post/{slug}: 400 without a slug, 404, 403 for anyone but the author, 422 without content. */
  method EditBySlug(store: Posts.PostStore, slug: Option<string>, u: AuthUser, body: map<string, Value>,
                    elements: map<string, Value> -> seq<Value>, lower: string -> string)
    returns (out: Outcome)
    modifies store
    ensures EditDone(store, slug, u, body, elements, lower, out)
  {
    if !Truthy(slug) {
      return Fail("Post slug gerekli", 400);
    }
    var found := Find(store, slug);
    if found.None? {
      return Fail(NotFound, 404);
    }
    var id := found.value.0;
    if found.value.1.userId != u.id {
      return Fail(Forbidden, 403);
    }
    if !Values.Truthy(Lookup(body, "content")) {
      return Fail("\U{130}\U{E7}erik gerekli", 422);
    }
    var tags := NormalizeInlineTags(if IsSet(Obj(body), "tags") then body["tags"] else Null, elements, lower);
    if tags.None? {
      return Crashed;
    }
    out := EditPost(id, u.id, Lookup(body, "title"), body["content"],
                    if IsSet(Obj(body), "images") then body["images"] else List([]), tags.value);
  }

  /** The store and reply after DELETE /post/{slug}[/star|/repost]: unstar, undo a repost, or soft-delete behind the owner-or-admin guard. */
  twostate predicate DeleteDone(store: Posts.PostStore, slug: Option<string>, param: Option<string>, u: AuthUser, out: Outcome)
    reads store
  {
    && (!Truthy(slug) ==> (out == Fail("Post slug gerekli", 400)
        && store.posts == old(store.posts) && store.stars == old(store.stars) && store.reposts == old(store.reposts)))
    && (Truthy(slug) && NoneFound(old(store.posts), slug) ==> (out == Fail(NotFound, 404)
        && store.posts == old(store.posts) && store.stars == old(store.stars) && store.reposts == old(store.reposts)))
    && (Truthy(slug) && !NoneFound(old(store.posts), slug) ==> exists id :: (Found(old(store.posts), slug, id)
        && (param == Some("star") ==>
              store.posts == Posts.Viewed(old(store.posts), id)
              && store.stars == old(store.stars) - {(id, u.id)} && store.reposts == old(store.reposts)
              && out == StarReply(store.stars, id, false, "Y\U{131}ld\U{131}z kald\U{131}r\U{131}ld\U{131}"))
        && (param == Some("repost") ==>
              store.posts == Posts.Viewed(old(store.posts), id)
              && store.reposts == old(store.reposts) - {(id, u.id)} && store.stars == old(store.stars)
              && out == RepostReply(store.reposts, id, false, "Payla\U{15F}\U{131}m kald\U{131}r\U{131}ld\U{131}"))
        && (param != Some("star") && param != Some("repost") ==>
              store.stars == old(store.stars) && store.reposts == old(store.reposts)
              && (!MayDelete(old(store.posts)[id], u) ==>
                    out == Fail(Forbidden, 403) && store.posts == Posts.Viewed(old(store.posts), id))
              && (MayDelete(old(store.posts)[id], u) ==>
                    out == Replied(Response.Success(Null, Some("Post silindi"), 200))
                    && store.posts == Posts.Viewed(old(store.posts), id)[id := old(store.posts)[id].(viewsCount := old(store.posts)[id].viewsCount + 1, isDeleted := true)]))))
  }

  /** DELETE /post/{slug}[/star|/repost]: unstar, undo a repost, or soft-delete behind the owner-or-admin guard. */
  method DeleteBySlug(store: Posts.PostStore, slug: Option<string>, param: Option<string>, u: AuthUser) returns (out: Outcome)
    modifies store
    ensures DeleteDone(store, slug, param, u, out)
  {
    if !Truthy(slug) {
      return Fail("Post slug gerekli", 400);
    }
    var found := Find(store, slug);
    if found.None? {
      return Fail(NotFound, 404);
    }
    var id := found.value.0;
    if param == Some("star") {
      var _ := store.Unstar(id, u.id);
      return StarReply(store.stars, id, false, "Y\U{131}ld\U{131}z kald\U{131}r\U{131}ld\U{131}");
    }
    if param == Some("repost") {
      var _ := store.UndoRepost(id, u.id);
      return RepostReply(store.reposts, id, false, "Payla\U{15F}\U{131}m kald\U{131}r\U{131}ld\U{131}");
    }
    if found.value.1.userId != u.id && !IsAdminRole(u) {
      return Fail(Forbidden, 403);
    }
    var _ := store.Delete(id, Some(u.id), IsAdminRole(u));
    out := Replied(Response.Success(Null, Some("Post silindi"), 200));
  }

  /** The store and reply after a GET: listings are answered by their queries; a slug is looked up (counting a view) or is 404. */
  twostate predicate GetDone(store: Posts.PostStore, route: Route, out: Outcome)
    reads store
  {
    && (!GetRouteOf(route).Single? ==> out == Listing(GetRouteOf(route)) && store.posts == old(store.posts))
    && (GetRouteOf(route).Single? && NoneFound(old(store.posts), route.action) ==>
        out == Fail(NotFound + ": " + route.action.value, 404) && store.posts == old(store.posts))
    && (GetRouteOf(route).Single? && !NoneFound(old(store.posts), route.action) ==>
        exists id :: (Found(old(store.posts), route.action, id)
        && store.posts == Posts.Viewed(old(store.posts), id)
        && out == if GetRouteOf(route).comments then ListComments(id) else ShowPost(id)))
    && (store.stars == old(store.stars) && store.reposts == old(store.reposts))
  }

  /** GET: listings are answered by their queries; a slug is looked up (counting a view) or is 404. */
  method Get(store: Posts.PostStore, route: Route) returns (out: Outcome)
    modifies store
    ensures GetDone(store, route, out)
  {
    var g := GetRouteOf(route);
    if !g.Single? {
      return Listing(g);
    }
    var found := Find(store, route.action);
    if found.None? {
      return Fail(NotFound + ": " + g.slug, 404);
    }
    if g.comments {
      return ListComments(found.value.0);
    }
    out := ShowPost(found.value.0);
  }

  /**
   * The script: OPTIONS is answered with a bare 200; every write needs a
   * user (401); an unknown method is 405. Each method and route ends in
   * the outcome of its handler; a POST to a slug with no known action is 404.
   */
  method Handle(store: Posts.PostStore, requestMethod: string, route: Route, auth: Option<AuthUser>,
                body: map<string, Value>, elements: map<string, Value> -> seq<Value>, lower: string -> string)
    returns (out: Outcome)
    modifies store
    ensures requestMethod == "OPTIONS" ==>
      out == Replied(Response.Reply(200, map[])) && store.posts == old(store.posts)
        && store.stars == old(store.stars) && store.reposts == old(store.reposts)
    ensures requestMethod !in {"OPTIONS", "GET", "POST", "PUT", "DELETE"} ==>
      out == Fail("Method not allowed", 405) && store.posts == old(store.posts)
        && store.stars == old(store.stars) && store.reposts == old(store.reposts)
    ensures requestMethod in {"POST", "PUT", "DELETE"} && auth.None? ==>
      out == Fail("Oturum gerekli", 401) && store.posts == old(store.posts)
        && store.stars == old(store.stars) && store.reposts == old(store.reposts)
    ensures requestMethod in {"GET", "PUT"} ==> store.stars == old(store.stars) && store.reposts == old(store.reposts)
    ensures requestMethod == "POST" && route.param != Some("star") ==> store.stars == old(store.stars)
    ensures requestMethod == "POST" && route.param != Some("repost") ==> store.reposts == old(store.reposts)
    ensures requestMethod == "DELETE" && route.param != Some("star") ==> store.stars == old(store.stars)
    ensures requestMethod == "DELETE" && route.param != Some("repost") ==> store.reposts == old(store.reposts)
    ensures requestMethod == "GET" ==> GetDone(store, route, out)
    ensures requestMethod == "POST" && auth.Some? && route.param == Some("star") ==>
      StarDone(store, route.action, auth.value, out)
    ensures requestMethod == "POST" && auth.Some? && route.param == Some("repost") ==>
      RepostDone(store, route.action, auth.value, out)
    ensures requestMethod == "POST" && auth.Some? && route.param == Some("comments") ==>
      CommentDone(store, route.action, auth.value, body, out)
    ensures requestMethod == "POST" && auth.Some? && route.param !in {Some("star"), Some("repost"), Some("comments")} ==>
      store.posts == old(store.posts)
        && (!Truthy(route.action) ==> CreateDone(auth.value, body, elements, lower, out))
        && (Truthy(route.action) ==> out == Fail("Endpoint bulunamad\U{131}", 404))
    ensures requestMethod == "PUT" && auth.Some? ==> EditDone(store, route.action, auth.value, body, elements, lower, out)
    ensures requestMethod == "DELETE" && auth.Some? ==> DeleteDone(store, route.action, route.param, auth.value, out)
  {
    if requestMethod == "OPTIONS" {
      return Replied(Response.Reply(200, map[]));
    }
    if requestMethod == "GET" {
      out := Get(store, route);
    } else if requestMethod == "POST" {
      if auth.None? {
        return Fail("Oturum gerekli", 401);
      }
      if route.param == Some("star") {
        out := StarBySlug(store, route.action, auth.value);
      } else if route.param == Some("repost") {
        out := RepostBySlug(store, route.action, auth.value);
      } else if route.param == Some("comments") {
        out := CommentBySlug(store, route.action, auth.value, body);
      } else if !Truthy(route.action) {
        out := CreatePost(auth.value, body, elements, lower);
      } else {
        out := Fail("Endpoint bulunamad\U{131}", 404);
      }
    } else if requestMethod == "PUT" {
      if auth.None? {
        return Fail("Oturum gerekli", 401);
      }
      out := EditBySlug(store, route.action, auth.value, body, elements, lower);
    } else if requestMethod == "DELETE" {
      if auth.None? {
        return Fail("Oturum gerekli", 401);
      }
      out := DeleteBySlug(store, route.action, route.param, auth.value);
    } else {
      out := Fail("Method not allowed", 405);
    }
  }
}
